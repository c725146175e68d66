/** The types a tool argument may have under a JSON Schema with references and unions, narrowed by
    the arguments already known. */
module ArgumentTypes {
  import opened Strings
  import opened JsonValues

  /** The schema document, and Python's `int` on a list index in a pointer. */
  datatype Env = Env(root: Json, intOf: string -> Option<int>)

  function ReplaceAll(s: string, from: string, to: string): string
    requires from != ""
  {
    if s == "" then "" else if from <= s then to + ReplaceAll(s[|from|..], from, to)
    else [s[0]] + ReplaceAll(s[1..], from, to)
  }

  function Split(s: string, c: char): seq<string> {
    if s == "" then [""]
    else
      var rest := Split(s[1..], c);
      if s[0] == c then [""] + rest else [[s[0]] + rest[0]] + rest[1..]
  }

  /** One reference token of a JSON pointer: `~1` and `~0` decoded, in this order. */
  function Decode(token: string): string {
    ReplaceAll(ReplaceAll(token, "~1", "/"), "~0", "~")
  }

  /** Walk the tokens from a place; a step into what is no container, or past its end, finds nothing. */
  function Walk(env: Env, at: Path, tokens: seq<string>): Option<Path>
    decreases |tokens|
  {
    if tokens == [] then Some(at)
    else
      var token := Decode(tokens[0]);
      match At(env.root, at)
      case Some(Arr(items)) =>
        (match env.intOf(token)
         case Some(i) =>
           if 0 <= i < |items| then Walk(env, at + [Element(i)], tokens[1..])
           else if -|items| <= i < 0 then Walk(env, at + [Element(|items| + i)], tokens[1..])
           else None
         case None => None)
      case Some(Obj(fields)) => if token in fields then Walk(env, at + [Field(token)], tokens[1..]) else None
      case _ => None
  }

  /** The place a local reference points at. */
  function Resolve(env: Env, ref: Json): Option<Path> {
    match ref
    case Str(s) =>
      if s == "#" then Some([])
      else if "#/" <= s then Walk(env, [], Split(s[2..], '/'))
      else None
    case _ => None
  }

  /** What the `type` keyword allows. */
  function TypeConstraint(t: Json): seq<set<string>> {
    match t
    case Str(s) => [if s == "number" then {s, "integer"} else {s}]
    case Arr(items) =>
      var names := set i | 0 <= i < |items| && items[i].Str? :: items[i].s;
      [names + if "number" in names then {"integer"} else {}]
    case _ => []
  }

  /** The values `const` or else `enum` lists. */
  function Listed(d: map<string, Json>): Option<seq<Json>> {
    if "const" in d then Some([d["const"]])
    else if "enum" in d && d["enum"].Arr? then Some(d["enum"].items)
    else None
  }

  /** The types of the listed values, of those equal to the value where it is known. */
  function ListedConstraint(d: map<string, Json>, value: Option<Json>): seq<set<string>> {
    match Listed(d)
    case None => []
    case Some(values) =>
      [set i | 0 <= i < |values| && (value.None? || JsonEqual(value.value, values[i])) :: JsonType(values[i])]
  }

  function OneConstraint(types: Option<set<string>>): seq<set<string>> {
    if types.Some? then [types.value] else []
  }

  /** The alternatives' types joined, where all of them are known and there is one. */
  function UnionConstraint(alternatives: seq<Option<set<string>>>): seq<set<string>> {
    if alternatives != [] && forall i :: 0 <= i < |alternatives| ==> alternatives[i].Some? then
      [set i, t | 0 <= i < |alternatives| && t in alternatives[i].value :: t]
    else []
  }

  function KnownConstraints(types: seq<Option<set<string>>>): seq<set<string>> {
    if types == [] then [] else OneConstraint(types[0]) + KnownConstraints(types[1..])
  }

  /** The intersection of the constraints; no constraint allows every type. */
  function Intersection(constraints: seq<set<string>>): Option<set<string>> {
    if constraints == [] then None
    else
      match Intersection(constraints[1..])
      case None => Some(constraints[0])
      case Some(types) => Some(constraints[0] * types)
  }

  function Unseen(env: Env, seen: set<Path>): set<Path> {
    Paths(env.root) - seen
  }

  const NONE: set<Path> := {}

  function Flag(arguments: map<string, Json>): nat {
    if arguments == map[] then 0 else 1
  }

  /** The branches of a union or an intersection: the elements of the keyword's list. */
  function Branches(d: map<string, Json>, keyword: string): nat {
    if keyword in d && d[keyword].Arr? then |d[keyword].items| else 0
  }

  /** The types that the schema at `p` allows for a whole value, or for its property `key`; none known
      at all is None. A schema met again on the way is left out of account. */
  function ArgTypes(env: Env, p: Path, key: Option<string>, seen: set<Path>, arguments: map<string, Json>,
                    value: Option<Json>): Option<set<string>>
    decreases Flag(arguments), Unseen(env, seen), 2, 0
  {
    match At(env.root, p)
    case Some(Obj(d)) =>
      if p in seen then None
      else
        PlacesAreFinite(env.root, p);
        assert p in Unseen(env, seen) && p !in Unseen(env, seen + {p});
        Intersection(Constraints(env, p, d, key, seen + {p}, arguments, value))
    case _ => None
  }

  /** The constraints of one schema object: its reference, its own keywords, its unions, its `allOf`. */
  function Constraints(env: Env, p: Path, d: map<string, Json>, key: Option<string>, seen: set<Path>,
                       arguments: map<string, Json>, value: Option<Json>): seq<set<string>>
    decreases Flag(arguments), Unseen(env, seen), 4, 0
  {
    var target := if "$ref" in d then Resolve(env, d["$ref"]) else None;
    var fromRef :=
      if target.Some? then ArgTypes(env, target.value, key, seen, arguments, value) else None;
    var any := Alternatives(env, p, "anyOf", Branches(d, "anyOf"), key, seen, arguments, value);
    var one := Alternatives(env, p, "oneOf", Branches(d, "oneOf"), key, seen, arguments, value);
    var all := EachBranch(env, p, "allOf", Branches(d, "allOf"), key, seen, arguments, value);
    OneConstraint(fromRef) + OwnConstraints(env, p, d, key, seen, value) + UnionConstraint(any) + UnionConstraint(one)
    + KnownConstraints(all)
  }

  /** The constraints of an object's own keywords: on the value itself, or on one of its properties. */
  function OwnConstraints(env: Env, p: Path, d: map<string, Json>, key: Option<string>, seen: set<Path>,
                          value: Option<Json>): seq<set<string>>
    decreases 0, Unseen(env, seen), 3, 0
  {
    match key
    case Some(k) =>
      OneConstraint(ArgTypes(env, p + [Field("properties"), Field(k)], None, seen, map[], value))
    case None =>
      (if "type" in d then TypeConstraint(d["type"]) else []) + ListedConstraint(d, value)
  }

  /** The types under the first `n` branches of a union, without the branches that the known arguments
      rule out. */
  function Alternatives(env: Env, p: Path, keyword: string, n: nat, key: Option<string>, seen: set<Path>,
                        arguments: map<string, Json>, value: Option<Json>): seq<Option<set<string>>>
    decreases Flag(arguments), Unseen(env, seen), 3, n
  {
    if n == 0 then []
    else
      var branch := p + [Field(keyword), Element(n - 1)];
      Alternatives(env, p, keyword, n - 1, key, seen, arguments, value)
      + if key.None? || MatchesDiscriminators(env, branch, arguments)
        then [ArgTypes(env, branch, key, seen, arguments, value)] else []
  }

  function EachBranch(env: Env, p: Path, keyword: string, n: nat, key: Option<string>, seen: set<Path>,
                      arguments: map<string, Json>, value: Option<Json>): (types: seq<Option<set<string>>>)
    ensures |types| == n
    decreases Flag(arguments), Unseen(env, seen), 3, n
  {
    if n == 0 then []
    else
      var branch := p + [Field(keyword), Element(n - 1)];
      EachBranch(env, p, keyword, n - 1, key, seen, arguments, value)
      + [ArgTypes(env, branch, key, seen, arguments, value)]
  }

  /** Every branch is asked, in order: no branch is left out. */
  lemma {:induction false} EachBranchAt(env: Env, p: Path, keyword: string, n: nat, i: nat, key: Option<string>,
                                        seen: set<Path>, arguments: map<string, Json>, value: Option<Json>)
    requires i < n
    ensures EachBranch(env, p, keyword, n, key, seen, arguments, value)[i] ==
            ArgTypes(env, p + [Field(keyword), Element(i)], key, seen, arguments, value)
    decreases n
  {
    hide ArgTypes;
    if i < n - 1 {
      EachBranchAt(env, p, keyword, n - 1, i, key, seen, arguments, value);
    }
  }

  lemma OnlyOne(types: set<string>, t: string, u: string)
    requires |types| == 1 && t in types && u in types
    ensures t == u
  {
    assert |types - {t}| == 0;
  }

  /** `get_argument_type`: the type where there is just one, an integer being a number. */
  function ArgumentType(types: Option<set<string>>): Option<string> {
    if types == Some({"number", "integer"}) then Some("number")
    else if types.Some? && |types.value| == 1 then
      assert forall t, u :: t in types.value && u in types.value ==> t == u by {
        forall t, u | t in types.value && u in types.value ensures t == u {
          OnlyOne(types.value, t, u);
        }
      }
      var t :| t in types.value;
      Some(t)
    else None
  }

  /** No known argument has a type that the schema at `p` excludes for it. */
  predicate MatchesDiscriminators(env: Env, p: Path, arguments: map<string, Json>)
    decreases Flag(arguments), NONE, 0, 0
  {
    forall k :: k in arguments ==>
      var types := ArgTypes(env, p, Some(k), {}, map[], Some(arguments[k]));
      types.None? || JsonType(arguments[k]) in types.value
  }
}

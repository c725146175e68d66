/** Which types the inference rules out: exactly those that some keyword on the way rules out. */
module ArgumentTypesExact {
  import opened Strings
  import opened JsonValues
  import opened ArgumentTypes
  import opened ArgumentTypesSound

  const TYPE_NAMES := {"null", "boolean", "integer", "number", "string", "array", "object"}

  /** A value of every type. */
  function Sample(t: string): (x: Json)
    requires t in TYPE_NAMES
    ensures JsonType(x) == t
  {
    if t == "null" then Null
    else if t == "boolean" then Bool(true)
    else if t == "integer" then Int(0)
    else if t == "number" then Half()
    else if t == "string" then Str("")
    else if t == "array" then Arr([])
    else Obj(map[])
  }

  function Half(): (x: Json)
    ensures JsonType(x) == "number"
  {
    assert !IsInteger(0.5);
    Float(0.5)
  }

  /** Known types, and this one not among them. */
  predicate Excludes(types: Option<set<string>>, t: string) {
    types.Some? && t !in types.value
  }

  predicate HasTypeKeyword(d: map<string, Json>) {
    "type" in d && (d["type"].Str? || d["type"].Arr?)
  }

  predicate HasListKeyword(d: map<string, Json>) {
    "const" in d || ("enum" in d && d["enum"].Arr?)
  }

  /** Equal to the constant; without one, to an enumerated value. */
  ghost predicate IsListed(d: map<string, Json>, x: Json)
    requires HasListKeyword(d)
  {
    if "const" in d then Normal(x) == Normal(d["const"])
    else exists i :: 0 <= i < |d["enum"].items| && Normal(x) == Normal(d["enum"].items[i])
  }

  /** No value of this type has the type that is asked for, or none is listed; where the value is known,
      none that equals it. */
  ghost predicate OwnExclude(d: map<string, Json>, value: Option<Json>, t: string) {
    || (HasTypeKeyword(d) && forall x: Json :: TypeSatisfied(d["type"], x) ==> JsonType(x) != t)
    || (HasListKeyword(d) && forall x: Json :: IsListed(d, x) && JsonType(x) == t ==>
          value.Some? && Normal(x) != Normal(value.value))
  }

  /** The schema says of no known argument that it may not have the type it has. */
  ghost predicate Kept(env: Env, branch: Path, key: Option<string>, arguments: map<string, Json>) {
    key.Some? ==> forall k :: k in arguments ==>
      !Excludes(ArgTypes(env, branch, Some(k), {}, map[], Some(arguments[k])), JsonType(arguments[k]))
  }

  ghost predicate KeptAt(env: Env, p: Path, keyword: string, i: nat, key: Option<string>,
                         arguments: map<string, Json>) {
    Kept(env, p + [Field(keyword), Element(i)], key, arguments)
  }

  /** Some branch is kept, and all that are kept exclude the type. */
  ghost predicate UnionExcludes(env: Env, p: Path, keyword: string, n: nat, key: Option<string>, seen: set<Path>,
                                arguments: map<string, Json>, value: Option<Json>, t: string) {
    && (exists i: nat :: i < n && KeptAt(env, p, keyword, i, key, arguments))
    && forall i: nat :: i < n && KeptAt(env, p, keyword, i, key, arguments) ==>
         Excludes(ArgTypes(env, p + [Field(keyword), Element(i)], key, seen, arguments, value), t)
  }

  ghost predicate AllOfExcludes(env: Env, p: Path, n: nat, key: Option<string>, seen: set<Path>,
                                arguments: map<string, Json>, value: Option<Json>, t: string) {
    exists i: nat :: i < n && Excludes(ArgTypes(env, p + [Field("allOf"), Element(i)], key, seen, arguments, value), t)
  }

  /** The place a schema refers to, where it is one of the document. */
  ghost predicate RefersTo(env: Env, d: map<string, Json>, q: Path) {
    "$ref" in d && Resolve(env, d["$ref"]) == Some(q)
  }

  /** The branches that a keyword lists. */
  function Listing(d: map<string, Json>, keyword: string): seq<Json> {
    if keyword in d && d[keyword].Arr? then d[keyword].items else []
  }

  lemma BranchesListed(d: map<string, Json>, keyword: string)
    ensures Branches(d, keyword) == |Listing(d, keyword)|
  {
  }

  /** What in a schema object excludes a type, for a whole value or one of its properties. */
  ghost predicate SomeExcludes(env: Env, p: Path, d: map<string, Json>, key: Option<string>, seen: set<Path>,
                               arguments: map<string, Json>, value: Option<Json>, t: string) {
    || (exists q :: RefersTo(env, d, q) && Excludes(ArgTypes(env, q, key, seen, arguments, value), t))
    || (key.None? && OwnExclude(d, value, t))
    || (key.Some? && Excludes(ArgTypes(env, p + [Field("properties"), Field(key.value)], None, seen, map[], value), t))
    || UnionExcludes(env, p, "anyOf", |Listing(d, "anyOf")|, key, seen, arguments, value, t)
    || UnionExcludes(env, p, "oneOf", |Listing(d, "oneOf")|, key, seen, arguments, value, t)
    || AllOfExcludes(env, p, |Listing(d, "allOf")|, key, seen, arguments, value, t)
  }

  /** One of the constraints leaves the type out. */
  ghost predicate Missing(constraints: seq<set<string>>, t: string) {
    exists c :: c in constraints && t !in c
  }

  lemma {:induction false} IntersectionExcludes(constraints: seq<set<string>>, t: string)
    ensures Excludes(Intersection(constraints), t) <==> Missing(constraints, t)
    ensures Intersection(constraints).None? <==> constraints == []
  {
    if constraints != [] {
      IntersectionExcludes(constraints[1..], t);
      assert constraints == [constraints[0]] + constraints[1..];
    }
  }

  lemma MissingIn(a: seq<set<string>>, b: seq<set<string>>, t: string)
    ensures Missing(a + b, t) <==> Missing(a, t) || Missing(b, t)
  {
  }

  lemma OneExcludes(types: Option<set<string>>, t: string)
    ensures Missing(OneConstraint(types), t) <==> Excludes(types, t)
  {
    if types.Some? {
      assert types.value in OneConstraint(types);
    }
  }

  lemma TypeExcludes(d: map<string, Json>, t: string)
    requires t in TYPE_NAMES
    ensures Missing(if "type" in d then TypeConstraint(d["type"]) else [], t) <==>
            HasTypeKeyword(d) && forall x: Json :: TypeSatisfied(d["type"], x) ==> JsonType(x) != t
  {
    if HasTypeKeyword(d) {
      var c := TypeConstraint(d["type"])[0];
      assert TypeConstraint(d["type"]) == [c];
      forall x: Json ensures TypeSatisfied(d["type"], x) <==> JsonType(x) in c {
        TypeSatisfiedIff(d["type"], x);
      }
      assert JsonType(Sample(t)) == t;
    }
  }

  lemma TypeSatisfiedIff(k: Json, x: Json)
    requires k.Str? || k.Arr?
    ensures |TypeConstraint(k)| == 1
    ensures TypeSatisfied(k, x) <==> JsonType(x) in TypeConstraint(k)[0]
  {
    HasTypeIff(x);
    if k.Arr? && JsonType(x) in TypeConstraint(k)[0] {
      if !exists i :: 0 <= i < |k.items| && k.items[i].Str? && k.items[i].s == JsonType(x) {
        var i :| 0 <= i < |k.items| && k.items[i].Str? && k.items[i].s == "number";
        assert HasType(x, k.items[i].s);
      }
    }
  }

  lemma HasTypeIff(x: Json)
    ensures forall t :: HasType(x, t) <==> t == JsonType(x) || (t == "number" && JsonType(x) == "integer")
  {
  }

  lemma ListExcludes(d: map<string, Json>, value: Option<Json>, t: string)
    ensures Missing(ListedConstraint(d, value), t) <==>
            HasListKeyword(d) && forall x: Json :: IsListed(d, x) && JsonType(x) == t ==>
              value.Some? && Normal(x) != Normal(value.value)
  {
    if HasListKeyword(d) {
      var values := Listed(d).value;
      var c := ListedConstraint(d, value)[0];
      assert ListedConstraint(d, value) == [c];
      if x: Json :| IsListed(d, x) && JsonType(x) == t && (value.None? || Normal(x) == Normal(value.value)) {
        var i :| 0 <= i < |values| && Normal(x) == Normal(values[i]);
        SameNormalSameType(x, values[i]);
        if value.Some? {
          JsonEqualIsSameNormal(value.value, values[i]);
        }
        assert t in c;
      }
      if t in c {
        var i :| 0 <= i < |values| && (value.None? || JsonEqual(value.value, values[i])) && JsonType(values[i]) == t;
        if value.Some? {
          JsonEqualIsSameNormal(value.value, values[i]);
        }
        assert IsListed(d, values[i]);
      }
    }
  }

  /** Matching the known arguments is that none of them has a type excluded for it. */
  lemma KeptIff(env: Env, branch: Path, key: Option<string>, arguments: map<string, Json>)
    ensures Kept(env, branch, key, arguments) <==> key.None? || MatchesDiscriminators(env, branch, arguments)
  {
    hide ArgTypes;
  }

  /** The alternatives are the types of the branches that are kept, no more and no fewer. */
  lemma {:induction false} AlternativesAre(env: Env, p: Path, keyword: string, n: nat, key: Option<string>,
                                           seen: set<Path>, arguments: map<string, Json>, value: Option<Json>,
                                           types: Option<set<string>>)
    ensures types in Alternatives(env, p, keyword, n, key, seen, arguments, value) <==>
            exists i: nat :: i < n && KeptAt(env, p, keyword, i, key, arguments)
                             && types == ArgTypes(env, p + [Field(keyword), Element(i)], key, seen, arguments, value)
    decreases n
  {
    hide ArgTypes, Kept, MatchesDiscriminators;
    if n > 0 {
      AlternativesAre(env, p, keyword, n - 1, key, seen, arguments, value, types);
      KeptIff(env, p + [Field(keyword), Element(n - 1)], key, arguments);
    }
  }

  lemma UnionMissing(alternatives: seq<Option<set<string>>>, t: string)
    ensures Missing(UnionConstraint(alternatives), t) <==>
            alternatives != [] && forall types :: types in alternatives ==> Excludes(types, t)
  {
    if alternatives != [] && forall types :: types in alternatives ==> Excludes(types, t) {
      assert forall i :: 0 <= i < |alternatives| ==> alternatives[i] in alternatives;
      var c := UnionConstraint(alternatives)[0];
      assert c in UnionConstraint(alternatives) && t !in c;
    }
    if Missing(UnionConstraint(alternatives), t) {
      forall types | types in alternatives ensures Excludes(types, t) {
        var i :| 0 <= i < |alternatives| && alternatives[i] == types;
        var c :| c in UnionConstraint(alternatives) && t !in c;
        assert alternatives[i].Some? && t !in alternatives[i].value;
      }
    }
  }

  lemma UnionExcludesIff(env: Env, p: Path, keyword: string, n: nat, key: Option<string>, seen: set<Path>,
                         arguments: map<string, Json>, value: Option<Json>, t: string)
    ensures Missing(UnionConstraint(Alternatives(env, p, keyword, n, key, seen, arguments, value)), t) <==>
            UnionExcludes(env, p, keyword, n, key, seen, arguments, value, t)
  {
    hide ArgTypes, KeptAt, Alternatives, UnionConstraint, Excludes, Missing;
    var all := Alternatives(env, p, keyword, n, key, seen, arguments, value);
    UnionMissing(all, t);
    forall types | types in all
      ensures exists i: nat :: i < n && KeptAt(env, p, keyword, i, key, arguments)
                               && types == ArgTypes(env, p + [Field(keyword), Element(i)], key, seen, arguments, value)
    {
      AlternativesAre(env, p, keyword, n, key, seen, arguments, value, types);
    }
    forall i: nat | i < n && KeptAt(env, p, keyword, i, key, arguments)
      ensures ArgTypes(env, p + [Field(keyword), Element(i)], key, seen, arguments, value) in all
    {
      AlternativesAre(env, p, keyword, n, key, seen, arguments, value,
                      ArgTypes(env, p + [Field(keyword), Element(i)], key, seen, arguments, value));
    }
    assert all != [] ==> all[0] in all;
  }

  lemma {:induction false} KnownMissing(types: seq<Option<set<string>>>, t: string)
    ensures Missing(KnownConstraints(types), t) <==> exists i :: 0 <= i < |types| && Excludes(types[i], t)
  {
    if types != [] {
      KnownMissing(types[1..], t);
      OneExcludes(types[0], t);
      MissingIn(OneConstraint(types[0]), KnownConstraints(types[1..]), t);
      assert forall i :: 0 < i < |types| ==> types[i] == types[1..][i - 1];
      assert forall i :: 0 <= i < |types[1..]| ==> types[1..][i] == types[i + 1];
    }
  }

  lemma AllOfExcludesIff(env: Env, p: Path, n: nat, key: Option<string>, seen: set<Path>, arguments: map<string, Json>,
                         value: Option<Json>, t: string)
    ensures Missing(KnownConstraints(EachBranch(env, p, "allOf", n, key, seen, arguments, value)), t) <==>
            AllOfExcludes(env, p, n, key, seen, arguments, value, t)
  {
    hide ArgTypes, EachBranch, KnownConstraints;
    var all := EachBranch(env, p, "allOf", n, key, seen, arguments, value);
    KnownMissing(all, t);
    forall i: nat | i < n
      ensures all[i] == ArgTypes(env, p + [Field("allOf"), Element(i)], key, seen, arguments, value)
    {
      EachBranchAt(env, p, "allOf", n, i, key, seen, arguments, value);
    }
  }

  lemma RefExcludesIff(env: Env, d: map<string, Json>, key: Option<string>, seen: set<Path>,
                       arguments: map<string, Json>, value: Option<Json>, t: string)
    ensures var target := if "$ref" in d then Resolve(env, d["$ref"]) else None;
            var types := if target.Some? then ArgTypes(env, target.value, key, seen, arguments, value) else None;
            Missing(OneConstraint(types), t) <==>
            exists q :: RefersTo(env, d, q) && Excludes(ArgTypes(env, q, key, seen, arguments, value), t)
  {
    hide ArgTypes, Resolve;
    var target := if "$ref" in d then Resolve(env, d["$ref"]) else None;
    var types := if target.Some? then ArgTypes(env, target.value, key, seen, arguments, value) else None;
    OneExcludes(types, t);
    assert target.Some? ==> RefersTo(env, d, target.value);
  }

  lemma OwnExcludesIff(env: Env, p: Path, d: map<string, Json>, key: Option<string>, seen: set<Path>,
                       value: Option<Json>, t: string)
    requires t in TYPE_NAMES
    ensures Missing(OwnConstraints(env, p, d, key, seen, value), t) <==>
            if key.None? then OwnExclude(d, value, t)
            else Excludes(ArgTypes(env, p + [Field("properties"), Field(key.value)], None, seen, map[], value), t)
  {
    hide ArgTypes, TypeConstraint, ListedConstraint, Missing, TypeSatisfied, IsListed;
    match key
    case Some(k) => OneExcludes(ArgTypes(env, p + [Field("properties"), Field(k)], None, seen, map[], value), t);
    case None =>
      TypeExcludes(d, t);
      ListExcludes(d, value, t);
      MissingIn(if "type" in d then TypeConstraint(d["type"]) else [], ListedConstraint(d, value), t);
  }

  lemma ConstraintsExclude(env: Env, p: Path, d: map<string, Json>, key: Option<string>, seen: set<Path>,
                           arguments: map<string, Json>, value: Option<Json>, t: string)
    requires t in TYPE_NAMES
    ensures Missing(Constraints(env, p, d, key, seen, arguments, value), t) <==>
            SomeExcludes(env, p, d, key, seen, arguments, value, t)
  {
    hide ArgTypes, Missing, OwnConstraints, UnionConstraint, KnownConstraints, OneConstraint, Alternatives, EachBranch,
      OwnExclude, UnionExcludes, AllOfExcludes, RefersTo, Excludes, Resolve, Branches, Listing;
    var target := if "$ref" in d then Resolve(env, d["$ref"]) else None;
    var fromRef := if target.Some? then ArgTypes(env, target.value, key, seen, arguments, value) else None;
    BranchesListed(d, "anyOf");
    BranchesListed(d, "oneOf");
    BranchesListed(d, "allOf");
    var any := Alternatives(env, p, "anyOf", Branches(d, "anyOf"), key, seen, arguments, value);
    var one := Alternatives(env, p, "oneOf", Branches(d, "oneOf"), key, seen, arguments, value);
    var all := EachBranch(env, p, "allOf", Branches(d, "allOf"), key, seen, arguments, value);
    RefExcludesIff(env, d, key, seen, arguments, value, t);
    OwnExcludesIff(env, p, d, key, seen, value, t);
    UnionExcludesIff(env, p, "anyOf", Branches(d, "anyOf"), key, seen, arguments, value, t);
    UnionExcludesIff(env, p, "oneOf", Branches(d, "oneOf"), key, seen, arguments, value, t);
    AllOfExcludesIff(env, p, Branches(d, "allOf"), key, seen, arguments, value, t);
    var own := OwnConstraints(env, p, d, key, seen, value);
    MissingIn(OneConstraint(fromRef), own, t);
    MissingIn(OneConstraint(fromRef) + own, UnionConstraint(any), t);
    MissingIn(OneConstraint(fromRef) + own + UnionConstraint(any), UnionConstraint(one), t);
    MissingIn(OneConstraint(fromRef) + own + UnionConstraint(any) + UnionConstraint(one), KnownConstraints(all), t);
  }

  /** A type is excluded exactly when the schema object, met for the first time, has a keyword that excludes
      it: nothing else is ruled out, and nothing that should be is missed. */
  lemma ExcludedIff(env: Env, p: Path, key: Option<string>, seen: set<Path>, arguments: map<string, Json>,
                    value: Option<Json>, t: string)
    requires t in TYPE_NAMES
    ensures Excludes(ArgTypes(env, p, key, seen, arguments, value), t) <==>
            && p !in seen && At(env.root, p).Some? && At(env.root, p).value.Obj?
            && SomeExcludes(env, p, At(env.root, p).value.fields, key, seen + {p}, arguments, value, t)
  {
    hide Constraints, SomeExcludes, Excludes, Intersection;
    if p !in seen && At(env.root, p).Some? && At(env.root, p).value.Obj? {
      var d := At(env.root, p).value.fields;
      ConstraintsExclude(env, p, d, key, seen + {p}, arguments, value, t);
      IntersectionExcludes(Constraints(env, p, d, key, seen + {p}, arguments, value), t);
    } else {
      NothingExcluded(env, p, key, seen, arguments, value, t);
    }
  }

  lemma NothingExcluded(env: Env, p: Path, key: Option<string>, seen: set<Path>, arguments: map<string, Json>,
                        value: Option<Json>, t: string)
    requires !(p !in seen && At(env.root, p).Some? && At(env.root, p).value.Obj?)
    ensures !Excludes(ArgTypes(env, p, key, seen, arguments, value), t)
  {
  }

  /** A schema object that leaves all to its own keywords and properties. */
  predicate Plain(d: map<string, Json>) {
    "$ref" !in d && Listing(d, "anyOf") == [] && Listing(d, "oneOf") == [] && Listing(d, "allOf") == []
  }

  lemma PlainExcludes(env: Env, p: Path, d: map<string, Json>, key: Option<string>, seen: set<Path>,
                      arguments: map<string, Json>, value: Option<Json>, t: string)
    requires t in TYPE_NAMES && Plain(d) && At(env.root, p) == Some(Obj(d)) && p !in seen
    ensures Excludes(ArgTypes(env, p, key, seen, arguments, value), t) <==>
            if key.None? then OwnExclude(d, value, t)
            else Excludes(ArgTypes(env, p + [Field("properties"), Field(key.value)], None, seen + {p}, map[], value), t)
  {
    hide ArgTypes, OwnExclude, Excludes, Kept;
    ExcludedIff(env, p, key, seen, arguments, value, t);
  }

  /** A branch of a tagged union: its property `tag` is this constant. */
  ghost predicate Tagged(env: Env, branch: Path, tag: string, c: Json) {
    var leaf := branch + [Field("properties"), Field(tag)];
    && At(env.root, branch).Some? && At(env.root, branch).value.Obj? && Plain(At(env.root, branch).value.fields)
    && At(env.root, leaf).Some? && At(env.root, leaf).value.Obj?
    && var d := At(env.root, leaf).value.fields;
       Plain(d) && "const" in d && d["const"] == c && ("type" in d ==> TypeSatisfied(d["type"], c))
  }

  lemma NamedType(x: Json)
    ensures JsonType(x) in TYPE_NAMES
  {
  }

  lemma TypeOfEqual(k: Json, x: Json, y: Json)
    requires Normal(x) == Normal(y)
    ensures TypeSatisfied(k, x) <==> TypeSatisfied(k, y)
  {
    SameNormalSameType(x, y);
    HasTypeIff(x);
    HasTypeIff(y);
  }

  /** A known tag keeps a branch exactly if it is the branch's constant. */
  lemma TagKeeps(env: Env, branch: Path, key: string, tag: string, c: Json, v: Json)
    requires Tagged(env, branch, tag, c)
    ensures Kept(env, branch, Some(key), map[tag := v]) <==> Normal(v) == Normal(c)
  {
    hide ArgTypes, Plain, TypeSatisfied, Normal;
    var leaf := branch + [Field("properties"), Field(tag)];
    var d, t := At(env.root, leaf).value.fields, JsonType(v);
    NamedType(v);
    PlainExcludes(env, branch, At(env.root, branch).value.fields, Some(tag), {}, map[], Some(v), t);
    assert |leaf| == |branch| + 2;
    PlainExcludes(env, leaf, d, None, {} + {branch}, map[], Some(v), t);
    if Normal(v) == Normal(c) {
      assert IsListed(d, v);
      if "type" in d {
        TypeOfEqual(d["type"], v, c);
      }
    }
    assert OwnExclude(d, Some(v), t) <==> Normal(v) != Normal(c);
  }

  /** In a union whose branches are told apart by a constant, the types for any key are those of the branch
      that the known constant belongs to: the value has disambiguated the union. */
  lemma TaggedUnion(env: Env, p: Path, keyword: string, n: nat, key: string, seen: set<Path>, tag: string,
                    constants: seq<Json>, v: Json, j: nat, value: Option<Json>, t: string)
    requires |constants| == n && j < n && Normal(v) == Normal(constants[j])
    requires forall i: nat :: i < n ==> Tagged(env, p + [Field(keyword), Element(i)], tag, constants[i])
    requires forall i: nat :: i < n && i != j ==> Normal(constants[i]) != Normal(constants[j])
    ensures UnionExcludes(env, p, keyword, n, Some(key), seen, map[tag := v], value, t) <==>
            Excludes(ArgTypes(env, p + [Field(keyword), Element(j)], Some(key), seen, map[tag := v], value), t)
  {
    hide ArgTypes, Tagged, Kept, Excludes, Normal;
    forall i: nat | i < n ensures KeptAt(env, p, keyword, i, Some(key), map[tag := v]) <==> i == j {
      TagKeeps(env, p + [Field(keyword), Element(i)], key, tag, constants[i], v);
    }
    assert KeptAt(env, p, keyword, j, Some(key), map[tag := v]);
  }

  /** A schema with no more than its own keywords: the types are unknown if it has none on types or listed
      values, and are else those of the values that satisfy them. */
  lemma OwnTypesExact(env: Env, p: Path, d: map<string, Json>, seen: set<Path>, arguments: map<string, Json>,
                      value: Option<Json>)
    requires Plain(d) && At(env.root, p) == Some(Obj(d)) && p !in seen
    ensures var types := ArgTypes(env, p, None, seen, arguments, value);
            && (types.None? <==> !HasTypeKeyword(d) && !HasListKeyword(d))
            && (types.Some? ==> forall t :: t in TYPE_NAMES ==>
                  (t in types.value <==> exists x: Json :: JsonType(x) == t && Meets(d, value, x)))
  {
    hide ArgTypes, Plain, OwnExclude;
    var types := ArgTypes(env, p, None, seen, arguments, value);
    PlainTypes(env, p, d, seen, arguments, value);
    if types.Some? {
      forall t | t in TYPE_NAMES
        ensures t in types.value <==> exists x: Json :: JsonType(x) == t && Meets(d, value, x)
      {
        PlainExcludes(env, p, d, None, seen, arguments, value, t);
        OwnExcludeIff(d, value, t);
      }
    }
  }

  /** The value has a type that is asked for and is a listed one; if it is known, up to its own notation. */
  ghost predicate Meets(d: map<string, Json>, value: Option<Json>, x: Json) {
    && (HasTypeKeyword(d) ==> TypeSatisfied(d["type"], x))
    && (HasListKeyword(d) ==> IsListed(d, x) && (value.Some? ==> Normal(x) == Normal(value.value)))
  }

  lemma OwnExcludeIff(d: map<string, Json>, value: Option<Json>, t: string)
    requires t in TYPE_NAMES
    ensures OwnExclude(d, value, t) <==> !exists x: Json :: JsonType(x) == t && Meets(d, value, x)
  {
    hide IsListed;
    if !OwnExclude(d, value, t) {
      var y := Sample(t);
      if HasListKeyword(d) {
        y :| IsListed(d, y) && JsonType(y) == t && !(value.Some? && Normal(y) != Normal(value.value));
      }
      if HasTypeKeyword(d) {
        var x: Json :| TypeSatisfied(d["type"], x) && JsonType(x) == t;
        TypeSatisfiedIff(d["type"], x);
        TypeSatisfiedIff(d["type"], y);
      }
      assert Meets(d, value, y);
    }
  }

  lemma PlainTypes(env: Env, p: Path, d: map<string, Json>, seen: set<Path>, arguments: map<string, Json>,
                   value: Option<Json>)
    requires Plain(d) && At(env.root, p) == Some(Obj(d)) && p !in seen
    ensures ArgTypes(env, p, None, seen, arguments, value) ==
            Intersection((if "type" in d then TypeConstraint(d["type"]) else []) + ListedConstraint(d, value))
    ensures ArgTypes(env, p, None, seen, arguments, value).None? <==> !HasTypeKeyword(d) && !HasListKeyword(d)
  {
    hide TypeConstraint, ListedConstraint, Intersection;
    var own := (if "type" in d then TypeConstraint(d["type"]) else []) + ListedConstraint(d, value);
    assert Constraints(env, p, d, None, seen + {p}, arguments, value) == own;
    IntersectionExcludes(own, "");
    NoConstraint(d, value);
  }

  lemma NoConstraint(d: map<string, Json>, value: Option<Json>)
    ensures (if "type" in d then TypeConstraint(d["type"]) else []) == [] <==> !HasTypeKeyword(d)
    ensures ListedConstraint(d, value) == [] <==> !HasListKeyword(d)
  {
  }

  /** A property that is declared with a type has that type, whatever else is known. */
  lemma DeclaredType(env: Env, properties: map<string, Json>, d: map<string, Json>, key: string, t: string,
                     known: map<string, Json>)
    requires env.root.Obj? && Plain(env.root.fields)
    requires "properties" in env.root.fields && env.root.fields["properties"] == Obj(properties)
    requires key in properties && properties[key] == Obj(d) && Plain(d) && !HasListKeyword(d)
    requires "type" in d && d["type"] == Str(t)
    ensures ArgumentType(ArgTypes(env, [], Some(key), {}, known, None)) == Some(t)
  {
    hide ArgTypes, Plain, Intersection;
    var place, own := [Field("properties"), Field(key)], if t == "number" then {t, "integer"} else {t};
    PropertyPlace(env, properties, key);
    PlainTypes(env, place, d, {[]}, map[], None);
    assert TypeConstraint(d["type"]) + [] == [own];
    OneConstraintOnly(own);
    PropertyOnly(env, key, known);
    OneType(t);
  }

  lemma PropertyPlace(env: Env, properties: map<string, Json>, key: string)
    requires env.root.Obj? && "properties" in env.root.fields && env.root.fields["properties"] == Obj(properties)
    requires key in properties
    ensures At(env.root, [Field("properties"), Field(key)]) == Some(properties[key])
  {
    var place := [Field("properties"), Field(key)];
    assert place[1..] == [Field(key)] && [Field(key)][1..] == [];
    assert At(Obj(properties), [Field(key)]) == Some(properties[key]);
  }

  lemma OneConstraintOnly(own: set<string>)
    ensures Intersection([own]) == Some(own)
  {
    assert [own][1..] == [];
  }

  /** Without other keywords, a question about a property is the question at its schema. */
  lemma PropertyOnly(env: Env, key: string, known: map<string, Json>)
    requires env.root.Obj? && Plain(env.root.fields)
    ensures ArgTypes(env, [], Some(key), {}, known, None) ==
            ArgTypes(env, [Field("properties"), Field(key)], None, {[]}, map[], None)
  {
    hide Intersection;
    var none: set<Path> := {};
    var types := ArgTypes(env, [Field("properties"), Field(key)], None, {[]}, map[], None);
    assert none + {[]} == {[]} && [] + [Field("properties"), Field(key)] == [Field("properties"), Field(key)];
    assert Constraints(env, [], env.root.fields, Some(key), {[]}, known, None) == OneConstraint(types);
    IntersectionExcludes([], "");
    if types.Some? {
      OneConstraintOnly(types.value);
    }
  }

  lemma OneType(t: string)
    ensures ArgumentType(Some({t})) == Some(t) && ArgumentType(Some({"number", "integer"})) == Some("number")
  {
    assert t in {t} && |{t}| == 1;
  }
}

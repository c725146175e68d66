/** Why the inferred types never exclude the type an argument really has. */
module ArgumentTypesSound {
  import opened Strings
  import opened JsonValues
  import opened ArgumentTypes

  /** Section 6.1.1 of JSON Schema Validation 2020-12: the instance has the named type. */
  predicate HasType(x: Json, t: string) {
    match x
    case Null => t == "null"
    case Bool(_) => t == "boolean"
    case Int(_) => t == "number" || t == "integer"
    case Float(r) => t == "number" || (t == "integer" && IsInteger(r))
    case Str(_) => t == "string"
    case Arr(_) => t == "array"
    case Obj(_) => t == "object"
  }

  /** The instance satisfies the `type` keyword. */
  ghost predicate TypeSatisfied(t: Json, x: Json) {
    && (t.Str? ==> HasType(x, t.s))
    && (t.Arr? ==> exists i :: 0 <= i < |t.items| && t.items[i].Str? && HasType(x, t.items[i].s))
  }

  /** Sections 6.1.2 and 6.1.3: equal to the constant, or to one of the enumerated values. */
  ghost predicate ListedSatisfied(d: map<string, Json>, x: Json) {
    && ("const" in d ==> Normal(x) == Normal(d["const"]))
    && ("enum" in d && d["enum"].Arr? ==>
          exists i :: 0 <= i < |d["enum"].items| && Normal(x) == Normal(d["enum"].items[i]))
  }

  /** An instance is valid at a place of the schema document. */
  type Validity = (Path, Json) -> bool

  ghost predicate SomeBranch(V: Validity, p: Path, keyword: string, n: nat, x: Json) {
    exists i: nat :: i < n && V(p + [Field(keyword), Element(i)], x)
  }

  /** What validity at a schema object entails, keyword by keyword (sections 8.2.3.1 and 10.2.1 of JSON
      Schema Core 2020-12); of `oneOf` only that some branch is satisfied. */
  ghost predicate Entails(env: Env, V: Validity, p: Path, d: map<string, Json>, x: Json) {
    && ("type" in d ==> TypeSatisfied(d["type"], x))
    && ListedSatisfied(d, x)
    && ("$ref" in d && Resolve(env, d["$ref"]).Some? ==> V(Resolve(env, d["$ref"]).value, x))
    && (x.Obj? ==> forall k :: k in x.fields && At(env.root, p + [Field("properties"), Field(k)]).Some? ==>
          V(p + [Field("properties"), Field(k)], x.fields[k]))
    && (Branches(d, "anyOf") > 0 ==> SomeBranch(V, p, "anyOf", Branches(d, "anyOf"), x))
    && (Branches(d, "oneOf") > 0 ==> SomeBranch(V, p, "oneOf", Branches(d, "oneOf"), x))
    && (forall i: nat :: i < Branches(d, "allOf") ==> V(p + [Field("allOf"), Element(i)], x))
  }

  /** Any notion of validity that keeps its word at every schema object, however cyclic. */
  ghost predicate IsValidity(env: Env, V: Validity) {
    forall p, x {:trigger V(p, x)} ::
      V(p, x) && At(env.root, p).Some? && At(env.root, p).value.Obj? ==>
        Entails(env, V, p, At(env.root, p).value.fields, x)
  }

  ghost predicate Allows(types: Option<set<string>>, x: Json) {
    types.None? || JsonType(x) in types.value
  }

  ghost predicate AllAllow(constraints: seq<set<string>>, x: Json) {
    forall c :: c in constraints ==> JsonType(x) in c
  }

  lemma {:induction false} IntersectionAllows(constraints: seq<set<string>>, x: Json)
    ensures AllAllow(constraints, x) ==> Allows(Intersection(constraints), x)
  {
    if constraints != [] {
      IntersectionAllows(constraints[1..], x);
    }
  }

  lemma TypeConstraintAllows(t: Json, x: Json)
    requires TypeSatisfied(t, x)
    ensures AllAllow(TypeConstraint(t), x)
  {
  }

  lemma SameNormalSameType(x: Json, y: Json)
    requires Normal(x) == Normal(y)
    ensures JsonType(x) == JsonType(y)
  {
  }

  lemma ListedConstraintAllows(d: map<string, Json>, x: Json, value: Option<Json>)
    requires ListedSatisfied(d, x) && (value.Some? ==> value.value == x)
    ensures AllAllow(ListedConstraint(d, value), x)
  {
    if Listed(d).Some? {
      var values := Listed(d).value;
      var i :| 0 <= i < |values| && Normal(x) == Normal(values[i]);
      SameNormalSameType(x, values[i]);
      JsonEqualIsSameNormal(x, values[i]);
    }
  }

  /** The value asked about: the instance itself, or its property. */
  predicate Asked(x: Json, key: Option<string>, y: Json) {
    match key
    case None => y == x
    case Some(k) => x.Obj? && k in x.fields && y == x.fields[k]
  }

  /** The arguments known so far are among the instance's. */
  predicate KnownOf(x: Json, arguments: map<string, Json>) {
    arguments != map[] ==> x.Obj? && forall k :: k in arguments ==> k in x.fields && x.fields[k] == arguments[k]
  }

  /** What the lemmas about one question have in common: `x` is the instance, `y` the value asked about. */
  ghost predicate Question(env: Env, V: Validity, x: Json, key: Option<string>, y: Json, arguments: map<string, Json>,
                           value: Option<Json>) {
    IsValidity(env, V) && Asked(x, key, y) && KnownOf(x, arguments) && (value.Some? ==> value.value == y)
  }

  /** Soundness: for an instance valid at `p`, the inferred types allow the value asked about. */
  lemma {:induction false} TypesAllow(env: Env, V: Validity, p: Path, x: Json, key: Option<string>, y: Json,
                                      seen: set<Path>, arguments: map<string, Json>, value: Option<Json>)
    requires Question(env, V, x, key, y, arguments, value) && V(p, x)
    ensures Allows(ArgTypes(env, p, key, seen, arguments, value), y)
    decreases Flag(arguments), Unseen(env, seen), 2, 0
  {
    match At(env.root, p)
    case Some(Obj(d)) =>
      if p !in seen {
        PlacesAreFinite(env.root, p);
        assert p in Unseen(env, seen) && p !in Unseen(env, seen + {p});
        ConstraintsAllow(env, V, p, d, x, key, y, seen + {p}, arguments, value);
        IntersectionAllows(Constraints(env, p, d, key, seen + {p}, arguments, value), y);
      }
    case _ =>
  }

  lemma NoSchemaNoTypes(env: Env, p: Path, key: Option<string>, seen: set<Path>, arguments: map<string, Json>,
                        value: Option<Json>)
    requires At(env.root, p).None?
    ensures ArgTypes(env, p, key, seen, arguments, value).None?
  {
  }

  /** Every constraint of a schema object allows the value. */
  lemma {:induction false} ConstraintsAllow(env: Env, V: Validity, p: Path, d: map<string, Json>, x: Json,
                                            key: Option<string>, y: Json, seen: set<Path>, arguments: map<string, Json>,
                                            value: Option<Json>)
    requires Question(env, V, x, key, y, arguments, value) && V(p, x) && At(env.root, p) == Some(Obj(d))
    ensures AllAllow(Constraints(env, p, d, key, seen, arguments, value), y)
    decreases Flag(arguments), Unseen(env, seen), 4, 0
  {
    hide UnionConstraint, KnownConstraints, Resolve, ArgTypes, Alternatives, EachBranch, AllAllow, Allows;
    assert Entails(env, V, p, d, x);
    var target := if "$ref" in d then Resolve(env, d["$ref"]) else None;
    var fromRef := if target.Some? then ArgTypes(env, target.value, key, seen, arguments, value) else None;
    if target.Some? {
      TypesAllow(env, V, target.value, x, key, y, seen, arguments, value);
    }
    OneAllows(fromRef, target.Some?, y);
    OwnAllow(env, V, p, d, x, key, y, seen, value);
    UnionAllows(env, V, p, "anyOf", Branches(d, "anyOf"), x, key, y, seen, arguments, value);
    UnionAllows(env, V, p, "oneOf", Branches(d, "oneOf"), x, key, y, seen, arguments, value);
    EachAllows(env, V, p, "allOf", Branches(d, "allOf"), x, key, y, seen, arguments, value);
    KnownConstraintsAllow(EachBranch(env, p, "allOf", Branches(d, "allOf"), key, seen, arguments, value), y);
    JoinedAllow(OneConstraint(fromRef), OwnConstraints(env, p, d, key, seen, value),
                UnionConstraint(Alternatives(env, p, "anyOf", Branches(d, "anyOf"), key, seen, arguments, value)),
                UnionConstraint(Alternatives(env, p, "oneOf", Branches(d, "oneOf"), key, seen, arguments, value)),
                KnownConstraints(EachBranch(env, p, "allOf", Branches(d, "allOf"), key, seen, arguments, value)), y);
  }

  lemma OneAllows(types: Option<set<string>>, known: bool, y: Json)
    requires known ==> Allows(types, y)
    requires !known ==> types.None?
    ensures AllAllow(OneConstraint(types), y)
  {
  }

  lemma JoinedAllow(a: seq<set<string>>, b: seq<set<string>>, c: seq<set<string>>, d: seq<set<string>>,
                    e: seq<set<string>>, y: Json)
    requires AllAllow(a, y) && AllAllow(b, y) && AllAllow(c, y) && AllAllow(d, y) && AllAllow(e, y)
    ensures AllAllow(a + b + c + d + e, y)
  {
  }

  /** The keywords of the schema object itself allow the value: of the whole, or of one property. */
  lemma {:induction false} OwnAllow(env: Env, V: Validity, p: Path, d: map<string, Json>, x: Json, key: Option<string>,
                                    y: Json, seen: set<Path>, value: Option<Json>)
    requires Question(env, V, x, key, y, map[], value) && V(p, x) && At(env.root, p) == Some(Obj(d))
    ensures AllAllow(OwnConstraints(env, p, d, key, seen, value), y)
    decreases 0, Unseen(env, seen), 3, 0
  {
    hide TypeConstraint, ListedConstraint, ArgTypes;
    assert Entails(env, V, p, d, x);
    match key
    case Some(k) =>
      var field := p + [Field("properties"), Field(k)];
      if At(env.root, field).Some? {
        TypesAllow(env, V, field, y, None, y, seen, map[], value);
      } else {
        NoSchemaNoTypes(env, field, None, seen, map[], value);
      }
    case None =>
      if "type" in d {
        TypeConstraintAllows(d["type"], x);
      }
      ListedConstraintAllows(d, x, value);
  }

  /** A union keeps every branch the instance satisfies, so it allows the value. */
  lemma {:induction false} UnionAllows(env: Env, V: Validity, p: Path, keyword: string, n: nat, x: Json,
                                       key: Option<string>, y: Json, seen: set<Path>, arguments: map<string, Json>,
                                       value: Option<Json>)
    requires Question(env, V, x, key, y, arguments, value) && (n > 0 ==> SomeBranch(V, p, keyword, n, x))
    ensures AllAllow(UnionConstraint(Alternatives(env, p, keyword, n, key, seen, arguments, value)), y)
    decreases Flag(arguments), Unseen(env, seen), 3, n
  {
    if n > 0 {
      var i: nat :| i < n && V(p + [Field(keyword), Element(i)], x);
      var branch := p + [Field(keyword), Element(i)];
      TypesAllow(env, V, branch, x, key, y, seen, arguments, value);
      if key.Some? {
        SatisfiedMatches(env, V, branch, x, arguments);
      }
      BranchKept(env, p, keyword, i, n, key, seen, arguments, value);
      JoinAllows(Alternatives(env, p, keyword, n, key, seen, arguments, value),
                 ArgTypes(env, branch, key, seen, arguments, value), y);
    }
  }

  lemma {:induction false} BranchKept(env: Env, p: Path, keyword: string, i: nat, n: nat, key: Option<string>,
                                      seen: set<Path>, arguments: map<string, Json>, value: Option<Json>)
    requires i < n
    requires key.None? || MatchesDiscriminators(env, p + [Field(keyword), Element(i)], arguments)
    ensures ArgTypes(env, p + [Field(keyword), Element(i)], key, seen, arguments, value)
         in Alternatives(env, p, keyword, n, key, seen, arguments, value)
    decreases n
  {
    if i < n - 1 {
      BranchKept(env, p, keyword, i, n - 1, key, seen, arguments, value);
    }
  }

  lemma JoinAllows(alternatives: seq<Option<set<string>>>, types: Option<set<string>>, y: Json)
    requires types in alternatives && Allows(types, y)
    ensures AllAllow(UnionConstraint(alternatives), y)
  {
    var i :| 0 <= i < |alternatives| && alternatives[i] == types;
    if types.Some? {
      assert JsonType(y) in alternatives[i].value;
    }
  }

  /** Filtering branches by the known arguments never drops a branch the instance satisfies. */
  lemma SatisfiedMatches(env: Env, V: Validity, p: Path, x: Json, arguments: map<string, Json>)
    requires IsValidity(env, V) && KnownOf(x, arguments) && V(p, x)
    ensures MatchesDiscriminators(env, p, arguments)
    decreases Flag(arguments), NONE, 0, 0
  {
    forall k | k in arguments
      ensures Allows(ArgTypes(env, p, Some(k), {}, map[], Some(arguments[k])), arguments[k])
    {
      TypesAllow(env, V, p, x, Some(k), arguments[k], {}, map[], Some(arguments[k]));
    }
  }

  lemma {:induction false} EachAllows(env: Env, V: Validity, p: Path, keyword: string, n: nat, x: Json,
                                      key: Option<string>, y: Json, seen: set<Path>, arguments: map<string, Json>,
                                      value: Option<Json>)
    requires Question(env, V, x, key, y, arguments, value)
    requires forall i: nat :: i < n ==> V(p + [Field(keyword), Element(i)], x)
    ensures forall t :: t in EachBranch(env, p, keyword, n, key, seen, arguments, value) ==> Allows(t, y)
    decreases Flag(arguments), Unseen(env, seen), 3, n
  {
    if n > 0 {
      EachAllows(env, V, p, keyword, n - 1, x, key, y, seen, arguments, value);
      TypesAllow(env, V, p + [Field(keyword), Element(n - 1)], x, key, y, seen, arguments, value);
    }
  }

  lemma {:induction false} KnownConstraintsAllow(types: seq<Option<set<string>>>, y: Json)
    requires forall t :: t in types ==> Allows(t, y)
    ensures AllAllow(KnownConstraints(types), y)
  {
    if types != [] {
      assert types[0] in types;
      KnownConstraintsAllow(types[1..], y);
    }
  }

  /** The types asked for before an argument is decoded: whatever else of the object is known already,
      the type the argument has in a valid object is among them. */
  lemma ArgumentTypeSound(env: Env, V: Validity, args: map<string, Json>, k: string, known: map<string, Json>)
    requires IsValidity(env, V) && V([], Obj(args)) && k in args
    requires forall n :: n in known ==> n in args && args[n] == known[n]
    ensures Allows(ArgTypes(env, [], Some(k), {}, known, None), args[k])
    ensures Allows(ArgTypes(env, [], Some(k), {}, known, Some(args[k])), args[k])
  {
    TypesAllow(env, V, [], Obj(args), Some(k), args[k], {}, known, None);
    TypesAllow(env, V, [], Obj(args), Some(k), args[k], {}, known, Some(args[k]));
  }
}

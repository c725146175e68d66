/** JSON values as Python's parser yields them, and places inside a document. */
module JsonValues {
  import opened Strings

  datatype Json =
    | Null
    | Bool(b: bool)
    | Int(i: int)
    | Float(r: real)
    | Str(s: string)
    | Arr(items: seq<Json>)
    | Obj(fields: map<string, Json>)

  predicate IsInteger(r: real) {
    r.Floor as real == r
  }

  /** The JSON Schema type name of a value; a float without a fractional part is an integer. */
  function JsonType(v: Json): string {
    match v
    case Null => "null"
    case Bool(_) => "boolean"
    case Int(_) => "integer"
    case Float(r) => if IsInteger(r) then "integer" else "number"
    case Str(_) => "string"
    case Arr(_) => "array"
    case Obj(_) => "object"
  }

  /** Python's `==` on values that are neither lists nor dictionaries. */
  predicate ScalarEqual(x: Json, y: Json) {
    match (x, y)
    case (Int(i), Float(r)) => i as real == r
    case (Float(r), Int(i)) => i as real == r
    case _ => x == y
  }

  predicate JsonEqual(x: Json, y: Json)
    decreases x
  {
    if JsonType(x) != JsonType(y) then false
    else
      match x
      case Obj(fields) =>
        fields.Keys == y.fields.Keys && forall k :: k in fields ==> JsonEqual(fields[k], y.fields[k])
      case Arr(items) =>
        |items| == |y.items| && forall k :: 0 <= k < |items| ==> JsonEqual(items[k], y.items[k])
      case _ => ScalarEqual(x, y)
  }

  /** A value with its integral floats written as integers: equal values of the JSON data model have
      the same normal form. */
  function Normal(v: Json): Json
    decreases v
  {
    match v
    case Float(r) => if IsInteger(r) then Int(r.Floor) else v
    case Arr(items) => Arr(seq(|items|, k requires 0 <= k < |items| => Normal(items[k])))
    case Obj(fields) => Obj(map k | k in fields :: Normal(fields[k]))
    case _ => v
  }

  lemma ListNormal(a: seq<Json>, b: seq<Json>)
    ensures Normal(Arr(a)) == Normal(Arr(b))
       <==> |a| == |b| && forall k :: 0 <= k < |a| ==> Normal(a[k]) == Normal(b[k])
  {
    var x, y := Normal(Arr(a)).items, Normal(Arr(b)).items;
    assert |x| == |a| && |y| == |b|;
    assert forall k :: 0 <= k < |a| ==> x[k] == Normal(a[k]);
    assert forall k :: 0 <= k < |b| ==> y[k] == Normal(b[k]);
  }

  lemma ObjectNormal(a: map<string, Json>, b: map<string, Json>)
    ensures Normal(Obj(a)) == Normal(Obj(b))
       <==> a.Keys == b.Keys && forall k :: k in a ==> Normal(a[k]) == Normal(b[k])
  {
    var x, y := Normal(Obj(a)).fields, Normal(Obj(b)).fields;
    assert x.Keys == a.Keys && y.Keys == b.Keys;
    assert forall k :: k in a ==> x[k] == Normal(a[k]);
    assert forall k :: k in b ==> y[k] == Normal(b[k]);
  }

  /** The recursive comparison is equality of the data model: numbers by value, never across types. */
  lemma {:induction false} JsonEqualIsSameNormal(x: Json, y: Json)
    ensures JsonEqual(x, y) <==> Normal(x) == Normal(y)
    decreases x
  {
    match x
    case Arr(items) =>
      if y.Arr? {
        ListNormal(items, y.items);
        forall k | 0 <= k < |items| && k < |y.items|
          ensures JsonEqual(items[k], y.items[k]) <==> Normal(items[k]) == Normal(y.items[k])
        {
          JsonEqualIsSameNormal(items[k], y.items[k]);
        }
      }
    case Obj(fields) =>
      if y.Obj? {
        ObjectNormal(fields, y.fields);
        forall k | k in fields && k in y.fields
          ensures JsonEqual(fields[k], y.fields[k]) <==> Normal(fields[k]) == Normal(y.fields[k])
        {
          JsonEqualIsSameNormal(fields[k], y.fields[k]);
        }
      }
    case _ =>
  }

  datatype Place = Field(k: string) | Element(i: nat)

  /** A place in a document, from its root. */
  type Path = seq<Place>

  function At(doc: Json, p: Path): Option<Json>
    decreases |p|
  {
    if p == [] then Some(doc)
    else
      match (doc, p[0])
      case (Obj(fields), Field(k)) => if k in fields then At(fields[k], p[1..]) else None
      case (Arr(items), Element(i)) => if i < |items| then At(items[i], p[1..]) else None
      case _ => None
  }

  /** All the places of a document: finitely many, whatever its references. */
  function Paths(doc: Json): set<Path>
    decreases doc
  {
    {[]} +
    match doc
    case Arr(items) => set i, q | 0 <= i < |items| && q in Paths(items[i]) :: [Element(i)] + q
    case Obj(fields) => set k, q | k in fields && q in Paths(fields[k]) :: [Field(k)] + q
    case _ => {}
  }

  lemma {:induction false} PlacesAreFinite(doc: Json, p: Path)
    requires At(doc, p).Some?
    ensures p in Paths(doc)
    decreases |p|
  {
    if p != [] {
      assert p == [p[0]] + p[1..];
      match doc
      case Arr(items) => PlacesAreFinite(items[p[0].i], p[1..]);
      case Obj(fields) => PlacesAreFinite(fields[p[0].k], p[1..]);
      case _ =>
    }
  }
}

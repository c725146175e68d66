/** The round trip of MiniMax M3 parameters for values that fit their schemas. */
module MiniMaxTyped {
  import opened Strings
  import opened JsonValues
  import opened MiniMaxM3
  import opened MiniMaxTrees
  import opened MiniMaxPrinter

  /** A value as it is written: text, named members, or items. */
  datatype Val = Leaf(text: string) | Record(members: seq<Member>) | List(items: seq<Val>)
  datatype Member = Member(tag: string, value: Val)

  function TreeOf(tag: string, v: Val): Tree
    decreases v, 0
  {
    match v
    case Leaf(text) => Tree(tag, text, [], "")
    case Record(members) => Tree(tag, "", MemberTrees(members), "")
    case List(items) => Tree(tag, "", ItemTrees(items), "")
  }

  function MemberTrees(members: seq<Member>): seq<Tree>
    decreases members
  {
    if members == [] then [] else [TreeOf(members[0].tag, members[0].value)] + MemberTrees(members[1..])
  }

  function ItemTrees(items: seq<Val>): seq<Tree>
    decreases items
  {
    if items == [] then [] else [TreeOf("item", items[0])] + ItemTrees(items[1..])
  }

  predicate DistinctTags(members: seq<Member>) {
    forall i, j :: 0 <= i < j < |members| ==> members[i].tag != members[j].tag
  }

  /** The value is of the kind its schema names: members where no array is expected, items where one
      is, text where there is any or a scalar is expected; texts end in no blank. */
  predicate Typed(schema: Json, v: Val)
    decreases v
  {
    match v
    case Leaf(text) => StripRight(text) == text && (text != "" || IsScalarSchema(schema))
    case Record(members) =>
      && !IsArraySchema(schema) && !IsScalarSchema(schema) && DistinctTags(members)
      && forall m :: m in members ==> Typed(FieldSchema(schema, m.tag), m.value)
    case List(items) =>
      && IsArraySchema(schema)
      && forall i :: 0 <= i < |items| ==> Typed(ItemSchema(schema, i), items[i])
  }

  /** The JSON value meant: each member under its name, each item in its place, each text converted
      under the schema of its own place. */
  function ToJson(convert: Converter, schema: Json, v: Val): Json
    decreases v, 0
  {
    match v
    case Leaf(text) => convert(text, schema)
    case Record(members) => Obj(Fields(convert, schema, members))
    case List(items) =>
      Arr(seq(|items|, i requires 0 <= i < |items| => ToJson(convert, ItemSchema(schema, i), items[i])))
  }

  function Fields(convert: Converter, schema: Json, members: seq<Member>): map<string, Json>
    decreases members
  {
    if members == [] then map[]
    else
      var n, m := |members|, members[|members| - 1];
      Fields(convert, schema, members[..n - 1])[m.tag := ToJson(convert, FieldSchema(schema, m.tag), m.value)]
  }

  /** Each member is found under its own name, and there are no other names. */
  lemma {:induction false} FieldsAreMembers(convert: Converter, schema: Json, members: seq<Member>)
    requires DistinctTags(members)
    ensures Fields(convert, schema, members).Keys == set m | m in members :: m.tag
    ensures forall m :: m in members ==>
              Fields(convert, schema, members)[m.tag] == ToJson(convert, FieldSchema(schema, m.tag), m.value)
    decreases members
  {
    if members != [] {
      var n, last := |members|, members[|members| - 1];
      FieldsAreMembers(convert, schema, members[..n - 1]);
      assert forall m :: m in members <==> m in members[..n - 1] || m == last;
    }
  }

  /** A member with a new name is added to what is there. */
  lemma MemberDenotes(convert: Converter, schema: Json, fields: map<string, Json>, m: Member, rest: seq<Tree>)
    requires !IsArraySchema(schema) && m.tag !in fields
    requires Denotes(convert, FieldSchema(schema, m.tag), m.tag, m.value)
    ensures DenoteAll(convert, schema, Obj(fields), [TreeOf(m.tag, m.value)] + rest)
         == DenoteAll(convert, schema,
                      Obj(fields[m.tag := ToJson(convert, FieldSchema(schema, m.tag), m.value)]), rest)
  {
    hide ToJson, FieldSchema, IsArraySchema, TreeOf, Denote;
    var ts := [TreeOf(m.tag, m.value)] + rest;
    assert ts[1..] == rest;
    TagOfTree(m.tag, m.value);
  }

  lemma TagOfTree(tag: string, v: Val)
    ensures TreeOf(tag, v).tag == tag
  {
  }

  lemma {:induction false} MembersDenote(convert: Converter, schema: Json, members: seq<Member>, k: nat)
    requires !IsArraySchema(schema) && DistinctTags(members) && k <= |members|
    requires forall m :: m in members ==> Denotes(convert, FieldSchema(schema, m.tag), m.tag, m.value)
    ensures DenoteAll(convert, schema, Obj(Fields(convert, schema, members[..k])), MemberTrees(members[k..]))
         == Ok(Obj(Fields(convert, schema, members)))
    decreases |members| - k
  {
    hide ToJson, FieldSchema, IsArraySchema, Denotes, TreeOf;
    if k == |members| {
      assert members[..k] == members;
    } else {
      var m := members[k];
      FieldsAreMembers(convert, schema, members[..k]);
      assert members[k..][0] == m && members[k..][1..] == members[k + 1..];
      assert members[..k + 1][..k] == members[..k];
      MemberDenotes(convert, schema, Fields(convert, schema, members[..k]), m, MemberTrees(members[k + 1..]));
      MembersDenote(convert, schema, members, k + 1);
    }
  }

  ghost predicate Denotes(convert: Converter, schema: Json, tag: string, v: Val) {
    Denote(convert, schema, TreeOf(tag, v)) == Ok(ToJson(convert, schema, v))
  }

  lemma {:induction false} ItemsDenote(convert: Converter, schema: Json, items: seq<Val>, k: nat)
    requires IsArraySchema(schema) && k <= |items|
    requires forall i :: 0 <= i < |items| ==> Denotes(convert, ItemSchema(schema, i), "item", items[i])
    ensures DenoteAll(convert, schema, Arr(ToJson(convert, schema, List(items)).items[..k]), ItemTrees(items[k..]))
         == Ok(ToJson(convert, schema, List(items)))
    decreases |items| - k
  {
    hide IsArraySchema;
    var all := ToJson(convert, schema, List(items)).items;
    if k == |items| {
      assert all[..k] == all;
    } else {
      assert items[k..][0] == items[k] && items[k..][1..] == items[k + 1..];
      assert Denotes(convert, ItemSchema(schema, k), "item", items[k]);
      assert all[..k + 1] == all[..k] + [all[k]];
      ItemsDenote(convert, schema, items, k + 1);
    }
  }

  lemma NoneDenote(convert: Converter, schema: Json, value: Json)
    ensures DenoteAll(convert, schema, value, []) == Ok(value)
  {
  }

  /** A printed value denotes itself. */
  lemma {:induction false} ValueDenotes(convert: Converter, schema: Json, tag: string, v: Val)
    requires Typed(schema, v)
    ensures Denotes(convert, schema, tag, v)
    decreases v
  {
    hide IsArraySchema, IsScalarSchema, FieldSchema, ItemSchema, ChildSchema, AssignChild;
    KindOf(schema, v);
    if !v.Leaf? {
      ContainerDenotes(convert, schema, tag, v);
    }
    match v
    case Leaf(text) =>
      NoneDenote(convert, schema, convert(text, schema));
    case Record(members) =>
      forall m | m in members ensures Denotes(convert, FieldSchema(schema, m.tag), m.tag, m.value) {
        ValueDenotes(convert, FieldSchema(schema, m.tag), m.tag, m.value);
      }
      MembersDenote(convert, schema, members, 0);
      assert members[0..] == members && members[..0] == [];
    case List(items) =>
      forall i | 0 <= i < |items| ensures Denotes(convert, ItemSchema(schema, i), "item", items[i]) {
        ValueDenotes(convert, ItemSchema(schema, i), "item", items[i]);
      }
      ItemsDenote(convert, schema, items, 0);
      assert items[0..] == items && ToJson(convert, schema, v).items[..0] == [];
  }

  /** The text of a whole parameter list. */
  function Printed(v: Val): string {
    Joined(PiecesAll(TreeOf("", v).children))
  }

  /** The root value is the one the printed value starts from, unless it is the empty list. */
  lemma RootOfValue(convert: Converter, schema: Json, v: Val)
    requires Typed(schema, v) && !v.Leaf? && v != List([])
    ensures RootValue(schema, TreeOf("", v).children) == StartValue(convert, "", schema)
  {
    hide IsScalarSchema, IsArraySchema;
    KindOf(schema, v);
    if v.List? {
      TagOfTree("item", v.items[0]);
    }
  }

  /** Parsing what was printed gives the value back, except that an empty list comes back as an
      empty object. */
  lemma RoundTrip(convert: Converter, schema: Json, v: Val)
    requires Typed(schema, v) && !v.Leaf? && PrintableAll(TreeOf("", v).children)
    ensures Parse(convert, Printed(v), schema) == Ok(ToJson(convert, schema, v)) <==> v != List([])
    ensures v == List([]) ==> Parse(convert, Printed(v), schema) == Ok(Obj(map[]))
  {
    hide Parse, DenoteAll, Typed, PiecesAll, StartValue;
    var ts := TreeOf("", v).children;
    PrintedIsDenoted(convert, schema, ts);
    if v == List([]) {
      NoneDenote(convert, schema, Obj(map[]));
      assert RootValue(schema, []) == Obj(map[]);
    } else {
      RootOfValue(convert, schema, v);
      ValueDenotes(convert, schema, "", v);
      ContainerDenotes(convert, schema, "", v);
    }
  }

  lemma ContainerDenotes(convert: Converter, schema: Json, tag: string, v: Val)
    requires !v.Leaf?
    ensures Denote(convert, schema, TreeOf(tag, v))
         == DenoteAll(convert, schema, StartValue(convert, "", schema), TreeOf("", v).children)
  {
    assert StripRight("") == "";
  }

  lemma KindOf(schema: Json, v: Val)
    requires Typed(schema, v)
    ensures v.Record? ==> !IsArraySchema(schema) && !IsScalarSchema(schema) && DistinctTags(v.members)
    ensures v.List? ==> IsArraySchema(schema) && !IsScalarSchema(schema)
  {
  }
}

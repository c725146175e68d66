/** Which schema each part of a MiniMax M3 parameter is read under, told from the schema's JSON alone. */
module MiniMaxSchemas {
  import opened Strings
  import opened JsonValues
  import opened MiniMaxM3
  import opened MiniMaxTrees
  import opened MiniMaxPrinter

  /** All schemas declared for a name, in order: by the properties, or else by the branches of a schema. */
  function Declared(schema: Json, name: string): seq<Json>
    decreases schema
  {
    match schema
    case Obj(d) =>
      if "properties" in d && d["properties"].Obj? then
        if name in d["properties"].fields then [d["properties"].fields[name]] else []
      else
        (if "anyOf" in d && d["anyOf"].Arr? then DeclaredIn(d["anyOf"].items, name) else [])
        + (if "oneOf" in d && d["oneOf"].Arr? then DeclaredIn(d["oneOf"].items, name) else [])
        + (if "allOf" in d && d["allOf"].Arr? then DeclaredIn(d["allOf"].items, name) else [])
    case _ => []
  }

  function DeclaredIn(branches: seq<Json>, name: string): seq<Json>
    decreases branches
  {
    if branches == [] then [] else Declared(branches[0], name) + DeclaredIn(branches[1..], name)
  }

  /** A map knows a name exactly when there are declarations, and by the first of them. */
  predicate Knows(m: map<string, Json>, name: string, declared: seq<Json>) {
    (name in m <==> declared != []) && (name in m ==> m[name] == declared[0])
  }

  /** Of several declarations of a name the first wins. */
  lemma {:induction false} FirstWins(schema: Json, name: string)
    ensures Knows(SchemaProperties(schema), name, Declared(schema, name))
    decreases schema
  {
    hide Merged;
    match schema
    case Obj(d) =>
      if !("properties" in d && d["properties"].Obj?) {
        var none: map<string, Json> := map[];
        var any := if Get(schema, "anyOf").Arr? then Merged(none, schema.fields["anyOf"].items) else none;
        var one := if Get(schema, "oneOf").Arr? then Merged(any, schema.fields["oneOf"].items) else any;
        var inAny := if "anyOf" in d && d["anyOf"].Arr? then DeclaredIn(d["anyOf"].items, name) else [];
        var inOne := if "oneOf" in d && d["oneOf"].Arr? then DeclaredIn(d["oneOf"].items, name) else [];
        if Get(schema, "anyOf").Arr? {
          FirstMerged(none, d["anyOf"].items, name, []);
        }
        assert [] + inAny == inAny && inAny + [] == inAny && inAny + inOne + [] == inAny + inOne;
        if Get(schema, "oneOf").Arr? {
          FirstMerged(any, d["oneOf"].items, name, inAny);
        }
        if Get(schema, "allOf").Arr? {
          FirstMerged(one, d["allOf"].items, name, inAny + inOne);
        }
      }
    case _ =>
  }

  lemma {:induction false} FirstMerged(merged: map<string, Json>, branches: seq<Json>, name: string, before: seq<Json>)
    requires Knows(merged, name, before)
    ensures Knows(Merged(merged, branches), name, before + DeclaredIn(branches, name))
    decreases branches
  {
    hide Declared, SchemaProperties, Knows;
    if branches == [] {
      assert before + [] == before;
    } else {
      FirstWins(branches[0], name);
      var declared, more := Declared(branches[0], name), DeclaredIn(branches[1..], name);
      KnowsMore(SchemaProperties(branches[0]), merged, name, declared, before);
      FirstMerged(SchemaProperties(branches[0]) + merged, branches[1..], name, before + declared);
      assert before + declared + more == before + (declared + more);
    }
  }

  lemma KnowsMore(m: map<string, Json>, merged: map<string, Json>, name: string, declared: seq<Json>, before: seq<Json>)
    requires Knows(m, name, declared) && Knows(merged, name, before)
    ensures Knows(m + merged, name, before + declared)
  {
  }

  /** The schema itself if it is an object, and else none. */
  predicate Usable(c: Json, used: Json) {
    if c.Obj? then used == c else used == Null
  }

  /** A member's schema: the first one declared, or else the one for additional properties. */
  predicate MemberUnder(schema: Json, name: string, c: Json) {
    if Declared(schema, name) != [] then Usable(Declared(schema, name)[0], c)
    else if schema.Obj? && "additionalProperties" in schema.fields then Usable(schema.fields["additionalProperties"], c)
    else c == Null
  }

  lemma FieldSchemaIs(schema: Json, name: string, c: Json)
    ensures c == FieldSchema(schema, name) <==> MemberUnder(schema, name, c)
  {
    FirstWins(schema, name);
  }

  predicate ObjectAt(d: map<string, Json>, keyword: string) {
    keyword in d && d[keyword].Obj?
  }

  /** An item's schema: the one at its position, or else the one for additional items, for all items, or
      that of the last position. */
  predicate ItemUnder(schema: Json, i: nat, c: Json) {
    match schema
    case Obj(d) =>
      var prefix := if "prefixItems" in d && d["prefixItems"].Arr? then d["prefixItems"].items else [];
      if i < |prefix| then Usable(prefix[i], c)
      else if ObjectAt(d, "additionalItems") then c == d["additionalItems"]
      else if ObjectAt(d, "items") then c == d["items"]
      else if prefix != [] then Usable(prefix[|prefix| - 1], c)
      else c == Null
    case _ => c == Null
  }

  lemma ItemSchemaIs(schema: Json, i: nat, c: Json)
    ensures c == ItemSchema(schema, i) <==> ItemUnder(schema, i, c)
  {
  }

  /** The same letters, capital or not; `t` has no capital ones. */
  predicate SameLetters(s: string, t: string) {
    |s| == |t| && forall i :: 0 <= i < |s| ==> s[i] == t[i] || ('a' <= t[i] <= 'z' && s[i] == t[i] - 'a' + 'A')
  }

  predicate NoCapitals(t: string) {
    forall i :: 0 <= i < |t| ==> !('A' <= t[i] <= 'Z')
  }

  /** The `type` keyword is this name, or a list with it. */
  predicate TypeNamed(schema: Json, t: string) {
    && schema.Obj? && "type" in schema.fields
    && match schema.fields["type"]
       case Str(s) => SameLetters(s, t)
       case Arr(items) => exists i :: 0 <= i < |items| && items[i].Str? && SameLetters(items[i].s, t)
       case _ => false
  }

  lemma LowerIs(s: string, t: string)
    requires NoCapitals(t)
    ensures Lower(s) == t <==> SameLetters(s, t)
  {
    if SameLetters(s, t) {
      forall i | 0 <= i < |s| ensures Lower(s)[i] == t[i] {
        assert !('A' <= t[i] <= 'Z');
      }
    }
    if Lower(s) == t {
      forall i | 0 <= i < |s| ensures s[i] == t[i] || ('a' <= t[i] <= 'z' && s[i] == t[i] - 'a' + 'A') {
        assert Lower(s)[i] == LowerChar(s[i]) == t[i];
      }
    }
  }

  lemma TypesAre(schema: Json, t: string)
    requires NoCapitals(t)
    ensures t in Types(schema) <==> TypeNamed(schema, t)
  {
    forall s: string ensures Lower(s) == t <==> SameLetters(s, t) {
      LowerIs(s, t);
    }
  }

  /** Which schemas name an array, and which a scalar and no container. */
  lemma {:induction false} KindsAre(schema: Json)
    ensures IsArraySchema(schema) <==> TypeNamed(schema, "array")
    ensures IsScalarSchema(schema) <==>
            !TypeNamed(schema, "object") && !TypeNamed(schema, "array")
            && exists t :: t in SCALAR_NAMES && TypeNamed(schema, t)
  {
    hide Types, TypeNamed;
    TypesAre(schema, "object");
    TypesAre(schema, "array");
    ScalarNames();
    forall t | t in SCALAR_NAMES ensures t in Types(schema) <==> TypeNamed(schema, t) {
      TypesAre(schema, t);
    }
  }

  const SCALAR_NAMES := ["string", "str", "integer", "int", "number", "float", "boolean", "bool", "null"]

  lemma ScalarNames()
    ensures forall t :: t in SCALARS <==> t in SCALAR_NAMES
    ensures forall t :: t in SCALAR_NAMES ==> NoCapitals(t)
  {
  }

  /** What an element without children is read as: its text converted, where there is any or a scalar is
      expected, and else the empty container. */
  predicate ReadAs(convert: Converter, c: Json, text: string, value: Json) {
    if text != "" || IsScalarSchema(c) then value == convert(text, c)
    else if TypeNamed(c, "array") then value == Arr([])
    else value == Obj(map[])
  }

  lemma LeafDenotes(convert: Converter, c: Json, t: Tree)
    requires t.children == []
    ensures Denote(convert, c, t).Ok? && ReadAs(convert, c, StripRight(t.text), Denote(convert, c, t).value)
  {
    hide IsScalarSchema, IsArraySchema, TypeNamed, StripRight;
    KindsAre(c);
    assert DenoteAll(convert, c, StartValue(convert, StripRight(t.text), c), []) ==
           Ok(StartValue(convert, StripRight(t.text), c));
  }

  /** The values of the elements with a tag, in order. */
  function ValuesOf(convert: Converter, c: Json, tag: string, ts: seq<Tree>): seq<Result<Json>> {
    if ts == [] then []
    else (if ts[0].tag == tag then [Denote(convert, c, ts[0])] else []) + ValuesOf(convert, c, tag, ts[1..])
  }

  /** What elements of one tag add up to: one stands for itself; more make a list, or go on with the list
      that the first one is. */
  ghost predicate Gathered(values: seq<Result<Json>>, v: Json) {
    && values != [] && (forall r :: r in values ==> r.Ok?)
    && if |values| == 1 then v == values[0].value
       else
         && v.Arr?
         && var first := if values[0].value.Arr? then values[0].value.items else [values[0].value];
            |v.items| == |first| + |values| - 1 && v.items[..|first|] == first
            && forall i :: 1 <= i < |values| ==> v.items[|first| + i - 1] == values[i].value
  }

  lemma {:induction false} GatheredMore(values: seq<Result<Json>>, v: Json, child: Json)
    requires Gathered(values, v)
    ensures Gathered(values + [Ok(child)], if v.Arr? then Arr(v.items + [child]) else Arr([v, child]))
  {
    var more, n := values + [Ok(child)], |values|;
    assert more[0] == values[0] && more[n] == Ok(child) && forall i :: 0 <= i < n ==> more[i] == values[i];
  }

  /** Under a tag: what its elements add up to, or nothing if there are none. */
  ghost predicate HoldsUnder(values: seq<Result<Json>>, fields: map<string, Json>, tag: string) {
    if tag in fields then Gathered(values, fields[tag]) else values == []
  }

  /** Members read so far: under each tag what its elements add up to, and no other names. */
  ghost predicate Holds(convert: Converter, schema: Json, ts: seq<Tree>, fields: map<string, Json>) {
    forall tag :: HoldsUnder(ValuesOf(convert, FieldSchema(schema, tag), tag, ts), fields, tag)
  }

  lemma {:induction false} ValuesOfMore(convert: Converter, c: Json, tag: string, ts: seq<Tree>, t: Tree)
    ensures ValuesOf(convert, c, tag, ts + [t])
         == ValuesOf(convert, c, tag, ts) + if t.tag == tag then [Denote(convert, c, t)] else []
  {
    hide Denote, ValuesOf;
    if ts == [] {
      NoValues(convert, c, tag);
      ValuesFirst(convert, c, tag, t, []);
      assert [t] + [] == ts + [t] == [t];
    } else {
      ValuesFirst(convert, c, tag, ts[0], ts[1..]);
      ValuesFirst(convert, c, tag, ts[0], ts[1..] + [t]);
      assert [ts[0]] + ts[1..] == ts && [ts[0]] + (ts[1..] + [t]) == ts + [t];
      ValuesOfMore(convert, c, tag, ts[1..], t);
    }
  }

  lemma NoValues(convert: Converter, c: Json, tag: string)
    ensures ValuesOf(convert, c, tag, []) == []
  {
  }

  lemma ValuesFirst(convert: Converter, c: Json, tag: string, t: Tree, ts: seq<Tree>)
    ensures ValuesOf(convert, c, tag, [t] + ts)
         == (if t.tag == tag then [Denote(convert, c, t)] else []) + ValuesOf(convert, c, tag, ts)
  {
    hide Denote;
    assert ([t] + ts)[0] == t && ([t] + ts)[1..] == ts;
  }

  lemma {:induction false} HoldsMore(convert: Converter, schema: Json, ts: seq<Tree>, fields: map<string, Json>,
                                     t: Tree, child: Json, grown: map<string, Json>)
    requires Holds(convert, schema, ts, fields) && Denote(convert, FieldSchema(schema, t.tag), t) == Ok(child)
    requires AssignChild(Obj(fields), t.tag, child) == Ok(Obj(grown))
    ensures Holds(convert, schema, ts + [t], grown)
  {
    hide Denote, FieldSchema, Gathered, ValuesOf;
    forall tag ensures HoldsUnder(ValuesOf(convert, FieldSchema(schema, tag), tag, ts + [t]), grown, tag) {
      var c := FieldSchema(schema, tag);
      var values := ValuesOf(convert, c, tag, ts);
      ValuesOfMore(convert, c, tag, ts, t);
      assert HoldsUnder(values, fields, tag);
      if tag != t.tag {
        assert values + [] == values;
      } else if tag in fields {
        GatheredMore(values, fields[tag], child);
      } else {
        GatheredOne(child);
      }
    }
  }

  lemma GrowsToObject(fields: map<string, Json>, tag: string, child: Json)
    ensures AssignChild(Obj(fields), tag, child).Ok? && AssignChild(Obj(fields), tag, child).value.Obj?
  {
  }

  lemma GatheredOne(child: Json)
    ensures Gathered([] + [Ok(child)], child)
  {
  }

  lemma {:induction false} Gathers(convert: Converter, schema: Json, before: seq<Tree>, fields: map<string, Json>,
                                   ts: seq<Tree>)
    requires Holds(convert, schema, before, fields) && forall t :: t in ts ==> IsArraySchema(schema) ==> t.tag != "item"
    ensures var r := DenoteAll(convert, schema, Obj(fields), ts);
            r.Ok? ==> r.value.Obj? && Holds(convert, schema, before + ts, r.value.fields)
    decreases |ts|
  {
    hide Holds, Denote, AssignChild, IsArraySchema, FieldSchema;
    if ts == [] {
      assert before + ts == before;
    } else {
      var t := ts[0];
      assert t in ts && forall x :: x in ts[1..] ==> x in ts;
      if Denote(convert, FieldSchema(schema, t.tag), t).Ok? {
        var child := Denote(convert, FieldSchema(schema, t.tag), t).value;
        GrowsToObject(fields, t.tag, child);
        var grown := AssignChild(Obj(fields), t.tag, child).value.fields;
        HoldsMore(convert, schema, before, fields, t, child, grown);
        Gathers(convert, schema, before + [t], grown, ts[1..]);
        assert before + [t] + ts[1..] == before + ts;
      }
    }
  }

  lemma NothingHeld(convert: Converter, schema: Json)
    ensures Holds(convert, schema, [], map[])
  {
  }

  /** The object that printed elements are parsed to: under each tag what its elements add up to, each read
      under the schema of its name, and no other names. */
  lemma {:induction false} MembersGather(convert: Converter, schema: Json, ts: seq<Tree>)
    requires PrintableAll(ts) && (TypeNamed(schema, "array") ==> forall t :: t in ts ==> t.tag != "item")
    ensures var r := Parse(convert, Joined(PiecesAll(ts)), schema);
            r.Ok? ==> r.value.Obj? && forall tag, c :: MemberUnder(schema, tag, c) ==>
              HoldsUnder(ValuesOf(convert, c, tag, ts), r.value.fields, tag)
  {
    hide Parse, PrintableAll, DenoteAll, TypeNamed, IsArraySchema, MemberUnder, Gathered, ValuesOf, PiecesAll;
    PrintedIsDenoted(convert, schema, ts);
    KindsAre(schema);
    assert ts != [] ==> ts[0] in ts;
    NothingHeld(convert, schema);
    Gathers(convert, schema, [], map[], ts);
    assert [] + ts == ts;
    forall tag, c ensures MemberUnder(schema, tag, c) <==> c == FieldSchema(schema, tag) {
      FieldSchemaIs(schema, tag, c);
    }
  }

  /** One member and its text: it is stored as what its text is read as under the schema of its name. */
  lemma {:induction false} MemberParsed(convert: Converter, schema: Json, tag: string, text: string, c: Json)
    requires (TypeNamed(schema, "array") ==> tag != "item") && MemberUnder(schema, tag, c)
             && Printable(Tree(tag, text, [], ""))
    ensures var r := Parse(convert, "]<]minimax[>[<" + tag + ">" + text + "]<]minimax[>[</" + tag + ">", schema);
            r.Ok? && r.value.Obj? && r.value.fields.Keys == {tag}
            && ReadAs(convert, c, StripRight(text), r.value.fields[tag])
  {
    hide Parse, Denote, TypeNamed, IsArraySchema, MemberUnder, Printable, TagRight, ReadAs, StripRight, Joined;
    var t := Tree(tag, text, [], "");
    var ts := [t];
    assert ts[1..] == [];
    PiecesOfOne(t);
    OneJoined(tag, text);
    PrintableOne(t);
    KindsAre(schema);
    FieldSchemaIs(schema, tag, c);
    LeafDenotes(convert, c, t);
    PrintedIsDenoted(convert, schema, ts);
    assert RootValue(schema, ts) == Obj(map[]);
    assert DenoteAll(convert, schema, Obj(map[tag := Denote(convert, c, t).value]), ts[1..]) ==
           Ok(Obj(map[tag := Denote(convert, c, t).value]));
    var none: map<string, Json> := map[];
    assert none[tag := Denote(convert, c, t).value] == map[tag := Denote(convert, c, t).value];
  }

  lemma OneJoined(tag: string, text: string)
    ensures Joined([Opening(tag) + text, Ending(tag)]) ==
            "]<]minimax[>[<" + tag + ">" + text + "]<]minimax[>[</" + tag + ">"
  {
    var pieces := [Opening(tag) + text, Ending(tag)];
    assert pieces[1..] == [Ending(tag)] && [Ending(tag)][1..] == [];
    assert Joined([]) == "" && Joined([Ending(tag)]) == NS + (Ending(tag) + "");
    assert Joined(pieces) == NS + ((Opening(tag) + text) + (NS + (Ending(tag) + "")));
    assert NS + "<" == "]<]minimax[>[<" && NS + "</" == "]<]minimax[>[</";
  }

  /** An end tag may lack its bracket; an opening tag may not; and a piece that opens no tag is passed over. */
  lemma OtherPieces(tag: string, chunk: string)
    requires Strip(tag) == tag && '>' !in tag
    ensures Read("</" + tag) == Ok(Some(Close(tag)))
    ensures tag == "" || tag[0] != '/' ==> Read("<" + tag) == Err(NoBracket)
    ensures Strip(chunk) == "" || Strip(chunk)[0] != '<' ==> Read(chunk) == Ok(None)
  {
    hide IndexOf, IsSpace;
    EndKept("</", tag);
    EndKept("<", tag);
    NoFirstNoTag(">", tag);
    NoFirstNoTag(">", "<" + tag);
    assert ("</" + tag)[2..] == tag && "</" <= "</" + tag;
    assert tag != "" ==> ("<" + tag)[1] == tag[0];
    assert "<" <= "<" + tag;
  }

  lemma EndKept(front: string, tag: string)
    requires Strip(tag) == tag && front in ["<", "</"]
    ensures Strip(front + tag) == front + tag
  {
    hide IsSpace;
    TagsNoSpace();
    StripIsTrim(tag);
    var s := front + tag;
    assert s[0] == '<' && s[|s| - 1] == if tag == "" then front[|front| - 1] else tag[|tag| - 1];
    assert "" + (s + "") == s;
    StripTrims("", s, "");
  }

  lemma TagsNoSpace()
    ensures !IsSpace('<') && !IsSpace('/')
  {
  }

  lemma PiecesOfOne(t: Tree)
    requires t.children == [] && t.after == ""
    ensures PiecesAll([t]) == [Opening(t.tag) + t.text, Ending(t.tag)]
  {
    assert [t][1..] == [] && PiecesAll([]) == [];
    assert Ending(t.tag) + "" == Ending(t.tag);
    assert PiecesAll([t]) == Pieces(t) + [];
  }

  lemma PrintableOne(t: Tree)
    ensures Printable(t) ==> PrintableAll([t])
  {
    assert [t][1..] == [];
  }

  /** Items, each with a text: the list of what they are read as, each under the schema of its position. */
  lemma {:induction false} ItemsParsed(convert: Converter, schema: Json, ts: seq<Tree>)
    requires TypeNamed(schema, "array") && ts != [] && PrintableAll(ts)
    requires forall t :: t in ts ==> t.tag == "item" && t.children == []
    ensures var r := Parse(convert, Joined(PiecesAll(ts)), schema);
            r.Ok? && r.value.Arr? && |r.value.items| == |ts|
            && forall i, c :: 0 <= i < |ts| && ItemUnder(schema, i, c) ==>
                 ReadAs(convert, c, StripRight(ts[i].text), r.value.items[i])
  {
    hide Parse, PrintableAll, DenoteAll, TypeNamed, IsArraySchema, ItemUnder, PiecesAll, ReadAs, StripRight;
    PrintedIsDenoted(convert, schema, ts);
    KindsAre(schema);
    assert ts[0] in ts;
    ItemsRead(convert, schema, [], ts);
    assert [] + ts == ts;
  }

  /** Items read one by one. */
  ghost predicate ItemsHeld(convert: Converter, schema: Json, ts: seq<Tree>, items: seq<Json>) {
    |items| == |ts| &&
    forall i, c :: 0 <= i < |ts| && ItemUnder(schema, i, c) ==> ReadAs(convert, c, StripRight(ts[i].text), items[i])
  }

  lemma {:induction false} ItemsRead(convert: Converter, schema: Json, items: seq<Json>, ts: seq<Tree>)
    requires IsArraySchema(schema) && forall t :: t in ts ==> t.tag == "item" && t.children == []
    ensures var r := DenoteAll(convert, schema, Arr(items), ts);
            r.Ok? && r.value.Arr? && |r.value.items| == |items| + |ts| && items <= r.value.items
            && forall i, c :: |items| <= i < |items| + |ts| && ItemUnder(schema, i, c) ==>
                 ReadAs(convert, c, StripRight(ts[i - |items|].text), r.value.items[i])
    decreases |ts|
  {
    hide Denote, IsArraySchema, ItemUnder, ReadAs, StripRight, ItemSchema;
    if ts != [] {
      var t := ts[0];
      assert t in ts && forall x :: x in ts[1..] ==> x in ts;
      var own := ItemSchema(schema, |items|);
      LeafDenotes(convert, own, t);
      var child := Denote(convert, own, t).value;
      ItemsRead(convert, schema, items + [child], ts[1..]);
      var r := DenoteAll(convert, schema, Arr(items), ts);
      forall i, c | |items| <= i < |items| + |ts| && ItemUnder(schema, i, c)
        ensures ReadAs(convert, c, StripRight(ts[i - |items|].text), r.value.items[i])
      {
        if i == |items| {
          ItemSchemaIs(schema, i, c);
        } else {
          assert ts[i - |items|] == ts[1..][i - |items| - 1];
        }
      }
    }
  }
}

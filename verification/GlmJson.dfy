/** The transducer's output is JSON: one object, whose names and strings read back as what was written. */
module GlmJson {
  import opened Strings
  import opened ArgTags
  import opened Streaming
  import opened GlmTransducer
  import Dictionaries
  import Dumped = JsonStrings
  import Objects = JsonObjects
  import Json = JsonGrammar

  /** Escaping as `json.dumps` does. */
  function JsonEnv(kindOf: string -> Kind): Env {
    Env(c => Dumped.DumpChar(c), kindOf)
  }

  lemma {:induction false} EscapeIsDump(kindOf: string -> Kind, s: string)
    ensures Escape(JsonEnv(kindOf), s) == Dumped.Dump(s)
  {
    hide Dumped.DumpChar;
    if s != "" {
      var n := |s| - 1;
      EscapeIsDump(kindOf, s[..n]);
      assert s == s[..n] + [s[n]];
      Dumped.DumpConcat(s[..n], [s[n]]);
      OneDumped(s[n]);
    }
  }

  lemma OneDumped(c: char)
    ensures Dumped.Dump([c]) == Dumped.DumpChar(c)
  {
    hide Dumped.DumpChar;
    assert [c][1..] == "" && Dumped.Dump("") == "";
    assert Dumped.DumpChar(c) + "" == Dumped.DumpChar(c);
  }

  /** The JSON value that an argument stands for: the string of its text, or what its text is. */
  predicate StandsFor(kindOf: string -> Kind, a: Argument, v: Json.Value) {
    if kindOf(Strip(a.key)) == Quoted then v == Json.Str(Objects.UnitsOf(a.value)) else Json.TextOf(v) == a.value
  }

  lemma ValueTextIs(kindOf: string -> Kind, a: Argument, v: Json.Value)
    requires StandsFor(kindOf, a, v)
    ensures ValueText(JsonEnv(kindOf), kindOf(Strip(a.key)), a.value) == Json.TextOf(v)
  {
    hide Strip, Objects.UnitsOf, Dumped.Dump;
    EscapeIsDump(kindOf, a.value);
    Objects.QuotedReads(a.value);
    assert "" + a.value + "" == a.value;
  }

  /** The names of the arguments, in order. */
  function NamesOf(arguments: seq<Argument>): (names: seq<string>)
    ensures |names| == |arguments|
  {
    seq(|arguments|, i requires 0 <= i < |arguments| => Strip(arguments[i].key))
  }

  /** Arguments that can be read, cut in any way, come out as the text of one JSON object: its names are
      those of the arguments, its values what they stand for, in order; names and strings read back. */
  lemma OutputIsJson(kindOf: string -> Kind, arguments: seq<Argument>, pieces: seq<string>, values: seq<Json.Value>)
    requires (forall a :: a in arguments ==> Readable(a)) && Concat(pieces) == RenderAll(arguments)
    requires |values| == |arguments| && forall i :: 0 <= i < |arguments| ==> StandsFor(kindOf, arguments[i], values[i])
    ensures var o := PutPieces(JsonEnv(kindOf), FRESH, pieces);
            o.json + Finish(o.state) == Json.TextOf(Json.Obj("", Objects.Members(NamesOf(arguments), values)))
    ensures (forall v :: v in values ==> Json.WellFormed(v)) ==>
              Json.WellFormed(Json.Obj("", Objects.Members(NamesOf(arguments), values)))
    ensures forall i :: 0 <= i < |arguments| ==>
              Objects.ReadUnits(Objects.UnitsOf(NamesOf(arguments)[i])) == Some(NamesOf(arguments)[i])
    ensures forall i :: 0 <= i < |arguments| && kindOf(Strip(arguments[i].key)) == Quoted ==>
              values[i].Str? && Objects.ReadUnits(values[i].units) == Some(arguments[i].value)
  {
    hide PutPieces, Readable, Dictionaries.ObjectText, Dictionaries.DistinctKeys, Dictionaries.PutAll, Strip, Dumps,
      ValueText, Objects.UnitsOf, Objects.ReadUnits, Json.WellFormed, Json.TextOf, Dumped.Quoted, Escape;
    var env, d := JsonEnv(kindOf), EntriesOf(JsonEnv(kindOf), arguments);
    ArgumentsBecomeDictionary(env, arguments, pieces);
    DumpsAre(kindOf, d);
    forall i | 0 <= i < |arguments| ensures Json.TextOf(values[i]) == d[i].value {
      ValueTextIs(kindOf, arguments[i], values[i]);
    }
    Objects.ObjectIsJson(d, values);
    assert Objects.Names(d) == NamesOf(arguments);
    forall i | 0 <= i < |arguments| ensures d[i].key == NamesOf(arguments)[i] {
    }
    forall i | 0 <= i < |arguments|
      ensures Objects.ReadUnits(Objects.UnitsOf(arguments[i].value)) == Some(arguments[i].value)
    {
      Objects.QuotedReads(arguments[i].value);
    }
  }

  /** Keys are dumped as `json.dumps` dumps them. */
  lemma DumpsAre(kindOf: string -> Kind, d: Dictionaries.Entries<string>)
    ensures Dictionaries.ObjectText(k => Dumps(JsonEnv(kindOf), k), d) == Dictionaries.ObjectText(Dumped.Quoted, d)
  {
    hide Dumped.Quoted, Dumps;
    forall k: string ensures Dumps(JsonEnv(kindOf), k) == Dumped.Quoted(k) {
      KeyDumped(kindOf, k);
    }
    SameOpen(k => Dumps(JsonEnv(kindOf), k), Dumped.Quoted, d);
    if d != [] {
      SameOpen(k => Dumps(JsonEnv(kindOf), k), Dumped.Quoted, d[1..]);
    }
  }

  lemma KeyDumped(kindOf: string -> Kind, k: string)
    ensures Dumps(JsonEnv(kindOf), k) == Dumped.Quoted(k)
  {
    EscapeIsDump(kindOf, k);
  }

  lemma {:induction false} SameOpen(f: string -> string, g: string -> string, d: Dictionaries.Entries<string>)
    requires forall k :: f(k) == g(k)
    ensures Dictionaries.MoreOpen(f, d) == Dictionaries.MoreOpen(g, d)
  {
    if d != [] {
      SameOpen(f, g, d[1..]);
    }
  }

  /** One argument, its tags spelled out and cut in any way: a string is dumped, another value is copied. */
  lemma OneArgumentRead(kindOf: string -> Kind, key: string, value: string, pieces: seq<string>)
    requires '<' !in key && Trim(key) && '<' !in value
    requires Concat(pieces) == "<arg_key>" + key + "</arg_key>" + "<arg_value>" + value + "</arg_value>"
    ensures var o := PutPieces(JsonEnv(kindOf), FRESH, pieces);
            o.json + Finish(o.state) ==
            "{" + (Dumped.Quoted(key) + ": " + (if kindOf(key) == Quoted then Dumped.Quoted(value) else value)) + "}"
  {
    hide PutPieces, IndexOf, Strip, Dumps, Dumped.Quoted, ValueText, Residue;
    var env, a := JsonEnv(kindOf), Argument("", key, "", value);
    StripTrims("", key, "");
    assert "" + (key + "") == key;
    OneReadable(a);
    RenderOne(a);
    ArgumentsBecomeDictionary(env, [a], pieces);
    assert [a][1..] == [];
    KeyDumped(kindOf, key);
    ValueDumped(kindOf, kindOf(key), value);
    var d := EntriesOf(env, [a]);
    assert d[1..] == [];
  }

  lemma ValueDumped(kindOf: string -> Kind, kind: Kind, value: string)
    ensures ValueText(JsonEnv(kindOf), kind, value) == if kind == Quoted then Dumped.Quoted(value) else value
  {
    EscapeIsDump(kindOf, value);
    assert "" + value + "" == value;
  }

  lemma OneReadable(a: Argument)
    requires '<' !in a.before && '<' !in a.key && '<' !in a.between && '<' !in a.value
    ensures Readable(a)
  {
    NoFirstNoTag(KEY, a.before);
    NoFirstNoTag(KEY_END, a.key);
    NoFirstNoTag(VALUE, a.between);
    NoFirstNoTag(VALUE_END, a.value);
    NoResidue(a.value);
  }

  lemma {:induction false} NoResidue(v: string)
    requires '<' !in v
    ensures Residue(v) == ""
  {
    if v != "" {
      NoResidue(v[..|v| - 1]);
      assert [v[|v| - 1]][0] != VALUE_END[0];
    }
  }

  lemma RenderOne(a: Argument)
    ensures RenderAll([a]) == a.before + KEY + (a.key + KEY_END) + (a.between + VALUE) + (a.value + VALUE_END)
    ensures a.before == a.between == "" ==>
              RenderAll([a]) == KEY + a.key + KEY_END + VALUE + a.value + VALUE_END
  {
    assert [a][..0] == [];
    assert RenderAll([a]) == "" + Render(a);
  }
}

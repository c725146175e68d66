/** Gemma 4 arguments with blanks, line breaks and superfluous commas: the parser reads what is meant. */
module GemmaLayout {
  import opened Strings
  import opened Dictionaries
  import opened GemmaParser
  import opened GemmaPrinter
  import opened GemmaRoundTrip

  /** A value as somebody may write it: blanks behind a word, separators in front of entries and items and
      in front of a closing bracket. */
  datatype Laid =
    | Quoted(s: string)
    | Word(word: string, pad: string)
    | Object(entries: seq<LaidEntry>, end: string)
    | Array(items: seq<LaidItem>, end: string)

  /** An entry: separators, its key, blanks around the colon, its value. */
  datatype LaidEntry = LaidEntry(lead: string, key: string, pad: string, gap: string, value: Laid)

  datatype LaidItem = LaidItem(lead: string, value: Laid)

  function Written(v: Laid): string
    decreases v, 0
  {
    match v
    case Quoted(s) => "<|\"|>" + (s + "<|\"|>")
    case Word(word, pad) => word + pad
    case Object(entries, end) => "{" + (EntriesWritten(entries, end) + "}")
    case Array(items, end) => "[" + (ItemsWritten(items, end) + "]")
  }

  function EntriesWritten(entries: seq<LaidEntry>, end: string): string
    decreases entries
  {
    if entries == [] then end
    else
      var e := entries[0];
      e.lead + (e.key + (e.pad + (":" + (e.gap + (Written(e.value) + EntriesWritten(entries[1..], end))))))
  }

  function ItemsWritten(items: seq<LaidItem>, end: string): string
    decreases items
  {
    if items == [] then end
    else items[0].lead + (Written(items[0].value) + ItemsWritten(items[1..], end))
  }

  /** The value that is meant. */
  function Meant(v: Laid): Val
    decreases v, 0
  {
    match v
    case Quoted(s) => Text(s)
    case Word(word, _) => Bare(word)
    case Object(entries, _) => Dict(PutAll([], EntriesMeant(entries)))
    case Array(items, _) => List(ItemsMeant(items))
  }

  function EntriesMeant(entries: seq<LaidEntry>): Entries<Val>
    decreases entries
  {
    if entries == [] then [] else [Entry(entries[0].key, Meant(entries[0].value))] + EntriesMeant(entries[1..])
  }

  function ItemsMeant(items: seq<LaidItem>): seq<Val>
    decreases items
  {
    if items == [] then [] else [Meant(items[0].value)] + ItemsMeant(items[1..])
  }

  predicate Separating(s: string) {
    forall c :: c in s ==> c == ' ' || c == ',' || c == '\n' || c == '\t'
  }

  predicate Blank(s: string) {
    forall c :: c in s ==> c == ' ' || c == '\n' || c == '\t'
  }

  /** A word, and the blanks behind it, end at a comma. */
  predicate Follows(v: Laid, next: string) {
    v.Word? ==> next == "" || next[0] == ','
  }

  predicate WordSound(word: string, pad: string) {
    word != "" && Trim(word) && (forall c :: c in word ==> Plain(c) && c != ',') && Spaces(pad)
  }

  predicate KeySound(e: LaidEntry) {
    && Separating(e.lead) && Trim(e.key) && (forall c :: c in e.key ==> Plain(c) && c != ':')
    && (e.key == "" || e.key[0] != ',') && Spaces(e.pad) && (e.key == "" ==> e.pad == "") && Blank(e.gap)
  }

  ghost predicate Sound(v: Laid)
    decreases v, 0
  {
    match v
    case Quoted(s) => !Occurs("<|\"|>", s)
    case Word(word, pad) => WordSound(word, pad)
    case Object(entries, end) => EntriesSound(entries, end)
    case Array(items, end) => ItemsSound(items, end)
  }

  ghost predicate EntriesSound(entries: seq<LaidEntry>, end: string)
    decreases entries
  {
    if entries == [] then Separating(end)
    else
      && KeySound(entries[0]) && Sound(entries[0].value)
      && Follows(entries[0].value, EntriesWritten(entries[1..], end)) && EntriesSound(entries[1..], end)
  }

  /** An array directly inside an array is cut out where it ends. */
  ghost predicate ItemsSound(items: seq<LaidItem>, end: string)
    decreases items
  {
    if items == [] then Separating(end)
    else
      var v, rest := items[0].value, ItemsWritten(items[1..], end);
      && Separating(items[0].lead) && Sound(v) && Follows(v, rest)
      && (v.Array? ==> CutRight(ItemsWritten(v.items, v.end), rest == "")) && ItemsSound(items[1..], end)
  }

  lemma {:induction false} LeadingAll(lead: string, t: string, chars: set<char>)
    requires (forall c :: c in lead ==> c in chars) && (t == "" || t[0] !in chars)
    ensures Leading(lead + t, chars) == |lead| && (lead + t)[|lead|..] == t
    decreases |lead|
  {
    if lead == "" {
      assert lead + t == t;
    } else {
      assert (lead + t)[1..] == lead[1..] + t;
      assert lead[0] in lead && forall c :: c in lead[1..] ==> c in lead;
      LeadingAll(lead[1..], t, chars);
    }
  }

  /** Blanks and separators mean nothing to a scan for brackets. */
  lemma LayoutIsPlain(s: string)
    requires Separating(s) || Blank(s) || Spaces(s)
    ensures forall c :: c in s ==> Plain(c)
  {
  }

  /** A scan that knows about strings passes over a value however it is written. */
  lemma {:induction false} NestedLaid(v: Laid, rest: string, open: char, close: char, depth: nat)
    requires Sound(v) && depth > 0 && Pair(open, close)
    ensures Nested(Written(v) + rest, open, close, true, depth) == |Written(v)| + Nested(rest, open, close, true, depth)
    decreases v, 0
  {
    hide Nested, Occurs, EntriesSound, ItemsSound, Trim;
    match v
    case Quoted(s) =>
      assert Written(v) + rest == DELIM + (s + (DELIM + rest));
      NestedText(s, rest, open, close, depth);
    case Word(word, pad) =>
      LayoutIsPlain(pad);
      NestedPlain(word + pad, rest, open, close, depth);
    case Object(entries, end) =>
      var d := if open == '{' then depth + 1 else depth;
      var inner := EntriesWritten(entries, end);
      assert Written(v) + rest == ['{'] + (inner + (['}'] + rest));
      NestedChar('{', inner + (['}'] + rest), open, close, depth);
      NestedLaidEntries(entries, end, ['}'] + rest, open, close, d);
      NestedChar('}', rest, open, close, d);
    case Array(items, end) =>
      var d := if open == '[' then depth + 1 else depth;
      var inner := ItemsWritten(items, end);
      assert Written(v) + rest == ['['] + (inner + ([']'] + rest));
      NestedChar('[', inner + ([']'] + rest), open, close, depth);
      NestedLaidItems(items, end, [']'] + rest, open, close, d);
      NestedChar(']', rest, open, close, d);
  }

  lemma {:induction false} NestedLaidEntries(entries: seq<LaidEntry>, end: string, rest: string, open: char,
                                             close: char, depth: nat)
    requires EntriesSound(entries, end) && depth > 0 && Pair(open, close)
    ensures Nested(EntriesWritten(entries, end) + rest, open, close, true, depth) ==
            |EntriesWritten(entries, end)| + Nested(rest, open, close, true, depth)
    decreases entries
  {
    hide Nested, Sound, Written, Follows, Trim;
    if entries == [] {
      LayoutIsPlain(end);
      NestedPlain(end, rest, open, close, depth);
    } else {
      var e, more := entries[0], EntriesWritten(entries[1..], end);
      var front, back := e.lead + (e.key + e.pad), e.gap + (Written(e.value) + (more + rest));
      LayoutIsPlain(e.lead);
      LayoutIsPlain(e.pad);
      LayoutIsPlain(e.gap);
      assert EntriesWritten(entries, end) + rest == front + ([':'] + back);
      NestedPlain(front, [':'] + back, open, close, depth);
      NestedChar(':', back, open, close, depth);
      NestedPlain(e.gap, Written(e.value) + (more + rest), open, close, depth);
      NestedLaid(e.value, more + rest, open, close, depth);
      NestedLaidEntries(entries[1..], end, rest, open, close, depth);
    }
  }

  lemma {:induction false} NestedLaidItems(items: seq<LaidItem>, end: string, rest: string, open: char, close: char,
                                           depth: nat)
    requires ItemsSound(items, end) && depth > 0 && Pair(open, close)
    ensures Nested(ItemsWritten(items, end) + rest, open, close, true, depth) ==
            |ItemsWritten(items, end)| + Nested(rest, open, close, true, depth)
    decreases items
  {
    hide Nested, Sound, Written, Follows, CutRight;
    if items == [] {
      LayoutIsPlain(end);
      NestedPlain(end, rest, open, close, depth);
    } else {
      var v, more := items[0].value, ItemsWritten(items[1..], end);
      LayoutIsPlain(items[0].lead);
      assert ItemsWritten(items, end) + rest == items[0].lead + (Written(v) + (more + rest));
      NestedPlain(items[0].lead, Written(v) + (more + rest), open, close, depth);
      NestedLaid(v, more + rest, open, close, depth);
      NestedLaidItems(items[1..], end, rest, open, close, depth);
    }
  }

  /** A value starts with no separator and no closing bracket. */
  lemma LaidStarts(v: Laid)
    requires Sound(v)
    ensures var t := Written(v); t != "" && t[0] !in SEPARATORS && t[0] !in BLANKS && t[0] != ']'
  {
    if v.Word? {
      assert v.word[0] in v.word;
    }
  }

  /** The key of an entry, whatever stands around it. */
  lemma KeyLaid(e: LaidEntry, u: string)
    requires KeySound(e) && u != "" && u[0] !in BLANKS
    ensures KeyOf(e.lead + (e.key + (e.pad + (":" + (e.gap + u))))) == Some((e.key, u))
  {
    hide Strip, Leading, IndexOf, Occurs, IsSpace;
    var back := e.pad + (":" + (e.gap + u));
    KeyStarts(e, back);
    LeadingAll(e.lead, e.key + back, SEPARATORS);
    ColonFound(e, u);
    StripTrims("", e.key, e.pad);
    assert "" + (e.key + e.pad) == e.key + e.pad;
    LeadingAll(e.gap, u, BLANKS);
  }

  lemma KeyStarts(e: LaidEntry, back: string)
    requires KeySound(e) && (e.key == "" ==> back != "" && back[0] == ':')
    ensures e.key + back == "" || (e.key + back)[0] !in SEPARATORS
    ensures forall c :: c in e.lead ==> c in SEPARATORS
    ensures forall c :: c in e.gap ==> c in BLANKS
  {
    assert e.key != "" ==> e.key[0] in e.key && (e.key + back)[0] == e.key[0];
  }

  lemma ColonFound(e: LaidEntry, u: string)
    requires KeySound(e)
    ensures var t := e.key + (e.pad + (":" + (e.gap + u)));
            IndexOf(":", t) == |e.key + e.pad| && t[..|e.key + e.pad|] == e.key + e.pad
              && t[|e.key + e.pad| + 1..] == e.gap + u
  {
    hide Occurs, IndexOf;
    var front := e.key + e.pad;
    assert e.key + (e.pad + (":" + (e.gap + u))) == front + (":" + (e.gap + u));
    NoFirstNoTag(":", front);
    assert OpensOnce(":");
    IndexAfter(":", front, e.gap + u);
  }

  lemma WordLaid(word: string, pad: string, inArgs: bool, rest: string)
    requires WordSound(word, pad) && (rest == "" || rest[0] == ',')
    ensures OneValue(word + pad + rest, inArgs) == Some((Bare(word), rest))
  {
    hide Strip, Trim;
    var stops := if inArgs then ARGS_STOPS else ITEM_STOPS;
    LayoutIsPlain(pad);
    forall c | c in word + pad ensures c !in stops {
      assert c in word || c in pad;
    }
    UntilStop(word + pad, rest, stops);
    Cut(word + pad, rest);
    StripTrims("", word, pad);
    assert "" + (word + pad) == word + pad;
    assert word[0] in word && (word + pad + rest)[0] == word[0];
  }

  /** What stands in brackets that the scan finds closed at its end. */
  lemma BracketCut(inner: string, open: char, close: char, inArgs: bool, rest: string)
    requires Pair(open, close)
    requires Nested(inner + ([close] + rest), open, close, open == '{' || inArgs, 1) == |inner| + 1
    ensures OneValue([open] + (inner + ([close] + rest)), inArgs) ==
            if open == '{' then (if Args(inner, []).None? then None else Some((Dict(Args(inner, []).value), rest)))
            else (if Items(inner, []).None? then None else Some((List(Items(inner, []).value), rest)))
  {
    hide Nested, Args, Items;
    var t := [open] + (inner + ([close] + rest));
    assert t[1..] == inner + ([close] + rest);
    assert t[0] == open && !(DELIM <= t);
    assert Inside(t[1..], |inner| + 1) == inner;
    assert t[1..][|inner| + 1..] == rest;
  }

  /** A value is read however it is written, and what follows it is left. */
  lemma {:induction false} LaidBack(v: Laid, inArgs: bool, rest: string)
    requires Sound(v) && Follows(v, rest)
    requires !inArgs && v.Array? ==> CutRight(ItemsWritten(v.items, v.end), rest == "")
    ensures Written(v) + rest != "" && OneValue(Written(v) + rest, inArgs) == Some((Meant(v), rest))
    decreases v, 0
  {
    hide OneValue, Occurs, WordSound, EntriesSound, ItemsSound, Args, Items, CutRight, Nested, PutAll;
    LaidStarts(v);
    match v
    case Quoted(s) =>
      assert Written(v) + rest == DELIM + (s + (DELIM + rest));
      TextBack(s, inArgs, rest);
    case Word(word, pad) => WordLaid(word, pad, inArgs, rest);
    case Object(entries, end) =>
      var inner := EntriesWritten(entries, end);
      assert Written(v) + rest == ['{'] + (inner + (['}'] + rest));
      NestedLaidEntries(entries, end, ['}'] + rest, '{', '}', 1);
      NestedChar('}', rest, '{', '}', 1);
      NestedNone(rest, '{', '}', true);
      BracketCut(inner, '{', '}', inArgs, rest);
      LaidArgs(entries, end, []);
    case Array(items, end) =>
      var inner := ItemsWritten(items, end);
      assert Written(v) + rest == ['['] + (inner + ([']'] + rest));
      ArrayEnds(items, end, inArgs, rest);
      BracketCut(inner, '[', ']', inArgs, rest);
      LaidItems(items, end, []);
      assert [] + ItemsMeant(items) == ItemsMeant(items);
  }

  lemma ArrayEnds(items: seq<LaidItem>, end: string, inArgs: bool, rest: string)
    requires ItemsSound(items, end) && (!inArgs ==> CutRight(ItemsWritten(items, end), rest == ""))
    ensures var inner := ItemsWritten(items, end); Nested(inner + ([']'] + rest), '[', ']', inArgs, 1) == |inner| + 1
  {
    hide Nested, OpenAfter, ItemsSound;
    assert [']'] + rest == "]" + rest;
    if inArgs {
      NestedLaidItems(items, end, [']'] + rest, '[', ']', 1);
      NestedChar(']', rest, '[', ']', 1);
      NestedNone(rest, '[', ']', true);
    } else {
      CutIffRight(ItemsWritten(items, end), rest, 1);
    }
  }

  /** Arguments are read as the dictionary of their entries, however they are written. */
  lemma {:induction false} LaidArgs(entries: seq<LaidEntry>, end: string, d: Entries<Val>)
    requires EntriesSound(entries, end)
    ensures Args(EntriesWritten(entries, end), d) == Some(PutAll(d, EntriesMeant(entries)))
    decreases entries
  {
    hide OneValue, KeyOf, Sound, KeySound, Put, Follows;
    if entries == [] {
      NoKeyLeft(end);
      ArgsStep(end, d);
    } else {
      var e, more := entries[0], EntriesWritten(entries[1..], end);
      LaidStarts(e.value);
      KeyLaid(e, Written(e.value) + more);
      LaidBack(e.value, true, more);
      ArgsStep(EntriesWritten(entries, end), d);
      LaidArgs(entries[1..], end, Put(d, e.key, Meant(e.value)));
      assert EntriesMeant(entries)[1..] == EntriesMeant(entries[1..]);
    }
  }

  lemma NoKeyLeft(end: string)
    requires Separating(end)
    ensures KeyOf(end) == None
  {
    LeadingAll(end, "", SEPARATORS);
    assert end + "" == end;
    NoFirstNoTag(":", "");
  }

  lemma ItemBehind(lead: string, u: string, done: seq<Val>)
    requires Separating(lead) && u != "" && u[0] !in SEPARATORS
    requires OneValue(u, false).Some? && OneValue(u, false).value.1 != u
    ensures Items(lead + u, done) == Items(OneValue(u, false).value.1, done + [OneValue(u, false).value.0])
  {
    hide OneValue, Leading;
    LeadingAll(lead, u, SEPARATORS);
  }

  lemma NoItemLeft(end: string, done: seq<Val>)
    requires Separating(end)
    ensures Items(end, done) == Some(done)
  {
    LeadingAll(end, "", SEPARATORS);
    assert end + "" == end;
  }

  lemma {:induction false} LaidItems(items: seq<LaidItem>, end: string, done: seq<Val>)
    requires ItemsSound(items, end)
    ensures Items(ItemsWritten(items, end), done) == Some(done + ItemsMeant(items))
    decreases items
  {
    hide OneValue, Sound, CutRight, Follows, Items, Separating;
    if items == [] {
      NoItemLeft(end, done);
      assert done + [] == done;
    } else {
      var v, more := items[0].value, ItemsWritten(items[1..], end);
      LaidStarts(v);
      LaidBack(v, false, more);
      assert |Written(v) + more| > |more|;
      ItemBehind(items[0].lead, Written(v) + more, done);
      LaidItems(items[1..], end, done + [Meant(v)]);
      assert done + ItemsMeant(items) == done + [Meant(v)] + ItemsMeant(items[1..]);
    }
  }

  /** A text whose end is missing is all that is left. */
  lemma TextUnended(s: string, inArgs: bool)
    requires !Occurs("<|\"|>", s)
    ensures OneValue("<|\"|>" + s, inArgs) == Some((Text(s), ""))
  {
    Cut(DELIM, s);
  }

  /** A word ends at a comma or a closing bracket; as an item it may hold a closing brace. */
  lemma WordStops(word: string, stop: char, rest: string, inArgs: bool)
    requires word != "" && word[0] !in {'{', '[', '<'}
    requires forall c :: c in word ==> c != ',' && c != ']' && (inArgs ==> c != '}')
    requires stop == ',' || stop == ']' || (inArgs && stop == '}')
    ensures OneValue(word + ([stop] + rest), inArgs) == Some((Bare(Strip(word)), [stop] + rest))
  {
    hide Strip;
    var stops := if inArgs then ARGS_STOPS else ITEM_STOPS;
    UntilStop(word, [stop] + rest, stops);
    Cut(word, [stop] + rest);
    assert (word + ([stop] + rest))[0] == word[0];
  }

  /** A key without a value has an empty text. */
  lemma ValueMissing(e: LaidEntry, d: Entries<Val>)
    requires KeySound(e)
    ensures Args(e.lead + (e.key + (e.pad + (":" + (e.gap + "")))), d) == Some(Put(d, e.key, Text("")))
  {
    hide Strip, Leading, IndexOf, Occurs, IsSpace, Put;
    var t := e.lead + (e.key + (e.pad + (":" + (e.gap + ""))));
    var back := e.pad + (":" + (e.gap + ""));
    KeyStarts(e, back);
    LeadingAll(e.lead, e.key + back, SEPARATORS);
    ColonFound(e, "");
    StripTrims("", e.key, e.pad);
    assert "" + (e.key + e.pad) == e.key + e.pad;
    LeadingAll(e.gap, "", BLANKS);
    assert KeyOf(t) == Some((e.key, ""));
    ArgsStep(t, d);
  }

  /** Text without a colon is passed over. */
  lemma ColonMissing(t: string, d: Entries<Val>)
    requires ':' !in t
    ensures Args(t, d) == Some(d)
  {
    hide Leading, OneValue;
    NoFirstNoTag(":", t[Leading(t, SEPARATORS)..]);
    ArgsStep(t, d);
  }

  /** An object whose closing brace is missing is read without its last character, whatever that is. */
  lemma BraceMissing(entries: seq<LaidEntry>, end: string, inArgs: bool)
    requires EntriesSound(entries, end) && EntriesWritten(entries, end) != ""
    ensures var inner := EntriesWritten(entries, end);
            var read := Args(inner[..|inner| - 1], []);
            OneValue("{" + inner, inArgs) == if read.None? then None else Some((Dict(read.value), ""))
  {
    hide Nested, Args, EntriesSound, EntriesWritten;
    var inner := EntriesWritten(entries, end);
    NestedLaidEntries(entries, end, "", '{', '}', 1);
    NothingNested();
    assert inner + "" == inner;
    var t := "{" + inner;
    assert t[1..] == inner && t[0] == '{';
    assert Inside(inner, |inner|) == inner[..|inner| - 1];
  }

  lemma NothingNested()
    ensures forall open, close, strings, depth :: Nested("", open, close, strings, depth) == 0
  {
  }

  /** So a digit is lost where the brace behind it is missing. */
  lemma DigitLost()
    ensures Args("k:{a:12", []) == Some([Entry("k", Dict([Entry("a", Bare("1"))]))])
  {
    hide OneValue, Args, KeyOf, EntriesSound, EntriesWritten, EntriesMeant, PutAll;
    var a := LaidEntry("", "a", "", "", Word("12", ""));
    var b := a.(value := Word("1", ""));
    var rest := "{a:12";
    var v := Dict([Entry("a", Bare("1"))]);
    SmallWords(a, b);
    BraceMissing([a], "", true);
    LaidArgs([b], "", []);
    assert "a:12"[..3] == "a:1";
    assert "{" + "a:12" == rest;
    assert OneValue(rest, true) == Some((v, ""));
    KeyLaid(a.(key := "k"), rest);
    assert "" + ("k" + ("" + (":" + ("" + rest)))) == "k:{a:12";
    ArgsStep("k:{a:12", []);
    assert Put([], "k", v) == [Entry("k", v)];
    ColonMissing("", [Entry("k", v)]);
  }

  lemma SmallWords(a: LaidEntry, b: LaidEntry)
    requires a == LaidEntry("", "a", "", "", Word("12", "")) && b == a.(value := Word("1", ""))
    ensures EntriesSound([a], "") && EntriesSound([b], "") && KeySound(a)
    ensures EntriesWritten([a], "") == "a:12" && EntriesWritten([b], "") == "a:1"
    ensures PutAll([], EntriesMeant([b])) == [Entry("a", Bare("1"))]
  {
    assert [a][1..] == [] && [b][1..] == [];
    assert EntriesSound([], "") && EntriesWritten([], "") == "" && EntriesMeant([]) == [];
    assert Written(a.value) == "12" && Written(b.value) == "1";
    var e := Entry("a", Bare("1"));
    assert EntriesMeant([b]) == [e] && [e][1..] == [];
    assert PutAll([], [e]) == PutAll([e], []);
  }
}

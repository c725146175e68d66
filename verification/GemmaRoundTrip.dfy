/** Parsing printed Gemma 4 arguments gives the values back. */
module GemmaRoundTrip {
  import opened Strings
  import opened Dictionaries
  import opened GemmaParser
  import opened GemmaPrinter

  /** An array directly inside an array is cut out right exactly when `CutRight` says so. */
  lemma {:induction false} CutIffRight(t: string, rest: string, depth: nat)
    requires depth > 0
    ensures Nested(t + ("]" + rest), '[', ']', false, depth) == |t| + 1 <==>
            OpenAfter(t, depth) == 1 || (rest == "" && OpenAfter(t, depth) > 0)
    decreases |t|
  {
    var u := t + ("]" + rest);
    if t == "" {
      assert u[0] == ']' && u[1..] == rest;
      RawGoesOn(rest, depth - 1);
    } else {
      assert u[0] == t[0] && u[1..] == t[1..] + ("]" + rest);
      if t[0] == '[' {
        CutIffRight(t[1..], rest, depth + 1);
      } else if t[0] != ']' {
        CutIffRight(t[1..], rest, depth);
      } else if depth > 1 {
        CutIffRight(t[1..], rest, depth - 1);
      }
    }
  }

  lemma RawGoesOn(rest: string, depth: nat)
    ensures Nested(rest, '[', ']', false, depth) > 0 <==> depth > 0 && rest != ""
  {
  }

  lemma {:induction false} UntilStop(w: string, rest: string, stops: set<char>)
    requires (forall c :: c in w ==> c !in stops) && (rest == "" || rest[0] in stops)
    ensures Until(w + rest, stops) == |w|
  {
    if w == "" {
      assert w + rest == rest;
    } else {
      assert (w + rest)[1..] == w[1..] + rest;
      assert w[0] in w && forall c :: c in w[1..] ==> c in w;
      UntilStop(w[1..], rest, stops);
    }
  }

  /** A printed value starts with no blank, comma, closing bracket or colon. */
  lemma PrintStarts(v: Val)
    requires Printable(v)
    ensures Print(v) != "" && Print(v)[0] !in SEPARATORS && Print(v)[0] != ']'
  {
    if v.Bare? {
      StrippedStart(v.word);
      assert v.word[0] in v.word;
    }
  }

  lemma TextBack(s: string, inArgs: bool, rest: string)
    requires !Occurs(DELIM, s)
    ensures OneValue(DELIM + (s + (DELIM + rest)), inArgs) == Some((Text(s), rest))
  {
    hide IndexOf, Occurs, OpensOnce;
    DelimOpensOnce();
    Cut(DELIM, s + (DELIM + rest));
    IndexAfter(DELIM, s, rest);
    assert (s + (DELIM + rest))[|s| + |DELIM|..] == rest;
  }

  lemma BareBack(word: string, inArgs: bool, rest: string)
    requires WordRight(word) && (rest == "" || rest[0] == ',' || rest[0] == ']')
    ensures OneValue(word + rest, inArgs) == Some((Bare(word), rest))
  {
    hide Strip;
    UntilStop(word, rest, if inArgs then ARGS_STOPS else ITEM_STOPS);
    Cut(word, rest);
    assert word[0] in word && (word + rest)[0] == word[0];
  }

  lemma DictBack(entries: Entries<Val>, inArgs: bool, rest: string)
    requires EntriesPrintable(entries)
    ensures var args := Args(PrintEntries(entries), []);
            OneValue("{" + (PrintEntries(entries) + ("}" + rest)), inArgs) ==
            if args.None? then None else Some((Dict(args.value), rest))
  {
    hide Nested, Args, PrintEntries, EntriesPrintable, Items;
    var inner := PrintEntries(entries);
    var t := "{" + (inner + ("}" + rest));
    assert t[1..] == inner + ("}" + rest);
    NestedEntries(entries, "}" + rest, '{', '}', 1);
    NestedChar('}', rest, '{', '}', 1);
    assert ['}'] + rest == "}" + rest;
    NestedNone(rest, '{', '}', true);
    assert t[0] == '{' && !(DELIM <= t);
    assert Inside(t[1..], |inner| + 1) == inner;
    assert (inner + ("}" + rest))[..|inner|] == inner && (inner + ("}" + rest))[|inner| + 1..] == rest;
  }

  lemma NestedNone(rest: string, open: char, close: char, strings: bool)
    ensures Nested(rest, open, close, strings, 0) == 0
  {
  }

  lemma ListBack(items: seq<Val>, inArgs: bool, rest: string)
    requires ItemsPrintable(items)
    requires !inArgs ==> CutRight(PrintItems(items), rest == "")
    ensures var read := Items(PrintItems(items), []);
            OneValue("[" + (PrintItems(items) + ("]" + rest)), inArgs) ==
            if read.None? then None else Some((List(read.value), rest))
  {
    hide Nested, Args, PrintItems, ItemsPrintable, Items, OpenAfter;
    var inner := PrintItems(items);
    var t := "[" + (inner + ("]" + rest));
    assert t[1..] == inner + ("]" + rest);
    if inArgs {
      NestedItems(items, "]" + rest, '[', ']', 1);
      NestedChar(']', rest, '[', ']', 1);
      assert [']'] + rest == "]" + rest;
      NestedNone(rest, '[', ']', true);
    } else {
      CutIffRight(inner, rest, 1);
    }
    assert Nested(t[1..], '[', ']', inArgs, 1) == |inner| + 1;
    assert t[0] == '[' && !(DELIM <= t);
    assert Inside(t[1..], |inner| + 1) == inner;
    assert (inner + ("]" + rest))[..|inner|] == inner && (inner + ("]" + rest))[|inner| + 1..] == rest;
  }

  /** A printed value is read back, and what follows it is left. */
  lemma {:induction false} ValueBack(v: Val, inArgs: bool, rest: string)
    requires Right(v) && (rest == "" || rest[0] == ',' || rest[0] == ']')
    requires !inArgs && v.List? ==> CutRight(PrintItems(v.items), rest == "")
    ensures Print(v) + rest != "" && OneValue(Print(v) + rest, inArgs) == Some((v, rest))
    decreases v, 0
  {
    hide OneValue, Occurs, WordRight, EntriesPrintable, ItemsPrintable, EntriesCut, ItemsCut, Args, Items, CutRight,
      DistinctKeys;
    PrintStarts(v);
    match v
    case Text(s) =>
      assert Print(v) + rest == DELIM + (s + (DELIM + rest));
      TextBack(s, inArgs, rest);
    case Bare(word) => BareBack(word, inArgs, rest);
    case Dict(entries) =>
      assert Print(v) + rest == "{" + (PrintEntries(entries) + ("}" + rest));
      assert [] + entries == entries;
      EntriesBack(entries, []);
      DictBack(entries, inArgs, rest);
    case List(items) =>
      assert Print(v) + rest == "[" + (PrintItems(items) + ("]" + rest));
      ItemsBack(items, []);
      assert [] + items == items;
      ListBack(items, inArgs, rest);
  }

  lemma LeadingNone(t: string, chars: set<char>)
    requires t == "" || t[0] !in chars
    ensures Leading(t, chars) == 0
  {
  }

  lemma KeyBack(key: string, u: string)
    requires KeyRight(key) && (u == "" || u[0] !in BLANKS)
    ensures KeyOf(key + (":" + u)) == Some((key, u))
  {
    hide Strip, Leading, IndexOf, Occurs;
    var t := key + (":" + u);
    if key != "" {
      StrippedStart(key);
      assert key[0] in key;
    }
    LeadingNone(t, SEPARATORS);
    assert t[0..] == t;
    NoFirstNoTag(":", key);
    assert OpensOnce(":");
    IndexAfter(":", key, u);
    Cut(key, ":" + u);
    assert t[|key| + 1..] == u;
    LeadingNone(u, BLANKS);
    assert u[0..] == u;
  }

  /** A comma in front of the next entry or item is passed over. */
  lemma CommaSkipped(t: string)
    requires t == "" || t[0] !in SEPARATORS
    ensures Leading("," + t, SEPARATORS) == 1 && Leading(t, SEPARATORS) == 0
    ensures ("," + t)[1..] == t && t[0..] == t
  {
    assert ("," + t)[1..] == t;
  }

  lemma EntriesStart(entries: Entries<Val>)
    requires EntriesPrintable(entries)
    ensures PrintEntries(entries) == "" || PrintEntries(entries)[0] !in SEPARATORS
  {
    if entries != [] && entries[0].key != "" {
      StrippedStart(entries[0].key);
    }
  }

  lemma {:induction false} EntriesBack(entries: Entries<Val>, d: Entries<Val>)
    requires EntriesRight(entries) && DistinctKeys(d + entries)
    ensures Args(PrintEntries(entries), d) == Some(d + entries)
    ensures Args("," + PrintEntries(entries), d) == Some(d + entries)
    decreases entries
  {
    hide OneValue, KeyOf, Printable, Cuts, KeyRight, Print, DistinctKeys, Put;
    EntriesStart(entries);
    KeyBehindComma(PrintEntries(entries));
    if entries == [] {
      NoKey();
      assert d + entries == d;
    } else {
      var Entry(key, v) := entries[0];
      var more := MoreEntries(entries[1..]);
      PrintStarts(v);
      KeyBack(key, Print(v) + more);
      ValueBack(v, true, more);
      NewKey(d, entries);
      assert d + entries == (d + [entries[0]]) + entries[1..];
      EntriesBack(entries[1..], d + [entries[0]]);
      ArgsStep(PrintEntries(entries), d);
    }
    ArgsStep("," + PrintEntries(entries), d);
    ArgsStep(PrintEntries(entries), d);
  }

  lemma NoKey()
    ensures KeyOf("") == None
  {
    NoFirstNoTag(":", "");
  }

  lemma KeyBehindComma(t: string)
    requires t == "" || t[0] !in SEPARATORS
    ensures KeyOf("," + t) == KeyOf(t)
  {
    hide Strip, IndexOf, Leading;
    CommaSkipped(t);
  }

  lemma NewKey(d: Entries<Val>, entries: Entries<Val>)
    requires entries != [] && DistinctKeys(d + entries)
    ensures Put(d, entries[0].key, entries[0].value) == d + [entries[0]]
  {
    PutGrows(d, entries[0].key, entries[0].value);
    assert (d + entries)[|d|] == entries[0];
    assert forall i :: 0 <= i < |d| ==> (d + entries)[i] == d[i];
  }

  lemma {:induction false} ItemsBack(items: seq<Val>, done: seq<Val>)
    requires ItemsRight(items)
    ensures Items(PrintItems(items), done) == Some(done + items)
    ensures Items("," + PrintItems(items), done) == Some(done + items)
    decreases items
  {
    hide OneValue, Printable, Cuts, Print, CutRight;
    if items == [] {
      CommaSkipped("");
      assert done + items == done;
    } else {
      var v, more := items[0], MoreItems(items[1..]);
      var t := PrintItems(items);
      PrintStarts(v);
      CommaSkipped(t);
      ValueBack(v, false, more);
      ItemsBack(items[1..], done + [v]);
      assert done + items == (done + [v]) + items[1..];
      assert Items(t, done) == Items(more, done + [v]);
      assert more == "" ==> Items(more, done + [v]) == Some(done + [v]);
    }
  }

  /** What is printed for a call's arguments parses to those arguments, and the parser comes to an end
      on it. */
  lemma RoundTrip(entries: Entries<Val>)
    requires Right(Dict(entries))
    ensures Args(PrintEntries(entries), []) == Some(entries)
  {
    assert [] + entries == entries;
    EntriesBack(entries, []);
  }

  /** Words that an item may hold as they are. */
  predicate ItemWord(word: string) {
    word != "" && word[0] !in SEPARATORS && word[0] != '{' && word[0] != '[' && word[0] != '<'
    && forall c :: c in word ==> c !in ITEM_STOPS
  }

  /** The parser never comes back from an item that would start with a closing bracket. */
  lemma BracketNeverEnds(rest: string, done: seq<Val>)
    ensures Items("]" + rest, done) == None
  {
    var u := "]" + rest;
    assert u[0] == ']' && u[0..] == u;
  }

  /** A string that holds a bracket, in an array directly inside an array, where brackets do not
      balance: the parser does not terminate on what was printed. */
  lemma UnbalancedNeverEnds(word: string)
    requires ItemWord(word)
    ensures Items(PrintItems([List([Text("]" + word)])]), []) == None
  {
    hide Items, Until, Strip, IndexOf;
    var inside := DELIM + (("]" + word) + DELIM);
    var u := "[" + (inside + "]");
    PrintsAs(word);
    var behind := word + (DELIM + "]");
    assert u[1..] == DELIM + ("]" + behind);
    CutsEarly(behind);
    assert (DELIM + ("]" + behind))[..|DELIM|] == DELIM && (DELIM + ("]" + behind))[|DELIM| + 1..] == behind;
    EmptyText();
    ItemStep(u, []);
    var done := [List([Text("")])];
    assert OneValue(u, false) == Some((List([Text("")]), behind));
    assert [] + [List([Text("")])] == done;
    WordThenBracket(word, done);
  }

  /** Where the bracket is all of the string, it comes back as another value. */
  lemma BracketAlone()
    ensures Items(PrintItems([List([Text("]")])]), []) == Some([List([Text("")]), Text("]")])
  {
    hide Items, Until, Strip, IndexOf;
    var u := "[" + ((DELIM + ("]" + DELIM)) + "]");
    PrintsAs("");
    assert "]" + "" == "]";
    var behind := DELIM + "]";
    assert u[1..] == DELIM + ("]" + behind);
    CutsEarly(behind);
    assert (DELIM + ("]" + behind))[..|DELIM|] == DELIM && (DELIM + ("]" + behind))[|DELIM| + 1..] == behind;
    EmptyText();
    ItemStep(u, []);
    var done := [List([Text("")])];
    assert OneValue(u, false) == Some((List([Text("")]), behind));
    assert [] + [List([Text("")])] == done;
    NoFirstNoTag(DELIM, "]");
    assert behind[|DELIM|..] == "]";
    ItemStep(behind, done);
    NoItems(done + [Text("]")]);
    assert done + [Text("]")] == [List([Text("")]), Text("]")];
  }

  lemma PrintsAs(word: string)
    ensures PrintItems([List([Text("]" + word)])]) == "[" + ((DELIM + (("]" + word) + DELIM)) + "]")
  {
    var items := [Text("]" + word)];
    assert items[1..] == [] && [List(items)][1..] == [];
    assert PrintItems(items) == DELIM + (("]" + word) + DELIM) + "";
  }

  lemma CutsEarly(behind: string)
    ensures Nested(DELIM + ("]" + behind), '[', ']', false, 1) == |DELIM| + 1
  {
    OpenBehind(DELIM, "", 1);
    assert DELIM + "" == DELIM;
    CutIffRight(DELIM, behind, 1);
  }

  lemma NoItems(done: seq<Val>)
    ensures Items("", done) == Some(done)
  {
    LeadingNone("", SEPARATORS);
  }

  lemma EmptyText()
    ensures Items(DELIM, []) == Some([Text("")])
  {
    assert DELIM[|DELIM|..] == "" && DELIM[0..] == DELIM;
    NoFirstNoTag(DELIM, "");
    assert OneValue(DELIM, false) == Some((Text(""), ""));
    ItemStep(DELIM, []);
    var none: seq<Val> := [];
    assert none + [Text("")] == [Text("")];
    NoItems([Text("")]);
  }

  /** One round of the loop over the items. */
  lemma ItemStep(u: string, done: seq<Val>)
    requires u != "" && u[0] !in SEPARATORS
    ensures Items(u, done) ==
      var one := OneValue(u, false);
      if one.None? || one.value.1 == u then None else Items(one.value.1, done + [one.value.0])
  {
    hide OneValue;
    LeadingNone(u, SEPARATORS);
    assert u[0..] == u;
  }

  lemma WordThenBracket(word: string, done: seq<Val>)
    requires ItemWord(word)
    ensures Items(word + (DELIM + "]"), done) == None
  {
    hide Strip, Items;
    var u := word + (DELIM + "]");
    var whole := word + DELIM;
    assert u == whole + "]";
    UntilStop(whole, "]", ITEM_STOPS);
    assert u[0] == word[0];
    ItemStep(u, done);
    assert u[|whole|..] == "]" + "";
    BracketNeverEnds("", done + [Bare(Strip(u[..|whole|]))]);
  }

  /** No string of the value holds a square bracket. */
  predicate BracketFree(v: Val)
    decreases v
  {
    match v
    case Text(s) => '[' !in s && ']' !in s
    case Bare(_) => true
    case Dict(entries) => forall e :: e in entries ==> BracketFree(e.value)
    case List(items) => forall x :: x in items ==> BracketFree(x)
  }

  lemma {:induction false} OpenBehind(w: string, rest: string, depth: nat)
    requires depth > 0 && '[' !in w && ']' !in w
    ensures OpenAfter(w + rest, depth) == OpenAfter(rest, depth)
  {
    if w == "" {
      assert w + rest == rest;
    } else {
      assert (w + rest)[0] == w[0] && (w + rest)[1..] == w[1..] + rest;
      OpenBehind(w[1..], rest, depth);
    }
  }

  /** Without brackets in strings, a printed value closes all it opens. */
  lemma {:induction false} OpenBehindValue(v: Val, rest: string, depth: nat)
    requires Printable(v) && BracketFree(v) && depth > 0
    ensures OpenAfter(Print(v) + rest, depth) == OpenAfter(rest, depth)
    decreases v, 0
  {
    hide OpenAfter, Occurs;
    match v
    case Text(s) =>
      assert Print(v) + rest == (DELIM + s + DELIM) + rest;
      OpenBehind(DELIM + s + DELIM, rest, depth);
    case Bare(word) => OpenBehind(word, rest, depth);
    case Dict(entries) =>
      assert Print(v) + rest == "{" + (PrintEntries(entries) + ("}" + rest));
      OpenBehind("{", PrintEntries(entries) + ("}" + rest), depth);
      OpenBehindEntries(entries, "}" + rest, depth);
      OpenBehind("}", rest, depth);
    case List(items) =>
      assert Print(v) + rest == "[" + (PrintItems(items) + ("]" + rest));
      Brackets(PrintItems(items) + ("]" + rest), rest, depth);
      OpenBehindItems(items, "]" + rest, depth + 1);
  }

  lemma Brackets(behind: string, rest: string, depth: nat)
    requires depth > 0
    ensures OpenAfter("[" + behind, depth) == OpenAfter(behind, depth + 1)
    ensures OpenAfter("]" + rest, depth + 1) == OpenAfter(rest, depth)
  {
    assert ("[" + behind)[1..] == behind && ("]" + rest)[1..] == rest;
  }

  lemma KeyOpensNothing(key: string)
    requires KeyRight(key)
    ensures '[' !in key + ":" && ']' !in key + ":"
  {
  }

  lemma {:induction false} OpenBehindEntries(entries: Entries<Val>, rest: string, depth: nat)
    requires EntriesPrintable(entries) && (forall e :: e in entries ==> BracketFree(e.value)) && depth > 0
    ensures OpenAfter(PrintEntries(entries) + rest, depth) == OpenAfter(rest, depth)
    decreases entries
  {
    hide OpenAfter, Printable, Print, BracketFree, KeyRight, PrintEntries, MoreEntries;
    if entries == [] {
      NoEntries();
      assert "" + rest == rest;
    } else {
      var Entry(key, v) := entries[0];
      assert entries[0] in entries && forall e :: e in entries[1..] ==> e in entries;
      var more := MoreEntries(entries[1..]) + rest;
      EntriesParts(entries, rest);
      KeyOpensNothing(key);
      OpenBehind(key + ":", Print(v) + more, depth);
      OpenBehindValue(v, more, depth);
      OpenBehindEntries(entries[1..], rest, depth);
      OpenBehind(",", PrintEntries(entries[1..]) + rest, depth);
    }
  }

  lemma NoEntries()
    ensures PrintEntries([]) == ""
  {
  }

  lemma EntriesParts(entries: Entries<Val>, rest: string)
    requires entries != []
    ensures PrintEntries(entries) + rest
         == (entries[0].key + ":") + (Print(entries[0].value) + (MoreEntries(entries[1..]) + rest))
    ensures MoreEntries(entries[1..]) + rest
         == if entries[1..] == [] then PrintEntries(entries[1..]) + rest else "," + (PrintEntries(entries[1..]) + rest)
  {
    hide Print, MoreEntries;
    var key, v, more := entries[0].key, Print(entries[0].value), MoreEntries(entries[1..]);
    Assoc(key, ":" + (v + more), rest);
    Assoc(":", v + more, rest);
    Assoc(v, more, rest);
    Assoc(key, ":", v + (more + rest));
    MoreParts(entries[1..], rest);
  }

  lemma MoreParts(entries: Entries<Val>, rest: string)
    ensures MoreEntries(entries) + rest
         == if entries == [] then PrintEntries(entries) + rest else "," + (PrintEntries(entries) + rest)
  {
    Assoc(",", PrintEntries(entries), rest);
  }

  lemma {:induction false} OpenBehindItems(items: seq<Val>, rest: string, depth: nat)
    requires ItemsPrintable(items) && (forall x :: x in items ==> BracketFree(x)) && depth > 0
    ensures OpenAfter(PrintItems(items) + rest, depth) == OpenAfter(rest, depth)
    decreases items
  {
    hide OpenAfter, Printable, Print, BracketFree;
    if items == [] {
      assert "" + rest == rest;
    } else {
      assert items[0] in items && forall x :: x in items[1..] ==> x in items;
      var more := MoreItems(items[1..]) + rest;
      assert PrintItems(items) + rest == Print(items[0]) + more;
      OpenBehindValue(items[0], more, depth);
      OpenBehindItems(items[1..], rest, depth);
      if items[1..] == [] {
        assert more == rest;
      } else {
        assert more == "," + (PrintItems(items[1..]) + rest);
        OpenBehind(",", PrintItems(items[1..]) + rest, depth);
      }
    }
  }

  /** An array without brackets in its strings is cut out right wherever it stands. */
  lemma BracketFreeIsCutRight(items: seq<Val>, last: bool)
    requires ItemsPrintable(items) && BracketFree(List(items))
    ensures CutRight(PrintItems(items), last)
  {
    OpenBehindItems(items, "", 1);
    assert PrintItems(items) + "" == PrintItems(items);
  }

  /** No string beneath an array directly inside an array holds a square bracket. */
  predicate QuietNested(v: Val)
    decreases v
  {
    match v
    case Dict(entries) => forall e :: e in entries ==> QuietNested(e.value)
    case List(items) => forall x :: x in items ==> QuietNested(x) && (x.List? ==> BracketFree(x))
    case _ => true
  }

  /** Such values are cut out right all through. */
  lemma {:induction false} QuietIsCut(v: Val)
    requires Printable(v) && QuietNested(v)
    ensures Cuts(v)
    decreases v, 0
  {
    hide Occurs, DistinctKeys, WordRight;
    match v
    case Dict(entries) => QuietEntries(entries);
    case List(items) => QuietItems(items);
    case _ =>
  }

  lemma {:induction false} QuietEntries(entries: Entries<Val>)
    requires EntriesPrintable(entries) && forall e :: e in entries ==> QuietNested(e.value)
    ensures EntriesCut(entries)
    decreases entries, 0
  {
    hide Printable, KeyRight, Cuts, QuietNested;
    if entries != [] {
      assert entries[0] in entries && forall e :: e in entries[1..] ==> e in entries;
      QuietIsCut(entries[0].value);
      QuietEntries(entries[1..]);
    }
  }

  lemma {:induction false} QuietItems(items: seq<Val>)
    requires ItemsPrintable(items) && forall x :: x in items ==> QuietNested(x) && (x.List? ==> BracketFree(x))
    ensures ItemsCut(items)
    decreases items, 0
  {
    hide Cuts, QuietNested, BracketFree, CutRight, PrintItems, Occurs, DistinctKeys, WordRight;
    if items != [] {
      assert items[0] in items && forall x :: x in items[1..] ==> x in items;
      QuietIsCut(items[0]);
      if items[0].List? {
        BracketFreeIsCutRight(items[0].items, |items| == 1);
      }
      QuietItems(items[1..]);
    }
  }
}

/** Exactly which printed Gemma 4 arguments are read back: those whose arrays are cut out right. */
module GemmaExact {
  import opened Strings
  import opened Dictionaries
  import opened GemmaParser
  import opened GemmaPrinter
  import opened GemmaRoundTrip
  import opened GemmaCuts

  predicate CloserFirst(x: string) {
    x != "" && Closer(x[0])
  }

  lemma BracketValue(t: string, inArgs: bool)
    ensures var n := Nested(t, '[', ']', inArgs, 1);
            var read := Items(Inside(t, n), []);
            OneValue("[" + t, inArgs) == if read.None? then None else Some((List(read.value), t[n..]))
  {
    hide Nested, Items, Args;
    assert ("[" + t)[1..] == t && ("[" + t)[0] == '[';
  }

  lemma BraceValue(t: string, inArgs: bool)
    ensures var n := Nested(t, '{', '}', true, 1);
            var args := Args(Inside(t, n), []);
            OneValue("{" + t, inArgs) == if args.None? then None else Some((Dict(args.value), t[n..]))
  {
    hide Nested, Items, Args;
    assert ("{" + t)[1..] == t && ("{" + t)[0] == '{';
  }

  /** If the items come out as wanted, the first value is the first item, and the rest comes out as well. */
  lemma FirstItem(t: string, done: seq<Val>, items: seq<Val>)
    requires t != "" && t[0] !in SEPARATORS && items != [] && ItemsPrintable(items)
    requires Items(t, done) == Some(done + items)
    ensures var o := OneValue(t, false);
            && o.Some? && o.value.0 == items[0] && !CloserFirst(o.value.1)
            && Items(o.value.1, done + [items[0]]) == Some(done + [items[0]] + items[1..])
  {
    hide Items, OneValue;
    ItemStep(t, done);
    var o := OneValue(t, false).value;
    ItemsKeep(o.1, done + [o.0]);
    assert (done + [o.0])[|done|] == (done + items)[|done|];
    assert done + items == done + [items[0]] + items[1..];
    if CloserFirst(o.1) {
      CloserSpoils(o.1, done + [items[0]], items[1..]);
    }
  }

  lemma ItemsStart(items: seq<Val>, k: nat)
    requires ItemsPrintable(items) && k <= |PrintItems(items)|
    ensures var t := PrintItems(items)[..k]; t == "" || (t[0] !in SEPARATORS && t[0] != ']')
  {
    if items != [] {
      PrintStarts(items[0]);
    }
  }

  /** A comma in front of items changes nothing. */
  lemma CommaItems(t: string, done: seq<Val>)
    requires t == "" || t[0] !in SEPARATORS
    ensures Items("," + t, done) == Items(t, done)
  {
    hide OneValue;
    CommaSkipped(t);
  }

  /** Text in front of which a value may stand in an array. */
  predicate Follows(c: string) {
    c == "" || c[0] == ',' || c[0] == ']'
  }

  /** A value in an array that is read as it was printed has been read to its end, or else what is left
      starts with a closing bracket. */
  lemma {:induction false} ValueRead(v: Val, c: string)
    requires Printable(v) && Follows(c)
    ensures Print(v) + c != "" && (Print(v) + c)[0] !in SEPARATORS
    ensures var o := OneValue(Print(v) + c, false);
            o.Some? && o.value.0 == v ==> o.value.1 == c || CloserFirst(o.value.1)
    decreases v, 0
  {
    hide OneValue, Occurs, EntriesPrintable, ItemsPrintable, DistinctKeys, WordRight;
    PrintStarts(v);
    match v
    case Text(s) =>
      assert Print(v) + c == DELIM + (s + (DELIM + c));
      TextBack(s, false, c);
    case Bare(word) => BareBack(word, false, c);
    case Dict(entries) =>
      assert Print(v) + c == "{" + (PrintEntries(entries) + ("}" + c));
      DictBack(entries, false, c);
    case List(items) =>
      assert Print(v) + c == "[" + (PrintItems(items) + ("]" + c));
      ListRead(items, c);
  }

  lemma {:induction false} ListRead(items: seq<Val>, c: string)
    requires ItemsPrintable(items) && Follows(c)
    ensures var o := OneValue("[" + (PrintItems(items) + ("]" + c)), false);
            o.Some? && o.value.0 == List(items) ==> o.value.1 == c || CloserFirst(o.value.1)
    decreases items, 2
  {
    hide OneValue, Nested, Items, PrintItems, ItemsPrintable, OpenAfter;
    var t := PrintItems(items);
    var all := t + ("]" + c);
    if CutRight(t, c == "") {
      ListBack(items, false, c);
    } else {
      BracketValue(all, false);
      RawBehind(t, "]" + c, 1);
      var n := Nested(all, '[', ']', false, 1);
      if OpenAfter(t, 1) == 0 {
        RawStops(t, 1);
        assert all[..n - 1] == t[..n - 1] && all[n..] == t[n..] + ("]" + c);
        CutPrefix(items, n - 1, 1, []);
        assert [] + items == items;
      } else {
        LateCut(c, OpenAfter(t, 1));
        assert all[..n - 1] == t + ("]" + c[..n - 2 - |t|]);
        ItemsSpoiled(items, c[..n - 2 - |t|], []);
        assert [] + items == items;
      }
    }
  }

  lemma LateCut(c: string, depth: nat)
    requires depth > 1 && c != ""
    ensures 2 <= Nested("]" + c, '[', ']', false, depth) <= 1 + |c|
  {
    assert ("]" + c)[1..] == c;
    RawGoesOn(c, depth - 1);
  }

  /** Items with a closing bracket behind them are not read to the end. */
  lemma {:induction false} ItemsSpoiled(items: seq<Val>, s: string, done: seq<Val>)
    requires ItemsPrintable(items)
    ensures Items(PrintItems(items) + ("]" + s), done) != Some(done + items)
    decreases items, 1
  {
    hide OneValue, Items, Print, Printable;
    var t := PrintItems(items) + ("]" + s);
    if items == [] {
      assert t == "]" + s;
      BracketNeverEnds(s, done);
    } else if Items(t, done) == Some(done + items) {
      var v, c := items[0], MoreItems(items[1..]) + ("]" + s);
      assert t == Print(v) + c;
      assert items[1..] == [] ==> c == "]" + s;
      ValueRead(v, c);
      FirstItem(t, done, items);
      if items[1..] != [] {
        var more := PrintItems(items[1..]) + ("]" + s);
        assert c == "," + more;
        ItemsStart(items[1..], |PrintItems(items[1..])|);
        NotNothing(items[1..]);
        CommaItems(more, done + [v]);
        ItemsSpoiled(items[1..], s, done + [v]);
      }
    }
  }

  lemma NotNothing(items: seq<Val>)
    requires ItemsPrintable(items) && items != []
    ensures PrintItems(items) != ""
  {
    PrintStarts(items[0]);
  }

  /** Items cut off in front of a bracket that closes where none should: they are not read as printed,
      unless only closing brackets stand behind the cut. */
  lemma {:induction false} CutPrefix(items: seq<Val>, k: nat, depth: nat, done: seq<Val>)
    requires ItemsPrintable(items) && k < |PrintItems(items)| && PrintItems(items)[k] == ']'
    requires depth > 0 && OpenAfter(PrintItems(items)[..k], depth) == 1
    ensures var t := PrintItems(items);
            Items(t[..k], done) == Some(done + items) ==> k + 1 < |t| && Closers(t[k + 1..])
    decreases items, 1
  {
    hide OneValue, Items, Print, Printable, OpenAfter;
    var t := PrintItems(items);
    var v, more := items[0], MoreItems(items[1..]);
    var p := Print(v);
    assert t == p + more;
    PrintStarts(v);
    if Items(t[..k], done) == Some(done + items) {
      ItemsStart(items, k);
      if k < |p| {
        assert t[..k] == p[..k];
        assert items[1..] == [] ==> t == p;
        assert items[1..] != [] ==> |done + [v] + items[1..]| > |done + [v]|;
        ValueCut(v, k, depth);
        FirstItem(p[..k], done, items);
        NoItems(done + [v]);
      } else {
        CutBehind(items, k, depth, done);
      }
    }
  }

  /** The same where the cut is behind the first item. */
  lemma {:induction false} CutBehind(items: seq<Val>, k: nat, depth: nat, done: seq<Val>)
    requires ItemsPrintable(items) && items != [] && |Print(items[0])| <= k < |PrintItems(items)|
             && PrintItems(items)[k] == ']'
    requires depth > 0 && OpenAfter(PrintItems(items)[..k], depth) == 1
    requires Items(PrintItems(items)[..k], done) == Some(done + items)
    ensures var t := PrintItems(items); k + 1 < |t| && Closers(t[k + 1..])
    decreases items, 0
  {
    hide OneValue, Items, Print, Printable, OpenAfter;
    var t := PrintItems(items);
    var v, more := items[0], PrintItems(items[1..]);
    var p := Print(v);
    assert t == p + MoreItems(items[1..]);
    assert t == (p + ",") + more;
    var j := k - |p| - 1;
    var c := "," + more[..j];
    assert t[..k] == p + c == (p + ",") + more[..j];
    ValueRead(v, c);
    FirstItem(t[..k], done, items);
    ItemsStart(items[1..], j);
    CommaItems(more[..j], done + [v]);
    OpenConcat(p + ",", more[..j], depth);
    NoneOpen(more[..j]);
    CutPrefix(items[1..], j, OpenAfter(p + ",", depth), done + [v]);
    assert t[k + 1..] == more[j + 1..];
  }

  lemma NoneOpen(t: string)
    ensures OpenAfter(t, 0) == 0
  {
  }

  /** A string cut off: what is there of it is read, unless not even its first delimiter is whole. */
  lemma TextCut(s: string, k: nat, inArgs: bool)
    requires !Occurs(DELIM, s) && 0 < k < |Print(Text(s))|
    ensures var o := OneValue(Print(Text(s))[..k], inArgs);
            o.Some? && o.value.1 == "" && (o.value.0 == Text(s) ==> k >= |DELIM| + |s|)
  {
    hide Occurs, IndexOf, Strip;
    var p := Print(Text(s))[..k];
    if k < |DELIM| {
      assert p == DELIM[..k];
      UntilStop(p, "", if inArgs then ARGS_STOPS else ITEM_STOPS);
      assert p + "" == p;
    } else {
      var m := k - |DELIM|;
      assert p == DELIM + (s + DELIM)[..m];
      NoneInFront(s, m);
    }
  }

  lemma NoneInFront(s: string, m: nat)
    requires !Occurs(DELIM, s) && m < |s| + |DELIM|
    ensures IndexOf(DELIM, (s + DELIM)[..m]) == -1
  {
    hide OpensOnce;
    var w := s + DELIM;
    DelimOpensOnce();
    IndexAfter(DELIM, s, "");
    assert s + (DELIM + "") == w;
    var i := IndexOf(DELIM, w[..m]);
    if i != -1 {
      OccursBefore(DELIM, w, m, i);
    }
  }

  /** A word cut off is read as what is there of it. */
  lemma BareCut(word: string, k: nat, inArgs: bool)
    requires WordRight(word) && 0 < k < |word|
    ensures var o := OneValue(word[..k], inArgs); o.Some? && o.value.1 == "" && o.value.0 != Bare(word)
  {
    hide Strip, IsSpace;
    var p := word[..k];
    assert word[0] in word && forall c :: c in p ==> c in word;
    UntilStop(p, "", if inArgs then ARGS_STOPS else ITEM_STOPS);
    assert p + "" == p;
  }

  /** What is read of an object or array whose closing bracket is missing: its last character counts as
      the bracket. */
  function Shortened(t: string): string {
    if t == "" then "" else t[..|t| - 1]
  }

  lemma DictCut(entries: Entries<Val>, k: nat, inArgs: bool)
    requires EntriesPrintable(entries) && k <= |PrintEntries(entries)|
    ensures var args := Args(Shortened(PrintEntries(entries)[..k]), []);
            OneValue("{" + PrintEntries(entries)[..k], inArgs) == if args.None? then None
              else Some((Dict(args.value), ""))
  {
    hide OneValue, Args, Nested, PrintEntries, EntriesPrintable;
    EntriesUnclosed(entries, k);
    BraceValue(PrintEntries(entries)[..k], inArgs);
  }

  lemma ListCut(items: seq<Val>, k: nat)
    requires ItemsPrintable(items) && k <= |PrintItems(items)|
    ensures var read := Items(Shortened(PrintItems(items)[..k]), []);
            OneValue("[" + PrintItems(items)[..k], true) == if read.None? then None else Some((List(read.value), ""))
  {
    hide OneValue, Items, Nested, PrintItems, ItemsPrintable;
    ItemsUnclosed(items, k);
    BracketValue(PrintItems(items)[..k], true);
  }

  lemma PrintedDict(entries: Entries<Val>, k: nat)
    requires 0 < k < |Print(Dict(entries))|
    ensures var p, t := Print(Dict(entries)), PrintEntries(entries);
            && k - 1 <= |t| && p[..k] == "{" + t[..k - 1] && p[k..] == t[k - 1..] + "}"
            && p[k] == (if k - 1 < |t| then t[k - 1] else '}')
  {
    hide PrintEntries;
  }

  lemma PrintedList(items: seq<Val>, k: nat)
    requires 0 < k < |Print(List(items))|
    ensures var p, t := Print(List(items)), PrintItems(items);
            && k - 1 <= |t| && p[..k] == "[" + t[..k - 1] && p[k..] == t[k - 1..] + "]"
            && p[k] == (if k - 1 < |t| then t[k - 1] else ']')
  {
    hide PrintItems;
  }

  lemma DropFirst(t: string, k: nat, c: char)
    requires k < |t|
    ensures t[k..] != "" && t[k..][1..] + [c] == t[k + 1..] + [c]
  {
  }

  /** An object cut off in front of a bracket. */
  lemma {:induction false} DictCutEarly(entries: Entries<Val>, k: nat)
    requires DistinctKeys(entries) && EntriesPrintable(entries)
    requires 0 < k < |Print(Dict(entries))| && Print(Dict(entries))[k] == ']'
    ensures var p := Print(Dict(entries));
            var o := OneValue(p[..k], false);
            o.Some? && o.value.0 == Dict(entries) ==> o.value.1 == "" && k + 1 < |p| && Closers(p[k + 1..])
    decreases entries, 2
  {
    hide OneValue, Args, Print, PrintEntries, EntriesPrintable, DistinctKeys, Tail;
    var t := PrintEntries(entries);
    PrintedDict(entries, k);
    DictCut(entries, k - 1, false);
    EntriesNoBracket(entries);
    assert [] + entries == entries;
    EntriesCutOff(entries, k - 2, []);
    if Args(t[..k - 2], []) == Some(entries) {
      TailBracket(t[k - 2..]);
      assert t[k - 2..][2..] == t[k..] && t[k - 2..][1] == t[k - 1];
      var p := Print(Dict(entries));
      assert p[k + 1..] == p[k..][1..] == t[k..] + "}";
    }
    assert t[..k - 1][..k - 2] == t[..k - 2];
  }

  lemma EntriesNoBracket(entries: Entries<Val>)
    requires EntriesPrintable(entries)
    ensures PrintEntries(entries) != "" ==> PrintEntries(entries)[0] != ']'
  {
    if entries != [] && entries[0].key != "" {
      assert entries[0].key[0] in entries[0].key;
    }
  }

  /** An array in an array, cut off where the raw count of brackets is out. */
  lemma {:induction false} ListCutEarly(items: seq<Val>, k: nat, depth: nat)
    requires ItemsPrintable(items) && depth > 0
    requires 0 < k < |Print(List(items))| && Print(List(items))[k] == ']'
             && OpenAfter(Print(List(items))[..k], depth) == 1
    ensures var p := Print(List(items));
            var o := OneValue(p[..k], false);
            o.Some? && o.value.0 == List(items) ==>
              CloserFirst(o.value.1) || (o.value.1 == "" && k + 1 < |p| && Closers(p[k + 1..]))
    decreases items, 2
  {
    hide OneValue, Items, Nested, Print, PrintItems, ItemsPrintable, OpenAfter;
    var t := PrintItems(items);
    PrintedList(items, k);
    var u := t[..k - 1];
    Brackets(u, "", depth);
    if OpenAfter(u, 1) > 0 {
      OpenHigher(u, 1, depth);
    }
    RawStops(u, 1);
    BracketValue(u, false);
    var n := Nested(u, '[', ']', false, 1);
    assert u[..n - 1] == t[..n - 1] && u[n..] == t[n..k - 1];
    CutPrefix(items, n - 1, 1, []);
    assert [] + items == items;
    ClosersAfter(t, n, k);
    var p := Print(List(items));
    assert p[k + 1..] == p[k..][1..] == (t[k - 1..] + "]")[1..];
  }

  lemma ClosersAfter(t: string, n: nat, k: nat)
    requires 0 < k && n <= k - 1 <= |t|
    ensures n < |t| && Closers(t[n..]) && n < k - 1 ==> CloserFirst(t[n..k - 1])
    ensures n < |t| && Closers(t[n..]) && n == k - 1 ==>
              (t[k - 1..] + "]")[1..] != "" && Closers((t[k - 1..] + "]")[1..]) && Closers(t[k - 1..] + "]")
  {
    if n < |t| {
      assert t[n..][0] == t[n];
      assert (t[k - 1..] + "]")[1..] == if n == k - 1 then t[k..] + "]" else (t[k - 1..] + "]")[1..];
      assert n == k - 1 ==> forall c :: c in t[k..] ==> c in t[n..];
    }
  }

  lemma WordHoldsNone(word: string)
    requires WordRight(word)
    ensures forall k :: 0 <= k < |word| ==> word[k] != ']'
  {
    assert forall k :: 0 <= k < |word| ==> word[k] in word;
  }

  /** A value in an array, cut off where the raw count of brackets is out. */
  lemma {:induction false} ValueCut(v: Val, k: nat, depth: nat)
    requires Printable(v) && depth > 0 && k < |Print(v)| && Print(v)[k] == ']' && OpenAfter(Print(v)[..k], depth) == 1
    ensures k > 0
    ensures var o := OneValue(Print(v)[..k], false);
            o.Some? && o.value.0 == v ==>
              CloserFirst(o.value.1) || (o.value.1 == "" && k + 1 < |Print(v)| && Closers(Print(v)[k + 1..]))
    decreases v, 0
  {
    hide OneValue, OpenAfter, EntriesPrintable, ItemsPrintable, DistinctKeys, Occurs;
    PrintStarts(v);
    match v
    case Text(s) =>
      TextCut(s, k, false);
      DelimsHoldNoBracket();
    case Bare(word) => WordHoldsNone(word);
    case Dict(entries) => DictCutEarly(entries, k);
    case List(items) => ListCutEarly(items, k, depth);
  }

  /** A value cut off that is read as printed: only the end of a string and closing brackets are missing. */
  lemma {:induction false} ValueCutOff(v: Val, k: nat, inArgs: bool)
    requires Printable(v) && 0 < k < |Print(v)|
    ensures var o := OneValue(Print(v)[..k], inArgs);
            && (inArgs && o.Some? ==> o.value.1 == "")
            && (o.Some? && o.value.0 == v ==>
                  (o.value.1 == "" && Tail(Print(v)[k..])) || (!inArgs && CloserFirst(o.value.1)))
    decreases v, 0
  {
    hide OneValue, EntriesPrintable, ItemsPrintable, DistinctKeys, Occurs, Tail;
    match v
    case Text(s) =>
      TextCut(s, k, inArgs);
      if k >= |DELIM| + |s| {
        var d := DELIM + DELIM;
        assert Print(v)[k..] == d[|d| - (|Print(v)| - k)..];
        TailOfDelims(Print(v)[k..]);
      }
    case Bare(word) => BareCut(word, k, inArgs);
    case Dict(entries) => DictCutOff(entries, k, inArgs);
    case List(items) =>
      if inArgs {
        ListCutOff(items, k);
      } else {
        ListCutOffRaw(items, k);
      }
  }

  lemma {:induction false} DictCutOff(entries: Entries<Val>, k: nat, inArgs: bool)
    requires DistinctKeys(entries) && EntriesPrintable(entries) && 0 < k < |Print(Dict(entries))|
    ensures var o := OneValue(Print(Dict(entries))[..k], inArgs);
            o.Some? ==> o.value.1 == "" && (o.value.0 == Dict(entries) ==> Tail(Print(Dict(entries))[k..]))
    decreases entries, 3
  {
    hide OneValue, Args, Print, PrintEntries, EntriesPrintable, DistinctKeys, Tail, Shortened;
    PrintedDict(entries, k);
    DictCut(entries, k - 1, inArgs);
    if Args(Shortened(PrintEntries(entries)[..k - 1]), []) == Some(entries) {
      ShortenedDict(entries, k);
    }
  }

  /** An object whose closing brace is missing, with what is left of its text read as its entries. */
  lemma {:induction false} ShortenedDict(entries: Entries<Val>, k: nat)
    requires DistinctKeys(entries) && EntriesPrintable(entries) && 0 < k < |Print(Dict(entries))|
    requires k - 1 <= |PrintEntries(entries)| && Args(Shortened(PrintEntries(entries)[..k - 1]), []) == Some(entries)
    ensures Tail(Print(Dict(entries))[k..])
    decreases entries, 2
  {
    hide OneValue, Args, Print, PrintEntries, EntriesPrintable, DistinctKeys, Tail;
    var t := PrintEntries(entries);
    PrintedDict(entries, k);
    if k == 1 {
      NoArgs();
      NoEntries();
      assert t[..0] == "" && t[0..] == t;
      TailOfClosers("}");
      assert "" + "}" == "}";
    } else {
      assert [] + entries == entries;
      assert t[..k - 1][..k - 2] == t[..k - 2];
      EntriesCutOff(entries, k - 2, []);
      DropFirst(t, k - 2, '}');
      TailMore(t[k - 2..], '}');
    }
  }

  lemma NoArgs()
    ensures Args("", []) == Some([])
  {
    NoKey();
    ArgsStep("", []);
  }

  lemma {:induction false} ListCutOff(items: seq<Val>, k: nat)
    requires ItemsPrintable(items) && 0 < k < |Print(List(items))|
    ensures var o := OneValue(Print(List(items))[..k], true);
            o.Some? ==> o.value.1 == "" && (o.value.0 == List(items) ==> Tail(Print(List(items))[k..]))
    decreases items, 2
  {
    hide OneValue, Items, Print, PrintItems, ItemsPrintable, Tail;
    PrintedList(items, k);
    ListCut(items, k - 1);
    if Items(Shortened(PrintItems(items)[..k - 1]), []) == Some(items) {
      ShortenedList(items, k);
    }
  }

  /** An array whose closing bracket is missing, with what is left of its text read as its items. */
  lemma {:induction false} ShortenedList(items: seq<Val>, k: nat)
    requires ItemsPrintable(items) && 0 < k < |Print(List(items))|
    requires k - 1 <= |PrintItems(items)| && Items(Shortened(PrintItems(items)[..k - 1]), []) == Some(items)
    ensures Tail(Print(List(items))[k..])
    decreases items, 1
  {
    hide OneValue, Items, Print, PrintItems, ItemsPrintable, Tail;
    var t := PrintItems(items);
    PrintedList(items, k);
    if k == 1 {
      NoItems([]);
      NoItemsPrinted();
      assert t[..0] == "" && t[0..] == t;
      TailOfClosers("]");
      assert "" + "]" == "]";
    } else {
      assert [] + items == items;
      assert t[..k - 1][..k - 2] == t[..k - 2];
      ItemsCutOff(items, k - 2, []);
      DropFirst(t, k - 2, ']');
      TailMore(t[k - 2..], ']');
    }
  }

  lemma {:induction false} ListCutOffRaw(items: seq<Val>, k: nat)
    requires ItemsPrintable(items) && 0 < k < |Print(List(items))|
    ensures var o := OneValue(Print(List(items))[..k], false);
            o.Some? && o.value.0 == List(items) ==>
              (o.value.1 == "" && Tail(Print(List(items))[k..])) || CloserFirst(o.value.1)
    decreases items, 2
  {
    hide OneValue, Items, Nested, Print, PrintItems, ItemsPrintable, OpenAfter, Tail;
    var t := PrintItems(items);
    PrintedList(items, k);
    var u := t[..k - 1];
    RawStops(u, 1);
    BracketValue(u, false);
    var n := Nested(u, '[', ']', false, 1);
    if OpenAfter(u, 1) > 0 {
      assert Inside(u, n) == Shortened(u) && u[n..] == "";
      if Items(Shortened(u), []) == Some(items) {
        ShortenedList(items, k);
      }
    } else {
      assert u[..n - 1] == t[..n - 1] && u[n..] == t[n..k - 1];
      CutPrefix(items, n - 1, 1, []);
      assert [] + items == items;
      ClosersAfter(t, n, k);
      if Closers(t[k - 1..] + "]") {
        TailOfClosers(t[k - 1..] + "]");
      }
    }
  }

  /** The same for the items of an array. */
  lemma {:induction false} ItemsCutOff(items: seq<Val>, k: nat, done: seq<Val>)
    requires ItemsPrintable(items) && k < |PrintItems(items)|
             && Items(PrintItems(items)[..k], done) == Some(done + items)
    ensures Tail(PrintItems(items)[k..])
    decreases items, 0
  {
    hide OneValue, Items, Print, Printable, Tail;
    var t := PrintItems(items);
    var v, more := items[0], PrintItems(items[1..]);
    var p := Print(v);
    assert t == p + MoreItems(items[1..]);
    PrintStarts(v);
    ItemsStart(items, k);
    assert t[..0] == "" && |done + items| > |done|;
    if k == 0 {
      NoItems(done);
    } else if k < |p| {
      assert t[..k] == p[..k];
      assert items[1..] == [] ==> t == p;
      assert items[1..] != [] ==> |done + [v] + items[1..]| > |done + [v]|;
      ValueCutOff(v, k, false);
      FirstItem(t[..k], done, items);
      NoItems(done + [v]);
    } else {
      var c := MoreItems(items[1..])[..k - |p|];
      assert t[..k] == p + c;
      assert items[1..] == [] ==> t == p;
      assert items[1..] != [] ==> |done + [v] + items[1..]| > |done + [v]|;
      ValueRead(v, c);
      FirstItem(t[..k], done, items);
      NoItems(done + [v]);
      if k > |p| {
        var j := k - |p| - 1;
        assert c == "," + more[..j];
        ItemsStart(items[1..], j);
        CommaItems(more[..j], done + [v]);
        ItemsCutOff(items[1..], j, done + [v]);
        assert t[k..] == more[j..];
      }
    }
  }

  /** A value of an argument is always read to its end. */
  lemma ArgRead(v: Val, c: string)
    requires Printable(v) && (c == "" || c[0] == ',')
    ensures Print(v) + c != "" && (Print(v) + c)[0] !in SEPARATORS
    ensures var o := OneValue(Print(v) + c, true); o.Some? ==> o.value.1 == c
  {
    hide OneValue, Occurs, EntriesPrintable, ItemsPrintable, DistinctKeys, WordRight;
    PrintStarts(v);
    match v
    case Text(s) =>
      assert Print(v) + c == DELIM + (s + (DELIM + c));
      TextBack(s, true, c);
    case Bare(word) => BareBack(word, true, c);
    case Dict(entries) =>
      assert Print(v) + c == "{" + (PrintEntries(entries) + ("}" + c));
      DictBack(entries, true, c);
    case List(items) =>
      assert Print(v) + c == "[" + (PrintItems(items) + ("]" + c));
      ListBack(items, true, c);
  }

  lemma KeyCut(key: string)
    requires KeyRight(key)
    ensures forall k :: 0 <= k <= |key| ==> KeyOf(key[..k]) == None
  {
    hide Strip, Leading;
    forall k | 0 <= k <= |key| ensures KeyOf(key[..k]) == None {
      var t := key[..k];
      var u := t[Leading(t, SEPARATORS)..];
      assert forall c :: c in u ==> c in key;
      NoFirstNoTag(":", u);
    }
  }

  /** One entry read. */
  lemma EntryStep(key: string, q: string, d: Entries<Val>)
    requires KeyRight(key) && (q == "" || q[0] !in SEPARATORS)
    ensures Args(key + (":" + q), d) ==
            if q == "" then Some(Put(d, key, Text("")))
            else
              var o := OneValue(q, true);
              if o.None? then None else Args(o.value.1, Put(d, key, o.value.0))
  {
    hide OneValue, KeyOf, Put, Args;
    KeyBack(key, q);
    ArgsStep(key + (":" + q), d);
  }

  /** A new key goes last, whatever its value. */
  lemma PutNew(d: Entries<Val>, entries: Entries<Val>, w: Val)
    requires entries != [] && DistinctKeys(d + entries)
    ensures var e := Entry(entries[0].key, w);
            Put(d, e.key, w) == d + [e] && DistinctKeys(d + [e] + entries[1..])
  {
    var e := Entry(entries[0].key, w);
    PutGrows(d, e.key, w);
    assert (d + entries)[|d|] == entries[0];
    assert forall i :: 0 <= i < |d| ==> (d + entries)[i] == d[i];
    var all := d + [e] + entries[1..];
    assert forall i :: 0 <= i < |all| ==> all[i].key == (d + entries)[i].key;
  }

  lemma NoArgsLeft(d: Entries<Val>)
    ensures Args("", d) == Some(d)
  {
    NoKey();
    ArgsStep("", d);
  }

  lemma CommaArgs(t: string, d: Entries<Val>)
    requires t == "" || t[0] !in SEPARATORS
    ensures Args("," + t, d) == Args(t, d)
  {
    hide KeyOf, OneValue, Args;
    KeyBehindComma(t);
    ArgsStep(t, d);
    ArgsStep("," + t, d);
  }

  lemma EntriesPrefixStart(entries: Entries<Val>, k: nat)
    requires EntriesPrintable(entries) && k <= |PrintEntries(entries)|
    ensures var t := PrintEntries(entries)[..k]; t == "" || t[0] !in SEPARATORS
  {
    EntriesStart(entries);
  }

  /** Entries cut off, or whole: what was read before stays in front; and if they are read as printed though
      cut off, only the end of a string and closing brackets are missing. */
  lemma {:induction false} EntriesCutOff(entries: Entries<Val>, k: nat, d: Entries<Val>)
    requires EntriesPrintable(entries) && DistinctKeys(d + entries) && k <= |PrintEntries(entries)|
    ensures var t := PrintEntries(entries);
            var r := Args(t[..k], d);
            && (r.Some? ==> d <= r.value)
            && (r == Some(d + entries) && k < |t| ==> Tail(t[k..]))
    decreases entries, 1
  {
    hide OneValue, Args, Print, Printable, KeyRight, KeyOf, Put, DistinctKeys, Tail;
    var t := PrintEntries(entries);
    if entries == [] {
      NoArgsLeft(d);
      assert t[..k] == "";
    } else {
      var Entry(key, v) := entries[0];
      var more := MoreEntries(entries[1..]);
      var p := Print(v);
      assert t == key + (":" + (p + more));
      if k <= |key| {
        KeyCut(key);
        assert t[..k] == key[..k];
        ArgsStep(t[..k], d);
        assert |d + entries| > |d|;
      } else {
        var j := k - |key| - 1;
        assert t[..k] == key + (":" + (p + more)[..j]);
        PrintStarts(v);
        EntryStep(key, (p + more)[..j], d);
        if j == 0 {
          KeyOnly(entries, k, d);
        } else if j < |p| {
          FirstValueCut(entries, j, d);
        } else {
          LaterCut(entries, j, d);
        }
        assert t[k..] == (p + more)[j..];
        assert j < |p| ==> t[k..] == p[j..] + more;
      }
    }
  }

  /** An entry of which only the key is there: it is read as the empty string. */
  lemma KeyOnly(entries: Entries<Val>, k: nat, d: Entries<Val>)
    requires entries != [] && DistinctKeys(d + entries) && k == |entries[0].key| + 1
    ensures var e := Entry(entries[0].key, Text(""));
            && d <= Put(d, e.key, e.value)
            && (Put(d, e.key, e.value) == d + entries ==>
                  k <= |PrintEntries(entries)| && Tail(PrintEntries(entries)[k..]))
  {
    hide DistinctKeys, Put, Tail;
    var e := Entry(entries[0].key, Text(""));
    PutNew(d, entries, Text(""));
    if d + [e] == d + entries {
      assert (d + [e])[|d|..] == (d + entries)[|d|..];
      assert (d + [e])[|d|..] == [e] && (d + entries)[|d|..] == entries;
      var one: Entries<Val> := [e];
      var t := PrintEntries(one);
      assert one[1..] == [];
      var p := Print(Text(""));
      assert p == DELIM + ("" + DELIM) == DELIM + DELIM;
      assert MoreEntries(one[1..]) == "" && p + "" == p;
      assert t == e.key + (":" + p);
      assert t[k..] == DELIM + DELIM;
      TailOfDelims(t[k..]);
    }
  }

  /** The first value is cut off. */
  lemma {:induction false} FirstValueCut(entries: Entries<Val>, j: nat, d: Entries<Val>)
    requires EntriesPrintable(entries) && entries != [] && DistinctKeys(d + entries)
             && 0 < j < |Print(entries[0].value)|
    ensures var Entry(key, v) := entries[0];
            var q := (Print(v) + MoreEntries(entries[1..]))[..j];
            q != "" &&
            var o := OneValue(q, true);
            o.Some? ==>
              var r := Args(o.value.1, Put(d, key, o.value.0));
              && r.Some? && d <= r.value
              && (r.value == d + entries ==> Tail(Print(v)[j..] + MoreEntries(entries[1..])))
    decreases entries, 0
  {
    hide OneValue, Args, Print, Printable, KeyRight, Put, DistinctKeys, Tail;
    var Entry(key, v) := entries[0];
    assert (Print(v) + MoreEntries(entries[1..]))[..j] == Print(v)[..j];
    ValueCutOff(v, j, true);
    var o := OneValue(Print(v)[..j], true);
    if o.Some? {
      var w := o.value.0;
      PutNew(d, entries, w);
      NoArgsLeft(Put(d, key, w));
      if d + [Entry(key, w)] == d + entries {
        assert (d + entries)[|d|..] == entries && (d + [Entry(key, w)])[|d|..] == [Entry(key, w)];
        assert entries[1..] == [];
        assert Print(v)[j..] + "" == Print(v)[j..];
      }
    }
  }

  /** The cut is behind the first value. */
  lemma {:induction false} LaterCut(entries: Entries<Val>, j: nat, d: Entries<Val>)
    requires EntriesPrintable(entries) && entries != [] && DistinctKeys(d + entries)
    requires |Print(entries[0].value)| <= j <= |Print(entries[0].value) + MoreEntries(entries[1..])|
    ensures var Entry(key, v) := entries[0];
            var all := Print(v) + MoreEntries(entries[1..]);
            all[..j] != "" &&
            var o := OneValue(all[..j], true);
            o.Some? ==>
              var r := Args(o.value.1, Put(d, key, o.value.0));
              && (r.Some? ==> d <= r.value && |d| < |r.value| && r.value[|d|] == Entry(key, o.value.0))
              && (r == Some(d + entries) && j < |all| ==> Tail(all[j..]))
    decreases entries, 0
  {
    hide OneValue, Args, Print, Printable, KeyRight, Put, DistinctKeys, Tail;
    var Entry(key, v) := entries[0];
    var p, more := Print(v), MoreEntries(entries[1..]);
    var c := more[..j - |p|];
    assert (p + more)[..j] == p + c;
    ArgRead(v, c);
    var o := OneValue(p + c, true);
    if o.Some? {
      var e := Entry(key, o.value.0);
      PutNew(d, entries, e.value);
      NoArgsLeft(d + [e]);
      if c != "" {
        var t := PrintEntries(entries[1..]);
        var i := j - |p| - 1;
        assert c == "," + t[..i];
        EntriesPrefixStart(entries[1..], i);
        CommaArgs(t[..i], d + [e]);
        EntriesCutOff(entries[1..], i, d + [e]);
        assert (p + more)[j..] == t[i..];
        var r := Args(t[..i], d + [e]);
        if r == Some(d + entries) {
          assert r.value[|d|] == e == (d + entries)[|d|];
          assert d + entries == d + [e] + entries[1..];
        }
      } else {
        assert j < |p + more| ==> entries[1..] != [] && |d + [e]| < |d + entries|;
      }
    }
  }

  lemma WholeStart(entries: Entries<Val>)
    requires EntriesPrintable(entries) && entries != []
    ensures var Entry(key, v) := entries[0];
            PrintEntries(entries) == key + (":" + (Print(v) + MoreEntries(entries[1..])))
    ensures PrintEntries(entries)[..|PrintEntries(entries)|] == PrintEntries(entries)
  {
  }

  /** A value that is read as printed, and to its end, has been cut out right all through. */
  lemma {:induction false} ReadIsCutRight(v: Val, inArgs: bool, rest: string)
    requires Printable(v) && (rest == "" || rest[0] == ',') && Print(v) + rest != ""
    requires OneValue(Print(v) + rest, inArgs) == Some((v, rest))
    ensures Cuts(v) && (!inArgs && v.List? ==> CutRight(PrintItems(v.items), rest == ""))
    decreases v, 0
  {
    hide OneValue, Occurs, WordRight, EntriesPrintable, ItemsPrintable, EntriesCut, ItemsCut, Args, Items, DistinctKeys,
      CutRight;
    match v
    case Text(s) =>
    case Bare(word) =>
    case Dict(entries) =>
      assert Print(v) + rest == "{" + (PrintEntries(entries) + ("}" + rest));
      DictBack(entries, inArgs, rest);
      assert [] + entries == entries;
      EntriesAreCut(entries, []);
    case List(items) =>
      assert Print(v) + rest == "[" + (PrintItems(items) + ("]" + rest));
      if !inArgs {
        CutWasRight(items, rest);
      }
      ListBack(items, inArgs, rest);
      assert [] + items == items;
      ItemsAreCut(items, []);
  }

  lemma CutWasRight(items: seq<Val>, rest: string)
    requires var o := OneValue("[" + (PrintItems(items) + ("]" + rest)), false); o.Some? && o.value.1 == rest
    ensures CutRight(PrintItems(items), rest == "")
  {
    hide OneValue, Nested, Items, PrintItems, OpenAfter;
    var t := PrintItems(items);
    BracketValue(t + ("]" + rest), false);
    CutIffRight(t, rest, 1);
  }

  lemma {:induction false} ItemsAreCut(items: seq<Val>, done: seq<Val>)
    requires ItemsPrintable(items) && Items(PrintItems(items), done) == Some(done + items)
    ensures ItemsCut(items)
    decreases items, 0
  {
    hide OneValue, Items, Print, Printable, Cuts, CutRight;
    if items != [] {
      var v, more := items[0], MoreItems(items[1..]);
      assert PrintItems(items) == Print(v) + more;
      ValueRead(v, more);
      FirstItem(PrintItems(items), done, items);
      ReadIsCutRight(v, false, more);
      if items[1..] != [] {
        ItemsStart(items[1..], |PrintItems(items[1..])|);
        assert PrintItems(items[1..])[..|PrintItems(items[1..])|] == PrintItems(items[1..]);
        CommaItems(PrintItems(items[1..]), done + [v]);
        ItemsAreCut(items[1..], done + [v]);
      }
    }
  }

  lemma {:induction false} EntriesAreCut(entries: Entries<Val>, d: Entries<Val>)
    requires EntriesPrintable(entries) && DistinctKeys(d + entries)
             && Args(PrintEntries(entries), d) == Some(d + entries)
    ensures EntriesCut(entries)
    decreases entries, 0
  {
    hide OneValue, Args, Print, Printable, KeyRight, Put, DistinctKeys, Cuts;
    if entries != [] {
      var Entry(key, v) := entries[0];
      var more := MoreEntries(entries[1..]);
      var q := Print(v) + more;
      WholeStart(entries);
      ArgRead(v, more);
      EntryStep(key, q, d);
      assert q[..|q|] == q;
      LaterCut(entries, |q|, d);
      var w := OneValue(q, true).value.0;
      assert (d + entries)[|d|] == entries[0];
      assert w == v;
      ReadIsCutRight(v, true, more);
      PutNew(d, entries, v);
      assert d + entries == d + [entries[0]] + entries[1..];
      if entries[1..] != [] {
        EntriesStart(entries[1..]);
        CommaArgs(PrintEntries(entries[1..]), d + [entries[0]]);
        EntriesAreCut(entries[1..], d + [entries[0]]);
      }
    }
  }

  /** Printed arguments are read back exactly when all arrays directly inside arrays are cut out right. */
  lemma RoundTripIff(entries: Entries<Val>)
    requires Printable(Dict(entries))
    ensures Args(PrintEntries(entries), []) == Some(entries) <==> Cuts(Dict(entries))
  {
    hide Args, Printable;
    if Cuts(Dict(entries)) {
      RoundTrip(entries);
    }
    if Args(PrintEntries(entries), []) == Some(entries) {
      assert [] + entries == entries;
      DictPrintable(entries);
      EntriesAreCut(entries, []);
    }
  }

  lemma DictPrintable(entries: Entries<Val>)
    ensures Printable(Dict(entries)) ==> EntriesPrintable(entries) && DistinctKeys(entries)
  {
  }
}

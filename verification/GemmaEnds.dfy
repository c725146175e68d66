/** When the Gemma 4 argument parser comes to an end: exactly when it never stands, in an array, in front
    of a closing bracket. */
module GemmaEnds {
  import opened Strings
  import opened Dictionaries
  import opened GemmaParser
  import opened GemmaPrinter
  import opened GemmaRoundTrip
  import opened GemmaCuts
  import opened GemmaExact

  /** The head of the loop over entries, or over items, with the text still to be read. */
  datatype Point = AtArgs(text: string) | AtItems(text: string)

  /** The call that a value makes. */
  function CallOf(u: string, inArgs: bool): seq<Point>
    requires u != ""
  {
    if DELIM <= u then []
    else if u[0] == '{' then [AtArgs(Inside(u[1..], Nested(u[1..], '{', '}', true, 1)))]
    else if u[0] == '[' then [AtItems(Inside(u[1..], Nested(u[1..], '[', ']', inArgs, 1)))]
    else []
  }

  /** What stands behind a value. */
  function BehindValue(u: string, inArgs: bool): string
    requires u != ""
  {
    if DELIM <= u then
      var k := IndexOf(DELIM, u[|DELIM|..]);
      if k == -1 then "" else u[|DELIM|..][k + |DELIM|..]
    else if u[0] == '{' then u[1..][Nested(u[1..], '{', '}', true, 1)..]
    else if u[0] == '[' then u[1..][Nested(u[1..], '[', ']', inArgs, 1)..]
    else u[Until(u, if inArgs then ARGS_STOPS else ITEM_STOPS)..]
  }

  function ItemText(t: string): string {
    t[Leading(t, SEPARATORS)..]
  }

  /** An item would start with a closing bracket: the loop never leaves this place. */
  predicate Stuck(p: Point) {
    p.AtItems? && ItemText(p.text) != "" && ItemText(p.text)[0] == ']'
  }

  /** Where the parser gets to from one round of a loop: into a call, and to the next round. */
  function Nexts(p: Point): seq<Point> {
    match p
    case AtItems(t) =>
      var u := ItemText(t);
      if u == "" || Stuck(p) then [] else CallOf(u, false) + [AtItems(BehindValue(u, false))]
    case AtArgs(t) =>
      if KeyOf(t).None? || KeyOf(t).value.1 == "" then []
      else
        var u := KeyOf(t).value.1;
        CallOf(u, true) + [AtArgs(BehindValue(u, true))]
  }

  ghost predicate Loops(p: Point) {
    match p
    case AtArgs(t) => Args(t, []) == None
    case AtItems(t) => Items(t, []) == None
  }

  lemma ValueLoops(u: string, inArgs: bool)
    requires u != ""
    ensures OneValue(u, inArgs).None? <==> exists q :: q in CallOf(u, inArgs) && Loops(q)
    ensures OneValue(u, inArgs).Some? ==> OneValue(u, inArgs).value.1 == BehindValue(u, inArgs)
  {
    hide Args, Items, Nested, Until, IndexOf, Strip;
    var call := CallOf(u, inArgs);
    assert call != [] ==> call[0] in call && forall q :: q in call ==> q == call[0];
  }

  lemma BehindIsShort(u: string, inArgs: bool)
    requires u != ""
    ensures |BehindValue(u, inArgs)| <= |u|
    ensures u[0] !in ITEM_STOPS && !inArgs ==> |BehindValue(u, inArgs)| < |u|
    ensures forall q :: q in CallOf(u, inArgs) ==> |q.text| < |u|
  {
    hide Nested, IndexOf;
  }

  lemma {:induction false} ItemsAlike(t: string, done: seq<Val>, other: seq<Val>)
    ensures Items(t, done).None? <==> Items(t, other).None?
    decreases |t|
  {
    hide OneValue;
    var u := ItemText(t);
    if u != "" {
      ValueShortens(u);
      var one := OneValue(u, false);
      if one.Some? && one.value.1 != u {
        ItemsAlike(one.value.1, done + [one.value.0], other + [one.value.0]);
      }
    }
  }

  lemma {:induction false} ArgsAlike(t: string, d: Entries<Val>, other: Entries<Val>)
    ensures Args(t, d).None? <==> Args(t, other).None?
    decreases |t|
  {
    hide OneValue, KeyOf;
    ArgsStep(t, d);
    ArgsStep(t, other);
    if KeyOf(t).Some? && KeyOf(t).value.1 != "" {
      var (key, u) := KeyOf(t).value;
      var one := OneValue(u, true);
      if one.Some? {
        ArgsAlike(one.value.1, Put(d, key, one.value.0), Put(other, key, one.value.0));
      }
    }
  }

  /** One round: the parser is stuck, or what it calls never ends, or what comes next. */
  lemma LoopsStep(p: Point)
    ensures Loops(p) <==> Stuck(p) || exists q :: q in Nexts(p) && Loops(q)
  {
    hide OneValue, Args, Items, KeyOf, CallOf, BehindValue;
    match p
    case AtItems(t) => ItemsLoop(t);
    case AtArgs(t) => ArgsLoop(t);
  }

  lemma ItemsLoop(t: string)
    ensures var p := AtItems(t); Loops(p) <==> Stuck(p) || exists q :: q in Nexts(p) && Loops(q)
  {
    hide OneValue, Items, CallOf, BehindValue, Args, Leading;
    var p, u := AtItems(t), ItemText(t);
    ItemsRound(t, []);
    if u != "" {
      ValueLoops(u, false);
      StuckRound(u);
      if !Stuck(p) {
        BehindIsShort(u, false);
        NoSeparator(t);
        var next := AtItems(BehindValue(u, false));
        assert Nexts(p) == CallOf(u, false) + [next];
        assert next in Nexts(p) && forall q :: q in Nexts(p) <==> q in CallOf(u, false) || q == next;
        if OneValue(u, false).Some? {
          ItemsAlike(next.text, [] + [OneValue(u, false).value.0], []);
        }
      }
    }
  }

  lemma NoSeparator(t: string)
    ensures ItemText(t) != "" ==> ItemText(t)[0] !in SEPARATORS
  {
  }

  lemma StuckRound(u: string)
    requires u != ""
    ensures u[0] == ']' ==> OneValue(u, false).Some? && OneValue(u, false).value.1 == u
  {
    hide Strip;
    assert u[0..] == u;
  }

  lemma ItemsRound(t: string, done: seq<Val>)
    ensures var u := ItemText(t);
            Items(t, done) ==
            if u == "" then Some(done)
            else
              var one := OneValue(u, false);
              if one.None? || one.value.1 == u then None else Items(one.value.1, done + [one.value.0])
  {
    hide OneValue;
  }

  lemma ArgsLoop(t: string)
    ensures var p := AtArgs(t); Loops(p) <==> Stuck(p) || exists q :: q in Nexts(p) && Loops(q)
  {
    hide OneValue, Args, KeyOf, CallOf, BehindValue, Items;
    var p := AtArgs(t);
    ArgsStep(t, []);
    if KeyOf(t).Some? && KeyOf(t).value.1 != "" {
      var (key, u) := KeyOf(t).value;
      ValueLoops(u, true);
      var next := AtArgs(BehindValue(u, true));
      assert Nexts(p) == CallOf(u, true) + [next];
      assert next in Nexts(p) && forall q :: q in Nexts(p) <==> q in CallOf(u, true) || q == next;
      if OneValue(u, true).Some? {
        ArgsAlike(next.text, Put([], key, OneValue(u, true).value.0), []);
      }
    }
  }

  lemma NextsAreShort(p: Point)
    ensures forall q :: q in Nexts(p) ==> |q.text| < |p.text|
  {
    hide CallOf, BehindValue, Leading;
    match p
    case AtItems(t) =>
      var u := ItemText(t);
      NoSeparator(t);
      if u != "" && !Stuck(p) {
        BehindIsShort(u, false);
      }
    case AtArgs(t) =>
      if KeyOf(t).Some? && KeyOf(t).value.1 != "" {
        BehindIsShort(KeyOf(t).value.1, true);
      }
  }

  /** A way that the parser takes from a point to where it is stuck. */
  predicate WayToStuck(way: seq<Point>) {
    way != [] && Stuck(way[|way| - 1]) && forall i :: 0 <= i < |way| - 1 ==> way[i + 1] in Nexts(way[i])
  }

  ghost predicate Reaches(p: Point) {
    exists way :: WayToStuck(way) && way[0] == p
  }

  lemma WayOn(p: Point, q: Point)
    requires q in Nexts(p) && Reaches(q)
    ensures Reaches(p)
  {
    hide Nexts, Stuck;
    var way :| WayToStuck(way) && way[0] == q;
    var longer := [p] + way;
    assert forall i :: 0 <= i < |way| ==> longer[i + 1] == way[i];
    assert WayToStuck(longer) && longer[0] == p;
  }

  lemma WayFrom(p: Point)
    requires Reaches(p)
    ensures Stuck(p) || exists q :: q in Nexts(p) && Reaches(q)
  {
    hide Nexts, Stuck;
    var way :| WayToStuck(way) && way[0] == p;
    if |way| > 1 {
      var q := way[0 + 1];
      WayRest(way);
      assert q in Nexts(p) && Reaches(q);
    }
  }

  lemma WayRest(way: seq<Point>)
    requires WayToStuck(way) && |way| > 1
    ensures Reaches(way[1])
  {
    hide Nexts, Stuck;
    var rest := way[1..];
    assert forall i :: 0 <= i < |rest| ==> rest[i] == way[i + 1];
    assert WayToStuck(rest) && rest[0] == way[1];
  }

  /** The parser never ends from a point exactly when it reaches one where it is stuck. */
  lemma {:induction false} NeverEndsIffStuck(p: Point)
    ensures Loops(p) <==> Reaches(p)
    decreases |p.text|
  {
    hide Nexts, Stuck, Loops, Reaches;
    LoopsStep(p);
    NextsAreShort(p);
    forall q | q in Nexts(p) ensures Loops(q) <==> Reaches(q) {
      NeverEndsIffStuck(q);
    }
    if Stuck(p) {
      StuckReaches(p);
    }
    if q :| q in Nexts(p) && Reaches(q) {
      WayOn(p, q);
    }
    if Reaches(p) {
      WayFrom(p);
    }
  }

  lemma StuckReaches(p: Point)
    requires Stuck(p)
    ensures Reaches(p)
  {
    assert WayToStuck([p]) && [p][0] == p;
  }

  /** No array directly inside an array is closed early by a bracket in its strings. */
  predicate NoneEarly(v: Val)
    decreases v, 0
  {
    match v
    case Dict(entries) => EntriesNoneEarly(entries)
    case List(items) => ItemsNoneEarly(items)
    case _ => true
  }

  predicate EntriesNoneEarly(entries: Entries<Val>)
    decreases entries
  {
    entries == [] || (NoneEarly(entries[0].value) && EntriesNoneEarly(entries[1..]))
  }

  predicate ItemsNoneEarly(items: seq<Val>)
    decreases items
  {
    items == [] ||
    (NoneEarly(items[0]) && (items[0].List? ==> OpenAfter(PrintItems(items[0].items), 1) > 0)
      && ItemsNoneEarly(items[1..]))
  }

  /** A value in an array that is cut out right is read to its end, whatever is read. */
  lemma ItemRead(v: Val, c: string)
    requires Printable(v) && Follows(c) && (v.List? ==> CutRight(PrintItems(v.items), c == ""))
    ensures Print(v) + c != "" && (Print(v) + c)[0] !in SEPARATORS
    ensures var o := OneValue(Print(v) + c, false); o.Some? ==> o.value.1 == c
  {
    hide OneValue, Occurs, EntriesPrintable, ItemsPrintable, DistinctKeys, WordRight, CutRight;
    PrintStarts(v);
    match v
    case Text(s) =>
      assert Print(v) + c == DELIM + (s + (DELIM + c));
      TextBack(s, false, c);
    case Bare(word) => BareBack(word, false, c);
    case Dict(entries) =>
      assert Print(v) + c == "{" + (PrintEntries(entries) + ("}" + c));
      DictBack(entries, false, c);
    case List(items) =>
      assert Print(v) + c == "[" + (PrintItems(items) + ("]" + c));
      ListBack(items, false, c);
  }

  /** A closing bracket behind items is where the parser gets stuck. */
  lemma {:induction false} StuckBehind(items: seq<Val>, s: string, done: seq<Val>)
    requires ItemsPrintable(items) && ItemsNoneEarly(items)
    ensures Items(PrintItems(items) + ("]" + s), done) == None
    decreases items, 1
  {
    hide OneValue, Items, Print, Printable, NoneEarly, OpenAfter;
    var t := PrintItems(items) + ("]" + s);
    if items == [] {
      assert t == "]" + s;
      BracketNeverEnds(s, done);
    } else {
      var v, c := items[0], MoreItems(items[1..]) + ("]" + s);
      assert t == Print(v) + c;
      if v.List? && OpenAfter(PrintItems(v.items), 1) > 1 {
        ListNoneEarly(v);
        LateCutNeverEnds(v.items, c, done);
      } else {
        assert items[1..] == [] ==> c == "]" + s;
        ItemRead(v, c);
        ItemStep(t, done);
        if OneValue(t, false).Some? {
          StuckFurther(items[1..], s, done + [OneValue(t, false).value.0]);
        }
      }
    }
  }

  lemma {:induction false} StuckFurther(items: seq<Val>, s: string, done: seq<Val>)
    requires ItemsPrintable(items) && ItemsNoneEarly(items)
    ensures Items(MoreItems(items) + ("]" + s), done) == None
    decreases items, 2
  {
    hide Items, Print, Printable, NoneEarly, OpenAfter;
    if items == [] {
      assert MoreItems(items) + ("]" + s) == "]" + s;
      BracketNeverEnds(s, done);
    } else {
      var more := PrintItems(items) + ("]" + s);
      assert MoreItems(items) + ("]" + s) == "," + more;
      WholeItems(items);
      CommaItems(more, done);
      StuckBehind(items, s, done);
    }
  }

  lemma WholeItems(items: seq<Val>)
    requires ItemsPrintable(items) && items != []
    ensures PrintItems(items) != "" && PrintItems(items)[0] !in SEPARATORS
  {
    PrintStarts(items[0]);
  }

  lemma ListNoneEarly(v: Val)
    ensures v.List? && Printable(v) ==> ItemsPrintable(v.items)
    ensures v.List? && NoneEarly(v) ==> ItemsNoneEarly(v.items)
    ensures v.List? && Cuts(v) ==> ItemsCut(v.items)
  {
  }

  /** An array inside an array whose strings open more brackets than they close, with another item behind
      it: the parser never ends. */
  lemma {:induction false} LateCutNeverEnds(items: seq<Val>, c: string, done: seq<Val>)
    requires ItemsPrintable(items) && ItemsNoneEarly(items) && OpenAfter(PrintItems(items), 1) > 1 && c != ""
    ensures Items(Print(List(items)) + c, done) == None
    decreases items, 2
  {
    hide OneValue, Nested, Items, PrintItems, ItemsPrintable, ItemsNoneEarly, OpenAfter;
    var t := PrintItems(items);
    var all := t + ("]" + c);
    assert Print(List(items)) + c == "[" + all;
    BracketValue(all, false);
    RawBehind(t, "]" + c, 1);
    var n := Nested(all, '[', ']', false, 1);
    LateCut(c, OpenAfter(t, 1));
    assert all[..n - 1] == t + ("]" + c[..n - 2 - |t|]);
    StuckBehind(items, c[..n - 2 - |t|], []);
    ItemStep("[" + all, done);
  }

  /** Items of which an array is not cut out right, though none is closed early. */
  lemma {:induction false} ItemsNeverEnd(items: seq<Val>, done: seq<Val>)
    requires ItemsPrintable(items) && ItemsNoneEarly(items) && !ItemsCut(items)
    ensures Items(PrintItems(items), done) == None
    decreases items, 0
  {
    hide OneValue, Items, Print, Printable, Cuts, NoneEarly, OpenAfter;
    var v, c := items[0], MoreItems(items[1..]);
    var t := PrintItems(items);
    assert t == Print(v) + c;
    if v.List? && !CutRight(PrintItems(v.items), |items| == 1) {
      ListNoneEarly(v);
      LateCutNeverEnds(v.items, c, done);
    } else {
      ItemRead(v, c);
      ItemStep(t, done);
      if !Cuts(v) {
        ValueNeverEnds(v, false, c);
      } else if OneValue(t, false).Some? {
        WholeItems(items[1..]);
        var more := done + [OneValue(t, false).value.0];
        CommaItems(PrintItems(items[1..]), more);
        ItemsNeverEnd(items[1..], more);
      }
    }
  }

  lemma {:induction false} ValueNeverEnds(v: Val, inArgs: bool, c: string)
    requires Printable(v) && NoneEarly(v) && !Cuts(v) && Follows(c)
    requires !inArgs && v.List? ==> CutRight(PrintItems(v.items), c == "")
    ensures Print(v) + c != "" && OneValue(Print(v) + c, inArgs) == None
    decreases v, 0
  {
    hide OneValue, EntriesPrintable, ItemsPrintable, DistinctKeys, CutRight, Args, Items;
    match v
    case Dict(entries) =>
      assert Print(v) + c == "{" + (PrintEntries(entries) + ("}" + c));
      EntriesNeverEnd(entries, []);
      DictBack(entries, inArgs, c);
    case List(items) =>
      assert Print(v) + c == "[" + (PrintItems(items) + ("]" + c));
      ItemsNeverEnd(items, []);
      ListBack(items, inArgs, c);
  }

  lemma {:induction false} EntriesNeverEnd(entries: Entries<Val>, d: Entries<Val>)
    requires EntriesPrintable(entries) && EntriesNoneEarly(entries) && !EntriesCut(entries)
    ensures Args(PrintEntries(entries), d) == None
    decreases entries, 0
  {
    hide OneValue, Args, Print, Printable, KeyRight, Put, Cuts, NoneEarly;
    var Entry(key, v) := entries[0];
    var more := MoreEntries(entries[1..]);
    var q := Print(v) + more;
    WholeStart(entries);
    ArgRead(v, more);
    EntryStep(key, q, d);
    if !Cuts(v) {
      ValueNeverEnds(v, true, more);
    } else if OneValue(q, true).Some? {
      var longer := Put(d, key, OneValue(q, true).value.0);
      EntriesStart(entries[1..]);
      CommaArgs(PrintEntries(entries[1..]), longer);
      EntriesNeverEnd(entries[1..], longer);
    }
  }

  /** A value of which a first part stands at the end of the text: it is read, and nothing is left. */
  lemma {:induction false} ValueCutOffEnds(v: Val, k: nat, inArgs: bool)
    requires Right(v) && 0 < k < |Print(v)|
    requires !inArgs && v.List? ==> OpenAfter(PrintItems(v.items), 1) > 0
    ensures var o := OneValue(Print(v)[..k], inArgs); o.Some? && o.value.1 == ""
    decreases v, 0
  {
    hide OneValue, EntriesPrintable, ItemsPrintable, DistinctKeys, Occurs, OpenAfter, PrintEntries, PrintItems,
      EntriesCut, ItemsCut;
    match v
    case Text(s) => TextCut(s, k, inArgs);
    case Bare(word) => BareCut(word, k, inArgs);
    case Dict(entries) => DictCutOffEnds(entries, k, inArgs);
    case List(items) => ListCutOffEnds(items, k, inArgs);
  }

  lemma {:induction false} DictCutOffEnds(entries: Entries<Val>, k: nat, inArgs: bool)
    requires EntriesRight(entries) && 0 < k < |Print(Dict(entries))|
    ensures var o := OneValue(Print(Dict(entries))[..k], inArgs); o.Some? && o.value.1 == ""
    decreases entries, 1
  {
    hide OneValue, EntriesPrintable, EntriesCut, Args, Print, PrintEntries, Shortened;
    PrintedDict(entries, k);
    DictCut(entries, k - 1, inArgs);
    ShortenedIsPart(PrintEntries(entries), k - 1);
    EntriesCutOffEnd(entries, if k == 1 then 0 else k - 2, []);
  }

  lemma {:induction false} ListCutOffEnds(items: seq<Val>, k: nat, inArgs: bool)
    requires ItemsRight(items) && 0 < k < |Print(List(items))|
    requires !inArgs ==> OpenAfter(PrintItems(items), 1) > 0
    ensures var o := OneValue(Print(List(items))[..k], inArgs); o.Some? && o.value.1 == ""
    decreases items, 1
  {
    hide OneValue, ItemsPrintable, ItemsCut, OpenAfter, Items, Print, PrintItems, Shortened;
    PrintedList(items, k);
    ShortenedIsPart(PrintItems(items), k - 1);
    ItemsCutOffEnd(items, if k == 1 then 0 else k - 2, []);
    if inArgs {
      ListCut(items, k - 1);
    } else {
      ListCutRaw(PrintItems(items), k - 1);
    }
  }

  lemma ShortenedIsPart(t: string, k: nat)
    requires k <= |t|
    ensures Shortened(t[..k]) == t[..if k == 0 then 0 else k - 1]
  {
  }

  /** An array in an array that is not closed early, cut off: all that is there is taken for it. */
  lemma ListCutRaw(t: string, k: nat)
    requires k <= |t| && OpenAfter(t, 1) > 0
    ensures var read := Items(Shortened(t[..k]), []);
            OneValue("[" + t[..k], false) == if read.None? then None else Some((List(read.value), ""))
  {
    hide OneValue, Items, Nested, OpenAfter;
    var u := t[..k];
    assert t == u + t[k..];
    OpenConcat(u, t[k..], 1);
    NoneOpen(t[k..]);
    RawStops(u, 1);
    BracketValue(u, false);
  }

  lemma {:induction false} ItemsCutOffEnd(items: seq<Val>, k: nat, done: seq<Val>)
    requires ItemsRight(items) && k <= |PrintItems(items)|
    ensures Items(PrintItems(items)[..k], done).Some?
    decreases items, 0
  {
    hide OneValue, Items, Print, Printable, Cuts, OpenAfter;
    var t := PrintItems(items);
    if k == 0 {
      assert t[..k] == "";
      NoItems(done);
    } else {
      var v, more := items[0], MoreItems(items[1..]);
      var p := Print(v);
      assert t == p + more;
      ItemsStart(items, k);
      ItemStep(t[..k], done);
      if k < |p| {
        assert t[..k] == p[..k];
        ValueCutOffEnds(v, k, false);
        NoItems(done + [OneValue(t[..k], false).value.0]);
      } else {
        var c := more[..k - |p|];
        assert t[..k] == p + c;
        ValueBack(v, false, c);
        if c == "" {
          NoItems(done + [v]);
        } else {
          var j := k - |p| - 1;
          assert c == "," + PrintItems(items[1..])[..j];
          ItemsStart(items[1..], j);
          CommaItems(PrintItems(items[1..])[..j], done + [v]);
          ItemsCutOffEnd(items[1..], j, done + [v]);
        }
      }
    }
  }

  /** Wherever printed arguments are cut off, the parser comes to an end on them. */
  lemma {:induction false} EntriesCutOffEnd(entries: Entries<Val>, k: nat, d: Entries<Val>)
    requires EntriesRight(entries) && k <= |PrintEntries(entries)|
    ensures Args(PrintEntries(entries)[..k], d).Some?
    decreases entries, 0
  {
    hide OneValue, Args, Print, Printable, KeyRight, KeyOf, Put, Cuts;
    var t := PrintEntries(entries);
    if entries == [] {
      assert t[..k] == "";
      NoArgsLeft(d);
    } else {
      var Entry(key, v) := entries[0];
      var p, more := Print(v), MoreEntries(entries[1..]);
      WholeStart(entries);
      if k <= |key| {
        assert t[..k] == key[..k];
        KeyCut(key);
        ArgsStep(t[..k], d);
      } else {
        var j := k - |key| - 1;
        var q := (p + more)[..j];
        assert t[..k] == key + (":" + q);
        PrintStarts(v);
        EntryStep(key, q, d);
        if 0 < j < |p| {
          assert q == p[..j];
          ValueCutOffEnds(v, j, true);
          NoArgsLeft(Put(d, key, OneValue(q, true).value.0));
        } else if j >= |p| {
          CutOffBehind(entries, j, d);
        }
      }
    }
  }

  lemma {:induction false} CutOffBehind(entries: Entries<Val>, j: nat, d: Entries<Val>)
    requires EntriesRight(entries) && entries != []
    requires |Print(entries[0].value)| <= j <= |Print(entries[0].value) + MoreEntries(entries[1..])|
    ensures var Entry(key, v) := entries[0];
            var q := (Print(v) + MoreEntries(entries[1..]))[..j];
            q != "" &&
            var o := OneValue(q, true);
            o.Some? && Args(o.value.1, Put(d, key, o.value.0)).Some?
    decreases entries[1..], 1
  {
    hide OneValue, Args, Print, Printable, KeyRight, Put, Cuts;
    var Entry(key, v) := entries[0];
    var p, t := Print(v), PrintEntries(entries[1..]);
    var c := MoreEntries(entries[1..])[..j - |p|];
    assert (p + MoreEntries(entries[1..]))[..j] == p + c;
    ValueBack(v, true, c);
    var longer := Put(d, key, v);
    if c == "" {
      NoArgsLeft(longer);
    } else {
      var i := j - |p| - 1;
      assert c == "," + t[..i];
      EntriesPrefixStart(entries[1..], i);
      CommaArgs(t[..i], longer);
      EntriesCutOffEnd(entries[1..], i, longer);
    }
  }

  /** An array inside an array whose strings close it early, at a bracket that most often stands in one of
      them: the parser ends exactly when it ends both on the text in front of that bracket, read as the
      items, and on the text behind it, read as further items. */
  lemma EarlyCutNeverEndsIff(items: seq<Val>, c: string, done: seq<Val>)
    requires OpenAfter(PrintItems(items), 1) == 0
    ensures var t := PrintItems(items);
            var n := Nested(t, '[', ']', false, 1);
            && 0 < n <= |t| && t[n - 1] == ']'
            && (Items(Print(List(items)) + c, done) == None <==>
                Loops(AtItems(t[..n - 1])) || Loops(AtItems(t[n..] + ("]" + c))))
  {
    hide OneValue, Nested, Items, PrintItems, OpenAfter;
    var t := PrintItems(items);
    var all := t + ("]" + c);
    assert Print(List(items)) + c == "[" + all;
    BracketValue(all, false);
    RawBehind(t, "]" + c, 1);
    RawStops(t, 1);
    var n := Nested(t, '[', ']', false, 1);
    assert all[..n - 1] == t[..n - 1] && all[n..] == t[n..] + ("]" + c);
    ItemStep("[" + all, done);
    if OneValue("[" + all, false).Some? {
      ItemsAlike(all[n..], done + [OneValue("[" + all, false).value.0], []);
    }
  }

  /** Printed arguments make the parser run for ever exactly when it gets stuck on them somewhere. Where no
      array directly inside an array is closed early by its strings, that is when one of them is not cut
      out right; on all others it reads what was printed, so that no wrong value is ever read. */
  lemma PrintedNeverEndsIff(entries: Entries<Val>)
    ensures Args(PrintEntries(entries), []) == None <==> Reaches(AtArgs(PrintEntries(entries)))
    ensures Printable(Dict(entries)) && NoneEarly(Dict(entries)) ==>
              (Reaches(AtArgs(PrintEntries(entries))) <==> !Cuts(Dict(entries)))
    ensures Printable(Dict(entries)) && Cuts(Dict(entries)) ==>
              NoneEarly(Dict(entries)) && Args(PrintEntries(entries), []) == Some(entries)
  {
    hide Reaches, Args, PrintEntries;
    NeverEndsIffStuck(AtArgs(PrintEntries(entries)));
    CutRightIsNoneEarly(Dict(entries));
    if Printable(Dict(entries)) && Cuts(Dict(entries)) {
      RoundTrip(entries);
    }
    if Printable(Dict(entries)) && NoneEarly(Dict(entries)) && !Cuts(Dict(entries)) {
      EntriesNeverEnd(entries, []);
    }
  }

  /** Where all arrays are cut out right, none is closed early. */
  lemma {:induction false} CutRightIsNoneEarly(v: Val)
    ensures Cuts(v) ==> NoneEarly(v)
    decreases v, 0
  {
    match v
    case Text(s) =>
    case Bare(word) =>
    case Dict(entries) => EntriesCutAreNoneEarly(entries);
    case List(items) => ItemsCutAreNoneEarly(items);
  }

  lemma {:induction false} EntriesCutAreNoneEarly(entries: Entries<Val>)
    ensures EntriesCut(entries) ==> EntriesNoneEarly(entries)
    decreases entries, 0
  {
    if entries != [] {
      CutRightIsNoneEarly(entries[0].value);
      EntriesCutAreNoneEarly(entries[1..]);
    }
  }

  lemma {:induction false} ItemsCutAreNoneEarly(items: seq<Val>)
    ensures ItemsCut(items) ==> ItemsNoneEarly(items)
    decreases items, 0
  {
    hide OpenAfter;
    if items != [] {
      CutRightIsNoneEarly(items[0]);
      ItemsCutAreNoneEarly(items[1..]);
    }
  }
}

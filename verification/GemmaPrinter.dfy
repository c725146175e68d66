/** Printed Gemma 4 arguments, and what the parser makes of them. */
module GemmaPrinter {
  import opened Strings
  import opened Dictionaries
  import opened GemmaParser

  function Print(v: Val): string
    decreases v, 0
  {
    match v
    case Text(s) => DELIM + (s + DELIM)
    case Bare(word) => word
    case Dict(entries) => "{" + (PrintEntries(entries) + "}")
    case List(items) => "[" + (PrintItems(items) + "]")
  }

  function PrintEntries(entries: Entries<Val>): string
    decreases entries, 0
  {
    if entries == [] then ""
    else entries[0].key + (":" + (Print(entries[0].value) + MoreEntries(entries[1..])))
  }

  function MoreEntries(entries: Entries<Val>): string
    decreases entries, 1
  {
    if entries == [] then "" else "," + PrintEntries(entries)
  }

  function PrintItems(items: seq<Val>): string
    decreases items, 0
  {
    if items == [] then "" else Print(items[0]) + MoreItems(items[1..])
  }

  function MoreItems(items: seq<Val>): string
    decreases items, 1
  {
    if items == [] then "" else "," + PrintItems(items)
  }

  /** Characters that mean nothing to a scan for brackets and strings. */
  predicate Plain(c: char) {
    c != '{' && c != '}' && c != '[' && c != ']' && c != '<'
  }

  predicate KeyRight(key: string) {
    (forall c :: c in key ==> Plain(c) && c != ':') && Strip(key) == key && (key == "" || key[0] != ',')
  }

  predicate WordRight(word: string) {
    word != "" && (forall c :: c in word ==> Plain(c) && c != ',') && Strip(word) == word
  }

  /** How many square brackets are open behind the text, those in strings counted too; 0 once all
      have been closed. */
  function OpenAfter(t: string, depth: nat): nat {
    if t == "" || depth == 0 then depth
    else OpenAfter(t[1..], if t[0] == '[' then depth + 1 else if t[0] == ']' then depth - 1 else depth)
  }

  /** The array directly inside an array is cut out where it ends: its brackets balance, strings
      included, or it stands last and none of them closes it early. */
  predicate CutRight(inner: string, last: bool) {
    OpenAfter(inner, 1) == 1 || (last && OpenAfter(inner, 1) > 0)
  }

  /** Values that can be printed: keys and words without delimiters, texts without the string delimiter. */
  ghost predicate Printable(v: Val)
    decreases v, 0
  {
    match v
    case Text(s) => !Occurs(DELIM, s)
    case Bare(word) => WordRight(word)
    case Dict(entries) => DistinctKeys(entries) && EntriesPrintable(entries)
    case List(items) => ItemsPrintable(items)
  }

  ghost predicate EntriesPrintable(entries: Entries<Val>)
    decreases entries
  {
    entries == [] || (KeyRight(entries[0].key) && Printable(entries[0].value) && EntriesPrintable(entries[1..]))
  }

  ghost predicate ItemsPrintable(items: seq<Val>)
    decreases items
  {
    items == [] || (Printable(items[0]) && ItemsPrintable(items[1..]))
  }

  /** All arrays directly inside arrays are cut out right. */
  predicate Cuts(v: Val)
    decreases v, 0
  {
    match v
    case Dict(entries) => EntriesCut(entries)
    case List(items) => ItemsCut(items)
    case _ => true
  }

  predicate EntriesCut(entries: Entries<Val>)
    decreases entries
  {
    entries == [] || (Cuts(entries[0].value) && EntriesCut(entries[1..]))
  }

  predicate ItemsCut(items: seq<Val>)
    decreases items
  {
    items == [] ||
    (Cuts(items[0]) && (items[0].List? ==> CutRight(PrintItems(items[0].items), |items| == 1)) && ItemsCut(items[1..]))
  }

  /** Values that can be printed, and are cut out right where they are read back. */
  ghost predicate Right(v: Val) {
    Printable(v) && Cuts(v)
  }

  ghost predicate EntriesRight(entries: Entries<Val>) {
    EntriesPrintable(entries) && EntriesCut(entries)
  }

  ghost predicate ItemsRight(items: seq<Val>) {
    ItemsPrintable(items) && ItemsCut(items)
  }

  predicate Pair(open: char, close: char) {
    (open == '{' && close == '}') || (open == '[' && close == ']')
  }

  lemma NestedChar(c: char, rest: string, open: char, close: char, depth: nat)
    requires c != '<' && depth > 0 && Pair(open, close)
    ensures Nested([c] + rest, open, close, true, depth) ==
            1 + Nested(rest, open, close, true,
                       if c == open then depth + 1 else if c == close then depth - 1 else depth)
  {
    var t := [c] + rest;
    assert t[0] == c && t[1..] == rest;
  }

  lemma {:induction false} NestedPlain(w: string, rest: string, open: char, close: char, depth: nat)
    requires (forall c :: c in w ==> Plain(c)) && depth > 0 && Pair(open, close)
    ensures Nested(w + rest, open, close, true, depth) == |w| + Nested(rest, open, close, true, depth)
  {
    hide Nested;
    if w == "" {
      assert w + rest == rest;
    } else {
      assert w + rest == [w[0]] + (w[1..] + rest);
      assert w[0] in w && forall c :: c in w[1..] ==> c in w;
      NestedChar(w[0], w[1..] + rest, open, close, depth);
      NestedPlain(w[1..], rest, open, close, depth);
    }
  }

  lemma DelimOpensOnce()
    ensures OpensOnce(DELIM)
  {
  }

  lemma NestedText(s: string, rest: string, open: char, close: char, depth: nat)
    requires !Occurs(DELIM, s) && depth > 0
    ensures Nested(DELIM + (s + (DELIM + rest)), open, close, true, depth) ==
            |DELIM| + |s| + |DELIM| + Nested(rest, open, close, true, depth)
  {
    hide IndexOf, Occurs, OpensOnce;
    DelimOpensOnce();
    Cut(DELIM, s + (DELIM + rest));
    IndexAfter(DELIM, s, rest);
    assert (s + (DELIM + rest))[|s| + |DELIM|..] == rest;
  }

  /** A scan that knows about strings passes over a printed value, whatever follows. */
  lemma {:induction false} NestedValue(v: Val, rest: string, open: char, close: char, depth: nat)
    requires Printable(v) && depth > 0 && Pair(open, close)
    ensures Nested(Print(v) + rest, open, close, true, depth) == |Print(v)| + Nested(rest, open, close, true, depth)
    decreases v, 0
  {
    hide Nested, Occurs;
    match v
    case Text(s) =>
      assert Print(v) + rest == DELIM + (s + (DELIM + rest));
      NestedText(s, rest, open, close, depth);
    case Bare(word) => NestedPlain(word, rest, open, close, depth);
    case Dict(entries) =>
      var d := if open == '{' then depth + 1 else depth;
      assert Print(v) + rest == ['{'] + (PrintEntries(entries) + (['}'] + rest));
      NestedChar('{', PrintEntries(entries) + (['}'] + rest), open, close, depth);
      NestedEntries(entries, ['}'] + rest, open, close, d);
      NestedChar('}', rest, open, close, d);
    case List(items) =>
      var d := if open == '[' then depth + 1 else depth;
      assert Print(v) + rest == ['['] + (PrintItems(items) + ([']'] + rest));
      NestedChar('[', PrintItems(items) + ([']'] + rest), open, close, depth);
      NestedItems(items, [']'] + rest, open, close, d);
      NestedChar(']', rest, open, close, d);
  }

  lemma {:induction false} NestedEntries(entries: Entries<Val>, rest: string, open: char, close: char, depth: nat)
    requires EntriesPrintable(entries) && depth > 0 && Pair(open, close)
    ensures Nested(PrintEntries(entries) + rest, open, close, true, depth) ==
            |PrintEntries(entries)| + Nested(rest, open, close, true, depth)
    decreases entries
  {
    hide Nested, Printable, Print;
    if entries == [] {
      assert "" + rest == rest;
    } else {
      var Entry(key, v) := entries[0];
      var more := MoreEntries(entries[1..]) + rest;
      assert PrintEntries(entries) + rest == key + ([':'] + (Print(v) + more));
      NestedPlain(key, [':'] + (Print(v) + more), open, close, depth);
      NestedChar(':', Print(v) + more, open, close, depth);
      NestedValue(v, more, open, close, depth);
      NestedEntries(entries[1..], rest, open, close, depth);
      if entries[1..] == [] {
        assert more == rest;
      } else {
        assert more == [','] + (PrintEntries(entries[1..]) + rest);
        NestedChar(',', PrintEntries(entries[1..]) + rest, open, close, depth);
      }
    }
  }

  lemma ItemsParts(items: seq<Val>, rest: string)
    requires items != []
    ensures PrintItems(items) + rest == Print(items[0]) + (MoreItems(items[1..]) + rest)
    ensures |PrintItems(items)| == |Print(items[0])| + |MoreItems(items[1..])|
    ensures MoreItems(items[1..]) + rest ==
            if items[1..] == [] then rest else [','] + (PrintItems(items[1..]) + rest)
    ensures |MoreItems(items[1..])| == if items[1..] == [] then 0 else 1 + |PrintItems(items[1..])|
  {
    hide Print;
    Assoc(Print(items[0]), MoreItems(items[1..]), rest);
    Assoc(",", PrintItems(items[1..]), rest);
  }

  lemma {:induction false} NestedItems(items: seq<Val>, rest: string, open: char, close: char, depth: nat)
    requires ItemsPrintable(items) && depth > 0 && Pair(open, close)
    ensures Nested(PrintItems(items) + rest, open, close, true, depth) ==
            |PrintItems(items)| + Nested(rest, open, close, true, depth)
    decreases items
  {
    hide Nested, Printable, Print, PrintItems, MoreItems;
    if items == [] {
      NoItemsPrinted();
      assert "" + rest == rest;
    } else {
      var more := MoreItems(items[1..]) + rest;
      ItemsParts(items, rest);
      NestedValue(items[0], more, open, close, depth);
      NestedItems(items[1..], rest, open, close, depth);
      if items[1..] != [] {
        NestedChar(',', PrintItems(items[1..]) + rest, open, close, depth);
      }
    }
  }

  lemma NoItemsPrinted()
    ensures PrintItems([]) == ""
  {
  }
}

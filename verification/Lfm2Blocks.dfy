/** Printed LFM2 blocks are split back into the calls they were printed from. */
module Lfm2Blocks {
  import opened Strings
  import opened Lfm2Escape
  import opened Lfm2Split

  datatype Unit = One(c: char) | Escaped(c: char)

  /** The text of a call: plain characters, string literals, and bracketed groups. */
  datatype Node = Plain(c: char) | Literal(quote: char, units: seq<Unit>) | Group(open: char, nodes: seq<Node>)

  function UnitsText(units: seq<Unit>): string {
    if units == [] then "" else UnitText(units[0]) + UnitsText(units[1..])
  }

  function UnitText(u: Unit): string {
    match u
    case One(c) => [c]
    case Escaped(c) => ['\\', c]
  }

  function Closing(open: char): char {
    if open == '(' then ')' else if open == '[' then ']' else '}'
  }

  function NodeText(n: Node): string
    decreases n, 0
  {
    match n
    case Plain(c) => [c]
    case Literal(quote, units) => [quote] + (UnitsText(units) + [quote])
    case Group(open, nodes) => [open] + (NodesText(nodes) + [Closing(open)])
  }

  function NodesText(nodes: seq<Node>): string
    decreases nodes, 0
  {
    if nodes == [] then "" else NodeText(nodes[0]) + NodesText(nodes[1..])
  }

  predicate Bracket(c: char) {
    c in {'(', ')', '[', ']', '{', '}'}
  }

  /** A node that can stand at a depth, to be split with regard to strings or without: commas are inside
      brackets; a string is ended by its own quote only; and where strings do not count, their
      characters must be harmless as they are. */
  predicate NodeRight(n: Node, deep: bool, strings: bool)
    decreases n
  {
    match n
    case Plain(c) => c != '\'' && c != '"' && !Bracket(c) && (c == ',' ==> deep)
    case Literal(quote, units) =>
      && (quote == '\'' || quote == '"') && (forall u :: u in units && u.One? ==> u.c != quote && u.c != '\\')
      && (!strings ==> forall u :: u in units ==> !Bracket(u.c) && (u.c == ',' ==> deep))
    case Group(open, nodes) => open in {'(', '[', '{'} && forall m :: m in nodes ==> NodeRight(m, true, strings)
  }

  predicate CallRight(call: seq<Node>, strings: bool) {
    (forall n :: n in call ==> NodeRight(n, false, strings)) && NodesText(call) != ""
      && Strip(NodesText(call)) == NodesText(call)
  }

  function PrintCalls(calls: seq<seq<Node>>): string {
    if calls == [] then "" else NodesText(calls[0]) + MoreCalls(calls[1..])
  }

  function MoreCalls(calls: seq<seq<Node>>): string {
    if calls == [] then "" else ", " + (NodesText(calls[0]) + MoreCalls(calls[1..]))
  }

  function Block(calls: seq<seq<Node>>): string {
    "[" + (PrintCalls(calls) + "]")
  }

  function CallTexts(calls: seq<seq<Node>>): seq<string> {
    if calls == [] then [] else [NodesText(calls[0])] + CallTexts(calls[1..])
  }

  /** The splitter passes over the text at this depth. */
  ghost predicate Passes(t: string, rest: string, depth: int, strings: bool) {
    Segments(t + rest, depth, None, strings) == Glue(t, Segments(rest, depth, None, strings))
  }

  lemma CharPasses(c: char, rest: string, depth: int, strings: bool)
    requires !Bracket(c) && (strings ==> !Quote(c)) && (c == ',' ==> depth != 0)
    ensures Passes([c], rest, depth, strings)
  {
    assert ([c] + rest)[1..] == rest;
  }

  lemma PassesConcat(s: string, t: string, rest: string, depth: int, strings: bool)
    requires Passes(s, t + rest, depth, strings) && Passes(t, rest, depth, strings)
    ensures Passes(s + t, rest, depth, strings)
  {
    hide Segments, Glue;
    assert s + t + rest == s + (t + rest);
    GlueGlue(s, t, Segments(rest, depth, None, strings));
  }

  /** Inside a string that counts, the units are passed over up to its quote. */
  lemma {:induction false} UnitsPass(units: seq<Unit>, quote: char, rest: string, depth: int)
    requires Quote(quote) && forall u :: u in units && u.One? ==> u.c != quote && u.c != '\\'
    ensures Segments(UnitsText(units) + ([quote] + rest), depth, Some(quote), true)
         == Glue(UnitsText(units) + [quote], Segments(rest, depth, None, true))
    decreases |units|
  {
    hide Glue, Segments, UnitText;
    var after := Segments(rest, depth, None, true);
    if units == [] {
      assert "" + ([quote] + rest) == [quote] + rest;
      assert "" + [quote] == [quote];
      QuoteCloses(quote, rest, depth);
    } else {
      assert units[0] in units && forall u :: u in units[1..] ==> u in units;
      UnitsPass(units[1..], quote, rest, depth);
      var more := UnitsText(units[1..]) + ([quote] + rest);
      var first := UnitText(units[0]);
      assert UnitsText(units) + ([quote] + rest) == first + more;
      UnitPasses(units[0], quote, more, depth);
      GlueGlue(first, UnitsText(units[1..]) + [quote], after);
      assert first + (UnitsText(units[1..]) + [quote]) == UnitsText(units) + [quote];
    }
  }

  lemma QuoteCloses(quote: char, rest: string, depth: int)
    requires Quote(quote)
    ensures Segments([quote] + rest, depth, Some(quote), true) == Glue([quote], Segments(rest, depth, None, true))
  {
    assert ([quote] + rest)[1..] == rest;
  }

  lemma UnitPasses(u: Unit, quote: char, more: string, depth: int)
    requires u.One? ==> u.c != quote && u.c != '\\'
    ensures var first := UnitText(u);
            Segments(first + more, depth, Some(quote), true) == Glue(first, Segments(more, depth, Some(quote), true))
  {
    match u
    case One(c) => assert ([c] + more)[1..] == more;
    case Escaped(c) => assert (['\\', c] + more)[2..] == more && (['\\', c] + more)[..2] == ['\\', c];
  }

  lemma LiteralPasses(quote: char, units: seq<Unit>, rest: string, depth: int)
    requires Quote(quote) && forall u :: u in units && u.One? ==> u.c != quote && u.c != '\\'
    ensures Passes([quote] + (UnitsText(units) + [quote]), rest, depth, true)
  {
    hide Glue;
    var inner := UnitsText(units) + ([quote] + rest);
    var t := [quote] + inner;
    assert t[1..] == inner;
    UnitsPass(units, quote, rest, depth);
    assert [quote] + (UnitsText(units) + [quote]) + rest == t;
    GlueGlue([quote], UnitsText(units) + [quote], Segments(rest, depth, None, true));
  }

  /** Where strings do not count, a literal is passed over character by character. */
  lemma {:induction false} HarmlessPasses(s: string, rest: string, depth: int)
    requires forall c :: c in s ==> !Bracket(c) && (c == ',' ==> depth != 0)
    ensures Passes(s, rest, depth, false)
  {
    hide Segments, Glue, Bracket;
    if s == "" {
      assert "" + rest == rest;
      GlueNothing(Segments(rest, depth, None, false));
    } else {
      assert s[0] in s && forall c :: c in s[1..] ==> c in s;
      HarmlessPasses(s[1..], rest, depth);
      CharPasses(s[0], s[1..] + rest, depth, false);
      PassesConcat([s[0]], s[1..], rest, depth, false);
      assert [s[0]] + s[1..] == s;
    }
  }

  lemma {:induction false} CharsOfUnits(units: seq<Unit>, c: char)
    ensures c in UnitsText(units) ==> c == '\\' || exists u :: u in units && u.c == c
  {
    if units != [] && c in UnitsText(units) && c != '\\' {
      if c in UnitsText(units[1..]) {
        CharsOfUnits(units[1..], c);
        var u :| u in units[1..] && u.c == c;
        assert u in units;
      } else {
        assert units[0] in units && units[0].c == c;
      }
    }
  }

  lemma RawLiteralPasses(quote: char, units: seq<Unit>, rest: string, depth: int)
    requires Quote(quote) && forall u :: u in units ==> !Bracket(u.c) && (u.c == ',' ==> depth != 0)
    ensures Passes([quote] + (UnitsText(units) + [quote]), rest, depth, false)
  {
    var s := [quote] + (UnitsText(units) + [quote]);
    forall c | c in s ensures !Bracket(c) && (c == ',' ==> depth != 0) {
      CharsOfUnits(units, c);
      assert c == quote || c in UnitsText(units);
    }
    HarmlessPasses(s, rest, depth);
  }

  /** A balanced node is passed over at any depth it may stand at. */
  lemma {:induction false} NodePasses(n: Node, rest: string, depth: nat, strings: bool)
    requires NodeRight(n, depth > 0, strings)
    ensures Passes(NodeText(n), rest, depth, strings)
    decreases n, 0
  {
    hide Segments, Glue, Passes, Bracket;
    match n
    case Plain(c) => CharPasses(c, rest, depth, strings);
    case Literal(quote, units) =>
      if strings {
        LiteralPasses(quote, units, rest, depth);
      } else {
        RawLiteralPasses(quote, units, rest, depth);
      }
    case Group(open, nodes) =>
      NodesPass(nodes, [Closing(open)] + rest, depth + 1, strings);
      GroupPasses(open, NodesText(nodes), rest, depth, strings);
  }

  lemma GroupPasses(open: char, inner: string, rest: string, depth: nat, strings: bool)
    requires Opens(open) && Passes(inner, [Closing(open)] + rest, depth + 1, strings)
    ensures Passes([open] + (inner + [Closing(open)]), rest, depth, strings)
  {
    hide Glue;
    var close := [Closing(open)];
    var behind := inner + (close + rest);
    assert [open] + (inner + close) + rest == [open] + behind && ([open] + behind)[1..] == behind;
    assert (close + rest)[1..] == rest;
    var after := Segments(rest, depth, None, strings);
    GlueGlue(inner, close, after);
    GlueGlue([open], inner + close, after);
  }

  lemma {:induction false} NodesPass(nodes: seq<Node>, rest: string, depth: nat, strings: bool)
    requires forall n :: n in nodes ==> NodeRight(n, depth > 0, strings)
    ensures Passes(NodesText(nodes), rest, depth, strings)
    decreases nodes, 0
  {
    hide Segments, Glue, NodeRight, NodeText;
    if nodes == [] {
      assert "" + rest == rest;
      GlueNothing(Segments(rest, depth, None, strings));
    } else {
      assert nodes[0] in nodes && forall n :: n in nodes[1..] ==> n in nodes;
      NodePasses(nodes[0], NodesText(nodes[1..]) + rest, depth, strings);
      NodesPass(nodes[1..], rest, depth, strings);
      PassesConcat(NodeText(nodes[0]), NodesText(nodes[1..]), rest, depth, strings);
    }
  }

  lemma {:induction false} StripSolid(s: string)
    requires s != "" && !IsSpace(s[0]) && !IsSpace(s[|s| - 1])
    ensures Strip(s) == s
  {
  }

  lemma BlankInFront(s: string)
    requires Strip(s) == s && s != ""
    ensures Strip(" " + s) == s
  {
    StrippedStart(s);
    assert (" " + s)[1..] == s;
    assert StripLeft(" " + s) == StripLeft(s);
  }

  /** The calls behind the first one, each cut off at its comma. */
  lemma {:induction false} MoreSegments(calls: seq<seq<Node>>, strings: bool)
    requires forall c :: c in calls ==> CallRight(c, strings)
    ensures var r := Segments(MoreCalls(calls), 0, None, strings);
            r[0] == "" && Solid(r[1..]) == CallTexts(calls)
    decreases |calls|
  {
    hide NodesText, CallRight, Strip;
    if calls != [] {
      assert calls[0] in calls && forall c :: c in calls[1..] ==> c in calls;
      MoreSegments(calls[1..], strings);
      var text, more := NodesText(calls[0]), MoreCalls(calls[1..]);
      CallPasses(calls[0], " ", more, strings);
      assert MoreCalls(calls)[1..] == " " + text + more;
      var r := Segments(more, 0, None, strings);
      assert Segments(MoreCalls(calls), 0, None, strings) == [""] + Glue(" " + text, r);
      assert (" " + text) + r[0] == " " + text;
      CallIsSolid(calls[0], strings);
      BlankInFront(text);
      assert ([""] + Glue(" " + text, r))[1..] == [" " + text] + r[1..];
      assert ([" " + text] + r[1..])[1..] == r[1..];
    }
  }

  lemma CallIsSolid(call: seq<Node>, strings: bool)
    requires CallRight(call, strings)
    ensures NodesText(call) != "" && Strip(NodesText(call)) == NodesText(call)
  {
  }

  lemma BlankIsPlain()
    ensures !Bracket(' ') && !Quote(' ')
  {
  }

  lemma CallPasses(call: seq<Node>, blank: string, rest: string, strings: bool)
    requires CallRight(call, strings) && (blank == "" || blank == " ")
    ensures Passes(blank + NodesText(call), rest, 0, strings)
  {
    hide Segments, Glue, NodeRight, Bracket;
    NodesPass(call, rest, 0, strings);
    if blank == " " {
      BlankIsPlain();
      CharPasses(' ', NodesText(call) + rest, 0, strings);
      PassesConcat(" ", NodesText(call), rest, 0, strings);
    } else {
      assert "" + NodesText(call) == NodesText(call);
    }
  }

  lemma SegmentsOfCalls(calls: seq<seq<Node>>, strings: bool)
    requires forall c :: c in calls ==> CallRight(c, strings)
    ensures Solid(Segments(PrintCalls(calls), 0, None, strings)) == CallTexts(calls)
  {
    hide NodesText, CallRight, Strip;
    if calls == [] {
      assert Segments("", 0, None, strings) == [""] && [""][1..] == [];
      StripNothing();
    } else {
      var text, more := NodesText(calls[0]), MoreCalls(calls[1..]);
      assert calls[0] in calls && forall c :: c in calls[1..] ==> c in calls;
      MoreSegments(calls[1..], strings);
      CallPasses(calls[0], "", more, strings);
      CallIsSolid(calls[0], strings);
      var r := Segments(more, 0, None, strings);
      assert "" + text == text && text + r[0] == text;
      assert Glue(text, r) == [text] + r[1..];
    }
  }

  lemma Unbracketed(inner: string)
    ensures Unbracket(Strip("[" + (inner + "]"))) == inner
  {
    var t := "[" + (inner + "]");
    assert t[0] == '[' && t[|t| - 1] == ']';
    StripSolid(t);
    assert Slice(t, 1, |t| - 1) == inner;
  }

  /** Splitting a printed block gives back the calls, whatever their strings hold, with any blanks around
      it; and without regard to strings too, where the strings hold no brackets. */
  lemma SplitPrinted(left: string, calls: seq<seq<Node>>, right: string, strings: bool)
    requires Spaces(left) && Spaces(right) && forall c :: c in calls ==> CallRight(c, strings)
    ensures Split(left + (Block(calls) + right), strings) == CallTexts(calls)
  {
    hide Segments, Solid, CallRight, Unbracket, Strip, PrintCalls;
    var t := Block(calls);
    assert t[0] == '[' && t[|t| - 1] == ']';
    StripTrims(left, t, right);
    Unbracketed(PrintCalls(calls));
    StripSolid(t);
    SegmentsOfCalls(calls, strings);
  }

  /** So does splitting calls without the brackets of a block, unless a bracket opens and one closes them. */
  lemma SplitBare(left: string, calls: seq<seq<Node>>, right: string, strings: bool)
    requires Spaces(left) && Spaces(right) && calls != [] && forall c :: c in calls ==> CallRight(c, strings)
    requires var t := PrintCalls(calls); t == "" || t[0] != '[' || t[|t| - 1] != ']'
    ensures Split(left + (PrintCalls(calls) + right), strings) == CallTexts(calls)
  {
    hide Segments, Solid, CallRight, Strip, NodesText;
    CallsTrim(calls, strings);
    StripTrims(left, PrintCalls(calls), right);
    SegmentsOfCalls(calls, strings);
  }

  lemma {:induction false} CallsTrim(calls: seq<seq<Node>>, strings: bool)
    requires calls != [] && forall c :: c in calls ==> CallRight(c, strings)
    ensures PrintCalls(calls) != "" && Trim(PrintCalls(calls))
    decreases |calls|
  {
    hide CallRight, NodesText;
    assert calls[0] in calls && forall c :: c in calls[1..] ==> c in calls;
    CallIsSolid(calls[0], strings);
    StripIsTrim(NodesText(calls[0]));
    if |calls| > 1 {
      CallsTrim(calls[1..], strings);
      assert MoreCalls(calls[1..]) == ", " + PrintCalls(calls[1..]);
    }
  }
}

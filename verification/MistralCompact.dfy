/** Mistral's compact calls, `[TOOL_CALLS]name[ARGS]{...}`, and what the one-shot parser makes of a row
    of them. */
module MistralCompact {
  import opened Strings
  import Json = MistralScanner
  import Grammar = JsonGrammar

  const MARKER := "[TOOL_CALLS"
  const ARGS := "[ARGS"

  /** The value of a text that is whole and right JSON. */
  type Loads<!J> = string -> Option<J>

  /** A function's name, its arguments, and where their text ends. */
  datatype Parsed<+J> = Parsed(name: string, args: J, end: nat)

  /** The text behind a marker: its closing bracket, if there, and blanks are passed over. */
  function BehindMarker(t: string): (r: string)
    ensures |r| <= |t|
  {
    StripLeft(if t != "" && t[0] == ']' then t[1..] else t)
  }

  function TryCompact<J>(loads: Loads<J>, text: string): (r: Option<Parsed<J>>)
    ensures r.Some? ==> 0 < r.value.end <= |text|
  {
    var start := IndexOf(MARKER, text);
    if start == -1 then None else TryName(loads, |text|, BehindMarker(text[start + |MARKER|..]))
  }

  /** The same from the name on, in a text that ends at `n`. */
  function TryName<J>(loads: Loads<J>, n: nat, t: string): (r: Option<Parsed<J>>)
    requires |t| <= n
    ensures r.Some? ==> 0 < r.value.end <= n
  {
    var argsPos := IndexOf(ARGS, t);
    if argsPos == -1 || Strip(t[..argsPos]) == "" then None
    else TryArgs(loads, n, Strip(t[..argsPos]), BehindMarker(t[argsPos + |ARGS|..]))
  }

  function TryArgs<J>(loads: Loads<J>, n: nat, name: string, t: string): (r: Option<Parsed<J>>)
    requires |t| <= n
    ensures r.Some? ==> 0 < r.value.end <= n
  {
    if t == "" || t[0] !in "{[" then None
    else
      match Json.Scan(t[0], t, 0, false, false)
      case Inside(_, _, _) => None
      case Done(used) =>
        var value := loads(t[..used]);
        if value.None? then None else Some(Parsed(name, value.value, n - |t| + used))
  }

  /** Step over a marker's closing bracket and the blanks behind it. */
  method SkipMarker(text: string, start: nat) returns (i: nat)
    requires start <= |text|
    ensures start <= i <= |text| && text[i..] == BehindMarker(text[start..])
  {
    i := start;
    if i < |text| && text[i] == ']' {
      assert text[i..][1..] == text[i + 1..];
      i := i + 1;
    }
    while i < |text| && IsSpace(text[i])
      invariant start <= i <= |text|
      invariant StripLeft(text[i..]) == BehindMarker(text[start..])
    {
      assert text[i..][0] == text[i] && text[i..][1..] == text[i + 1..];
      i := i + 1;
    }
    assert i < |text| ==> text[i..][0] == text[i];
  }

  method TryParseCompactArgsFormat<J>(loads: Loads<J>, text: string) returns (r: Option<Parsed<J>>)
    ensures r == TryCompact(loads, text)
  {
    hide IndexOf, Strip, BehindMarker;
    var start := IndexOf(MARKER, text);
    if start == -1 {
      return None;
    }
    var i := SkipMarker(text, start + |MARKER|);
    var found := IndexOf(ARGS, text[i..]);
    if found == -1 {
      return None;
    }
    var argsPos := i + found;
    assert text[i..][..found] == text[i..argsPos] && text[i..][found + |ARGS|..] == text[argsPos + |ARGS|..];
    var funcName := Strip(text[i..argsPos]);
    if funcName == "" {
      return None;
    }
    var j := SkipMarker(text, argsPos + |ARGS|);
    r := ParseArgs(loads, text, j, funcName);
  }

  method ParseArgs<J>(loads: Loads<J>, text: string, j: nat, funcName: string) returns (r: Option<Parsed<J>>)
    requires j <= |text|
    ensures r == TryArgs(loads, |text|, funcName, text[j..])
  {
    if j >= |text| || text[j] !in "{[" {
      return None;
    }
    var json, end := Json.ExtractJsonValue(text, j);
    if json.None? {
      return None;
    }
    assert text[j..][..|json.value|] == json.value;
    var args := loads(json.value);
    return if args.None? then None else Some(Parsed(funcName, args.value, end));
  }

  /** Calls one after the other, and the text that is left: stripped after each, as the next call may
      stand anywhere in it. */
  function Row<J>(loads: Loads<J>, remaining: string): (seq<(string, J)>, string)
    decreases |remaining|
  {
    var parsed := TryCompact(loads, remaining);
    if parsed.None? then ([], remaining)
    else
      var more := Row(loads, Strip(remaining[parsed.value.end..]));
      ([(parsed.value.name, parsed.value.args)] + more.0, more.1)
  }

  /** The loop over consecutive compact calls. */
  method ExtractRow<J>(loads: Loads<J>, toolPart: string) returns (calls: seq<(string, J)>, remaining: string)
    ensures calls == Row(loads, toolPart).0 && remaining == Row(loads, toolPart).1
  {
    hide TryCompact, Strip;
    NothingToParse(loads);
    calls, remaining := [], toolPart;
    while remaining != ""
      invariant var more, all := Row(loads, remaining), Row(loads, toolPart); calls + more.0 == all.0 && more.1 == all.1
      decreases |remaining|
    {
      var parsed := TryParseCompactArgsFormat(loads, remaining);
      if parsed.None? {
        break;
      }
      ghost var more := Row(loads, Strip(remaining[parsed.value.end..]));
      assert calls + ([(parsed.value.name, parsed.value.args)] + more.0)
          == (calls + [(parsed.value.name, parsed.value.args)]) + more.0;
      calls := calls + [(parsed.value.name, parsed.value.args)];
      remaining := Strip(remaining[parsed.value.end..]);
    }
  }

  lemma NothingToParse<J>(loads: Loads<J>)
    ensures TryCompact(loads, "") == None
  {
  }

  lemma {:induction false} StripLeftExtends(t: string, e: string)
    requires StripLeft(t) != ""
    ensures StripLeft(t + e) == StripLeft(t) + e
  {
    if IsSpace(t[0]) {
      assert (t + e)[1..] == t[1..] + e;
      StripLeftExtends(t[1..], e);
    }
  }

  lemma BehindMarkerExtends(t: string, e: string)
    requires BehindMarker(t) != ""
    ensures BehindMarker(t + e) == BehindMarker(t) + e
  {
    hide StripLeft;
    NothingLeft();
    if t[0] == ']' {
      assert (t + e)[1..] == t[1..] + e;
      StripLeftExtends(t[1..], e);
    } else {
      StripLeftExtends(t, e);
    }
  }

  lemma NothingLeft()
    ensures StripLeft("") == ""
  {
  }

  /** A call once found is found in every extension of the text. */
  lemma CompactExtends<J>(loads: Loads<J>, text: string, e: string)
    requires TryCompact(loads, text).Some?
    ensures TryCompact(loads, text + e) == TryCompact(loads, text)
  {
    hide IndexOf, BehindMarker, TryName;
    IndexOfExtends(MARKER, text, e);
    var k := IndexOf(MARKER, text) + |MARKER|;
    assert (text + e)[k..] == text[k..] + e;
    NameExtends(loads, |text|, BehindMarker(text[k..]), e);
    BehindMarkerExtends(text[k..], e);
  }

  lemma NameExtends<J>(loads: Loads<J>, n: nat, t: string, e: string)
    requires |t| <= n && TryName(loads, n, t).Some?
    ensures t != "" && TryName(loads, n + |e|, t + e) == TryName(loads, n, t)
  {
    hide IndexOf, BehindMarker, TryArgs, Strip;
    IndexOfExtends(ARGS, t, e);
    var k := IndexOf(ARGS, t);
    assert (t + e)[k + |ARGS|..] == t[k + |ARGS|..] + e && (t + e)[..k] == t[..k];
    ArgsExtend(loads, n, Strip(t[..k]), BehindMarker(t[k + |ARGS|..]), e);
    BehindMarkerExtends(t[k + |ARGS|..], e);
  }

  lemma ArgsExtend<J>(loads: Loads<J>, n: nat, name: string, t: string, e: string)
    requires |t| <= n && TryArgs(loads, n, name, t).Some?
    ensures t != "" && TryArgs(loads, n + |e|, name, t + e) == TryArgs(loads, n, name, t)
  {
    Json.ScanConcat(t[0], t, e, 0, false, false);
    var used := Json.Scan(t[0], t, 0, false, false).used;
    assert (t + e)[..used] == t[..used];
  }

  /** A call as written: whether its marker is closed, the blanks behind that, its name, the blanks
      behind it, the same for the marker of the arguments, their JSON value, and the text after it. */
  datatype Call = Call(closed: bool, gap: string, name: string, after: string,
                       argsClosed: bool, argsGap: string, value: Grammar.Value, trail: string)

  function Bracket(closed: bool): string {
    if closed then "]" else ""
  }

  function ArgsText(c: Call): string {
    Bracket(c.argsClosed) + (c.argsGap + Grammar.TextOf(c.value))
  }

  /** A call but for the text after it. */
  function HeadText(c: Call): string {
    MARKER + (Bracket(c.closed) + (c.gap + (c.name + (c.after + (ARGS + ArgsText(c))))))
  }

  function RowText(calls: seq<Call>): string {
    if calls == [] then "" else HeadText(calls[0]) + (calls[0].trail + RowText(calls[1..]))
  }

  ghost predicate CallRight<J>(loads: Loads<J>, c: Call) {
    && Spaces(c.gap) && Spaces(c.after) && Spaces(c.argsGap)
    && c.name != "" && Strip(c.name) == c.name && '[' !in c.name && ']' !in c.name
    && Grammar.WellFormed(c.value) && (c.value.Arr? || c.value.Obj?) && loads(Grammar.TextOf(c.value)).Some?
    && !Occurs(MARKER, c.trail)
  }

  /** Behind a marker, closed or not, stands what stands behind its blanks. */
  lemma MarkerPassed(closed: bool, gap: string, rest: string)
    requires Spaces(gap) && rest != "" && !IsSpace(rest[0]) && rest[0] != ']'
    ensures BehindMarker(Bracket(closed) + (gap + rest)) == rest
  {
    var t := Bracket(closed) + (gap + rest);
    BlanksStripped(gap, rest);
    if closed {
      assert t[1..] == gap + rest;
    } else {
      assert t == gap + rest;
      assert t[0] in gap + rest;
      assert gap != "" ==> gap[0] in gap && t[0] == gap[0];
    }
  }

  lemma {:induction false} BlanksEnd(s: string, g: string)
    requires Spaces(g)
    ensures StripRight(s + g) == StripRight(s)
    decreases |g|
  {
    if g == "" {
      assert s + g == s;
    } else {
      var n := |g| - 1;
      assert g[n] in g && forall c :: c in g[..n] ==> c in g;
      assert (s + g)[|s + g| - 1] == g[n] && (s + g)[..|s + g| - 1] == s + g[..n];
      BlanksEnd(s, g[..n]);
    }
  }

  lemma NameStripped(name: string, g: string)
    requires Spaces(g) && name != "" && Strip(name) == name
    ensures Strip(name + g) == name
  {
    hide StripRight;
    StrippedStart(name);
    assert (name + g)[0] == name[0];
    BlanksEnd(name, g);
  }

  lemma MarkersOpenOnce()
    ensures OpensOnce(MARKER) && OpensOnce(ARGS) && !IsSpace('[') && !IsSpace('{') && !IsSpace(']')
    ensures forall c :: IsSpace(c) ==> c != '['
  {
  }

  lemma ValueOpens(v: Grammar.Value)
    requires v.Arr? || v.Obj?
    ensures var t := Grammar.TextOf(v); t != "" && t[0] in "{[" && t[|t| - 1] in "}]"
  {
  }

  lemma ArgsFound<J>(loads: Loads<J>, n: nat, name: string, v: Grammar.Value, rest: string)
    requires Grammar.WellFormed(v) && (v.Arr? || v.Obj?) && loads(Grammar.TextOf(v)).Some?
    requires |Grammar.TextOf(v) + rest| <= n
    ensures TryArgs(loads, n, name, Grammar.TextOf(v) + rest) ==
            Some(Parsed(name, loads(Grammar.TextOf(v)).value, n - |rest|))
  {
    hide Json.Scan, Grammar.TextOf;
    var t := Grammar.TextOf(v);
    ValueOpens(v);
    Json.ContainerIsCutOut(v, rest);
    assert (t + rest)[..|t|] == t && (t + rest)[0] == t[0];
  }

  lemma ArgsBehind<J>(loads: Loads<J>, n: nat, c: Call, rest: string)
    requires CallRight(loads, c) && |ArgsText(c) + rest| <= n
    ensures TryArgs(loads, n, c.name, BehindMarker(ArgsText(c) + rest)) ==
            Some(Parsed(c.name, loads(Grammar.TextOf(c.value)).value, n - |rest|))
  {
    hide Occurs, BehindMarker, TryArgs, Strip, Grammar.TextOf, Grammar.WellFormed;
    var value := Grammar.TextOf(c.value);
    ValueOpens(c.value);
    assert (value + rest)[0] == value[0];
    assert ArgsText(c) + rest == Bracket(c.argsClosed) + (c.argsGap + (value + rest));
    MarkerPassed(c.argsClosed, c.argsGap, value + rest);
    ArgsFound(loads, n, c.name, c.value, rest);
  }

  lemma NameFound<J>(loads: Loads<J>, n: nat, c: Call, rest: string)
    requires CallRight(loads, c)
    requires var t := c.name + (c.after + (ARGS + (ArgsText(c) + rest))); |t| <= n
    ensures TryName(loads, n, c.name + (c.after + (ARGS + (ArgsText(c) + rest)))) ==
            Some(Parsed(c.name, loads(Grammar.TextOf(c.value)).value, n - |rest|))
  {
    hide IndexOf, Occurs, BehindMarker, TryArgs, Strip, ArgsText, Grammar.TextOf, Grammar.WellFormed, OpensOnce;
    MarkersOpenOnce();
    var front := c.name + c.after;
    var behind := ArgsText(c) + rest;
    Assoc(c.name, c.after, ARGS + behind);
    NoFirstNoTag(ARGS, front);
    IndexAfter(ARGS, front, behind);
    NameStripped(c.name, c.after);
    Cut(front, ARGS + behind);
    Cut(ARGS, behind);
    assert (front + (ARGS + behind))[|front| + |ARGS|..] == behind;
    ArgsBehind(loads, n, c, rest);
  }

  /** The first call of a text is found, whatever stands in front of it and behind it. */
  lemma CallFound<J>(loads: Loads<J>, before: string, c: Call, rest: string)
    requires CallRight(loads, c) && !Occurs(MARKER, before)
    ensures var text := before + (HeadText(c) + rest);
            TryCompact(loads, text) ==
              Some(Parsed(c.name, loads(Grammar.TextOf(c.value)).value, |before| + |HeadText(c)|))
  {
    hide IndexOf, Occurs, BehindMarker, TryName, Strip, Grammar.TextOf, Grammar.WellFormed, OpensOnce, ArgsText;
    MarkersOpenOnce();
    var named := c.name + (c.after + (ARGS + (ArgsText(c) + rest)));
    var behind := Bracket(c.closed) + (c.gap + named);
    var text := before + (HeadText(c) + rest);
    assert HeadText(c) + rest == MARKER + behind;
    IndexAfter(MARKER, before, behind);
    Cut(before, MARKER + behind);
    Cut(MARKER, behind);
    assert text[|before| + |MARKER|..] == behind;
    StrippedStart(c.name);
    assert named[0] == c.name[0] && c.name[0] in c.name;
    MarkerPassed(c.closed, c.gap, named);
    NameFound(loads, |text|, c, rest);
  }

  /** Blanks come off the left of the text in front only, and off the right of the text behind only. */
  lemma {:induction false} StripLeftInFront(s: string, rest: string)
    requires rest != "" && !IsSpace(rest[0])
    ensures StripLeft(s + rest) == StripLeft(s) + rest
    decreases |s|
  {
    if s == "" {
      assert s + rest == rest == "" + rest;
    } else {
      assert (s + rest)[0] == s[0] && (s + rest)[1..] == s[1..] + rest;
      StripLeftInFront(s[1..], rest);
    }
  }

  lemma {:induction false} StripRightBehind(front: string, s: string)
    requires front != "" && !IsSpace(front[|front| - 1])
    ensures StripRight(front + s) == front + StripRight(s)
    decreases |s|
  {
    var w := front + s;
    if s == "" {
      assert w == front == front + "";
    } else {
      assert w[|w| - 1] == s[|s| - 1] && w[..|w| - 1] == front + s[..|s| - 1];
      StripRightBehind(front, s[..|s| - 1]);
    }
  }

  lemma {:induction false} StripRightPart(s: string)
    ensures StripRight(s) <= s && StripRight(StripRight(s)) == StripRight(s)
    decreases |s|
  {
    if s != "" && IsSpace(s[|s| - 1]) {
      StripRightPart(s[..|s| - 1]);
    }
  }

  /** The order in which the two ends are stripped does not matter. */
  lemma {:induction false} StripEnds(s: string)
    ensures StripLeft(StripRight(s)) == Strip(s)
    decreases |s|
  {
    if s != "" && IsSpace(s[0]) {
      var t := s[1..];
      assert s == [s[0]] + t;
      StripEnds(t);
      StripRightFirst(s[0], t);
      if StripRight(t) == "" {
        NothingLeft();
      } else {
        assert ([s[0]] + StripRight(t))[1..] == StripRight(t);
      }
    } else if s != "" {
      var t := s[1..];
      assert s == [s[0]] + t;
      StripRightBehind([s[0]], t);
    }
  }

  lemma {:induction false} StripRightFirst(c: char, t: string)
    requires IsSpace(c)
    ensures StripRight([c] + t) == if StripRight(t) == "" then "" else [c] + StripRight(t)
    decreases |t|
  {
    var w := [c] + t;
    if t == "" {
      assert w[..0] == "" && w[|w| - 1] == c;
    } else {
      assert w[|w| - 1] == t[|t| - 1] && w[..|w| - 1] == [c] + t[..|t| - 1];
      StripRightFirst(c, t[..|t| - 1]);
    }
  }

  lemma StripTwice(s: string)
    ensures Strip(StripRight(s)) == Strip(s)
  {
    hide StripRight, StripLeft;
    StripRightPart(s);
    StripEnds(s);
    StripEnds(StripRight(s));
  }

  /** The row with the blanks at its very end gone. */
  function Trimmed(calls: seq<Call>): seq<Call>
    requires calls != []
  {
    if |calls| == 1 then [calls[0].(trail := StripRight(calls[0].trail))] else [calls[0]] + Trimmed(calls[1..])
  }

  lemma HeadEnds(c: Call)
    requires c.value.Arr? || c.value.Obj?
    ensures var t := HeadText(c); t != "" && t[0] == '[' && t[|t| - 1] in "}]"
  {
    hide Grammar.TextOf;
    ValueOpens(c.value);
    var front := MARKER + (Bracket(c.closed)
      + (c.gap + (c.name + (c.after + (ARGS + (Bracket(c.argsClosed) + c.argsGap))))));
    assert HeadText(c) == front + Grammar.TextOf(c.value);
  }

  lemma {:induction false} RowTrimmed(front: string, calls: seq<Call>)
    requires calls != [] && forall c :: c in calls ==> c.value.Arr? || c.value.Obj?
    ensures StripRight(front + RowText(calls)) == front + RowText(Trimmed(calls))
    decreases |calls|
  {
    hide HeadText, StripRight;
    var c := calls[0];
    HeadEnds(c);
    MarkersOpenOnce();
    if |calls| == 1 {
      OneCall(c);
      OneCall(c.(trail := StripRight(c.trail)));
      assert calls == [c];
      var head := front + HeadText(c);
      assert HeadText(c.(trail := StripRight(c.trail))) == HeadText(c) by { SameHead(c, StripRight(c.trail)); }
      assert front + RowText(calls) == head + c.trail;
      assert head[|head| - 1] == HeadText(c)[|HeadText(c)| - 1];
      StripRightBehind(head, c.trail);
      assert head + StripRight(c.trail) == front + RowText(Trimmed(calls));
    } else {
      assert forall x :: x in calls[1..] ==> x in calls;
      var longer := front + (HeadText(c) + c.trail);
      RowTrimmed(longer, calls[1..]);
      assert front + RowText(calls) == longer + RowText(calls[1..]);
      assert Trimmed(calls)[0] == c && Trimmed(calls)[1..] == Trimmed(calls[1..]);
      assert longer + RowText(Trimmed(calls[1..])) == front + RowText(Trimmed(calls));
    }
  }

  lemma SameHead(c: Call, trail: string)
    ensures HeadText(c.(trail := trail)) == HeadText(c)
  {
  }

  lemma OneCall(c: Call)
    ensures RowText([c]) == HeadText(c) + c.trail
  {
    assert [c][1..] == [];
    assert c.trail + "" == c.trail;
  }

  /** A call's name and arguments, where these are right JSON. */
  function NameAndArgs<J>(loads: Loads<J>, c: Call): seq<(string, J)> {
    match loads(Grammar.TextOf(c.value))
    case None => []
    case Some(args) => [(c.name, args)]
  }

  function NamesAndArgs<J>(loads: Loads<J>, calls: seq<Call>): seq<(string, J)> {
    if calls == [] then [] else NameAndArgs(loads, calls[0]) + NamesAndArgs(loads, calls[1..])
  }

  /** The text behind the last call. */
  function LastTrail(before: string, calls: seq<Call>): string {
    if calls == [] then before else calls[|calls| - 1].trail
  }

  ghost predicate RowRight<J>(loads: Loads<J>, before: string, calls: seq<Call>) {
    !Occurs(MARKER, before) && forall c :: c in calls ==> CallRight(loads, c)
  }

  lemma NotInStripped(t: string, w: string)
    requires !Occurs(t, w)
    ensures !Occurs(t, StripLeft(w)) && !Occurs(t, StripRight(w)) && !Occurs(t, Strip(w))
  {
    hide StripLeft, StripRight, Occurs;
    StripLeftIsEnd(w);
    var k := |w| - |StripLeft(w)|;
    NotInPart(t, w, k, |w|);
    StripRightPart(w);
    NotInPart(t, w, 0, |StripRight(w)|);
    assert StripLeft(w) == w[k..|w|];
    StripRightPart(StripLeft(w));
    NotInPart(t, StripLeft(w), 0, |Strip(w)|);
    assert w[k..|w|] == w[k..] && w[0..|StripRight(w)|] == StripRight(w);
    assert StripLeft(w)[0..|Strip(w)|] == Strip(w);
  }

  lemma TrimmedCall<J>(loads: Loads<J>, c: Call)
    requires CallRight(loads, c)
    ensures var t := c.(trail := StripRight(c.trail));
            CallRight(loads, t) && NameAndArgs(loads, t) == NameAndArgs(loads, c) && Strip(t.trail) == Strip(c.trail)
  {
    hide Occurs, Strip, StripRight;
    StripTwice(c.trail);
    NotInStripped(MARKER, c.trail);
  }

  lemma OneTrail(c: Call)
    ensures LastTrail("", [c]) == c.trail
  {
  }

  lemma LastOfMore(calls: seq<Call>)
    ensures |calls| > 1 ==> LastTrail("", calls) == LastTrail("", calls[1..])
  {
  }

  lemma {:induction false} TrimmedRight<J>(loads: Loads<J>, calls: seq<Call>)
    requires calls != [] && forall c :: c in calls ==> CallRight(loads, c)
    ensures var t := Trimmed(calls);
            && |t| == |calls| && (forall c :: c in t ==> CallRight(loads, c))
            && NamesAndArgs(loads, t) == NamesAndArgs(loads, calls)
            && Strip(LastTrail("", t)) == Strip(LastTrail("", calls))
    decreases |calls|
  {
    hide CallRight, Strip, StripRight, NameAndArgs, LastTrail;
    var c := calls[0];
    assert c in calls && forall x :: x in calls[1..] ==> x in calls;
    if |calls| == 1 {
      TrimmedCall(loads, c);
      assert calls[1..] == [] && Trimmed(calls)[1..] == [];
      OneTrail(c);
      OneTrail(Trimmed(calls)[0]);
      assert calls == [c] && Trimmed(calls) == [Trimmed(calls)[0]];
    } else {
      TrimmedRight(loads, calls[1..]);
      var t := Trimmed(calls);
      assert t[1..] == Trimmed(calls[1..]);
      LastOfMore(t);
      LastOfMore(calls);
    }
  }

  /** A row of calls, with any text between them that holds no marker: all are found in order, and what
      stands behind the last is left. What stands between them is lost. */
  lemma {:induction false} RowParsed<J>(loads: Loads<J>, before: string, calls: seq<Call>)
    requires RowRight(loads, before, calls)
    ensures var r := Row(loads, Strip(before + RowText(calls)));
            r.0 == NamesAndArgs(loads, calls) && r.1 == Strip(LastTrail(before, calls))
    decreases |calls|
  {
    hide Occurs, HeadText, CallRight, TryCompact, StripLeft, StripRight, RowText, Row, NameAndArgs;
    if calls == [] {
      NoCalls(loads, before);
    } else {
      var t, front := Trimmed(calls), StripLeft(before);
      TrimmedRight(loads, calls);
      RowStripped(loads, before, calls);
      NotInStripped(MARKER, before);
      assert t[0] in t && forall x :: x in t[1..] ==> x in t;
      RowFound(loads, front, t);
      assert !Occurs(MARKER, t[0].trail) by { TrailRight(loads, t[0]); }
      RowParsed(loads, t[0].trail, t[1..]);
    }
  }

  lemma TrailRight<J>(loads: Loads<J>, c: Call)
    requires CallRight(loads, c)
    ensures !Occurs(MARKER, c.trail) && (c.value.Arr? || c.value.Obj?)
  {
    hide Occurs;
  }

  lemma NoCalls<J>(loads: Loads<J>, before: string)
    requires !Occurs(MARKER, before)
    ensures RowText([]) == "" && NamesAndArgs(loads, []) == []
    ensures before + "" == before && Row(loads, Strip(before)) == ([], Strip(before))
  {
    hide Occurs, Strip;
    NotInStripped(MARKER, before);
  }

  lemma RowStripped<J>(loads: Loads<J>, before: string, calls: seq<Call>)
    requires calls != [] && forall c :: c in calls ==> CallRight(loads, c)
    ensures Strip(before + RowText(calls)) == StripLeft(before) + RowText(Trimmed(calls))
  {
    hide Occurs, HeadText, CallRight, StripLeft, StripRight, Trimmed;
    forall c | c in calls ensures c.value.Arr? || c.value.Obj? {
      TrailRight(loads, c);
    }
    HeadEnds(calls[0]);
    MarkersOpenOnce();
    assert RowText(calls)[0] == '[';
    StripLeftInFront(before, RowText(calls));
    RowTrimmed(StripLeft(before), calls);
  }

  /** The first call of a row, and the row behind it. */
  lemma RowFound<J>(loads: Loads<J>, front: string, calls: seq<Call>)
    requires calls != [] && !Occurs(MARKER, front) && forall c :: c in calls ==> CallRight(loads, c)
    ensures var rest := Row(loads, Strip(calls[0].trail + RowText(calls[1..])));
            var r := Row(loads, front + RowText(calls));
            r.0 == NameAndArgs(loads, calls[0]) + rest.0 && r.1 == rest.1
  {
    hide Occurs, HeadText, TryCompact, Strip, Grammar.TextOf;
    var c := calls[0];
    assert c in calls;
    var behind := c.trail + RowText(calls[1..]);
    CallFound(loads, front, c, behind);
    assert front + (HeadText(c) + behind) == (front + HeadText(c)) + behind;
    Cut(front + HeadText(c), behind);
  }

  /** What the parser needs beside the text: the value of JSON text, the calls of a function's name and
      arguments, and those of a JSON array. */
  datatype Tools<!J, !C> = Tools(loads: Loads<J>, calls: (string, J) -> seq<C>, arrayCalls: string -> seq<C>)

  function CallsOf<J, C>(tools: Tools<J, C>, found: seq<(string, J)>): seq<C> {
    if found == [] then [] else tools.calls(found[0].0, found[0].1) + CallsOf(tools, found[1..])
  }

  /** Normal text and what is left at the end, with a blank between. */
  function Combined(normal: string, trailing: string): string {
    if trailing == "" then normal else Strip(normal + " " + trailing)
  }

  /** The calls of an array, and the text behind the first place that reads as it. */
  function ArrayPart<J, C>(tools: Tools<J, C>, normal: string, part: string): (string, seq<C>) {
    var at := IndexOf(Json.BOT, part);
    var json := if at == -1 then None else Json.CutFrom('[', part, at + |Json.BOT| - 1);
    if json.None? || IndexOf(json.value, part) == -1 then (normal, [])
    else (Combined(normal, Strip(part[IndexOf(json.value, part) + |json.value|..])), tools.arrayCalls(json.value))
  }

  function CompactPart<J, C>(tools: Tools<J, C>, normal: string, part: string): (string, seq<C>) {
    var (found, left) := Row(tools.loads, part);
    if CallsOf(tools, found) == [] then (normal, []) else (Combined(normal, left), CallsOf(tools, found))
  }

  function OneShot<J, C>(tools: Tools<J, C>, text: string): (string, seq<C>) {
    var marker := IndexOf(MARKER, text);
    if marker == -1 then (text, [])
    else if IndexOf(Json.BOT, text[marker..]) != -1 then ArrayPart(tools, Strip(text[..marker]), text[marker..])
    else CompactPart(tools, Strip(text[..marker]), text[marker..])
  }

  method DetectAndParse<J, C(==)>(tools: Tools<J, C>, text: string) returns (normal: string, calls: seq<C>)
    ensures normal == OneShot(tools, text).0 && calls == OneShot(tools, text).1
  {
    hide IndexOf, Strip, Row, Json.CutFrom;
    var marker := IndexOf(MARKER, text);
    if marker == -1 {
      return text, [];
    }
    normal := Strip(text[..marker]);
    var part := text[marker..];
    if IndexOf(Json.BOT, part) != -1 {
      var json := Json.ExtractJsonArray(part);
      if json.None? {
        return normal, [];
      }
      calls := tools.arrayCalls(json.value);
      ArrayStands(part);
      var trailing := Strip(part[IndexOf(json.value, part) + |json.value|..]);
      return Combined(normal, trailing), calls;
    }
    var found, remaining := ExtractRow(tools.loads, part);
    calls := [];
    for k := 0 to |found|
      invariant calls + CallsOf(tools, found[k..]) == CallsOf(tools, found)
    {
      assert found[k..][1..] == found[k + 1..];
      calls := calls + tools.calls(found[k].0, found[k].1);
    }
    assert found[|found|..] == [];
    if calls == [] {
      return normal, [];
    }
    normal := Combined(normal, remaining);
  }

  /** An array that was cut out of a text stands in it. */
  lemma ArrayStands(part: string)
    ensures var at := IndexOf(Json.BOT, part);
            at != -1 ==>
              var json := Json.CutFrom('[', part, at + |Json.BOT| - 1);
              json.Some? ==> IndexOf(json.value, part) != -1 && IndexOf(json.value, part) + |json.value| <= |part|
  {
    hide IndexOf;
    var at := IndexOf(Json.BOT, part);
    if at != -1 {
      var start := at + |Json.BOT| - 1;
      var json := Json.CutFrom('[', part, start);
      assert json.Some? ==> OccursAt(json.value, part, start);
    }
  }

  lemma RowTaken<J>(loads: Loads<J>, calls: seq<Call>)
    requires calls != [] && forall c :: c in calls ==> CallRight(loads, c)
    ensures var r := Row(loads, RowText(calls));
            r.0 == NamesAndArgs(loads, calls) && r.1 == Strip(calls[|calls| - 1].trail)
  {
    hide Occurs, CallRight, RowText, Strip, Row, NameAndArgs;
    var c, rest := calls[0], calls[1..];
    assert c in calls && forall x :: x in rest ==> x in calls;
    assert "" + RowText(calls) == RowText(calls);
    NoFirstNoTag(MARKER, "");
    RowFound(loads, "", calls);
    TrailRight(loads, c);
    RowParsed(loads, c.trail, rest);
    assert LastTrail(c.trail, rest) == calls[|calls| - 1].trail;
  }

  lemma MarkerFirst(before: string, calls: seq<Call>)
    requires calls != [] && !Occurs(MARKER, before)
    ensures IndexOf(MARKER, before + RowText(calls)) == |before|
  {
    hide IndexOf, Occurs, OpensOnce, ArgsText;
    MarkersOpenOnce();
    var behind := RowText(calls)[|MARKER|..];
    assert RowText(calls) == MARKER + behind;
    IndexAfter(MARKER, before, behind);
  }

  const HEAD := "[TOOL_CALLS] "

  /** Two stretches of text with a blank between, where both have any. */
  function Beside(x: string, y: string): string {
    if x == "" then y else if y == "" then x else x + " " + y
  }

  lemma CombinedIsBeside(x: string, y: string)
    requires Trim(x) && Trim(y)
    ensures Combined(x, y) == Beside(x, y)
  {
    hide Strip, IsSpace;
    SpaceIsSpace();
    if x == "" && y != "" {
      assert "" + " " + y == " " + (y + "");
      StripTrims(" ", y, "");
    } else if y != "" {
      var both := x + " " + y;
      assert both[0] == x[0] && both[|both| - 1] == y[|y| - 1];
      assert both == "" + (both + "");
      StripTrims("", both, "");
    }
  }

  lemma SpaceIsSpace()
    ensures IsSpace(' ') && Spaces(" ") && Spaces("")
  {
  }

  lemma StringQuoted(units: seq<Grammar.Unit>)
    ensures '"' in Grammar.StringText(units)
  {
    assert Grammar.StringText(units)[0] == '"';
  }

  /** Outside strings JSON text holds no underscore. */
  lemma {:induction false} NoUnderscore(v: Grammar.Value)
    requires Grammar.WellFormed(v) && '"' !in Grammar.TextOf(v)
    ensures '_' !in Grammar.TextOf(v)
    decreases v, 0
  {
    match v
    case Atom(text) =>
    case Str(units) => StringQuoted(units);
    case Arr(blank, elements) => NoneInElements(elements, false);
    case Obj(blank, members) => NoneInElements(members, true);
  }

  lemma {:induction false} NoneInElements(members: seq<Grammar.Member>, keyed: bool)
    requires (forall m :: m in members ==> Grammar.MemberRight(m)) && '"' !in Grammar.ElementsText(members, keyed)
    ensures '_' !in Grammar.ElementsText(members, keyed)
    decreases members
  {
    hide Grammar.WellFormed;
    if members != [] {
      var m := members[0];
      assert m in members && forall x :: x in members[1..] ==> x in members;
      StringQuoted(m.key);
      NoUnderscore(m.value);
      NoneInElements(members[1..], keyed);
    }
  }

  /** The marker is no array. */
  lemma MarkerIsNoArray(a: Grammar.Value)
    requires Grammar.WellFormed(a)
    ensures Grammar.TextOf(a) != HEAD[..12]
  {
    if Grammar.TextOf(a) == HEAD[..12] {
      assert HEAD[..12] == "[TOOL_CALLS]" && "[TOOL_CALLS]"[5] == '_';
      NoUnderscore(a);
    }
  }

  lemma HeadCloses(rest: string)
    ensures Json.Scan('[', HEAD + rest, 0, false, false) == Json.Done(12)
  {
    hide Json.Scan;
    Json.FillerPasses('[', "TOOL_CALLS", 1);
    Json.BracketsCutOut('[', "TOOL_CALLS", " " + rest);
    HeadOpens(rest);
  }

  lemma HeadOpens(rest: string)
    ensures HEAD + rest == ['['] + "TOOL_CALLS" + [Json.Closing('[')] + (" " + rest)
  {
    assert HEAD == ['['] + "TOOL_CALLS" + [']'] + " ";
  }

  /** An array does not start inside the marker in front of it. */
  lemma ArrayBehindMarker(a: Grammar.Value, rest: string, i: nat)
    requires Grammar.WellFormed(a) && a.Arr? && OccursAt(Grammar.TextOf(a), HEAD + (Grammar.TextOf(a) + rest), i)
    ensures i >= |HEAD|
  {
    hide Grammar.WellFormed, Json.Scan, Grammar.ElementsText;
    var t := Grammar.TextOf(a);
    var w := HEAD + (t + rest);
    if i < |HEAD| {
      CharWithin(t, w, i, i);
      assert t[0] == '[' && w[i] == HEAD[i];
      OneBracket(i);
      assert w == t + w[|t|..];
      Json.ContainerIsCutOut(a, w[|t|..]);
      HeadCloses(t + rest);
      MarkerIsNoArray(a);
    }
  }

  lemma OneBracket(i: nat)
    requires i < |HEAD| && HEAD[i] == '['
    ensures i == 0
  {
  }

  /** The first place that reads as the array is where it stands. */
  lemma ArrayFirst(a: Grammar.Value, rest: string)
    requires Grammar.WellFormed(a) && a.Arr?
    ensures IndexOf(Grammar.TextOf(a), HEAD + (Grammar.TextOf(a) + rest)) == |HEAD|
  {
    hide Grammar.WellFormed, Grammar.TextOf, IndexOf, OccursAt;
    var t := Grammar.TextOf(a);
    StandsBehind(t, HEAD, rest);
    FoundFirst(t, HEAD + (t + rest), |HEAD|);
    ArrayBehindMarker(a, rest, IndexOf(t, HEAD + (t + rest)));
  }

  /** The marker, and the start of the array behind it. */
  lemma MarkersThere(before: string, rest: string)
    requires !Occurs(MARKER, before)
    ensures IndexOf(MARKER, before + (HEAD + rest)) == |before|
    ensures rest != "" && rest[0] == '[' ==> IndexOf(Json.BOT, HEAD + rest) == 0
    ensures rest == "" ==> IndexOf(Json.BOT, HEAD + rest) == -1 && IndexOf(ARGS, HEAD + rest) == -1
  {
    hide IndexOf, Occurs, OccursAt;
    MarkersOpenOnce();
    assert HEAD == MARKER + "] ";
    assert HEAD + rest == MARKER + ("] " + rest);
    IndexAfter(MARKER, before, "] " + rest);
    if rest != "" && rest[0] == '[' {
      assert HEAD + rest == "" + (Json.BOT + rest[1..]);
      StandsBehind(Json.BOT, "", rest[1..]);
      FoundFirst(Json.BOT, HEAD + rest, 0);
    }
    if rest == "" {
      assert HEAD + rest == HEAD;
      NoneInHead();
    }
  }

  lemma NoneInHead()
    ensures IndexOf(Json.BOT, HEAD) == -1 && IndexOf(ARGS, HEAD) == -1
  {
    hide IndexOf;
    assert ARGS[1] == 'A' && HEAD[1] == 'T';
    forall i ensures !OccursAt(ARGS, HEAD, i) && !OccursAt(Json.BOT, HEAD, i) {
      if OccursAt(ARGS, HEAD, i) {
        CharWithin(ARGS, HEAD, i, i);
        OneBracket(i);
        CharWithin(ARGS, HEAD, i, i + 1);
      }
    }
  }

  /** The canonical form: an array of calls behind the marker. Its calls are those of the whole array, and
      the text in front and behind is normal text, with a blank between; an array that is not complete
      has no calls, and what is there of it is lost. */
  lemma ArrayDetected<J, C>(tools: Tools<J, C>, before: string, a: Grammar.Value, trail: string, n: nat)
    requires !Occurs(MARKER, before) && Grammar.WellFormed(a) && a.Arr? && n < |Grammar.TextOf(a)|
    ensures OneShot(tools, before + (HEAD + (Grammar.TextOf(a) + trail))) ==
            (Beside(Strip(before), Strip(trail)), tools.arrayCalls(Grammar.TextOf(a)))
    ensures OneShot(tools, before + (HEAD + Grammar.TextOf(a)[..n])) == (Strip(before), [])
  {
    hide Grammar.WellFormed, Grammar.ElementsText, IndexOf, Occurs, Strip, Row, Json.CutFrom, Combined, Json.Scan;
    var t := Grammar.TextOf(a);
    WholeArray(tools, before, a, trail);
    var rest := t[..n];
    MarkersThere(before, rest);
    Cut(before, HEAD + rest);
    if n == 0 {
      NothingTaken(tools.loads, HEAD + rest);
    } else {
      Json.PrefixIsIncomplete(a, n);
      PartNotCut(a, n);
    }
  }

  lemma WholeArray<J, C>(tools: Tools<J, C>, before: string, a: Grammar.Value, trail: string)
    requires !Occurs(MARKER, before) && Grammar.WellFormed(a) && a.Arr?
    ensures OneShot(tools, before + (HEAD + (Grammar.TextOf(a) + trail))) ==
            (Beside(Strip(before), Strip(trail)), tools.arrayCalls(Grammar.TextOf(a)))
  {
    hide Grammar.WellFormed, Grammar.ElementsText, IndexOf, Occurs, Strip, Row, Json.CutFrom, Combined, Json.Scan;
    var t := Grammar.TextOf(a);
    MarkersThere(before, t + trail);
    Cut(before, HEAD + (t + trail));
    ArrayFirst(a, trail);
    Json.CutIsTheValue(HEAD, a, trail);
    Cut(HEAD, t + trail);
    Cut(t, trail);
    var part := HEAD + (t + trail);
    assert part[|HEAD| + |t|..] == part[|HEAD|..][|t|..];
    StripIsTrim(before);
    StripIsTrim(trail);
    CombinedIsBeside(Strip(before), Strip(trail));
  }

  lemma PartNotCut(a: Grammar.Value, n: nat)
    requires Grammar.WellFormed(a) && a.Arr? && 0 < n < |Grammar.TextOf(a)|
    ensures Json.CutFrom('[', HEAD + Grammar.TextOf(a)[..n], |HEAD|) == None && Grammar.TextOf(a)[..n][0] == '['
  {
    hide Grammar.WellFormed, Grammar.ElementsText, Json.Scan;
    Json.PrefixIsIncomplete(a, n);
    Cut(HEAD, Grammar.TextOf(a)[..n]);
  }

  lemma NothingTaken<J>(loads: Loads<J>, part: string)
    requires part == HEAD + "" || part == HEAD
    ensures Row(loads, part) == ([], part)
  {
    hide IndexOf, Strip;
    assert part == HEAD;
    NoneInHead();
    NoArgsBehind();
  }

  lemma NoArgsBehind()
    ensures IndexOf(MARKER, HEAD) != -1 ==> IndexOf(ARGS, BehindMarker(HEAD[IndexOf(MARKER, HEAD) + |MARKER|..])) == -1
  {
    hide IndexOf;
    if IndexOf(MARKER, HEAD) != -1 {
      var at := IndexOf(MARKER, HEAD);
      CharWithin(MARKER, HEAD, at, at);
      OneBracket(at);
      assert HEAD[0 + |MARKER|..] == "] " && "] "[1..] == " ";
      assert " "[1..] == "" && StripLeft("") == "";
      NoFirstNoTag(ARGS, "");
    }
  }

  /** All the elements of some lists, in order. */
  function Flat<C>(parts: seq<seq<C>>): seq<C> {
    if parts == [] then [] else parts[0] + Flat(parts[1..])
  }

  /** The calls that a written call stands for, by its name and the value of its JSON text. */
  function CallsFor<J, C>(tools: Tools<J, C>, c: Call): seq<C> {
    if tools.loads(Grammar.TextOf(c.value)).None? then []
    else tools.calls(c.name, tools.loads(Grammar.TextOf(c.value)).value)
  }

  lemma {:induction false} CallsAre<J, C>(tools: Tools<J, C>, calls: seq<Call>)
    requires forall c :: c in calls ==> CallRight(tools.loads, c)
    ensures CallsOf(tools, NamesAndArgs(tools.loads, calls))
         == Flat(seq(|calls|, i requires 0 <= i < |calls| => CallsFor(tools, calls[i])))
    decreases |calls|
  {
    hide Occurs, Grammar.TextOf, Grammar.WellFormed, Strip, CallRight, CallsFor, CallsOf;
    var parts := seq(|calls|, i requires 0 <= i < |calls| => CallsFor(tools, calls[i]));
    if calls == [] {
      NoCallsOf(tools);
    } else {
      assert calls[0] in calls && forall x :: x in calls[1..] ==> x in calls;
      CallsAre(tools, calls[1..]);
      assert parts[1..] == seq(|calls[1..]|, i requires 0 <= i < |calls[1..]| => CallsFor(tools, calls[1..][i]));
      CallsOfFirst(tools, calls[0], NamesAndArgs(tools.loads, calls[1..]));
    }
  }

  lemma NoCallsOf<J, C>(tools: Tools<J, C>)
    ensures CallsOf(tools, []) == []
  {
  }

  lemma CallsOfFirst<J, C>(tools: Tools<J, C>, c: Call, more: seq<(string, J)>)
    requires CallRight(tools.loads, c)
    ensures CallsOf(tools, NameAndArgs(tools.loads, c) + more) == CallsFor(tools, c) + CallsOf(tools, more)
  {
    hide Occurs, Grammar.TextOf, Grammar.WellFormed, Strip;
    assert (NameAndArgs(tools.loads, c) + more)[1..] == more;
  }

  /** A whole text with a row of compact calls: the text before the row and behind it is normal text, with
      a blank between, and the calls are those of the row, in order. */
  lemma RowDetected<J, C>(tools: Tools<J, C>, before: string, calls: seq<Call>)
    requires calls != [] && RowRight(tools.loads, before, calls) && !Occurs(Json.BOT, RowText(calls))
    ensures var items := Flat(seq(|calls|, i requires 0 <= i < |calls| => CallsFor(tools, calls[i])));
            OneShot(tools, before + RowText(calls)) ==
            if items == [] then (Strip(before), [])
            else (Beside(Strip(before), Strip(calls[|calls| - 1].trail)), items)
  {
    hide IndexOf, Occurs, CallRight, RowText, Strip, Row, CallsOf, NamesAndArgs, Combined, CallsFor, Flat;
    MarkerFirst(before, calls);
    Cut(before, RowText(calls));
    RowTaken(tools.loads, calls);
    CallsAre(tools, calls);
    StripIsTrim(before);
    StripIsTrim(calls[|calls| - 1].trail);
    CombinedIsBeside(Strip(before), Strip(calls[|calls| - 1].trail));
  }

  /** One call, in the form that models write. */
  lemma OneCallDetected<J, C>(tools: Tools<J, C>, name: string, args: Grammar.Value)
    requires name != "" && Strip(name) == name && '[' !in name && ']' !in name
    requires Grammar.WellFormed(args) && (args.Arr? || args.Obj?) && tools.loads(Grammar.TextOf(args)).Some?
    requires !Occurs(Json.BOT, "[TOOL_CALLS]" + name + "[ARGS]" + Grammar.TextOf(args))
    ensures OneShot(tools, "[TOOL_CALLS]" + name + "[ARGS]" + Grammar.TextOf(args)) ==
            ("", tools.calls(name, tools.loads(Grammar.TextOf(args)).value))
  {
    hide Occurs, Strip, Grammar.TextOf, Grammar.WellFormed, OneShot, CallsFor;
    var c := Call(true, "", name, "", true, "", args, "");
    var calls, text := [c], "[TOOL_CALLS]" + name + "[ARGS]" + Grammar.TextOf(args);
    NoFirstNoTag(MARKER, "");
    OneRow(c);
    assert "" + text == text;
    StripNothing();
    RowDetected(tools, "", calls);
    var items := seq(1, i requires 0 <= i < 1 => CallsFor(tools, calls[i]));
    assert items == [CallsFor(tools, c)] && items[1..] == [];
    assert Flat(items) == CallsFor(tools, c) + [] == CallsFor(tools, c);
    OneFor(tools, c);
  }

  lemma OneFor<J, C>(tools: Tools<J, C>, c: Call)
    ensures tools.loads(Grammar.TextOf(c.value)).Some? ==>
              CallsFor(tools, c) == tools.calls(c.name, tools.loads(Grammar.TextOf(c.value)).value)
  {
    hide Grammar.TextOf;
  }

  lemma OneRow(c: Call)
    requires c.closed && c.argsClosed && c.gap == c.after == c.argsGap == c.trail == ""
    ensures RowText([c]) == "[TOOL_CALLS]" + c.name + "[ARGS]" + Grammar.TextOf(c.value)
  {
    hide Grammar.TextOf;
    assert [c][1..] == [] && RowText([]) == "";
    var t := Grammar.TextOf(c.value);
    assert "" + t == t && "" + (ARGS + ArgsText(c)) == ARGS + ArgsText(c);
    assert ArgsText(c) == "]" + t;
    assert HeadText(c) == MARKER + ("]" + (c.name + (ARGS + ("]" + t))));
    assert MARKER + "]" == "[TOOL_CALLS]" && ARGS + "]" == "[ARGS]";
    assert RowText([c]) == HeadText(c) + ("" + "");
  }

  /** A text that holds a compact call, part by part: the first marker, closed or not, and blanks; the text of
      the name, up to the first arguments' marker, closed or not, and blanks; the arguments; the rest. */
  ghost predicate Holds<J>(loads: Loads<J>, text: string, p: Parsed<J>, before: string, marker: string,
                           nameText: string, args: string, json: string, rest: string) {
    && text == before + (MARKER + (marker + (nameText + (ARGS + (args + (json + rest))))))
    && !Occurs(MARKER, before) && !Occurs(ARGS, nameText) && Passed(marker) && Passed(args)
    && Strip(nameText) == p.name != "" && json != "" && json[0] in "{[" && loads(json) == Some(p.args)
    && p.end == |text| - |rest|
  }

  /** What is passed over behind a marker: its bracket, and blanks. */
  predicate Passed(s: string) {
    Spaces(s) || (s != "" && s[0] == ']' && Spaces(s[1..]))
  }

  lemma PassedBehind(t: string)
    ensures |BehindMarker(t)| <= |t| && t == t[..|t| - |BehindMarker(t)|] + BehindMarker(t)
    ensures Passed(t[..|t| - |BehindMarker(t)|])
  {
    hide IsSpace, Spaces, StripLeft;
    if t != "" && t[0] == ']' {
      BlanksInFront(t[1..]);
      var k := |t[1..]| - |StripLeft(t[1..])|;
      assert t[..k + 1][1..] == t[1..][..k];
      assert t == t[..k + 1] + t[1..][k..];
    } else {
      BlanksInFront(t);
    }
  }

  lemma BlanksInFront(t: string)
    ensures var k := |t| - |StripLeft(t)|; t == t[..k] + StripLeft(t) && StripLeft(t) == t[k..] && Spaces(t[..k])
  {
    hide IsSpace;
    StripLeftIsEnd(t);
    LeftIsSpace(t);
  }

  lemma FirstStands(t: string, w: string)
    requires t != "" && IndexOf(t, w) != -1
    ensures 0 <= IndexOf(t, w) && IndexOf(t, w) + |t| <= |w|
    ensures var n := IndexOf(t, w); w == w[..n] + (t + w[n + |t|..]) && !Occurs(t, w[..n])
  {
    hide IndexOf;
    var n := IndexOf(t, w);
    assert w[n..n + |t|] == t;
    assert w == w[..n] + (w[n..n + |t|] + w[n + |t|..]);
    NoneBeforeFirst(t, w);
  }

  /** The same from the name on. */
  ghost predicate HoldsName<J>(loads: Loads<J>, n: nat, t: string, p: Parsed<J>, nameText: string, args: string,
                               json: string, rest: string) {
    && t == nameText + (ARGS + (args + (json + rest))) && !Occurs(ARGS, nameText) && Passed(args)
    && Strip(nameText) == p.name != "" && json != "" && json[0] in "{[" && loads(json) == Some(p.args)
    && p.end == n - |rest|
  }

  lemma NameSound<J>(loads: Loads<J>, n: nat, t: string)
    requires |t| <= n
    ensures TryName(loads, n, t).Some? ==>
              exists nameText, args, json, rest ::
                HoldsName(loads, n, t, TryName(loads, n, t).value, nameText, args, json, rest)
  {
    hide IndexOf, Occurs, BehindMarker, Strip, Json.Scan, Passed, OccursAt;
    if TryName(loads, n, t).Some? {
      FirstStands(ARGS, t);
      var nameText, v := t[..IndexOf(ARGS, t)], t[IndexOf(ARGS, t) + |ARGS|..];
      PassedBehind(v);
      var args, w := v[..|v| - |BehindMarker(v)|], BehindMarker(v);
      var used := Json.Scan(w[0], w, 0, false, false).used;
      var json, rest := w[..used], w[used..];
      assert w == json + rest && json[0] == w[0];
      assert HoldsName(loads, n, t, TryName(loads, n, t).value, nameText, args, json, rest);
    }
  }

  /** No call is found that is not there. */
  lemma CompactSound<J>(loads: Loads<J>, text: string)
    ensures TryCompact(loads, text).Some? ==>
              exists before, marker, nameText, args, json, rest ::
                Holds(loads, text, TryCompact(loads, text).value, before, marker, nameText, args, json, rest)
  {
    hide IndexOf, Occurs, BehindMarker, Strip, Passed, OccursAt, TryName;
    if TryCompact(loads, text).Some? {
      var p := TryCompact(loads, text).value;
      FirstStands(MARKER, text);
      var before, t := text[..IndexOf(MARKER, text)], text[IndexOf(MARKER, text) + |MARKER|..];
      PassedBehind(t);
      var marker, u := t[..|t| - |BehindMarker(t)|], BehindMarker(t);
      NameSound(loads, |text|, u);
      var nameText, args, json, rest :| HoldsName(loads, |text|, u, p, nameText, args, json, rest);
      assert Holds(loads, text, p, before, marker, nameText, args, json, rest);
    }
  }
}

/** The bracket-counting scanners that cut a JSON object or array out of a text. */
module MistralScanner {
  import opened Strings
  import opened JsonGrammar

  /** A sweep either closes the first bracket, after so many characters, or ends inside it. */
  datatype Sweep = Done(used: nat) | Inside(depth: int, inString: bool, escapeNext: bool)

  function Closing(open: char): char {
    if open == '{' then '}' else ']'
  }

  /** What one character does to the counters; nothing where it closes the first bracket. */
  function Next(open: char, c: char, depth: int, inString: bool, escapeNext: bool): Option<(int, bool, bool)> {
    if escapeNext then Some((depth, inString, false))
    else if c == '\\' then Some((depth, inString, true))
    else if c == '"' then Some((depth, !inString, false))
    else if inString then Some((depth, inString, false))
    else if c == open then Some((depth + 1, inString, false))
    else if c == Closing(open) then if depth - 1 == 0 then None else Some((depth - 1, inString, false))
    else Some((depth, inString, false))
  }

  /** Count brackets of one kind outside strings. */
  function Scan(open: char, s: string, depth: int, inString: bool, escapeNext: bool): (r: Sweep)
    ensures r.Done? ==> 0 < r.used <= |s|
  {
    if s == "" then Inside(depth, inString, escapeNext)
    else
      match Next(open, s[0], depth, inString, escapeNext)
      case None => Done(1)
      case Some((d, i, e)) => More(Scan(open, s[1..], d, i, e))
  }

  function More(r: Sweep): Sweep {
    match r
    case Done(used) => Done(used + 1)
    case Inside(_, _, _) => r
  }

  /** The sweep from position `k` of the text. */
  function ScanFrom(open: char, text: string, k: nat, depth: int, inString: bool, escapeNext: bool): (r: Sweep)
    requires k <= |text|
    ensures r.Done? ==> r.used > 0 && k + r.used <= |text|
  {
    Scan(open, text[k..], depth, inString, escapeNext)
  }

  lemma ScanStep(open: char, text: string, k: nat, depth: int, inString: bool, escapeNext: bool)
    requires k < |text|
    ensures ScanFrom(open, text, k, depth, inString, escapeNext) ==
              match Next(open, text[k], depth, inString, escapeNext)
              case None => Done(1)
              case Some((d, i, e)) => More(ScanFrom(open, text, k + 1, d, i, e))
  {
    assert text[k..][0] == text[k] && text[k..][1..] == text[k + 1..];
  }

  lemma ScanNothing(open: char, text: string, depth: int, inString: bool, escapeNext: bool)
    ensures ScanFrom(open, text, |text|, depth, inString, escapeNext) == Inside(depth, inString, escapeNext)
  {
    assert text[|text|..] == "";
  }

  /** What a sweep from `start` answers: the text up to where the bracket closes, or nothing. */
  function CutFrom(open: char, text: string, start: nat): Option<string>
    requires start <= |text|
  {
    match ScanFrom(open, text, start, 0, false, false)
    case Done(used) => Some(text[start..start + used])
    case Inside(_, _, _) => None
  }

  /** `_extract_json_value`: the text from the bracket at `start` to the one that closes it, and its end. */
  method ExtractJsonValue(text: string, start: nat) returns (json: Option<string>, end: nat)
    ensures json == if start < |text| && text[start] in "{[" then CutFrom(text[start], text, start) else None
    ensures end == start + if json.Some? then |json.value| else 0
  {
    hide ScanFrom;
    if start >= |text| || text[start] !in "{[" {
      return None, start;
    }
    var opening := text[start];
    var closing := if opening == '{' then '}' else ']';
    var depth, inString, escapeNext := 0, false, false;
    ghost var all := ScanFrom(opening, text, start, 0, false, false);
    for k := start to |text|
      invariant all == Ahead(ScanFrom(opening, text, k, depth, inString, escapeNext), k - start)
    {
      var ch := text[k];
      ScanStep(opening, text, k, depth, inString, escapeNext);
      if escapeNext {
        escapeNext := false;
        continue;
      }
      if ch == '\\' {
        escapeNext := true;
        continue;
      }
      if ch == '"' && !escapeNext {
        inString := !inString;
        continue;
      }
      if inString {
        continue;
      }
      if ch == opening {
        depth := depth + 1;
      } else if ch == closing {
        depth := depth - 1;
        if depth == 0 {
          return Some(text[start..k + 1]), k + 1;
        }
      }
    }
    ScanNothing(opening, text, depth, inString, escapeNext);
    return None, start;
  }

  const BOT := "[TOOL_CALLS] ["

  /** `_extract_json_array`: the array that the first tool call marker opens. */
  method ExtractJsonArray(text: string) returns (json: Option<string>)
    ensures var at := IndexOf(BOT, text);
            json == if at == -1 then None else CutFrom('[', text, at + |BOT| - 1)
  {
    hide ScanFrom, IndexOf;
    var at := IndexOf(BOT, text);
    if at == -1 {
      return None;
    }
    var start := at + |BOT| - 1;
    var bracketCount, inString, escapeNext := 0, false, false;
    ghost var all := ScanFrom('[', text, start, 0, false, false);
    for i := start to |text|
      invariant all == Ahead(ScanFrom('[', text, i, bracketCount, inString, escapeNext), i - start)
    {
      var ch := text[i];
      ScanStep('[', text, i, bracketCount, inString, escapeNext);
      if escapeNext {
        escapeNext := false;
        continue;
      }
      if ch == '\\' {
        escapeNext := true;
        continue;
      }
      if ch == '"' && !escapeNext {
        inString := !inString;
        continue;
      }
      if !inString {
        if ch == '[' {
          bracketCount := bracketCount + 1;
        } else if ch == ']' {
          bracketCount := bracketCount - 1;
          if bracketCount == 0 {
            return Some(text[start..i + 1]);
          }
        }
      }
    }
    ScanNothing('[', text, bracketCount, inString, escapeNext);
    return None;
  }

  function Ahead(r: Sweep, n: nat): Sweep {
    match r
    case Done(used) => Done(used + n)
    case Inside(_, _, _) => r
  }

  lemma {:induction false} ScanConcat(open: char, s: string, t: string, depth: int, inString: bool, escapeNext: bool)
    ensures var r := Scan(open, s, depth, inString, escapeNext);
            Scan(open, s + t, depth, inString, escapeNext) ==
              if r.Done? then r else Ahead(Scan(open, t, r.depth, r.inString, r.escapeNext), |s|)
    decreases |s|
  {
    hide Next;
    if s == "" {
      assert s + t == t;
    } else {
      assert (s + t)[0] == s[0] && (s + t)[1..] == s[1..] + t;
      match Next(open, s[0], depth, inString, escapeNext)
      case None =>
      case Some((d, i, e)) => ScanConcat(open, s[1..], t, d, i, e);
    }
  }

  /** The scan passes over the text at this depth. */
  predicate Passes(open: char, s: string, depth: int) {
    Scan(open, s, depth, false, false) == Inside(depth, false, false)
  }

  lemma PassesConcat(open: char, s: string, t: string, depth: int)
    requires Passes(open, s, depth) && Passes(open, t, depth)
    ensures Passes(open, s + t, depth)
  {
    ScanConcat(open, s, t, depth, false, false);
  }

  predicate Special(c: char) {
    c in "{}[]\"\\"
  }

  lemma {:induction false} FillerPasses(open: char, s: string, depth: int)
    requires open in "{[" && forall c :: c in s ==> !Special(c)
    ensures Passes(open, s, depth)
  {
    if s != "" {
      assert s[0] in s && forall c :: c in s[1..] ==> c in s;
      FillerPasses(open, s[1..], depth);
    }
  }

  /** Inside a string, units are passed over, whatever they stand for. */
  lemma {:induction false} UnitsPass(open: char, units: seq<Unit>, t: string, depth: int)
    requires UnitsRight(units)
    ensures Scan(open, UnitsText(units) + t, depth, true, false)
         == Ahead(Scan(open, t, depth, true, false), |UnitsText(units)|)
    decreases |units|
  {
    if units == [] {
      assert UnitsText(units) + t == t;
    } else {
      hide Scan;
      var rest := UnitsText(units[1..]) + t;
      assert units[0] in units;
      UnitsPass(open, units[1..], t, depth);
      UnitPasses(open, units[0], rest, depth);
      assert UnitsText(units) + t == UnitText(units[0]) + rest;
    }
  }

  lemma UnitPasses(open: char, u: Unit, rest: string, depth: int)
    requires u.Plain? ==> u.c != '"' && u.c != '\\'
    ensures Scan(open, UnitText(u) + rest, depth, true, false)
         == Ahead(Scan(open, rest, depth, true, false), |UnitText(u)|)
  {
    var s := UnitText(u) + rest;
    match u
    case Plain(c) =>
      assert s[1..] == rest;
    case Escaped(c) =>
      assert s[1..] == [c] + rest && s[1..][1..] == rest;
  }

  lemma StringPasses(open: char, units: seq<Unit>, depth: int)
    requires open in "{[" && UnitsRight(units)
    ensures Passes(open, StringText(units), depth)
  {
    UnitsPass(open, units, "\"", depth);
    var s := StringText(units);
    assert s[0] == '"' && s[1..] == UnitsText(units) + "\"";
    assert "\""[1..] == "";
  }

  /** Whole values are passed over at any depth of their own bracket kind. */
  lemma {:induction false} ValuePasses(open: char, v: Value, depth: int)
    requires open in "{[" && WellFormed(v) && depth >= 1
    ensures Passes(open, TextOf(v), depth)
    decreases v, 0
  {
    hide Scan;
    match v
    case Atom(text) => AtomPasses(open, text, depth);
    case Str(units) => StringPasses(open, units, depth);
    case Arr(blank, elements) =>
      var d := if open == '[' then depth + 1 else depth;
      BlankPasses(open, blank, d);
      ElementsPass(open, elements, false, d);
      PassesConcat(open, blank, ElementsText(elements, false), d);
      BracketsPass(open, '[', ']', blank + ElementsText(elements, false), depth);
    case Obj(blank, members) =>
      var d := if open == '{' then depth + 1 else depth;
      BlankPasses(open, blank, d);
      ElementsPass(open, members, true, d);
      PassesConcat(open, blank, ElementsText(members, true), d);
      BracketsPass(open, '{', '}', blank + ElementsText(members, true), depth);
  }

  lemma {:induction false} ElementsPass(open: char, members: seq<Member>, keyed: bool, depth: int)
    requires open in "{[" && depth >= 1 && forall m :: m in members ==> MemberRight(m)
    ensures Passes(open, ElementsText(members, keyed), depth)
    decreases members
  {
    hide Scan;
    if members == [] {
      BlankPasses(open, "", depth);
    } else {
      var m := members[0];
      assert MemberRight(m);
      BlankPasses(open, m.before, depth);
      BlankPasses(open, "", depth);
      BlankPasses(open, m.afterKey, depth);
      BlankPasses(open, m.beforeValue, depth);
      BlankPasses(open, m.after, depth);
      SeparatorsPass(open, depth);
      StringPasses(open, m.key, depth);
      ValuePasses(open, m.value, depth);
      ElementsPass(open, members[1..], keyed, depth);
      PassesConcat(open, m.afterKey, ":", depth);
      PassesConcat(open, m.afterKey + ":", m.beforeValue, depth);
      PassesConcat(open, StringText(m.key), m.afterKey + ":" + m.beforeValue, depth);
      var key := if keyed then StringText(m.key) + (m.afterKey + ":" + m.beforeValue) else "";
      PassesConcat(open, m.before, key, depth);
      PassesConcat(open, TextOf(m.value), m.after, depth);
      var comma := if |members| > 1 then "," else "";
      PassesConcat(open, TextOf(m.value) + m.after, comma, depth);
      PassesConcat(open, m.before + key, TextOf(m.value) + m.after + comma, depth);
      PassesConcat(open, (m.before + key) + (TextOf(m.value) + m.after + comma), ElementsText(members[1..], keyed),
        depth);
    }
  }

  lemma AtomPasses(open: char, s: string, depth: int)
    requires open in "{[" && forall c :: c in s ==> AtomChar(c)
    ensures Passes(open, s, depth)
  {
    FillerPasses(open, s, depth);
  }

  lemma BlankPasses(open: char, s: string, depth: int)
    requires open in "{[" && Blank(s)
    ensures Passes(open, s, depth)
  {
    FillerPasses(open, s, depth);
  }

  lemma SeparatorsPass(open: char, depth: int)
    requires open in "{["
    ensures Passes(open, ",", depth) && Passes(open, ":", depth)
  {
    FillerPasses(open, ",", depth);
    FillerPasses(open, ":", depth);
  }

  /** What passes one deeper passes between brackets. */
  lemma BracketsPass(open: char, left: char, right: char, inner: string, depth: int)
    requires open in "{[" && depth >= 1
    requires (left == '[' && right == ']') || (left == '{' && right == '}')
    requires Passes(open, inner, if open == left then depth + 1 else depth)
    ensures Passes(open, [left] + inner + [right], depth)
  {
    var d := if open == left then depth + 1 else depth;
    ScanConcat(open, [left] + inner, [right], depth, false, false);
    ScanConcat(open, [left], inner, depth, false, false);
    assert [left][1..] == "" && [right][1..] == "";
  }

  /** Balanced text between a bracket and its partner is cut out with the two. */
  lemma BracketsCutOut(open: char, inner: string, suffix: string)
    requires open in "{[" && Passes(open, inner, 1)
    ensures Scan(open, [open] + inner + [Closing(open)] + suffix, 0, false, false) == Done(|inner| + 2)
  {
    assert [open][1..] == "" && [Closing(open)][1..] == "";
    assert Scan(open, [open], 0, false, false) == Inside(1, false, false);
    assert Scan(open, [Closing(open)], 1, false, false) == Done(1);
    ScanConcat(open, [open], inner, 0, false, false);
    ScanConcat(open, [open] + inner, [Closing(open)], 0, false, false);
    ScanConcat(open, [open] + inner + [Closing(open)], suffix, 0, false, false);
  }

  /** A whole object or array, whatever follows it, is exactly what the scan cuts out. */
  lemma ContainerIsCutOut(v: Value, suffix: string)
    requires WellFormed(v) && (v.Arr? || v.Obj?)
    ensures var open := TextOf(v)[0];
            open in "{[" && Scan(open, TextOf(v) + suffix, 0, false, false) == Done(|TextOf(v)|)
  {
    hide Scan, Passes, ElementsText, Blank;
    var left := if v.Arr? then '[' else '{';
    var members := if v.Arr? then v.elements else v.members;
    var inner := v.blank + ElementsText(members, v.Obj?);
    assert TextOf(v) == [left] + inner + [Closing(left)];
    BlankPasses(left, v.blank, 1);
    ElementsPass(left, members, v.Obj?, 1);
    PassesConcat(left, v.blank, ElementsText(members, v.Obj?), 1);
    BracketsCutOut(left, inner, suffix);
  }

  /** Wherever a text holds an object or array, the cut from its bracket is that value's own text. */
  lemma CutIsTheValue(before: string, v: Value, suffix: string)
    requires WellFormed(v) && (v.Arr? || v.Obj?)
    ensures var text := before + (TextOf(v) + suffix);
            text[|before|] in "{[" && CutFrom(text[|before|], text, |before|) == Some(TextOf(v))
  {
    var text := before + (TextOf(v) + suffix);
    ContainerIsCutOut(v, suffix);
    assert text[|before|..] == TextOf(v) + suffix;
    assert text[|before|..|before| + |TextOf(v)|] == TextOf(v);
  }

  /** An array after the tool call marker, the first one in the text, is found and cut out whole. */
  lemma ToolCallArrayIsFound(before: string, v: Value, suffix: string)
    requires WellFormed(v) && v.Arr?
    ensures var text := before + "[TOOL_CALLS] " + (TextOf(v) + suffix);
            IndexOf(BOT, text) == |before| ==> CutFrom('[', text, IndexOf(BOT, text) + |BOT| - 1) == Some(TextOf(v))
  {
    CutIsTheValue(before + "[TOOL_CALLS] ", v, suffix);
  }

  /** No proper prefix of an object or array is taken for a whole one. */
  lemma PrefixIsIncomplete(v: Value, i: nat)
    requires WellFormed(v) && (v.Arr? || v.Obj?) && i < |TextOf(v)|
    ensures Scan(TextOf(v)[0], TextOf(v)[..i], 0, false, false).Inside?
  {
    var t := TextOf(v);
    ContainerIsCutOut(v, "");
    assert t + "" == t && t == t[..i] + t[i..];
    ScanConcat(t[0], t[..i], t[i..], 0, false, false);
  }
}

/** The recursive parser of Gemma 4 arguments. */
module GemmaParser {
  import opened Strings
  import opened Dictionaries

  const DELIM := "<|\"|>"

  /** A parsed value; a bare word stands for the number, truth value or string it reads as. */
  datatype Val = Text(s: string) | Bare(word: string) | Dict(entries: Entries<Val>) | List(items: seq<Val>)

  const SEPARATORS := {' ', ',', '\n', '\t'}
  const BLANKS := {' ', '\n', '\t'}
  const ARGS_STOPS := {',', '}', ']'}
  const ITEM_STOPS := {',', ']'}

  /** How many characters of the set the text starts with. */
  function Leading(t: string, chars: set<char>): (n: nat)
    ensures n <= |t| && (n < |t| ==> t[n] !in chars)
  {
    if t != "" && t[0] in chars then 1 + Leading(t[1..], chars) else 0
  }

  /** How many characters stand before the first one of the set. */
  function Until(t: string, chars: set<char>): (n: nat)
    ensures n <= |t|
  {
    if t == "" || t[0] in chars then 0 else 1 + Until(t[1..], chars)
  }

  /** How many characters a scan that counts one kind of bracket goes through until all are closed, or
      to the end; strings are skipped as a whole where the scan knows about them. */
  function Nested(t: string, open: char, close: char, strings: bool, depth: nat): (n: nat)
    ensures n <= |t|
    decreases |t|
  {
    if t == "" || depth == 0 then 0
    else if strings && DELIM <= t then
      var k := IndexOf(DELIM, t[|DELIM|..]);
      if k == -1 then |t|
      else |DELIM| + k + |DELIM| + Nested(t[|DELIM|..][k + |DELIM|..], open, close, strings, depth)
    else if t[0] == open then 1 + Nested(t[1..], open, close, strings, depth + 1)
    else if t[0] == close then 1 + Nested(t[1..], open, close, strings, depth - 1)
    else 1 + Nested(t[1..], open, close, strings, depth)
  }

  /** `s[:n - 1]` of the text behind a bracket. */
  function Inside(t: string, n: nat): (r: string)
    requires n <= |t|
    ensures |r| <= |t|
  {
    if n == 0 then "" else t[..n - 1]
  }

  /** One value and the text behind it; nothing where the parser never comes back. An array directly
      inside an array is cut out without regard to strings. */
  function OneValue(t: string, inArgs: bool): (r: Option<(Val, string)>)
    requires t != ""
    ensures r.Some? ==> |r.value.1| <= |t|
    decreases |t|, 0
  {
    if DELIM <= t then
      var k := IndexOf(DELIM, t[|DELIM|..]);
      if k == -1 then Some((Text(t[|DELIM|..]), ""))
      else Some((Text(t[|DELIM|..][..k]), t[|DELIM|..][k + |DELIM|..]))
    else if t[0] == '{' then
      var n := Nested(t[1..], '{', '}', true, 1);
      match Args(Inside(t[1..], n), [])
      case None => None
      case Some(entries) => Some((Dict(entries), t[1..][n..]))
    else if t[0] == '[' then
      var n := Nested(t[1..], '[', ']', inArgs, 1);
      match Items(Inside(t[1..], n), [])
      case None => None
      case Some(items) => Some((List(items), t[1..][n..]))
    else
      var n := Until(t, if inArgs then ARGS_STOPS else ITEM_STOPS);
      Some((Bare(Strip(t[..n])), t[n..]))
  }

  /** The key and the text behind its colon. */
  function KeyOf(t: string): (r: Option<(string, string)>)
    ensures r.Some? ==> |r.value.1| < |t|
  {
    KeyAt(t[Leading(t, SEPARATORS)..])
  }

  function KeyAt(u: string): (r: Option<(string, string)>)
    ensures r.Some? ==> |r.value.1| < |u|
  {
    var k := IndexOf(":", u);
    if k == -1 then None else Some((Strip(u[..k]), Trimmed(u[k + 1..])))
  }

  function Trimmed(t: string): (r: string)
    ensures |r| <= |t|
  {
    t[Leading(t, BLANKS)..]
  }

  /** The entries of a text, put into a dictionary. */
  function Args(t: string, d: Entries<Val>): Option<Entries<Val>>
    decreases |t|
  {
    match KeyOf(t)
    case None => Some(d)
    case Some((key, u)) =>
      if u == "" then Some(Put(d, key, Text("")))
      else
        match OneValue(u, true)
        case None => None
        case Some((v, rest)) => Args(rest, Put(d, key, v))
  }

  /** The items of a text, behind some others. Where an item would start with `]`, the program appends
      empty items for ever. */
  function Items(t: string, items: seq<Val>): Option<seq<Val>>
    decreases |t|
  {
    var u := t[Leading(t, SEPARATORS)..];
    if u == "" then Some(items)
    else
      match OneValue(u, false)
      case None => None
      case Some((v, rest)) => if rest == u then None else Items(rest, items + [v])
  }

  method SkipLeading(s: string, start: nat, chars: set<char>) returns (i: nat)
    requires start <= |s|
    ensures i == start + Leading(s[start..], chars)
  {
    i := start;
    while i < |s| && s[i] in chars
      invariant start <= i <= |s| && i + Leading(s[i..], chars) == start + Leading(s[start..], chars)
    {
      assert s[i..][1..] == s[i + 1..];
      i := i + 1;
    }
  }

  method SkipUntil(s: string, start: nat, chars: set<char>) returns (i: nat)
    requires start <= |s|
    ensures i == start + Until(s[start..], chars)
  {
    i := start;
    while i < |s| && s[i] !in chars
      invariant start <= i <= |s| && i + Until(s[i..], chars) == start + Until(s[start..], chars)
    {
      assert s[i..][1..] == s[i + 1..];
      i := i + 1;
    }
  }

  /** `s.find(p, from)`. */
  function FindFrom(p: string, s: string, from: nat): (i: int)
    requires from <= |s|
    ensures i == -1 || from <= i <= |s| - |p|
  {
    var k := IndexOf(p, s[from..]);
    if k == -1 then -1 else from + k
  }

  lemma NestedStep(s: string, i: nat, open: char, close: char, strings: bool, depth: nat)
    requires i < |s| && depth > 0
    ensures Nested(s[i..], open, close, strings, depth) ==
      if strings && DELIM <= s[i..] then
        var k := IndexOf(DELIM, s[i + |DELIM|..]);
        if k == -1 then |s| - i
        else |DELIM| + k + |DELIM| + Nested(s[i + |DELIM| + k + |DELIM|..], open, close, strings, depth)
      else
        1 + Nested(s[i + 1..], open, close, strings,
                   if s[i] == open then depth + 1 else if s[i] == close then depth - 1 else depth)
  {
    hide IndexOf;
    assert s[i..][1..] == s[i + 1..];
    if DELIM <= s[i..] {
      assert s[i..][|DELIM|..] == s[i + |DELIM|..];
      var k := IndexOf(DELIM, s[i + |DELIM|..]);
      if k != -1 {
        assert s[i + |DELIM|..][k + |DELIM|..] == s[i + |DELIM| + k + |DELIM|..];
      }
    }
  }

  method ScanNested(s: string, start: nat, open: char, close: char, strings: bool) returns (i: nat)
    requires start <= |s|
    ensures i == start + Nested(s[start..], open, close, strings, 1)
  {
    hide Nested, IndexOf;
    i := start;
    var depth := 1;
    while i < |s| && depth > 0
      invariant start <= i <= |s| && depth >= 0
      invariant i + Nested(s[i..], open, close, strings, depth) == start + Nested(s[start..], open, close, strings, 1)
      decreases |s| - i
    {
      NestedStep(s, i, open, close, strings, depth);
      if strings && DELIM <= s[i..] {
        i := i + |DELIM|;
        var next := FindFrom(DELIM, s, i);
        i := if next != -1 then next + |DELIM| else |s|;
        continue;
      }
      if s[i] == open {
        depth := depth + 1;
      } else if s[i] == close {
        depth := depth - 1;
      }
      i := i + 1;
    }
    NestedDone(s[i..], open, close, strings, depth);
  }

  lemma NestedDone(t: string, open: char, close: char, strings: bool, depth: nat)
    requires t == "" || depth == 0
    ensures Nested(t, open, close, strings, depth) == 0
  {
  }

  lemma DropDrop(s: string, i: nat, n: nat)
    requires i + n <= |s|
    ensures s[i..][n..] == s[i + n..] && s[i..][..n] == s[i..i + n]
  {
  }

  /** `s[from:i - 1]` for a scan that started at `from`. */
  function Between(s: string, from: nat, i: nat): string
    requires from <= i <= |s|
  {
    if i == from then "" else s[from..i - 1]
  }

  lemma StringStep(s: string, start: nat, inArgs: bool)
    requires start < |s| && DELIM <= s[start..]
    ensures var end := FindFrom(DELIM, s, start + |DELIM|);
            OneValue(s[start..], inArgs) ==
              if end == -1 then Some((Text(s[start + |DELIM|..]), ""))
              else Some((Text(s[start + |DELIM|..end]), s[end + |DELIM|..]))
  {
    hide IndexOf;
    DropDrop(s, start, |DELIM|);
    var k := IndexOf(DELIM, s[start + |DELIM|..]);
    if k != -1 {
      DropDrop(s, start + |DELIM|, k);
      DropDrop(s, start + |DELIM|, k + |DELIM|);
    }
  }

  /** The text behind a bracket, up to the one that closes it, and where the scan for it ended. */
  lemma BracketStep(s: string, start: nat, n: nat)
    requires start + 1 + n <= |s|
    ensures s[start..][1..] == s[start + 1..] && s[start..][1..][n..] == s[start + 1 + n..]
    ensures Inside(s[start..][1..], n) == Between(s, start + 1, start + 1 + n)
  {
    DropDrop(s, start, 1);
    DropDrop(s, start + 1, n);
    if n > 0 {
      DropDrop(s, start + 1, n - 1);
    }
  }

  /** Parse the value at `start`, and say where it ends. */
  method ParseValue(s: string, start: nat, inArgs: bool) returns (r: Option<Val>, i: nat)
    requires start < |s|
    ensures start <= i <= |s|
    ensures OneValue(s[start..], inArgs) == if r.Some? then Some((r.value, s[i..])) else None
    decreases |s| - start, 0, 1
  {
    hide Nested, IndexOf, Args, Items, Strip, Until;
    i := start;
    if DELIM <= s[i..] {
      StringStep(s, start, inArgs);
      hide OneValue;
      i := i + |DELIM|;
      var end := FindFrom(DELIM, s, i);
      if end == -1 {
        assert s[|s|..] == "";
        return Some(Text(s[i..])), |s|;
      }
      return Some(Text(s[i..end])), end + |DELIM|;
    }
    if s[i] == '{' || s[i] == '[' {
      r, i := ParseNested(s, start, inArgs);
      return;
    }
    i := SkipUntil(s, start, if inArgs then ARGS_STOPS else ITEM_STOPS);
    DropDrop(s, start, i - start);
    return Some(Bare(Strip(s[start..i]))), i;
  }

  /** Parse the object or array whose bracket stands at `start`. */
  method ParseNested(s: string, start: nat, inArgs: bool) returns (r: Option<Val>, i: nat)
    requires start < |s| && (s[start] == '{' || s[start] == '[')
    ensures start <= i <= |s|
    ensures OneValue(s[start..], inArgs) == if r.Some? then Some((r.value, s[i..])) else None
    decreases |s| - start, 0, 0
  {
    hide Nested, Args, Items, Inside;
    var close, strings := if s[start] == '{' then '}' else ']', s[start] == '{' || inArgs;
    i := ScanNested(s, start + 1, s[start], close, strings);
    BracketStep(s, start, Nested(s[start + 1..], s[start], close, strings, 1));
    var body := Between(s, start + 1, i);
    if s[start] == '{' {
      var entries := ParseArgs(body);
      return if entries.Some? then Some(Dict(entries.value)) else None, i;
    }
    var items := ParseArray(body);
    return if items.Some? then Some(List(items.value)) else None, i;
  }

  /** `_parse_gemma4_args`. */
  method ParseArgs(s: string) returns (r: Option<Entries<Val>>)
    ensures r == Args(s, [])
    decreases |s|, 1
  {
    hide Args, OneValue, IndexOf, KeyOf, Strip, Leading;
    var result: Entries<Val> := [];
    var i := 0;
    while true
      invariant i <= |s| && Args(s[i..], result) == Args(s, [])
      decreases |s| - i
    {
      KeyStep(s, i);
      ArgsStep(s[i..], result);
      i := SkipLeading(s, i, SEPARATORS);
      var colon := FindFrom(":", s, i);
      if colon == -1 {
        return Some(result);
      }
      var key := Strip(s[i..colon]);
      i := SkipLeading(s, colon + 1, BLANKS);
      if i == |s| {
        return Some(Put(result, key, Text("")));
      }
      var v, end := ParseValue(s, i, true);
      i := end;
      if v == None {
        return None;
      }
      result := Put(result, key, v.value);
    }
  }

  /** `_parse_gemma4_array`. */
  method ParseArray(s: string) returns (r: Option<seq<Val>>)
    ensures r == Items(s, [])
    decreases |s|, 1
  {
    hide Items, OneValue;
    var items := [];
    var i := 0;
    while true
      invariant i <= |s| && Items(s[i..], items) == Items(s, [])
      decreases |s| - i
    {
      ItemsStep(s, i, items);
      i := SkipLeading(s, i, SEPARATORS);
      if i == |s| {
        return Some(items);
      }
      var v, end := ParseValue(s, i, false);
      if v == None || end == i {
        return None;
      }
      items := items + [v.value];
      i := end;
    }
  }

  /** The key of the next entry, by positions. */
  lemma KeyStep(s: string, i: nat)
    requires i <= |s|
    ensures var j := i + Leading(s[i..], SEPARATORS);
            var colon := FindFrom(":", s, j);
            KeyOf(s[i..]) ==
              if colon == -1 then None
              else Some((Strip(s[j..colon]), s[colon + 1 + Leading(s[colon + 1..], BLANKS)..]))
  {
    hide IndexOf, Strip, Leading, KeyAt;
    var j := i + Leading(s[i..], SEPARATORS);
    DropDrop(s, i, j - i);
    KeyAtStep(s, j);
  }

  lemma KeyAtStep(s: string, j: nat)
    requires j <= |s|
    ensures var colon := FindFrom(":", s, j);
            KeyAt(s[j..]) ==
              if colon == -1 then None
              else Some((Strip(s[j..colon]), s[colon + 1 + Leading(s[colon + 1..], BLANKS)..]))
  {
    hide IndexOf, Strip, Leading;
    var k := IndexOf(":", s[j..]);
    if k != -1 {
      DropDrop(s, j, k);
      DropDrop(s, j, k + 1);
      DropDrop(s, j + k + 1, Leading(s[j + k + 1..], BLANKS));
    }
  }

  lemma ArgsStep(t: string, d: Entries<Val>)
    ensures Args(t, d) ==
      if KeyOf(t).None? then Some(d)
      else
        var (key, u) := KeyOf(t).value;
        if u == "" then Some(Put(d, key, Text("")))
        else
          var one := OneValue(u, true);
          if one.None? then None else Args(one.value.1, Put(d, key, one.value.0))
  {
    hide OneValue, KeyOf;
  }

  lemma ItemsStep(s: string, i: nat, items: seq<Val>)
    requires i <= |s|
    ensures var j := i + Leading(s[i..], SEPARATORS);
            Items(s[i..], items) ==
              if j == |s| then Some(items)
              else
                var one := OneValue(s[j..], false);
                if one.None? || one.value.1 == s[j..] then None else Items(one.value.1, items + [one.value.0])
  {
    hide OneValue;
    var j := i + Leading(s[i..], SEPARATORS);
    assert s[i..][j - i..] == s[j..];
  }
}

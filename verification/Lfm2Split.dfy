/** Splitting a pythonic LFM2 block into its calls. */
module Lfm2Split {
  import opened Strings
  import opened Lfm2Escape

  predicate Opens(c: char) {
    c == '(' || c == '[' || c == '{'
  }

  predicate Closes(c: char) {
    c == ')' || c == ']' || c == '}'
  }

  /** Segments whose first one begins with `s`. */
  function Glue(s: string, segments: seq<string>): (r: seq<string>)
    requires segments != []
    ensures r != []
  {
    [s + segments[0]] + segments[1..]
  }

  /** The text behind position `i`, which may lie beyond the end. */
  function Behind(t: string, i: nat): string {
    if i <= |t| then t[i..] else ""
  }

  /** The segments of a text, from a bracket depth and an open quote on: the first one is the rest of
      the segment begun before. Without regard to strings, no quote is ever open. */
  function Segments(t: string, depth: int, quote: Option<char>, strings: bool): (r: seq<string>)
    ensures r != []
    decreases |t|
  {
    if t == "" then [""]
    else if strings && quote.Some? then
      if t[0] == '\\' then Glue(if |t| > 1 then t[..2] else t, Segments(Behind(t, 2), depth, quote, strings))
      else Glue([t[0]], Segments(t[1..], depth, if t[0] == quote.value then None else quote, strings))
    else if strings && Quote(t[0]) then Glue([t[0]], Segments(t[1..], depth, Some(t[0]), strings))
    else if Opens(t[0]) then Glue([t[0]], Segments(t[1..], depth + 1, quote, strings))
    else if Closes(t[0]) then Glue([t[0]], Segments(t[1..], depth - 1, quote, strings))
    else if t[0] == ',' && depth == 0 then [""] + Segments(t[1..], depth, quote, strings)
    else Glue([t[0]], Segments(t[1..], depth, quote, strings))
  }

  /** The segments without the blanks around them, and without the blank ones. */
  function Solid(segments: seq<string>): seq<string> {
    if segments == [] then []
    else (if Strip(segments[0]) == "" then [] else [Strip(segments[0])]) + Solid(segments[1..])
  }

  /** One pair of brackets around the whole taken off. */
  function Unbracket(t: string): string {
    if t != "" && t[0] == '[' && t[|t| - 1] == ']' then Slice(t, 1, |t| - 1) else t
  }

  function Split(text: string, strings: bool): seq<string> {
    Solid(Segments(Unbracket(Strip(text)), 0, None, strings))
  }

  lemma SegmentsStep(s: string, i: nat, depth: int, quote: Option<char>, strings: bool)
    requires i < |s|
    ensures Segments(Behind(s, i), depth, quote, strings) ==
      var c, rest := s[i], Behind(s, i + 1);
      if strings && quote.Some? then
        if c == '\\' then
          Glue(if i + 1 < |s| then s[i..i + 2] else s[i..], Segments(Behind(s, i + 2), depth, quote, strings))
        else Glue([c], Segments(rest, depth, if c == quote.value then None else quote, strings))
      else if strings && Quote(c) then Glue([c], Segments(rest, depth, Some(c), strings))
      else if Opens(c) then Glue([c], Segments(rest, depth + 1, quote, strings))
      else if Closes(c) then Glue([c], Segments(rest, depth - 1, quote, strings))
      else if c == ',' && depth == 0 then [""] + Segments(rest, depth, quote, strings)
      else Glue([c], Segments(rest, depth, quote, strings))
  {
    assert s[i..][1..] == s[i + 1..];
    if i + 1 < |s| {
      assert s[i..][2..] == s[i + 2..] && s[i..][..2] == s[i..i + 2];
    }
  }

  lemma GlueGlue(x: string, y: string, segments: seq<string>)
    requires segments != []
    ensures Glue(x, Glue(y, segments)) == Glue(x + y, segments)
  {
    assert x + (y + segments[0]) == x + y + segments[0];
  }

  lemma GlueNothing(segments: seq<string>)
    requires segments != []
    ensures Glue("", segments) == segments
  {
    assert "" + segments[0] == segments[0];
  }

  /** `_split_top_level_calls`. */
  method SplitTopLevelCalls(block: string, strings: bool) returns (calls: seq<string>)
    ensures calls == Split(block, strings)
  {
    hide Segments, Glue, Strip, Quote, Opens, Closes, Solid, Unbracket, Between, Behind;
    var text := Unbracket(Strip(block));
    var segments: seq<string> := [];
    var start, depth, index := 0, 0, 0;
    var quote: Option<char> := None;
    GlueNothing(Segments(text, 0, None, strings));
    NothingBetween(text, 0);
    WholeBehind(text);
    ghost var all := Segments(text, 0, None, strings);
    while index < |text|
      invariant 0 <= start <= |text| && start <= index
      invariant all == segments
                + Glue(Between(text, start, index), Segments(Behind(text, index), depth, quote, strings))
      decreases |text| - index
    {
      var c := text[index];
      SegmentsStep(text, index, depth, quote, strings);
      if strings && quote.Some? {
        if c == '\\' {
          OnByTwo(text, start, index, Segments(Behind(text, index + 2), depth, quote, strings));
          index := index + 2;
          continue;
        }
        if c == quote.value {
          quote := None;
        }
        index := index + 1;
        OnByOne(text, start, index, Segments(Behind(text, index), depth, quote, strings));
        continue;
      }
      if strings && Quote(c) {
        quote := Some(c);
      } else if Opens(c) {
        depth := depth + 1;
      } else if Closes(c) {
        depth := depth - 1;
      } else if c == ',' && depth == 0 {
        CutHere(text, start, index, Segments(Behind(text, index + 1), depth, quote, strings));
        NothingBetween(text, index + 1);
        segments := segments + [text[start..index]];
        start := index + 1;
        index := index + 1;
        continue;
      }
      index := index + 1;
      OnByOne(text, start, index, Segments(Behind(text, index), depth, quote, strings));
    }
    LastSegment(text, start, index, depth, quote, strings);
    segments := segments + [text[start..]];
    calls := DropBlank(segments);
  }

  function Between(t: string, i: nat, j: nat): string
    requires i <= |t|
  {
    if i <= j <= |t| then t[i..j] else t[i..]
  }

  lemma OnByOne(t: string, start: nat, index: nat, segments: seq<string>)
    requires start < index <= |t| && segments != []
    ensures Glue(Between(t, start, index - 1), Glue([t[index - 1]], segments)) ==
            Glue(Between(t, start, index), segments)
  {
    GlueGlue(t[start..index - 1], [t[index - 1]], segments);
    assert t[start..index - 1] + [t[index - 1]] == t[start..index];
  }

  lemma OnByTwo(t: string, start: nat, index: nat, segments: seq<string>)
    requires start <= index < |t| && segments != []
    ensures Glue(Between(t, start, index), Glue(if index + 1 < |t| then t[index..index + 2] else t[index..], segments))
         == Glue(Between(t, start, index + 2), segments)
  {
    GlueGlue(t[start..index], if index + 1 < |t| then t[index..index + 2] else t[index..], segments);
    if index + 1 < |t| {
      assert t[start..index] + t[index..index + 2] == t[start..index + 2];
    } else {
      assert t[start..index] + t[index..] == t[start..];
    }
  }

  lemma NothingBetween(t: string, i: nat)
    requires i <= |t|
    ensures Between(t, i, i) == ""
  {
  }

  lemma WholeBehind(t: string)
    ensures Behind(t, 0) == t
  {
  }

  lemma CutHere(t: string, start: nat, index: nat, segments: seq<string>)
    requires start <= index <= |t| && segments != []
    ensures Glue(Between(t, start, index), [""] + segments) == [t[start..index]] + Glue("", segments)
  {
    GlueNothing(segments);
    assert t[start..index] + "" == t[start..index];
  }

  lemma LastSegment(t: string, start: nat, index: nat, depth: int, quote: Option<char>, strings: bool)
    requires start <= |t| <= index
    ensures Glue(Between(t, start, index), Segments(Behind(t, index), depth, quote, strings)) == [t[start..]]
  {
    assert t[start..|t|] == t[start..] && Behind(t, index) == "";
    assert t[start..] + "" == t[start..];
  }

  lemma SolidStep(segments: seq<string>, k: nat)
    requires k < |segments|
    ensures Solid(segments[k..]) ==
            (if Strip(segments[k]) == "" then [] else [Strip(segments[k])]) + Solid(segments[k + 1..])
  {
    hide Strip;
    assert segments[k..][1..] == segments[k + 1..];
  }

  method DropBlank(segments: seq<string>) returns (solid: seq<string>)
    ensures solid == Solid(segments)
  {
    hide Strip, Solid;
    solid := [];
    for k := 0 to |segments|
      invariant solid + Solid(segments[k..]) == Solid(segments)
    {
      SolidStep(segments, k);
      var s := Strip(segments[k]);
      if s != "" {
        solid := solid + [s];
      }
    }
    assert segments[|segments|..] == [];
    NoneSolid();
  }

  lemma NoneSolid()
    ensures Solid([]) == []
  {
  }
}

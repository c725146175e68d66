/** The Gemma 4 streaming detector: a machine over its buffer, and the object whose cursor follows it. */
module GemmaStream {
  import opened Strings
  import opened HoldBack
  import opened Events
  import opened Streaming
  import opened Cursors
  import opened GemmaParser

  const START_TOKEN := "<|tool_call>"
  const END_TOKEN := "<tool_call|>"
  const PREFIX := "call:"
  datatype Item = Item(toolIndex: int, name: Option<string>, parameters: string)

  /** The position of a tool in the request, and the JSON text of a call's arguments. */
  datatype Tools = Tools(index: string -> int, argsJson: string -> string)

  /** A function name that is empty counts as none. */
  datatype State = State(inside: bool, funcName: string, toolId: int)

  const START := State(false, "", -1)

  /** The position of the brace that closes the text, strings skipped; -1 where it is still to come. */
  function MatchingBrace(t: string, depth: nat): (i: int)
    requires depth > 0
    ensures i == -1 || (0 <= i < |t| && t[i] == '}')
    decreases |t|
  {
    if t == "" then -1
    else if DELIM <= t then
      var rest := BehindString(t);
      if rest.None? then -1 else Behind(|t| - |rest.value|, MatchingBrace(rest.value, depth))
    else if t[0] == '{' then Behind(1, MatchingBrace(t[1..], depth + 1))
    else if t[0] == '}' then if depth == 1 then 0 else Behind(1, MatchingBrace(t[1..], depth - 1))
    else Behind(1, MatchingBrace(t[1..], depth))
  }

  /** What stands behind the string at the front. */
  function BehindString(t: string): (rest: Option<string>)
    requires DELIM <= t
    ensures rest.Some? ==> |rest.value| < |t| && t[|t| - |rest.value|..] == rest.value
  {
    var k := IndexOf(DELIM, t[|DELIM|..]);
    if k == -1 then None else Some(t[|DELIM| + k + |DELIM|..])
  }

  function Behind(n: nat, i: int): int {
    if i == -1 then -1 else n + i
  }

  /** One step at the front of the buffer. */
  function Advance(tools: Tools, s: State, b: string): Step<State, Event<Item>> {
    if b == "" then Wait
    else if !s.inside then
      if START_TOKEN <= b then Go(s.(inside := true), |START_TOKEN|, [])
      else if IsPartial(START_TOKEN, b) then Wait
      else Go(s, 1, [Event.Text(b[0])])
    else if END_TOKEN <= b then Go(s.(inside := false, funcName := ""), |END_TOKEN|, [])
    else if s.funcName == "" then TakeName(tools, s, b)
    else TakeArgs(tools, s, b)
  }

  function TakeName(tools: Tools, s: State, b: string): Step<State, Event<Item>>
    requires b != ""
  {
    if b[0] in {' ', '\n', '\t'} then Go(s, 1, [])
    else if PREFIX <= b then
      var brace := IndexOf("{", b);
      if brace < |PREFIX| then Wait
      else
        var name := b[|PREFIX|..brace];
        Go(s.(funcName := name, toolId := s.toolId + 1), brace + 1, [Called(Item(tools.index(name), Some(name), ""))])
    else if IsPartial(PREFIX, b) || IsPartial(END_TOKEN, b) then Wait
    else Go(s, 1, [])
  }

  function TakeArgs(tools: Tools, s: State, b: string): Step<State, Event<Item>> {
    var i := MatchingBrace(b, 1);
    if i == -1 then Wait
    else Go(s.(funcName := ""), i + 1, [Called(Item(tools.index(s.funcName), None, tools.argsJson(b[..i])))])
  }

  function Gemma(tools: Tools): Machine<State, Event<Item>> {
    Machine((s, b) => Advance(tools, s, b), (s: State) => 0)
  }

  /** A matching brace that is found is found in every extension: a string delimiter that the added
      text completes starts behind it. */
  lemma {:induction false} BraceExtends(t: string, e: string, depth: nat)
    requires depth > 0 && MatchingBrace(t, depth) != -1
    ensures MatchingBrace(t + e, depth) == MatchingBrace(t, depth)
    decreases |t|
  {
    hide BehindString;
    assert (t + e)[0] == t[0] && (t + e)[1..] == t[1..] + e;
    if DELIM <= t {
      StringExtends(t, e);
      BraceExtends(BehindString(t).value, e, depth);
    } else {
      NoLateDelim(t, e, depth);
      if t[0] == '{' {
        BraceExtends(t[1..], e, depth + 1);
      } else if t[0] != '}' {
        BraceExtends(t[1..], e, depth);
      } else if depth > 1 {
        BraceExtends(t[1..], e, depth - 1);
      }
    }
  }

  lemma StringExtends(t: string, e: string)
    requires DELIM <= t && BehindString(t).Some?
    ensures BehindString(t + e) == Some(BehindString(t).value + e)
  {
    hide IndexOf;
    var u := t[|DELIM|..];
    IndexOfExtends(DELIM, u, e);
    assert (t + e)[|DELIM|..] == u + e;
    var n := |DELIM| + IndexOf(DELIM, u) + |DELIM|;
    assert (t + e)[n..] == t[n..] + e;
  }

  lemma NoLateDelim(t: string, e: string, depth: nat)
    requires depth > 0 && MatchingBrace(t, depth) != -1 && !(DELIM <= t)
    ensures !(DELIM <= t + e)
  {
    hide MatchingBrace;
    PrefixOfExtension(DELIM, t, e);
    assert t[MatchingBrace(t, depth)] == '}';
  }

  lemma OutsideStable(b: string, e: string)
    requires b != "" && (START_TOKEN <= b || !IsPartial(START_TOKEN, b))
    ensures (START_TOKEN <= b + e <==> START_TOKEN <= b) && (!IsPartial(START_TOKEN, b + e))
  {
    PrefixOfExtension(START_TOKEN, b, e);
  }

  /** The end token is settled once a step without it can be taken. */
  lemma EndSettled(tools: Tools, s: State, b: string, e: string)
    requires b != "" && s.inside && !(END_TOKEN <= b) && Advance(tools, s, b).Go?
    ensures !(END_TOKEN <= b + e)
  {
    hide MatchingBrace, IndexOf;
    PrefixOfExtension(END_TOKEN, b, e);
    if s.funcName != "" {
      assert b[MatchingBrace(b, 1)] == '}';
    }
  }

  lemma TakeNameStable(tools: Tools, s: State, b: string, e: string)
    requires b != "" && TakeName(tools, s, b).Go?
    ensures TakeName(tools, s, b + e) == TakeName(tools, s, b)
  {
    hide IndexOf;
    assert (b + e)[0] == b[0];
    PrefixOfExtension(PREFIX, b, e);
    PrefixOfExtension(END_TOKEN, b, e);
    if PREFIX <= b && IndexOf("{", b) != -1 {
      IndexOfExtends("{", b, e);
      SliceExtends(b, e, |PREFIX|, IndexOf("{", b));
    }
  }

  lemma SliceExtends(b: string, e: string, i: nat, j: nat)
    requires j <= |b|
    ensures i <= j ==> (b + e)[i..j] == b[i..j]
  {
  }

  lemma TakeArgsStable(tools: Tools, s: State, b: string, e: string)
    requires TakeArgs(tools, s, b).Go?
    ensures TakeArgs(tools, s, b + e) == TakeArgs(tools, s, b)
  {
    hide MatchingBrace;
    BraceExtends(b, e, 1);
    SliceExtends(b, e, 0, MatchingBrace(b, 1));
  }

  lemma AdvanceStable(tools: Tools, s: State, b: string, e: string)
    requires Advance(tools, s, b).Go?
    ensures Advance(tools, s, b + e) == Advance(tools, s, b)
  {
    hide TakeName, TakeArgs, IsPartial;
    assert (b + e)[0] == b[0];
    if !s.inside {
      OutsideStable(b, e);
    } else if !(END_TOKEN <= b) {
      EndSettled(tools, s, b, e);
      if s.funcName == "" {
        TakeNameStable(tools, s, b, e);
      } else {
        TakeArgsStable(tools, s, b, e);
      }
    }
  }

  lemma GemmaStable(tools: Tools)
    ensures Stable(Gemma(tools))
  {
    var m := Gemma(tools);
    forall s, b, e | Advances(m, s, b) ensures m.step(s, b + e) == m.step(s, b) {
      AdvanceStable(tools, s, b, e);
    }
  }

  /** Gemma 4 streaming does not depend on how a text is cut, well-formed or not. */
  lemma GemmaChunkInvariance(tools: Tools, s: State, b: string, xs: seq<string>, ys: seq<string>)
    requires Concat(xs) == Concat(ys)
    ensures Feed(Gemma(tools), s, b, xs) == Feed(Gemma(tools), s, b, ys)
  {
    GemmaStable(tools);
    ChunkInvariance(Gemma(tools), s, b, xs, ys);
  }

  lemma BraceStep(s: string, i: nat, depth: nat)
    requires i < |s| && depth > 0
    ensures Behind(i, MatchingBrace(s[i..], depth)) ==
      if DELIM <= s[i..] then
        var k := FindFrom(DELIM, s, i + |DELIM|);
        if k == -1 then -1 else Behind(k + |DELIM|, MatchingBrace(s[k + |DELIM|..], depth))
      else if s[i] == '}' && depth == 1 then i
      else
        Behind(i + 1, MatchingBrace(s[i + 1..],
                        if s[i] == '{' then depth + 1 else if s[i] == '}' then depth - 1 else depth))
  {
    hide BehindString;
    assert s[i..][1..] == s[i + 1..];
    if DELIM <= s[i..] {
      StringBehind(s, i);
    }
  }

  lemma StringBehind(s: string, i: nat)
    requires i < |s| && DELIM <= s[i..]
    ensures var k := FindFrom(DELIM, s, i + |DELIM|);
            BehindString(s[i..]) == if k == -1 then None else Some(s[k + |DELIM|..])
  {
    hide IndexOf;
    DropDrop(s, i, |DELIM|);
    var k := IndexOf(DELIM, s[i + |DELIM|..]);
    if k != -1 {
      DropDrop(s, i, |DELIM| + k + |DELIM|);
    }
  }

  /** `_find_matching_brace`. */
  method FindMatchingBrace(text: string) returns (r: int)
    ensures r == MatchingBrace(text, 1)
  {
    hide MatchingBrace, IndexOf;
    var depth, i := 1, 0;
    assert text[0..] == text;
    while i < |text| && depth > 0
      invariant 0 <= i <= |text| && depth >= 0
      invariant if depth == 0 then i > 0 && i - 1 == MatchingBrace(text, 1)
                else Behind(i, MatchingBrace(text[i..], depth)) == MatchingBrace(text, 1)
      decreases |text| - i
    {
      BraceStep(text, i, depth);
      if DELIM <= text[i..] {
        i := i + |DELIM|;
        var next := FindFrom(DELIM, text, i);
        if next == -1 {
          return -1;
        }
        i := next + |DELIM|;
        continue;
      }
      if text[i] == '{' {
        depth := depth + 1;
      } else if text[i] == '}' {
        depth := depth - 1;
      }
      i := i + 1;
    }
    NoBrace(depth);
    assert text[|text|..] == "";
    return if depth == 0 then i - 1 else -1;
  }

  lemma NoBrace(depth: nat)
    ensures depth > 0 ==> MatchingBrace("", depth) == -1
  {
  }

  lemma OutsideSkips(tools: Tools, s: State)
    requires !s.inside
    ensures SkipsTo(Gemma(tools), s, START_TOKEN, true) && OpensOnce(START_TOKEN)
  {
  }

  class Detector {
    const tools: Tools
    var buffer: string
    var parsedPos: nat
    var isInsideToolCall: bool
    var currentFuncName: string
    var currentToolId: int

    constructor (tools: Tools)
      ensures this.tools == tools && Current() == START && buffer == "" && parsedPos == 0
    {
      this.tools := tools;
      buffer, parsedPos := "", 0;
      isInsideToolCall, currentFuncName, currentToolId := false, "", -1;
    }

    /** The parse state the fields hold. */
    ghost function Current(): State
      reads this`isInsideToolCall, this`currentFuncName, this`currentToolId
    {
      State(isInsideToolCall, currentFuncName, currentToolId)
    }

    /** Take in another piece of text and go as far as the buffer allows. */
    method ParseStreamingIncrement(newText: string) returns (normal: string, calls: seq<Item>)
      requires parsedPos == 0
      modifies this
      ensures parsedPos == 0
      ensures var o := Run(Gemma(tools), old(Current()), old(buffer) + newText);
              && Current() == o.state && buffer == o.rest
              && normal == TextOf(o.events) && calls == CallsOf(o.events)
    {
      hide Run, Moves, Going, TextOf, CallsOf;
      buffer := buffer + newText;
      normal, calls := "", [];
      ghost var all := Run(Gemma(tools), Current(), buffer);
      ghost var events: seq<Event<Item>> := [];
      var more := true;
      GoingFromStart(Gemma(tools), Current(), buffer);
      NothingEmitted<Item>();
      while more && parsedPos < |buffer|
        invariant parsedPos <= |buffer|
        invariant normal == TextOf(events) && calls == CallsOf(events)
        invariant more ==> Going(Gemma(tools), all, events, Current(), buffer[parsedPos..])
        invariant !more ==> all == Outcome(Current(), buffer[parsedPos..], events)
        decreases more, |buffer| - parsedPos
      {
        var slice := buffer[parsedPos..];
        ghost var s := Current();
        var text, items := "", [];
        if !isInsideToolCall {
          more, text := OutsideStep(slice);
        } else {
          more, items := InsideStep(slice);
        }
        NoTexts<Item>();
        NoCalls<Item>();
        ghost var emitted := Texts(text) + Calls(items);
        EmittedMore(events, text, items);
        GoingOn(Gemma(tools), all, events, s, slice, Current(), buffer[parsedPos..], emitted, more);
        events := events + emitted;
        normal := normal + text;
        calls := calls + items;
      }
      if more {
        assert buffer[parsedPos..] == "";
        GoingDone(Gemma(tools), all, events, Current());
      }
      buffer := buffer[parsedPos..];
      parsedPos := 0;
    }

    method OutsideStep(b: string) returns (more: bool, normal: string)
      requires parsedPos <= |buffer| && b == buffer[parsedPos..] && b != "" && !isInsideToolCall
      modifies this`parsedPos, this`isInsideToolCall
      ensures parsedPos <= |buffer|
      ensures Moves(Gemma(tools), old(Current()), b, Current(), buffer[parsedPos..], Texts(normal), more)
    {
      hide Run, Moves, IndexOf, Texts, SkipsTo, IsPartial;
      ghost var s := Current();
      NoTexts<Item>();
      OutsideSkips(tools, s);
      var nextStart := IndexOf(START_TOKEN, b);
      if nextStart == -1 {
        MovesHoldingBack(Gemma(tools), s, START_TOKEN, b, true);
        var partialLen := EndsWithPartialToken(b, START_TOKEN);
        normal := b[..|b| - partialLen];
        parsedPos := parsedPos + |normal|;
        return false, normal;
      }
      if nextStart == 0 {
        assert b[0..0 + |START_TOKEN|] == b[..|START_TOKEN|];
        MovesStep(Gemma(tools), s, b);
        parsedPos := parsedPos + |START_TOKEN|;
        isInsideToolCall := true;
        return true, "";
      }
      MovesToToken(Gemma(tools), s, START_TOKEN, b, true);
      parsedPos := parsedPos + nextStart;
      return true, b[..nextStart];
    }

    method InsideStep(b: string) returns (more: bool, calls: seq<Item>)
      requires parsedPos <= |buffer| && b == buffer[parsedPos..] && b != "" && isInsideToolCall
      modifies this
      ensures buffer == old(buffer) && parsedPos <= |buffer|
      ensures Moves(Gemma(tools), old(Current()), b, Current(), buffer[parsedPos..], Calls(calls), more)
    {
      hide Run, Moves, IndexOf, Calls, MatchingBrace, IsPartial, TakeName, TakeArgs;
      ghost var s := Current();
      NoCalls<Item>();
      if END_TOKEN <= b {
        MovesStep(Gemma(tools), s, b);
        parsedPos := parsedPos + |END_TOKEN|;
        isInsideToolCall, currentFuncName := false, "";
        return true, [];
      }
      if currentFuncName == "" {
        more, calls := NameStep(b);
      } else {
        more, calls := ArgsStep(b);
      }
    }

    method NameStep(b: string) returns (more: bool, calls: seq<Item>)
      requires parsedPos <= |buffer| && b == buffer[parsedPos..] && b != "" && isInsideToolCall
      requires !(END_TOKEN <= b) && currentFuncName == ""
      modifies this
      ensures buffer == old(buffer) && parsedPos <= |buffer|
      ensures Moves(Gemma(tools), old(Current()), b, Current(), buffer[parsedPos..], Calls(calls), more)
    {
      hide Run, Moves, IndexOf, Calls, IsPartial;
      ghost var s := Current();
      NoCalls<Item>();
      if b[0] in {' ', '\n', '\t'} {
        MovesStep(Gemma(tools), s, b);
        parsedPos := parsedPos + 1;
        return true, [];
      }
      if PREFIX <= b {
        BraceBehindPrefix(b);
        var bracePos := IndexOf("{", b);
        if bracePos == -1 {
          MovesWait(Gemma(tools), s, b);
          return false, [];
        }
        MovesStep(Gemma(tools), s, b);
        var funcName := b[|PREFIX|..bracePos];
        currentToolId := currentToolId + 1;
        currentFuncName := funcName;
        parsedPos := parsedPos + (bracePos + 1);
        OneCall(Item(tools.index(funcName), Some(funcName), ""));
        return true, [Item(tools.index(funcName), Some(funcName), "")];
      }
      if IsPartial(PREFIX, b) || IsPartial(END_TOKEN, b) {
        MovesWait(Gemma(tools), s, b);
        return false, [];
      }
      MovesStep(Gemma(tools), s, b);
      parsedPos := parsedPos + 1;
      return true, [];
    }

    method ArgsStep(b: string) returns (more: bool, calls: seq<Item>)
      requires parsedPos <= |buffer| && b == buffer[parsedPos..] && b != "" && isInsideToolCall
      requires !(END_TOKEN <= b) && currentFuncName != ""
      modifies this
      ensures buffer == old(buffer) && parsedPos <= |buffer|
      ensures Moves(Gemma(tools), old(Current()), b, Current(), buffer[parsedPos..], Calls(calls), more)
    {
      hide Run, Moves, Calls, MatchingBrace;
      ghost var s := Current();
      NoCalls<Item>();
      var matchIdx := FindMatchingBrace(b);
      if matchIdx == -1 {
        MovesWait(Gemma(tools), s, b);
        return false, [];
      }
      MovesStep(Gemma(tools), s, b);
      var item := Item(tools.index(currentFuncName), None, tools.argsJson(b[..matchIdx]));
      OneCall(item);
      parsedPos := parsedPos + (matchIdx + 1);
      currentFuncName := "";
      return true, [item];
    }
  }

  lemma BraceBehindPrefix(b: string)
    requires PREFIX <= b
    ensures IndexOf("{", b) == -1 || IndexOf("{", b) >= |PREFIX|
  {
    var i := IndexOf("{", b);
    if i != -1 {
      assert b[i..i + 1][0] == '{';
      assert forall k :: 0 <= k < |PREFIX| ==> b[k] == PREFIX[k];
    }
  }
}

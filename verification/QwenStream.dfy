/** The Qwen3-Coder streaming detector: a machine over its buffer, and the object whose cursor follows it. */
module QwenStream {
  import opened Strings
  import opened Events
  import opened Streaming
  import opened Cursors
  import opened ArgTags

  const FUNCTION := "<function="
  const FUNCTION_END := "</function>"
  const PARAMETER := "<parameter="
  const PARAMETER_END := "</parameter>"

  datatype Item = Item(toolIndex: int, name: Option<string>, parameters: string)

  /** The JSON texts of a parameter's name, and of its value converted for its function. */
  datatype Tools = Tools(keyJson: string -> string, valueJson: (Option<string>, string, string) -> string)

  datatype State = State(inside: bool, funcName: Option<string>, toolId: int, paramCount: nat, jsonStarted: bool)

  const START := State(false, None, -1, 0, false)

  /** The buffer may still grow into a tag. The end of a parameter is no tag of its own, so on its own
      it waits as well. */
  predicate MayBeTag(b: string) {
    b <= CALL || b <= CALL_END || b <= FUNCTION || b <= FUNCTION_END || b <= PARAMETER || b <= PARAMETER_END
  }

  /** Where a parameter ends: at its end, at the next parameter, or at the end of the function. */
  function ParameterEnd(t: string): int {
    Earlier(Earlier(IndexOf(PARAMETER_END, t), IndexOf(PARAMETER, t)), IndexOf(FUNCTION_END, t))
  }

  function Pieces(id: int, fragments: seq<string>): seq<Item> {
    seq(|fragments|, i requires 0 <= i < |fragments| => Item(id, None, fragments[i]))
  }

  function Fragments(s: State, fragments: seq<string>): seq<Event<Item>> {
    Calls(Pieces(s.toolId, fragments))
  }

  function TakeFunction(s: State, b: string): Step<State, Event<Item>> {
    var end := IndexOf(">", b);
    if end < |FUNCTION| then Wait
    else
      var name := b[|FUNCTION|..end];
      Go(s.(toolId := s.toolId + 1, paramCount := 0, jsonStarted := false, funcName := Some(name)), end + 1,
         [Called(Item(s.toolId + 1, Some(name), ""))])
  }

  function TakeParameter(tools: Tools, s: State, b: string): Step<State, Event<Item>> {
    var nameEnd := IndexOf(">", b);
    if nameEnd < |PARAMETER| then Wait
    else
      var rest := b[nameEnd + 1..];
      var end := ParameterEnd(rest);
      if end == -1 then Wait
      else
        var name := b[|PARAMETER|..nameEnd];
        var pair := tools.keyJson(name) + ": " + tools.valueJson(s.funcName, name, Unwrap(Slice(rest, 0, end)));
        var used := nameEnd + 1 + end + (if end == IndexOf(PARAMETER_END, rest) then |PARAMETER_END| else 0);
        Go(s.(jsonStarted := true, paramCount := s.paramCount + 1), used,
           Fragments(s, (if s.jsonStarted then [] else ["{"]) + [if s.paramCount > 0 then ", " + pair else pair]))
  }

  function TakeFunctionEnd(s: State): Step<State, Event<Item>> {
    Go(s.(jsonStarted := true, funcName := None), |FUNCTION_END|,
       Fragments(s, (if s.jsonStarted then [] else ["{"]) + ["}"]))
  }

  /** One step at the front of the buffer. */
  function Advance(tools: Tools, s: State, b: string): Step<State, Event<Item>> {
    if b == "" then Wait
    else if CALL <= b then Go(s.(inside := true), |CALL|, [])
    else if FUNCTION <= b then TakeFunction(s, b)
    else if PARAMETER <= b then TakeParameter(tools, s, b)
    else if FUNCTION_END <= b then TakeFunctionEnd(s)
    else if CALL_END <= b then Go(s.(inside := false), |CALL_END|, [])
    else if MayBeTag(b) then Wait
    else Go(s, 1, if s.inside then [] else [Text(b[0])])
  }

  function Qwen(tools: Tools): Machine<State, Event<Item>> {
    Machine((s, b) => Advance(tools, s, b), (s: State) => 0)
  }

  /** No two of the tags that end a parameter start at one place. */
  lemma EndsApart(t: string)
    ensures IndexOf(PARAMETER_END, t) == -1 || IndexOf(PARAMETER_END, t) != IndexOf(PARAMETER, t)
    ensures IndexOf(PARAMETER_END, t) == -1 || IndexOf(PARAMETER_END, t) != IndexOf(FUNCTION_END, t)
    ensures IndexOf(PARAMETER, t) == -1 || IndexOf(PARAMETER, t) != IndexOf(FUNCTION_END, t)
  {
    hide IndexOf, OccursAt;
    NotBoth(PARAMETER_END, PARAMETER, t, 1);
    NotBoth(PARAMETER_END, FUNCTION_END, t, 2);
    NotBoth(PARAMETER, FUNCTION_END, t, 1);
  }

  lemma NotBoth(tag: string, other: string, t: string, m: nat)
    requires m < |tag| && m < |other| && tag[m] != other[m]
    ensures IndexOf(tag, t) == -1 || IndexOf(tag, t) != IndexOf(other, t)
  {
    var i := IndexOf(tag, t);
    if i != -1 && i == IndexOf(other, t) {
      Clash(tag, other, t, i, m);
    }
  }

  lemma Clash(tag: string, other: string, t: string, i: int, m: nat)
    requires m < |tag| && m < |other| && OccursAt(tag, t, i) && OccursAt(other, t, i)
    ensures tag[m] == other[m]
  {
    CharWithin(tag, t, i, i + m);
    CharWithin(other, t, i, i + m);
  }

  lemma ParameterEndOpens(t: string)
    requires ParameterEnd(t) != -1
    ensures 0 <= ParameterEnd(t) < |t| && t[ParameterEnd(t)] == '<'
  {
    var n := ParameterEnd(t);
    if n == IndexOf(PARAMETER_END, t) {
      CharWithin(PARAMETER_END, t, n, n);
    } else if n == IndexOf(PARAMETER, t) {
      CharWithin(PARAMETER, t, n, n);
    } else {
      CharWithin(FUNCTION_END, t, n, n);
    }
  }

  /** Once a parameter's end is found, no extension of the text moves it. */
  lemma ParameterEndExtends(t: string, e: string)
    requires ParameterEnd(t) != -1
    ensures ParameterEnd(t + e) == ParameterEnd(t)
    ensures ParameterEnd(t) == IndexOf(PARAMETER_END, t + e) <==> ParameterEnd(t) == IndexOf(PARAMETER_END, t)
  {
    hide IndexOf, OccursAt;
    var n := ParameterEnd(t);
    ParameterEndOpens(t);
    LateBoundary(PARAMETER_END, t, e, n, {'<'});
    LateBoundary(PARAMETER, t, e, n, {'<'});
    LateBoundary(FUNCTION_END, t, e, n, {'<'});
    EndsApart(t + e);
  }

  lemma TagSettled(tag: string, b: string, e: string)
    requires b != "" && !(b <= tag)
    ensures (tag <= b + e <==> tag <= b) && !(b + e <= tag)
  {
    PrefixOfExtension(tag, b, e);
  }

  /** A buffer that may be no tag any more is not made one by added text. */
  lemma StartSettled(b: string, e: string)
    requires b != "" && !MayBeTag(b)
    ensures !MayBeTag(b + e)
    ensures (CALL <= b + e <==> CALL <= b) && (CALL_END <= b + e <==> CALL_END <= b)
    ensures (FUNCTION <= b + e <==> FUNCTION <= b) && (FUNCTION_END <= b + e <==> FUNCTION_END <= b)
    ensures PARAMETER <= b + e <==> PARAMETER <= b
  {
    TagSettled(CALL, b, e);
    TagSettled(CALL_END, b, e);
    TagSettled(FUNCTION, b, e);
    TagSettled(FUNCTION_END, b, e);
    TagSettled(PARAMETER, b, e);
    TagSettled(PARAMETER_END, b, e);
  }

  /** The tags differ early: what starts with one starts with no other. */
  predicate StartsWith(tag: string, b: string) {
    tag in {CALL, CALL_END, FUNCTION, FUNCTION_END, PARAMETER} && tag <= b
  }

  lemma OneTag(tag: string, other: string, b: string)
    requires StartsWith(tag, b) && StartsWith(other, b)
    ensures tag == other
  {
    assert b[1] == tag[1] == other[1] && b[2] == tag[2] == other[2];
  }

  lemma ParameterStable(tools: Tools, s: State, b: string, e: string)
    requires TakeParameter(tools, s, b).Go?
    ensures TakeParameter(tools, s, b + e) == TakeParameter(tools, s, b)
  {
    hide IndexOf, ParameterEnd, Unwrap, Fragments;
    IndexOfExtends(">", b, e);
    var n := IndexOf(">", b);
    assert (b + e)[n + 1..] == b[n + 1..] + e && (b + e)[|PARAMETER|..n] == b[|PARAMETER|..n];
    var rest := b[n + 1..];
    ParameterEndExtends(rest, e);
    ParameterEndOpens(rest);
    assert Slice(rest + e, 0, ParameterEnd(rest)) == Slice(rest, 0, ParameterEnd(rest));
  }

  lemma FunctionStable(s: State, b: string, e: string)
    requires TakeFunction(s, b).Go?
    ensures TakeFunction(s, b + e) == TakeFunction(s, b)
  {
    hide IndexOf;
    IndexOfExtends(">", b, e);
    assert (b + e)[|FUNCTION|..IndexOf(">", b)] == b[|FUNCTION|..IndexOf(">", b)];
  }

  lemma AdvanceStable(tools: Tools, s: State, b: string, e: string)
    requires Advance(tools, s, b).Go?
    ensures Advance(tools, s, b + e) == Advance(tools, s, b)
  {
    hide MayBeTag, TakeFunction, TakeParameter, TakeFunctionEnd;
    assert (b + e)[0] == b[0];
    var tag := if CALL <= b then CALL else if FUNCTION <= b then FUNCTION else if PARAMETER <= b then PARAMETER
               else if FUNCTION_END <= b then FUNCTION_END else if CALL_END <= b then CALL_END else "";
    if tag == "" {
      StartSettled(b, e);
    } else {
      assert StartsWith(tag, b + e);
      OnlyThisTag(tag, b + e);
      if tag == FUNCTION {
        FunctionStable(s, b, e);
      } else if tag == PARAMETER {
        ParameterStable(tools, s, b, e);
      }
    }
  }

  lemma OnlyThisTag(tag: string, b: string)
    requires StartsWith(tag, b)
    ensures CALL <= b ==> tag == CALL
    ensures FUNCTION <= b ==> tag == FUNCTION
    ensures PARAMETER <= b ==> tag == PARAMETER
    ensures FUNCTION_END <= b ==> tag == FUNCTION_END
    ensures CALL_END <= b ==> tag == CALL_END
  {
    if CALL <= b { OneTag(tag, CALL, b); }
    if FUNCTION <= b { OneTag(tag, FUNCTION, b); }
    if PARAMETER <= b { OneTag(tag, PARAMETER, b); }
    if FUNCTION_END <= b { OneTag(tag, FUNCTION_END, b); }
    if CALL_END <= b { OneTag(tag, CALL_END, b); }
  }

  lemma QwenStable(tools: Tools)
    ensures Stable(Qwen(tools))
  {
    var m := Qwen(tools);
    forall s, b, e | Advances(m, s, b) ensures m.step(s, b + e) == m.step(s, b) {
      AdvanceStable(tools, s, b, e);
    }
  }

  /** Qwen3-Coder streaming does not depend on how a text is cut, well-formed or not. */
  lemma QwenChunkInvariance(tools: Tools, s: State, b: string, xs: seq<string>, ys: seq<string>)
    requires Concat(xs) == Concat(ys)
    ensures Feed(Qwen(tools), s, b, xs) == Feed(Qwen(tools), s, b, ys)
  {
    QwenStable(tools);
    ChunkInvariance(Qwen(tools), s, b, xs, ys);
  }

  lemma PlainTaken(tools: Tools, s: State)
    ensures TakesPlain(Qwen(tools), s, !s.inside)
  {
    forall b: string | b != "" && b[0] != '<'
      ensures Advance(tools, s, b) == Go(s, 1, if !s.inside then [Text(b[0])] else [])
    {
      NoTag(b);
    }
  }

  lemma NoTag(b: string)
    requires b != "" && b[0] != '<'
    ensures !MayBeTag(b) && !(CALL <= b) && !(CALL_END <= b) && !(FUNCTION <= b) && !(FUNCTION_END <= b)
            && !(PARAMETER <= b)
  {
  }

  lemma AngleBehind(tag: string, b: string)
    requires tag <= b && '>' !in tag
    ensures IndexOf(">", b) == -1 || IndexOf(">", b) >= |tag|
  {
    var i := IndexOf(">", b);
    if i != -1 {
      assert b[i..i + 1][0] == '>';
      assert forall k :: 0 <= k < |tag| ==> b[k] == tag[k] && tag[k] in tag;
    }
  }

  lemma OneFragment(s: State, f: string)
    ensures Fragments(s, [] + [f]) == Calls([Item(s.toolId, None, f)])
  {
    assert Pieces(s.toolId, [] + [f]) == [Item(s.toolId, None, f)];
  }

  lemma TwoFragments(s: State, f: string, g: string)
    ensures Fragments(s, [f] + [g]) == Calls([Item(s.toolId, None, f)] + [Item(s.toolId, None, g)])
  {
    assert Pieces(s.toolId, [f] + [g]) == [Item(s.toolId, None, f)] + [Item(s.toolId, None, g)];
  }

  class Detector {
    const tools: Tools
    var buffer: string
    var parsedPos: nat
    var isInsideToolCall: bool
    var currentFuncName: Option<string>
    var currentToolId: int
    var currentToolParamCount: nat
    var jsonStarted: bool

    constructor (tools: Tools)
      ensures this.tools == tools && Current() == START && buffer == "" && parsedPos == 0
    {
      this.tools := tools;
      buffer, parsedPos := "", 0;
      isInsideToolCall, currentFuncName, currentToolId := false, None, -1;
      currentToolParamCount, jsonStarted := 0, false;
    }

    /** The parse state the fields hold. */
    ghost function Current(): State
      reads this`isInsideToolCall, this`currentFuncName, this`currentToolId
      reads this`currentToolParamCount, this`jsonStarted
    {
      State(isInsideToolCall, currentFuncName, currentToolId, currentToolParamCount, jsonStarted)
    }

    /** Take in another piece of text and go as far as the buffer allows. */
    method ParseStreamingIncrement(newText: string) returns (normal: string, calls: seq<Item>)
      requires parsedPos == 0
      modifies this
      ensures parsedPos == 0
      ensures var o := Run(Qwen(tools), old(Current()), old(buffer) + newText);
              && Current() == o.state && buffer == o.rest
              && normal == TextOf(o.events) && calls == CallsOf(o.events)
    {
      hide Run, Moves, Going, TextOf, CallsOf;
      buffer := buffer + newText;
      normal, calls := "", [];
      ghost var all := Run(Qwen(tools), Current(), buffer);
      ghost var events: seq<Event<Item>> := [];
      var more := true;
      GoingFromStart(Qwen(tools), Current(), buffer);
      NothingEmitted<Item>();
      while more && parsedPos < |buffer|
        invariant parsedPos <= |buffer|
        invariant normal == TextOf(events) && calls == CallsOf(events)
        invariant more ==> Going(Qwen(tools), all, events, Current(), buffer[parsedPos..])
        invariant !more ==> all == Outcome(Current(), buffer[parsedPos..], events)
        decreases more, |buffer| - parsedPos
      {
        var slice := buffer[parsedPos..];
        ghost var s := Current();
        var text, items := "", [];
        if CALL <= slice {
          isInsideToolCall := true;
          SkipTag(slice, |CALL|, s);
        } else if FUNCTION <= slice {
          more, items := FunctionStep(slice);
        } else if PARAMETER <= slice {
          more, items := ParameterStep(slice);
        } else if FUNCTION_END <= slice {
          items := FunctionEndStep(slice);
        } else if CALL_END <= slice {
          isInsideToolCall := false;
          SkipTag(slice, |CALL_END|, s);
        } else {
          more, text := TextStep(slice);
        }
        NoTexts<Item>();
        NoCalls<Item>();
        ghost var emitted := Texts(text) + Calls(items);
        EmittedMore(events, text, items);
        GoingOn(Qwen(tools), all, events, s, slice, Current(), buffer[parsedPos..], emitted, more);
        events := events + emitted;
        normal := normal + text;
        calls := calls + items;
      }
      if more {
        assert buffer[parsedPos..] == "";
        GoingDone(Qwen(tools), all, events, Current());
      }
      buffer := buffer[parsedPos..];
      parsedPos := 0;
    }

    /** Step over a tag that has changed the state. */
    method SkipTag(b: string, n: nat, ghost s: State)
      requires parsedPos <= |buffer| && b == buffer[parsedPos..] && 0 < n <= |b|
      requires Advance(tools, s, b) == Go(Current(), n, [])
      modifies this`parsedPos
      ensures parsedPos <= |buffer|
      ensures Moves(Qwen(tools), s, b, Current(), buffer[parsedPos..], [], true)
    {
      hide Run, Moves;
      MovesStep(Qwen(tools), s, b);
      parsedPos := parsedPos + n;
    }

    method FunctionStep(b: string) returns (more: bool, calls: seq<Item>)
      requires parsedPos <= |buffer| && b == buffer[parsedPos..] && FUNCTION <= b && !(CALL <= b)
      modifies this
      ensures buffer == old(buffer) && parsedPos <= |buffer|
      ensures Moves(Qwen(tools), old(Current()), b, Current(), buffer[parsedPos..], Calls(calls), more)
    {
      hide Run, Moves, IndexOf, Calls;
      ghost var s := Current();
      NoCalls<Item>();
      AngleBehind(FUNCTION, b);
      var endAngle := IndexOf(">", b);
      if endAngle == -1 {
        MovesWait(Qwen(tools), s, b);
        return false, [];
      }
      MovesStep(Qwen(tools), s, b);
      var funcName := b[|FUNCTION|..endAngle];
      currentToolId := currentToolId + 1;
      currentToolParamCount, jsonStarted, currentFuncName := 0, false, Some(funcName);
      parsedPos := parsedPos + (endAngle + 1);
      OneCall(Item(currentToolId, Some(funcName), ""));
      return true, [Item(currentToolId, Some(funcName), "")];
    }

    method ParameterStep(b: string) returns (more: bool, calls: seq<Item>)
      requires parsedPos <= |buffer| && b == buffer[parsedPos..]
      requires PARAMETER <= b && !(CALL <= b) && !(FUNCTION <= b)
      modifies this
      ensures buffer == old(buffer) && parsedPos <= |buffer|
      ensures Moves(Qwen(tools), old(Current()), b, Current(), buffer[parsedPos..], Calls(calls), more)
    {
      hide Run, Moves, IndexOf, Calls, ParameterEnd, Unwrap, Fragments;
      ghost var s := Current();
      NoCalls<Item>();
      AngleBehind(PARAMETER, b);
      var nameEnd := IndexOf(">", b);
      if nameEnd == -1 {
        MovesWait(Qwen(tools), s, b);
        return false, [];
      }
      var rest := b[nameEnd + 1..];
      var endPos := ParameterEnd(rest);
      if endPos == -1 {
        MovesWait(Qwen(tools), s, b);
        return false, [];
      }
      EndFits(rest);
      MovesStep(Qwen(tools), s, b);
      var endTokenLen := if endPos == IndexOf(PARAMETER_END, rest) then |PARAMETER_END| else 0;
      var paramName := b[|PARAMETER|..nameEnd];
      var rawValue := Unwrap(Slice(rest, 0, endPos));
      var pair := tools.keyJson(paramName) + ": " + tools.valueJson(currentFuncName, paramName, rawValue);
      calls := EmitPair(pair);
      parsedPos := parsedPos + (nameEnd + 1 + endPos + endTokenLen);
      more := true;
    }

    /** Emit a pair, with the opening brace or the comma in front of it. */
    method EmitPair(pair: string) returns (calls: seq<Item>)
      modifies this`jsonStarted, this`currentToolParamCount
      ensures jsonStarted && currentToolParamCount == old(currentToolParamCount) + 1
      ensures Calls(calls) == Fragments(old(Current()),
                                        (if old(jsonStarted) then [] else ["{"])
                                        + [if old(currentToolParamCount) > 0 then ", " + pair else pair])
    {
      hide Calls, Fragments;
      ghost var s := Current();
      calls := [];
      if !jsonStarted {
        calls := [Item(currentToolId, None, "{")];
        jsonStarted := true;
      }
      var fragment := if currentToolParamCount > 0 then ", " + pair else pair;
      calls := calls + [Item(currentToolId, None, fragment)];
      OneFragment(s, fragment);
      TwoFragments(s, "{", fragment);
      assert [] + [Item(currentToolId, None, fragment)] == [Item(currentToolId, None, fragment)];
      currentToolParamCount := currentToolParamCount + 1;
    }

    method FunctionEndStep(b: string) returns (calls: seq<Item>)
      requires parsedPos <= |buffer| && b == buffer[parsedPos..]
      requires FUNCTION_END <= b && !(CALL <= b) && !(FUNCTION <= b) && !(PARAMETER <= b)
      modifies this
      ensures buffer == old(buffer) && parsedPos <= |buffer|
      ensures Moves(Qwen(tools), old(Current()), b, Current(), buffer[parsedPos..], Calls(calls), true)
    {
      hide Run, Moves, Calls, Fragments;
      ghost var s := Current();
      MovesStep(Qwen(tools), s, b);
      calls := [];
      if !jsonStarted {
        calls := [Item(currentToolId, None, "{")];
        jsonStarted := true;
      }
      calls := calls + [Item(currentToolId, None, "}")];
      OneFragment(s, "}");
      TwoFragments(s, "{", "}");
      assert [] + [Item(currentToolId, None, "}")] == [Item(currentToolId, None, "}")];
      parsedPos := parsedPos + |FUNCTION_END|;
      currentFuncName := None;
    }

    /** What is no tag is normal text outside a call and dropped inside one. */
    method TextStep(b: string) returns (more: bool, normal: string)
      requires parsedPos <= |buffer| && b == buffer[parsedPos..] && b != ""
      requires !(CALL <= b) && !(FUNCTION <= b) && !(PARAMETER <= b) && !(FUNCTION_END <= b) && !(CALL_END <= b)
      modifies this`parsedPos
      ensures parsedPos <= |buffer|
      ensures Moves(Qwen(tools), old(Current()), b, Current(), buffer[parsedPos..], Texts(normal), more)
    {
      hide Run, Moves, IndexOf, Texts, MayBeTag;
      ghost var s := Current();
      NoTexts<Item>();
      if b[0] == '<' {
        if MayBeTag(b) {
          MovesWait(Qwen(tools), s, b);
          return false, "";
        }
        MovesStep(Qwen(tools), s, b);
        parsedPos := parsedPos + 1;
        return true, if !isInsideToolCall then "<" else "";
      }
      PlainTaken(tools, s);
      MovesPlain(Qwen(tools), s, b, !s.inside);
      var nextOpenAngle := IndexOf("<", b);
      var segment := if nextOpenAngle == -1 then b else b[..nextOpenAngle];
      assert segment == b[..Plain(b)];
      parsedPos := parsedPos + |segment|;
      return true, if !isInsideToolCall then segment else "";
    }
  }

  lemma EndFits(t: string)
    requires ParameterEnd(t) != -1
    ensures 0 <= ParameterEnd(t) < |t|
    ensures ParameterEnd(t) == IndexOf(PARAMETER_END, t) ==> ParameterEnd(t) + |PARAMETER_END| <= |t|
  {
    ParameterEndOpens(t);
  }
}

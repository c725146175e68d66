/** The Poolside detector object: a cursor over its buffer, and the fields of its parse state. */
module PoolsideDetector {
  import opened Strings
  import opened HoldBack
  import opened Events
  import opened Streaming
  import opened Cursors
  import opened ArgTags
  import opened PoolsideSpec

  lemma TagsOpen(b: string)
    requires b != "" && b[0] != '<'
    ensures !PartialTag(b) && !(CALL <= b) && !(CALL_END <= b) && !(KEY <= b) && !(VALUE <= b)
  {
  }

  lemma PlainTaken(tools: Tools, s: State)
    requires s.mode == Outside || s.mode == ReadingKey || s.mode == ReadingValue
    ensures TakesPlain(Poolside(tools), s, s.mode == Outside)
  {
    hide PartialTag;
    forall b: string | b != "" && b[0] != '<'
      ensures Advance(tools, s, b) == Go(s, 1, if s.mode == Outside then [Text(b[0])] else [])
    {
      TagsOpen(b);
    }
  }

  lemma DrainSkips(tools: Tools, s: State)
    requires s.mode == Draining
    ensures SkipsTo(Poolside(tools), s, CALL_END, false) && OpensOnce(CALL_END)
  {
  }

  /** While draining, everything up to and with the end of the call is dropped. */
  lemma MovesDrained(tools: Tools, s: State, b: string)
    requires s.mode == Draining && IndexOf(CALL_END, b) != -1
    ensures var end := IndexOf(CALL_END, b);
            Moves(Poolside(tools), s, b, s.(mode := Outside), b[end + |CALL_END|..], [], true)
  {
    hide IndexOf, Skip, Run, IsPartial, SkipsTo;
    var m, end := Poolside(tools), IndexOf(CALL_END, b);
    DrainSkips(tools, s);
    RunSkips(m, s, CALL_END, b, false);
    SkipToToken(CALL_END, b);
    assert b[end..][|CALL_END|..] == b[end + |CALL_END|..];
    MovesStep(m, s, b[end..]);
    AfterAfter([], [], Run(m, s.(mode := Outside), b[end + |CALL_END|..]));
  }

  /** The record of streamed arguments has room for the current call. */
  predicate Sound(s: State) {
    |s.streamed| == s.toolId + 1 && (s.mode == ReadingKey || s.mode == ReadingValue ==> s.toolId >= 0)
  }

  class Detector {
    const tools: Tools
    var buffer: string
    var parsedPos: nat
    var mode: Mode
    var currentFuncName: string
    var currentPendingKey: Option<string>
    var jsonStarted: bool
    var currentToolId: int
    var streamedArgsForTool: seq<string>

    constructor (tools: Tools)
      ensures this.tools == tools && Current() == START && buffer == "" && parsedPos == 0
    {
      this.tools := tools;
      buffer, parsedPos, mode := "", 0, Outside;
      currentFuncName, currentPendingKey, jsonStarted := "", None, false;
      currentToolId, streamedArgsForTool := -1, [];
    }

    /** The parse state the fields hold. */
    ghost function Current(): State
      reads this`mode, this`currentFuncName, this`currentPendingKey, this`jsonStarted
      reads this`currentToolId, this`streamedArgsForTool
    {
      State(mode, currentFuncName, currentPendingKey, jsonStarted, currentToolId, streamedArgsForTool)
    }

    method ResetCallState()
      modifies this`currentFuncName, this`currentPendingKey, this`jsonStarted
      ensures Current() == ResetCall(old(Current()))
    {
      currentFuncName, currentPendingKey, jsonStarted := "", None, false;
    }

    /** Close the active call: a brace, or an empty object where no argument came. */
    method CloseCurrentCall() returns (item: Item)
      requires 0 <= currentToolId < |streamedArgsForTool|
      modifies this
      ensures buffer == old(buffer) && parsedPos == old(parsedPos) + |CALL_END|
      ensures Close(old(Current())) == Go(Current(), |CALL_END|, [Called(item)])
    {
      var fragment := if jsonStarted then "}" else "{}";
      item := Item(currentToolId, None, fragment);
      streamedArgsForTool := streamedArgsForTool[currentToolId := streamedArgsForTool[currentToolId] + fragment];
      parsedPos := parsedPos + |CALL_END|;
      mode := Outside;
      ResetCallState();
    }

    /** Take a key, if it is there in full; the caller moves on to its value. */
    method ConsumeArgKey(b: string) returns (taken: bool)
      modifies this`currentPendingKey, this`parsedPos
      ensures taken <==> IndexOf(KEY_END, b) != -1
      ensures !taken ==> Current() == old(Current()) && parsedPos == old(parsedPos)
      ensures taken ==>
        TakeKey(old(Current()), b) ==
          Go(Current().(mode := ReadingValue), IndexOf(KEY_END, b) + |KEY_END|, []) &&
        parsedPos == old(parsedPos) + IndexOf(KEY_END, b) + |KEY_END|
    {
      var end := IndexOf(KEY_END, b);
      if end == -1 {
        return false;
      }
      currentPendingKey := Some(Strip(Slice(b, |KEY|, end)));
      parsedPos := parsedPos + (end + |KEY_END|);
      return true;
    }

    /** Take in another piece of text and go as far as the buffer allows. */
    method ParseStreamingIncrement(newText: string) returns (normal: string, calls: seq<Item>)
      requires Sound(Current()) && parsedPos == 0
      modifies this
      ensures Sound(Current()) && parsedPos == 0
      ensures var o := Run(Poolside(tools), old(Current()), old(buffer) + newText);
              && Current() == o.state && buffer == o.rest
              && normal == TextOf(o.events) && calls == CallsOf(o.events)
    {
      hide Run, Moves, Going, TextOf, CallsOf, Sound, Rank;
      buffer := buffer + newText;
      normal, calls := "", [];
      ghost var all := Run(Poolside(tools), Current(), buffer);
      ghost var events: seq<Event<Item>> := [];
      var more := true;
      GoingFromStart(Poolside(tools), Current(), buffer);
      NothingEmitted<Item>();
      while more && parsedPos < |buffer|
        invariant parsedPos <= |buffer| && Sound(Current())
        invariant normal == TextOf(events) && calls == CallsOf(events)
        invariant more ==> Going(Poolside(tools), all, events, Current(), buffer[parsedPos..])
        invariant !more ==> all == Outcome(Current(), buffer[parsedPos..], events)
        decreases more, |buffer| - parsedPos, Rank(Current())
      {
        var slice := buffer[parsedPos..];
        ghost var s := Current();
        var text, items := "", [];
        if mode == Outside {
          more, text := OutsideStep(slice);
        } else if mode == ReadingName {
          more, items := NameStep(slice);
        } else if mode == ReadingKey {
          more, items := KeyStep(slice);
        } else if mode == ReadingValue {
          more, items := ValueStep(slice);
        } else {
          more := DrainStep(slice);
        }
        NoTexts<Item>();
        NoCalls<Item>();
        ghost var emitted := Texts(text) + Calls(items);
        EmittedMore(events, text, items);
        GoingOn(Poolside(tools), all, events, s, slice, Current(), buffer[parsedPos..], emitted, more);
        events := events + emitted;
        normal := normal + text;
        calls := calls + items;
      }
      if more {
        assert buffer[parsedPos..] == "";
        GoingDone(Poolside(tools), all, events, Current());
      }
      buffer := buffer[parsedPos..];
      parsedPos := 0;
    }

    method OutsideStep(b: string) returns (more: bool, normal: string)
      requires parsedPos <= |buffer| && b == buffer[parsedPos..] && b != "" && mode == Outside && Sound(Current())
      modifies this
      ensures buffer == old(buffer) && parsedPos <= |buffer| && Sound(Current())
      ensures Moves(Poolside(tools), old(Current()), b, Current(), buffer[parsedPos..], Texts(normal), more)
    {
      hide PartialTag, Run, Moves, IndexOf, Texts;
      ghost var s := Current();
      NoTexts<Item>();
      if CALL <= b {
        parsedPos := parsedPos + |CALL|;
        mode := ReadingName;
        ResetCallState();
        MovesStep(Poolside(tools), s, b);
        return true, "";
      }
      if b[0] == '<' {
        if PartialTag(b) {
          MovesWait(Poolside(tools), s, b);
          return false, "";
        }
        MovesStep(Poolside(tools), s, b);
        parsedPos := parsedPos + 1;
        return true, "<";
      }
      PlainTaken(tools, s);
      MovesPlain(Poolside(tools), s, b, true);
      var nextLt := IndexOf("<", b);
      var segment := if nextLt == -1 then b else b[..nextLt];
      assert segment == b[..Plain(b)];
      parsedPos := parsedPos + |segment|;
      return true, segment;
    }

    /** Make room in the record for the current call. */
    method ExtendRecord()
      requires |streamedArgsForTool| == currentToolId
      modifies this`streamedArgsForTool
      ensures streamedArgsForTool == old(streamedArgsForTool) + [""]
    {
      while |streamedArgsForTool| <= currentToolId
        invariant streamedArgsForTool ==
          if |streamedArgsForTool| <= currentToolId then old(streamedArgsForTool) else old(streamedArgsForTool) + [""]
        decreases currentToolId + 1 - |streamedArgsForTool|
      {
        streamedArgsForTool := streamedArgsForTool + [""];
      }
    }

    method NameStep(b: string) returns (more: bool, calls: seq<Item>)
      requires parsedPos <= |buffer| && b == buffer[parsedPos..] && b != "" && mode == ReadingName && Sound(Current())
      modifies this
      ensures buffer == old(buffer) && parsedPos <= |buffer| && Sound(Current())
      ensures Moves(Poolside(tools), old(Current()), b, Current(), buffer[parsedPos..], Calls(calls), more)
    {
      hide Run, Moves, NameBoundary, Strip, Calls;
      ghost var s := Current();
      NoCalls<Item>();
      var boundary := NameBoundary(b);
      if boundary == -1 {
        MovesWait(Poolside(tools), s, b);
        return false, [];
      }
      BoundaryOpens(b);
      var name := Strip(Slice(b, 0, boundary));
      var consume := boundary;
      if b[boundary] == '\n' {
        consume := consume + 1;
      }
      NewlineHere(b, boundary);
      MovesStep(Poolside(tools), s, b);
      parsedPos := parsedPos + consume;
      if name != "" && name in tools.known {
        currentToolId := currentToolId + 1;
        ExtendRecord();
        currentFuncName := name;
        mode := ReadingKey;
        OneCall(Item(currentToolId, Some(name), ""));
        assert seq(1, _ => "") == [""];
        return true, [Item(currentToolId, Some(name), "")];
      }
      mode := Draining;
      return true, [];
    }

    method KeyStep(b: string) returns (more: bool, calls: seq<Item>)
      requires parsedPos <= |buffer| && b == buffer[parsedPos..] && b != "" && mode == ReadingKey && Sound(Current())
      modifies this
      ensures buffer == old(buffer) && parsedPos <= |buffer| && Sound(Current())
      ensures Moves(Poolside(tools), old(Current()), b, Current(), buffer[parsedPos..], Calls(calls), more)
    {
      hide PartialTag, Run, Moves, IndexOf, Calls, Strip;
      ghost var s := Current();
      NoCalls<Item>();
      if CALL_END <= b {
        var item := CloseCurrentCall();
        OneCall(item);
        MovesStep(Poolside(tools), s, b);
        return true, [item];
      }
      if KEY <= b {
        var taken := ConsumeArgKey(b);
        if !taken {
          MovesWait(Poolside(tools), s, b);
          return false, [];
        }
        mode := ReadingValue;
        MovesStep(Poolside(tools), s, b);
        return true, [];
      }
      more := SkipStep(b);
      return more, [];
    }

    method ValueStep(b: string) returns (more: bool, calls: seq<Item>)
      requires parsedPos <= |buffer| && b == buffer[parsedPos..] && b != "" && mode == ReadingValue && Sound(Current())
      modifies this
      ensures buffer == old(buffer) && parsedPos <= |buffer| && Sound(Current())
      ensures Moves(Poolside(tools), old(Current()), b, Current(), buffer[parsedPos..], Calls(calls), more)
    {
      hide PartialTag, Run, Moves, IndexOf, Calls, Strip;
      ghost var s := Current();
      NoCalls<Item>();
      if CALL_END <= b {
        var item := CloseCurrentCall();
        OneCall(item);
        MovesStep(Poolside(tools), s, b);
        return true, [item];
      }
      if KEY <= b {
        var taken := ConsumeArgKey(b);
        if !taken {
          MovesWait(Poolside(tools), s, b);
          return false, [];
        }
        MovesStep(Poolside(tools), s, b);
        return true, [];
      }
      if VALUE <= b {
        more, calls := TakeArgValue(b);
        return;
      }
      more := SkipStep(b);
      return more, [];
    }

    /** Take a value, if it is there in full, and emit it with its key. */
    method TakeArgValue(b: string) returns (more: bool, calls: seq<Item>)
      requires parsedPos <= |buffer| && b == buffer[parsedPos..] && mode == ReadingValue && Sound(Current())
      requires VALUE <= b && !(CALL_END <= b) && !(KEY <= b)
      modifies this
      ensures buffer == old(buffer) && parsedPos <= |buffer| && Sound(Current())
      ensures Moves(Poolside(tools), old(Current()), b, Current(), buffer[parsedPos..], Calls(calls), more)
    {
      hide PartialTag, Run, Moves, IndexOf, Calls, Unwrap;
      ghost var s := Current();
      NoCalls<Item>();
      var end := IndexOf(VALUE_END, b);
      if end == -1 {
        MovesWait(Poolside(tools), s, b);
        return false, [];
      }
      MovesStep(Poolside(tools), s, b);
      var raw := Unwrap(Slice(b, |VALUE|, end));
      var key := if currentPendingKey.Some? then currentPendingKey.value else "";
      var kv := tools.keyJson(key) + ": " + tools.valueJson(currentFuncName, key, raw);
      var fragment := if !jsonStarted then "{" + kv else ", " + kv;
      jsonStarted := true;
      OneCall(Item(currentToolId, None, fragment));
      streamedArgsForTool := streamedArgsForTool[currentToolId := streamedArgsForTool[currentToolId] + fragment];
      currentPendingKey := None;
      parsedPos := parsedPos + (end + |VALUE_END|);
      mode := ReadingKey;
      return true, [Item(currentToolId, None, fragment)];
    }

    /** Inside a call, anything that is no tag is dropped. */
    method SkipStep(b: string) returns (more: bool)
      requires parsedPos <= |buffer| && b == buffer[parsedPos..] && b != "" && Sound(Current())
      requires (mode == ReadingKey || (mode == ReadingValue && !(VALUE <= b))) && !(CALL_END <= b) && !(KEY <= b)
      modifies this`parsedPos
      ensures parsedPos <= |buffer|
      ensures Moves(Poolside(tools), old(Current()), b, Current(), buffer[parsedPos..], [], more)
    {
      hide PartialTag, Run, Moves, IndexOf;
      ghost var s := Current();
      if b[0] == '<' {
        if PartialTag(b) {
          MovesWait(Poolside(tools), s, b);
          return false;
        }
        MovesStep(Poolside(tools), s, b);
        parsedPos := parsedPos + 1;
        return true;
      }
      PlainTaken(tools, s);
      MovesPlain(Poolside(tools), s, b, false);
      var nextLt := IndexOf("<", b);
      parsedPos := parsedPos + if nextLt == -1 then |b| else nextLt;
      return true;
    }

    method DrainStep(b: string) returns (more: bool)
      requires parsedPos <= |buffer| && b == buffer[parsedPos..] && b != "" && mode == Draining && Sound(Current())
      modifies this
      ensures buffer == old(buffer) && parsedPos <= |buffer| && Sound(Current())
      ensures Moves(Poolside(tools), old(Current()), b, Current(), buffer[parsedPos..], [], more)
    {
      hide Run, Moves, IndexOf, ShortestFrom;
      ghost var s := Current();
      var endIdx := IndexOf(CALL_END, b);
      if endIdx != -1 {
        MovesDrained(tools, s, b);
        parsedPos := parsedPos + (endIdx + |CALL_END|);
        mode := Outside;
        return true;
      }
      DrainSkips(tools, s);
      MovesHoldingBack(Poolside(tools), s, CALL_END, b, false);
      var holdback := EndsWithPartialToken(b, CALL_END);
      parsedPos := parsedPos + (|b| - holdback);
      return false;
    }
  }

  lemma NewlineHere(b: string, i: nat)
    requires i < |b|
    ensures OccursAt("\n", b, i) <==> b[i] == '\n'
  {
    assert b[i..i + 1] == [b[i]];
  }
}

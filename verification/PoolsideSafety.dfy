/** What holds of every Poolside run, on any text: tool indices, name events, and argument JSON. */
module PoolsideSafety {
  import opened Strings
  import opened Events
  import opened Streaming
  import opened ArgTags
  import opened PoolsideSpec

  /** The fragments emitted with index `i`, joined. */
  function FragmentsOf(calls: seq<Item>, i: int): string {
    if calls == [] then ""
    else
      var last := calls[|calls| - 1];
      FragmentsOf(calls[..|calls| - 1], i) + if last.toolIndex == i then last.parameters else ""
  }

  /** Name events carry the indices 0, 1, 2, ... up to `id`, with empty arguments, and each is followed
      by fragments of its own index only. */
  predicate InOrder(calls: seq<Item>, id: int) {
    if calls == [] then id == -1
    else
      var last := calls[|calls| - 1];
      && last.toolIndex == id >= 0
      && if last.name.Some? then last.parameters == "" && InOrder(calls[..|calls| - 1], id - 1)
         else InOrder(calls[..|calls| - 1], id)
  }

  /** `"key": value` for a known tool. */
  ghost predicate IsPair(tools: Tools, p: string) {
    exists f, k, raw :: f in tools.known && p == tools.keyJson(k) + ": " + tools.valueJson(f, k, raw)
  }

  function Join(pairs: seq<string>): string {
    if pairs == [] then ""
    else if |pairs| == 1 then pairs[0]
    else Join(pairs[..|pairs| - 1]) + ", " + pairs[|pairs| - 1]
  }

  ghost predicate OpenWith(tools: Tools, json: string, pairs: seq<string>) {
    pairs != [] && (forall p :: p in pairs ==> IsPair(tools, p)) && json == "{" + Join(pairs)
  }

  /** An object whose closing brace is still to come, after at least one pair. */
  ghost predicate Open(tools: Tools, json: string) {
    exists pairs :: OpenWith(tools, json, pairs)
  }

  /** A whole object. */
  ghost predicate Closed(tools: Tools, json: string) {
    json == "{}" || exists open :: Open(tools, open) && json == open + "}"
  }

  predicate InCall(s: State) {
    s.mode == ReadingKey || s.mode == ReadingValue
  }

  /** The arguments of the current call so far, and whole objects for the calls before. */
  ghost predicate ArgumentsRight(tools: Tools, s: State) {
    && (forall i :: 0 <= i < |s.streamed| && (i < s.toolId || !InCall(s)) ==> Closed(tools, s.streamed[i]))
    && (InCall(s) ==> 0 <= s.toolId < |s.streamed| && s.funcName in tools.known)
    && (InCall(s) && s.jsonStarted ==> Open(tools, s.streamed[s.toolId]))
    && (InCall(s) && !s.jsonStarted ==> s.streamed[s.toolId] == "")
    && (s.mode == ReadingName ==> !s.jsonStarted)
    && (s.mode == ReadingValue ==> s.pendingKey.Some?)
  }

  /** The record of streamed arguments is what was emitted. */
  ghost predicate RecordRight(s: State, calls: seq<Item>) {
    && |s.streamed| == s.toolId + 1 && InOrder(calls, s.toolId)
    && (forall i :: 0 <= i < |s.streamed| ==> s.streamed[i] == FragmentsOf(calls, i))
  }

  ghost predicate Inv(tools: Tools, s: State, calls: seq<Item>) {
    ArgumentsRight(tools, s) && RecordRight(s, calls)
  }

  lemma StartRight(tools: Tools)
    ensures Inv(tools, START, [])
  {
  }

  lemma {:induction false} NothingBeyond(calls: seq<Item>, id: int, i: int)
    requires InOrder(calls, id) && i > id
    ensures FragmentsOf(calls, i) == ""
  {
    if calls != [] {
      var last := calls[|calls| - 1];
      NothingBeyond(calls[..|calls| - 1], if last.name.Some? then id - 1 else id, i);
    }
  }

  /** A fragment goes to the record and to the events alike. */
  lemma EmitKeepsRecord(s: State, calls: seq<Item>, fragment: string)
    requires RecordRight(s, calls) && s.toolId >= 0
    ensures RecordRight(Emit(s, fragment), calls + [Item(s.toolId, None, fragment)])
  {
    var calls' := calls + [Item(s.toolId, None, fragment)];
    assert calls'[..|calls|] == calls;
  }

  lemma NameKeepsRecord(s: State, calls: seq<Item>, name: string)
    requires RecordRight(s, calls)
    ensures RecordRight(s.(toolId := s.toolId + 1, streamed := s.streamed + [""]),
                        calls + [Item(s.toolId + 1, Some(name), "")])
  {
    var calls' := calls + [Item(s.toolId + 1, Some(name), "")];
    assert calls'[..|calls|] == calls;
    NothingBeyond(calls, s.toolId, s.toolId + 1);
  }

  lemma OpenMore(tools: Tools, json: string, pair: string)
    requires Open(tools, json) && IsPair(tools, pair)
    ensures Open(tools, json + (", " + pair))
  {
    var pairs :| OpenWith(tools, json, pairs);
    var pairs' := pairs + [pair];
    assert pairs'[..|pairs|] == pairs;
    assert json + (", " + pair) == "{" + Join(pairs');
    assert OpenWith(tools, json + (", " + pair), pairs');
  }

  lemma OpenFirst(tools: Tools, pair: string)
    requires IsPair(tools, pair)
    ensures Open(tools, "" + ("{" + pair))
  {
    assert "" + ("{" + pair) == "{" + Join([pair]);
    assert OpenWith(tools, "" + ("{" + pair), [pair]);
  }

  /** The calls among a step's events, in the only two shapes they take. */
  lemma CallsOfOne(item: Item, c: char)
    ensures CallsOf([Called(item)]) == [item]
    ensures CallsOf<Item>([Text(c)]) == [] && CallsOf<Item>([]) == []
  {
    assert [Called(item)][1..] == [];
    var text: seq<Event<Item>> := [Text(c)];
    assert text[1..] == [];
  }

  lemma CloseKeeps(tools: Tools, s: State, calls: seq<Item>)
    requires Inv(tools, s, calls) && InCall(s)
    ensures Inv(tools, Close(s).next, calls + CallsOf(Close(s).events))
  {
    hide FragmentsOf, InOrder, Join, OpenWith, Open, CallsOf;
    EmitKeepsRecord(s, calls, CloseText(s));
    CallsOfOne(Item(s.toolId, None, CloseText(s)), 'x');
    var json := s.streamed[s.toolId];
    assert Closed(tools, json + CloseText(s)) by {
      if !s.jsonStarted {
        assert json + "{}" == "{}";
      }
    }
  }

  lemma TakeKeyKeeps(tools: Tools, s: State, b: string, calls: seq<Item>)
    requires Inv(tools, s, calls) && InCall(s) && TakeKey(s, b).Go?
    ensures Inv(tools, TakeKey(s, b).next, calls + CallsOf(TakeKey(s, b).events))
  {
    hide FragmentsOf, InOrder, Open, Closed;
    assert calls + [] == calls;
  }

  lemma TakeValueKeeps(tools: Tools, s: State, b: string, calls: seq<Item>)
    requires Inv(tools, s, calls) && s.mode == ReadingValue && TakeValue(tools, s, b).Go?
    ensures Inv(tools, TakeValue(tools, s, b).next, calls + CallsOf(TakeValue(tools, s, b).events))
  {
    hide FragmentsOf, InOrder, Join, OpenWith, Open, CallsOf, Closed, IsPair, IndexOf, Unwrap, Slice;
    var raw := Unwrap(Slice(b, |VALUE|, IndexOf(VALUE_END, b)));
    var pair := PairText(tools, s, raw);
    PairIsPair(tools, s, raw);
    var fragment := if s.jsonStarted then ", " + pair else "{" + pair;
    EmitKeepsRecord(s, calls, fragment);
    CallsOfOne(Item(s.toolId, None, fragment), 'x');
    if s.jsonStarted {
      OpenMore(tools, s.streamed[s.toolId], pair);
    } else {
      OpenFirst(tools, pair);
    }
  }

  lemma PairIsPair(tools: Tools, s: State, raw: string)
    requires s.pendingKey.Some? && s.funcName in tools.known
    ensures IsPair(tools, PairText(tools, s, raw))
  {
  }

  lemma TakeNameKeeps(tools: Tools, s: State, b: string, calls: seq<Item>)
    requires Inv(tools, s, calls) && s.mode == ReadingName && TakeName(tools, s, b).Go?
    ensures Inv(tools, TakeName(tools, s, b).next, calls + CallsOf(TakeName(tools, s, b).events))
  {
    hide FragmentsOf, InOrder, Open, CallsOf, Closed, NameBoundary, Slice, Strip;
    var name := Strip(Slice(b, 0, NameBoundary(b)));
    NameKeepsRecord(s, calls, name);
    CallsOfOne(Item(s.toolId + 1, Some(name), ""), 'x');
    assert seq(1, _ => "") == [""];
    assert calls + [] == calls;
  }

  /** Every step keeps the invariant. */
  lemma StepKeeps(tools: Tools, s: State, b: string, calls: seq<Item>)
    requires Inv(tools, s, calls) && Advance(tools, s, b).Go?
    ensures Inv(tools, Advance(tools, s, b).next, calls + CallsOf(Advance(tools, s, b).events))
  {
    hide RecordRight, Open, Closed, CallsOf, PartialTag, TakeKey, TakeValue, TakeName, Close;
    CallsOfOne(Item(0, None, ""), b[0]);
    assert calls + [] == calls;
    match s.mode
    case Outside => QuietKeeps(tools, s, ResetCall(s).(mode := ReadingName), calls);
    case ReadingName => TakeNameKeeps(tools, s, b, calls);
    case ReadingKey =>
      if CALL_END <= b {
        CloseKeeps(tools, s, calls);
      } else if KEY <= b {
        TakeKeyKeeps(tools, s, b, calls);
      }
    case ReadingValue =>
      if CALL_END <= b {
        CloseKeeps(tools, s, calls);
      } else if KEY <= b {
        TakeKeyKeeps(tools, s, b, calls);
      } else if VALUE <= b {
        TakeValueKeeps(tools, s, b, calls);
      }
    case Draining => QuietKeeps(tools, s, s.(mode := Outside), calls);
  }

  /** Outside a call, the per-call fields do not matter. */
  lemma QuietKeeps(tools: Tools, s: State, t: State, calls: seq<Item>)
    requires Inv(tools, s, calls) && !InCall(s) && !InCall(t)
    requires t.toolId == s.toolId && t.streamed == s.streamed && (t.mode == ReadingName ==> !t.jsonStarted)
    ensures Inv(tools, t, calls)
  {
  }

  /** Every run keeps the invariant, whatever the text. */
  lemma {:induction false} RunKeeps(tools: Tools, s: State, b: string, calls: seq<Item>)
    requires Inv(tools, s, calls)
    ensures var o := Run(Poolside(tools), s, b); Inv(tools, o.state, calls + CallsOf(o.events))
    decreases |b|, Rank(s)
  {
    hide Inv, Advance;
    var m := Poolside(tools);
    if Advances(m, s, b) {
      var Go(next, used, events) := Advance(tools, s, b);
      StepKeeps(tools, s, b, calls);
      RunKeeps(tools, next, b[used..], calls + CallsOf(events));
      var rest := Run(m, next, b[used..]).events;
      OfConcat(events, rest);
      assert calls + (CallsOf(events) + CallsOf(rest)) == calls + CallsOf(events) + CallsOf(rest);
    } else {
      assert calls + [] == calls;
    }
  }

  /** In every reachable state, on any text and any cutting of it: the record is the emitted fragments,
      index by index; names come in order and first; and every call's arguments are empty, an open
      object prefix, or a whole object. */
  lemma ReachableIsSafe(tools: Tools, pieces: seq<string>)
    ensures var o := Feed(Poolside(tools), START, "", pieces); Inv(tools, o.state, CallsOf(o.events))
  {
    PoolsideStable(tools);
    FeedIsRun(Poolside(tools), START, "", pieces);
    StartRight(tools);
    RunKeeps(tools, START, "" + Concat(pieces), []);
    assert [] + CallsOf(Feed(Poolside(tools), START, "", pieces).events)
        == CallsOf(Feed(Poolside(tools), START, "", pieces).events);
  }

  /** A step leaves alone the arguments of every call but the one it is reading. */
  lemma StepExtends(tools: Tools, s: State, b: string, calls: seq<Item>, i: nat)
    requires Inv(tools, s, calls) && Advance(tools, s, b).Go?
    requires i <= s.toolId && (i < s.toolId || !InCall(s))
    ensures var t := Advance(tools, s, b).next;
            i <= t.toolId && (i < t.toolId || !InCall(t)) && t.streamed[i] == s.streamed[i]
  {
    hide Open, Closed, PartialTag, NameBoundary, IndexOf, InOrder, FragmentsOf;
  }

  /** A whole object is never extended again, in whatever way the run goes on. */
  lemma {:induction false} ClosedStaysClosed(tools: Tools, s: State, b: string, calls: seq<Item>, i: nat)
    requires Inv(tools, s, calls) && i <= s.toolId && (i < s.toolId || !InCall(s))
    ensures var o := Run(Poolside(tools), s, b);
            i < |o.state.streamed| && o.state.streamed[i] == s.streamed[i] && Closed(tools, s.streamed[i])
    decreases |b|, Rank(s)
  {
    hide Advance, Open, Closed, InOrder, FragmentsOf;
    if Advances(Poolside(tools), s, b) {
      var Go(next, used, events) := Advance(tools, s, b);
      StepKeeps(tools, s, b, calls);
      StepExtends(tools, s, b, calls, i);
      ClosedStaysClosed(tools, next, b[used..], calls + CallsOf(events), i);
    }
  }
}

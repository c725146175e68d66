/** The Poolside detector as a machine over its five parse states. */
module PoolsideSpec {
  import opened Strings
  import opened HoldBack
  import opened Events
  import opened Streaming
  import opened ArgTags

  datatype Item = Item(toolIndex: int, name: Option<string>, parameters: string)

  /** The tool names, and the JSON texts of a key and of the value that a raw argument converts to
      under the schema of its function and key. */
  datatype Tools = Tools(known: set<string>, keyJson: string -> string,
                         valueJson: (string, string, string) -> string)

  datatype Mode = Outside | ReadingName | ReadingKey | ReadingValue | Draining

  datatype State = State(mode: Mode, funcName: string, pendingKey: Option<string>, jsonStarted: bool,
                         toolId: int, streamed: seq<string>)

  const START := State(Outside, "", None, false, -1, [])

  /** Reset the per-call fields. */
  function ResetCall(s: State): State {
    s.(funcName := "", pendingKey := None, jsonStarted := false)
  }

  predicate PartialTag(b: string) {
    IsPartial(CALL, b) || IsPartial(CALL_END, b) || IsPartial(KEY, b)
    || IsPartial(KEY_END, b) || IsPartial(VALUE, b) || IsPartial(VALUE_END, b)
  }

  /** Where the function name ends: at a newline, a key, or the end of the call. */
  function NameBoundary(b: string): int {
    Earlier(Earlier(IndexOf("\n", b), IndexOf(KEY, b)), IndexOf(CALL_END, b))
  }

  function AddTo(streamed: seq<string>, i: int, fragment: string): seq<string> {
    if 0 <= i < |streamed| then streamed[i := streamed[i] + fragment] else streamed
  }

  /** Emit a fragment of the current call's arguments. */
  function Emit(s: State, fragment: string): State {
    s.(streamed := AddTo(s.streamed, s.toolId, fragment))
  }

  function Fragment(s: State, fragment: string): seq<Event<Item>> {
    [Called(Item(s.toolId, None, fragment))]
  }

  function CloseText(s: State): string {
    if s.jsonStarted then "}" else "{}"
  }

  /** `</tool_call>` while reading a key or a value. */
  function Close(s: State): Step<State, Event<Item>> {
    Go(ResetCall(Emit(s, CloseText(s))).(mode := Outside), |CALL_END|, Fragment(s, CloseText(s)))
  }

  /** `<arg_key>` while reading a key or a value: a value that is still due is forgotten. */
  function TakeKey(s: State, b: string): Step<State, Event<Item>> {
    var end := IndexOf(KEY_END, b);
    if end == -1 then Wait
    else Go(s.(mode := ReadingValue, pendingKey := Some(Strip(Slice(b, |KEY|, end)))), end + |KEY_END|, [])
  }

  function PairText(tools: Tools, s: State, raw: string): string {
    var key := if s.pendingKey.Some? then s.pendingKey.value else "";
    tools.keyJson(key) + ": " + tools.valueJson(s.funcName, key, raw)
  }

  function TakeValue(tools: Tools, s: State, b: string): Step<State, Event<Item>> {
    var end := IndexOf(VALUE_END, b);
    if end == -1 then Wait
    else
      var pair := PairText(tools, s, Unwrap(Slice(b, |VALUE|, end)));
      var fragment := if s.jsonStarted then ", " + pair else "{" + pair;
      Go(Emit(s, fragment).(mode := ReadingKey, jsonStarted := true, pendingKey := None),
         end + |VALUE_END|, Fragment(s, fragment))
  }

  function TakeName(tools: Tools, s: State, b: string): Step<State, Event<Item>> {
    var end := NameBoundary(b);
    if end == -1 then Wait
    else
      var name := Strip(Slice(b, 0, end));
      var used := if OccursAt("\n", b, end) then end + 1 else end;
      if name != "" && name in tools.known then
        var id := s.toolId + 1;
        var streamed := if |s.streamed| <= id then s.streamed + seq(id + 1 - |s.streamed|, _ => "") else s.streamed;
        Go(s.(mode := ReadingKey, funcName := name, toolId := id, streamed := streamed), used,
           [Called(Item(id, Some(name), ""))])
      else
        Go(s.(mode := Draining), used, [])
  }

  /** One step at the front of the buffer. */
  function Advance(tools: Tools, s: State, b: string): Step<State, Event<Item>> {
    if b == "" then Wait
    else
      match s.mode
      case Outside =>
        if CALL <= b then Go(ResetCall(s).(mode := ReadingName), |CALL|, [])
        else if PartialTag(b) then Wait
        else Go(s, 1, [Text(b[0])])
      case ReadingName => TakeName(tools, s, b)
      case ReadingKey =>
        if CALL_END <= b then Close(s)
        else if KEY <= b then TakeKey(s, b)
        else if PartialTag(b) then Wait
        else Go(s, 1, [])
      case ReadingValue =>
        if CALL_END <= b then Close(s)
        else if KEY <= b then TakeKey(s, b)
        else if VALUE <= b then TakeValue(tools, s, b)
        else if PartialTag(b) then Wait
        else Go(s, 1, [])
      case Draining =>
        if CALL_END <= b then Go(s.(mode := Outside), |CALL_END|, [])
        else if IsPartial(CALL_END, b) then Wait
        else Go(s, 1, [])
  }

  function Rank(s: State): nat {
    if s.mode == ReadingName then 1 else 0
  }

  function Poolside(tools: Tools): Machine<State, Event<Item>> {
    Machine((s, b) => Advance(tools, s, b), s => Rank(s))
  }

  lemma PrefixSettled(t: string, b: string, e: string)
    requires b != "" && !IsPartial(t, b)
    ensures t <= b + e <==> t <= b
    ensures !IsPartial(t, b + e)
  {
    PrefixOfExtension(t, b, e);
  }

  lemma TagsSettled(b: string, e: string)
    requires b != "" && !PartialTag(b)
    ensures !PartialTag(b + e)
    ensures (CALL <= b + e <==> CALL <= b) && (CALL_END <= b + e <==> CALL_END <= b)
    ensures (KEY <= b + e <==> KEY <= b) && (VALUE <= b + e <==> VALUE <= b)
  {
    PrefixSettled(CALL, b, e);
    PrefixSettled(CALL_END, b, e);
    PrefixSettled(KEY, b, e);
    PrefixSettled(KEY_END, b, e);
    PrefixSettled(VALUE, b, e);
    PrefixSettled(VALUE_END, b, e);
  }

  lemma SliceSettled(b: string, e: string, i: nat, j: nat)
    requires j <= |b|
    ensures Slice(b + e, i, j) == Slice(b, i, j)
  {
  }

  /** Every boundary of a name opens with one of these, which none of them holds further in. */
  const OPENERS := {'\n', '<'}

  lemma BoundariesInert()
    ensures Inert("\n", OPENERS) && Inert(KEY, OPENERS) && Inert(CALL_END, OPENERS)
  {
  }

  lemma BoundaryOpens(b: string)
    requires NameBoundary(b) != -1
    ensures 0 <= NameBoundary(b) < |b| && b[NameBoundary(b)] in OPENERS
  {
    var n := NameBoundary(b);
    assert OccursAt("\n", b, n) || OccursAt(KEY, b, n) || OccursAt(CALL_END, b, n);
    assert OccursAt(KEY, b, n) ==> b[n..n + |KEY|][0] == '<';
    assert OccursAt(CALL_END, b, n) ==> b[n..n + |CALL_END|][0] == '<';
    assert OccursAt("\n", b, n) ==> b[n..n + 1][0] == '\n';
  }

  /** One of the three that end a name stands there. */
  predicate EndsNameAt(b: string, i: int) {
    OccursAt("\n", b, i) || OccursAt(KEY, b, i) || OccursAt(CALL_END, b, i)
  }

  /** The boundary is the first place where a newline, a key, or the end of the call stands; there is
      none exactly when none of them occurs. */
  lemma NameBoundaryExact(b: string)
    ensures NameBoundary(b) == -1 <==> forall i :: !EndsNameAt(b, i)
    ensures NameBoundary(b) != -1 ==>
              EndsNameAt(b, NameBoundary(b)) && forall i :: EndsNameAt(b, i) ==> NameBoundary(b) <= i
  {
    hide OccursAt;
    FirstPlace("\n", b);
    FirstPlace(KEY, b);
    FirstPlace(CALL_END, b);
    assert NameBoundary(b) != -1 ==> EndsNameAt(b, NameBoundary(b));
    forall i | EndsNameAt(b, i) ensures 0 <= NameBoundary(b) <= i {
    }
  }

  lemma FirstPlace(t: string, b: string)
    ensures var n := IndexOf(t, b);
            (n == -1 || (n >= 0 && OccursAt(t, b, n))) && forall i :: OccursAt(t, b, i) ==> 0 <= n <= i
  {
    forall i | OccursAt(t, b, i) ensures 0 <= IndexOf(t, b) <= i {
      FoundFirst(t, b, i);
    }
  }

  lemma NameBoundaryExtends(b: string, e: string)
    requires NameBoundary(b) != -1
    ensures NameBoundary(b + e) == NameBoundary(b)
    ensures OccursAt("\n", b + e, NameBoundary(b)) <==> OccursAt("\n", b, NameBoundary(b))
  {
    hide OccursAt, Inert;
    var n := NameBoundary(b);
    BoundaryOpens(b);
    BoundariesInert();
    LateBoundary("\n", b, e, n, OPENERS);
    LateBoundary(KEY, b, e, n, OPENERS);
    LateBoundary(CALL_END, b, e, n, OPENERS);
    NewlineSettled(b, e, n);
  }

  lemma NewlineSettled(b: string, e: string, n: nat)
    requires n < |b|
    ensures OccursAt("\n", b + e, n) <==> OccursAt("\n", b, n)
  {
    assert (b + e)[n..n + 1] == b[n..n + 1];
  }

  /** No tag is a prefix of another, so a whole tag is not a partial one. */
  lemma TagNotPartial(b: string)
    requires CALL <= b || CALL_END <= b || KEY <= b || VALUE <= b
    ensures !PartialTag(b)
  {
    assert CALL <= b ==> b[1] == 't' && |b| >= |CALL|;
    assert CALL_END <= b ==> b[1] == '/' && b[2] == 't' && |b| >= |CALL_END|;
    assert KEY <= b ==> b[1] == 'a' && b[5] == 'k' && |b| >= |KEY|;
    assert VALUE <= b ==> b[1] == 'a' && b[5] == 'v' && |b| >= |VALUE|;
    assert b[1] == 't' ==> !(b <= KEY) && !(b <= VALUE) && !(b <= CALL_END) && !(b <= KEY_END) && !(b <= VALUE_END);
    assert b[1] == 'a' && |b| > 5 && b[5] == 'k' ==> !(b <= VALUE);
    assert b[1] == 'a' && |b| > 5 && b[5] == 'v' ==> !(b <= KEY);
    assert b[1] == 'a' ==> !(b <= CALL) && !(b <= CALL_END) && !(b <= KEY_END) && !(b <= VALUE_END);
    assert b[1] == '/' && b[2] == 't' ==>
             !(b <= CALL) && !(b <= KEY) && !(b <= VALUE) && !(b <= KEY_END) && !(b <= VALUE_END);
  }

  /** Unless the buffer may grow into a tag, added text changes nothing about which tag starts it. */
  lemma StartSettled(b: string, e: string)
    requires b != "" && (!PartialTag(b) || CALL <= b || CALL_END <= b || KEY <= b || VALUE <= b)
    ensures !PartialTag(b) && !PartialTag(b + e)
    ensures (CALL <= b + e <==> CALL <= b) && (CALL_END <= b + e <==> CALL_END <= b)
    ensures (KEY <= b + e <==> KEY <= b) && (VALUE <= b + e <==> VALUE <= b)
  {
    hide PartialTag;
    if PartialTag(b) {
      TagNotPartial(b);
    }
    TagsSettled(b, e);
  }

  lemma TakeKeyStable(s: State, b: string, e: string)
    requires TakeKey(s, b).Go?
    ensures TakeKey(s, b + e) == TakeKey(s, b)
  {
    hide Strip;
    IndexOfExtends(KEY_END, b, e);
    SliceSettled(b, e, |KEY|, IndexOf(KEY_END, b));
  }

  lemma TakeValueStable(tools: Tools, s: State, b: string, e: string)
    requires TakeValue(tools, s, b).Go?
    ensures TakeValue(tools, s, b + e) == TakeValue(tools, s, b)
  {
    hide PairText, Emit, Unwrap;
    IndexOfExtends(VALUE_END, b, e);
    SliceSettled(b, e, |VALUE|, IndexOf(VALUE_END, b));
  }

  lemma TakeNameStable(tools: Tools, s: State, b: string, e: string)
    requires TakeName(tools, s, b).Go?
    ensures TakeName(tools, s, b + e) == TakeName(tools, s, b)
  {
    hide Strip, NameBoundary, OccursAt;
    NameBoundaryExtends(b, e);
    BoundaryOpens(b);
    SliceSettled(b, e, 0, NameBoundary(b));
  }

  lemma AdvanceStable(tools: Tools, s: State, b: string, e: string)
    requires Advance(tools, s, b).Go?
    ensures Advance(tools, s, b + e) == Advance(tools, s, b)
  {
    hide PartialTag, TakeKey, TakeValue, TakeName, Close, IsPartial;
    assert (b + e)[0] == b[0];
    match s.mode
    case Outside =>
      StartSettled(b, e);
    case ReadingName =>
      TakeNameStable(tools, s, b, e);
    case ReadingKey =>
      StartSettled(b, e);
      if KEY <= b && !(CALL_END <= b) {
        TakeKeyStable(s, b, e);
      }
    case ReadingValue =>
      StartSettled(b, e);
      if KEY <= b && !(CALL_END <= b) {
        TakeKeyStable(s, b, e);
      } else if VALUE <= b && !(CALL_END <= b) {
        TakeValueStable(tools, s, b, e);
      }
    case Draining =>
      if !(CALL_END <= b) {
        PrefixSettled(CALL_END, b, e);
      }
  }

  lemma PoolsideStable(tools: Tools)
    ensures Stable(Poolside(tools))
  {
    var m := Poolside(tools);
    forall s, b, e | Advances(m, s, b) ensures m.step(s, b + e) == m.step(s, b) {
      AdvanceStable(tools, s, b, e);
    }
  }

  /** Poolside streaming does not depend on how a text is cut, well-formed or not. */
  lemma PoolsideChunkInvariance(tools: Tools, s: State, b: string, xs: seq<string>, ys: seq<string>)
    requires Concat(xs) == Concat(ys)
    ensures Feed(Poolside(tools), s, b, xs) == Feed(Poolside(tools), s, b, ys)
  {
    PoolsideStable(tools);
    ChunkInvariance(Poolside(tools), s, b, xs, ys);
  }
}

/** The Poolside wire text of a reply, and what the streaming detector makes of it. */
module PoolsideWire {
  import opened Strings
  import opened Events
  import opened Streaming
  import opened ArgTags
  import opened PoolsideSpec

  /** A call as written: its name, what stands before its arguments, the arguments, and the normal text
      after the call. */
  datatype WireCall = WireCall(name: string, lead: string, args: seq<Arg>, trail: string)

  function BodyText(c: WireCall): string {
    c.name + (c.lead + ArgsText(c.args))
  }

  function CallText(c: WireCall): string {
    CALL + (BodyText(c) + (CALL_END + c.trail))
  }

  function ReplyText(calls: seq<WireCall>): string {
    if calls == [] then "" else CallText(calls[0]) + ReplyText(calls[1..])
  }

  /** The name ends at a newline, or else right at the first key or at the end of the call. */
  ghost predicate CallRight(c: WireCall) {
    && '<' !in c.name && '\n' !in c.name && '<' !in c.lead && (c.lead == "" || c.lead[0] == '\n')
    && (forall a :: a in c.args ==> ArgRight(a))
    && !Occurs(CALL, c.trail)
  }

  /** The name of a call as the detectors take it. */
  function NameOf(c: WireCall): string {
    Strip(c.name)
  }

  predicate Known(tools: Tools, c: WireCall) {
    NameOf(c) != "" && NameOf(c) in tools.known
  }

  /** A call that is read as one: the end tag of a call may stand in a value where the tool is known, but
      a call that is passed over ends at the first. */
  ghost predicate Streams(tools: Tools, c: WireCall) {
    CallRight(c) && (Known(tools, c) || !Occurs(CALL_END, BodyText(c)))
  }

  /** `"key": value` for an argument. */
  function PairOf(tools: Tools, f: string, a: Arg): string {
    tools.keyJson(Strip(a.key)) + ": " + tools.valueJson(f, Strip(a.key), Unwrap(a.raw))
  }

  /** The fragments that arguments are emitted as, with the one that closes the object. */
  function FragmentsFor(tools: Tools, f: string, started: bool, args: seq<Arg>): seq<string>
    decreases args
  {
    if args == [] then [if started then "}" else "{}"]
    else [(if started then ", " else "{") + PairOf(tools, f, args[0])] + FragmentsFor(tools, f, true, args[1..])
  }

  function FragmentEvents(id: int, fragments: seq<string>): seq<Event<Item>> {
    if fragments == [] then [] else [Called(Item(id, None, fragments[0]))] + FragmentEvents(id, fragments[1..])
  }

  lemma RunGo(tools: Tools, s: State, b: string, rest: string)
    requires Advances(Poolside(tools), s, b) && b[Advance(tools, s, b).used..] == rest
    ensures Run(Poolside(tools), s, b)
         == After(Advance(tools, s, b).events, Run(Poolside(tools), Advance(tools, s, b).next, rest))
  {
  }

  /** Inside a call, text without `<` is passed over. */
  lemma {:induction false} RunFiller(tools: Tools, s: State, g: string, rest: string)
    requires (s.mode == ReadingKey || s.mode == ReadingValue) && '<' !in g
    ensures Run(Poolside(tools), s, g + rest) == Run(Poolside(tools), s, rest)
    decreases |g|
  {
    hide Run, Close, TakeKey, TakeValue;
    if g == "" {
      assert g + rest == rest;
    } else {
      var b := g + rest;
      assert b[0] == g[0] != '<' && b[1..] == g[1..] + rest;
      RunGo(tools, s, b, b[1..]);
      RunFiller(tools, s, g[1..], rest);
      AfterNothing(Run(Poolside(tools), s, rest));
    }
  }

  /** The state after an argument's fragment. */
  function Emitted(s: State, fragment: string): State {
    Emit(s, fragment).(mode := ReadingKey, jsonStarted := true, pendingKey := None)
  }

  lemma RunKey(tools: Tools, s: State, key: string, rest: string)
    requires s.mode == ReadingKey && '<' !in key
    ensures Run(Poolside(tools), s, KEY + key + (KEY_END + rest))
         == After([], Run(Poolside(tools), s.(mode := ReadingValue, pendingKey := Some(Strip(key))), rest))
  {
    hide Run, IndexOf, PartialTag, Strip, Occurs, OpensOnce;
    var b := KEY + key + (KEY_END + rest);
    NoFirstNoTag(KEY_END, key);
    TagsInert();
    NotInFront(KEY_END, KEY, key, 1);
    IndexAfter(KEY_END, KEY + key, rest);
    assert Slice(b, |KEY|, |KEY + key|) == key;
    assert b[1] == KEY[1];
    RunGo(tools, s, b, rest);
  }

  function ValueFragment(tools: Tools, s: State, raw: string): string {
    (if s.jsonStarted then ", " else "{") + PairText(tools, s, Unwrap(raw))
  }

  lemma TakesValue(tools: Tools, s: State, raw: string, rest: string)
    requires !Occurs(VALUE_END, raw)
    ensures var f := ValueFragment(tools, s, raw);
            TakeValue(tools, s, VALUE + raw + (VALUE_END + rest)) ==
            Go(Emitted(s, f), |VALUE + raw| + |VALUE_END|, Fragment(s, f))
  {
    hide IndexOf, PairText, Unwrap, Emit, Occurs, OpensOnce;
    var b := VALUE + raw + (VALUE_END + rest);
    TagsInert();
    NotInFront(VALUE_END, VALUE, raw, 1);
    IndexAfter(VALUE_END, VALUE + raw, rest);
    assert Slice(b, |VALUE|, |VALUE + raw|) == raw;
  }

  lemma RunValue(tools: Tools, s: State, raw: string, rest: string)
    requires s.mode == ReadingValue && !Occurs(VALUE_END, raw)
    ensures var f := ValueFragment(tools, s, raw);
            Run(Poolside(tools), s, VALUE + raw + (VALUE_END + rest)) ==
            After(Fragment(s, f), Run(Poolside(tools), Emitted(s, f), rest))
  {
    hide Run, PartialTag, TakeValue, Emit, ValueFragment;
    var b := VALUE + raw + (VALUE_END + rest);
    TakesValue(tools, s, raw, rest);
    assert b[1] == VALUE[1] && b[5] == VALUE[5];
    RunGo(tools, s, b, rest);
  }

  lemma RunArg(tools: Tools, s: State, a: Arg, tail: string)
    requires s.mode == ReadingKey && ArgRight(a)
    ensures var f := (if s.jsonStarted then ", " else "{") + PairOf(tools, s.funcName, a);
            Run(Poolside(tools), s, ArgText(a) + tail) ==
            After(Fragment(s, f), Run(Poolside(tools), Emitted(s, f), tail))
  {
    hide Run, Emit, Strip, Unwrap, Occurs, After;
    var t := s.(mode := ReadingValue, pendingKey := Some(Strip(a.key)));
    var f := ValueFragment(tools, t, a.raw);
    var behindValue := VALUE_END + (a.after + tail);
    var behindKey := a.gap + (VALUE + a.raw + behindValue);
    assert ArgText(a) + tail == KEY + a.key + (KEY_END + behindKey);
    RunKey(tools, s, a.key, behindKey);
    RunFiller(tools, t, a.gap, VALUE + a.raw + behindValue);
    RunValue(tools, t, a.raw, a.after + tail);
    RunFiller(tools, Emitted(t, f), a.after, tail);
    EmitAnywhere(s, t, f);
    AfterNothing(After(Fragment(s, f), Run(Poolside(tools), Emitted(s, f), tail)));
  }

  lemma EmitAnywhere(s: State, t: State, f: string)
    requires t == s.(mode := t.mode, pendingKey := t.pendingKey)
    ensures Emitted(t, f) == Emitted(s, f)
  {
  }

  lemma EmitTwice(s: State, f: string, g: string)
    ensures ResetCall(Emit(Emitted(s, f), g)).(mode := Outside) == ResetCall(Emit(s, f + g)).(mode := Outside)
  {
    if 0 <= s.toolId < |s.streamed| {
      assert s.streamed[s.toolId] + f + g == s.streamed[s.toolId] + (f + g);
    }
  }

  lemma OneFragment(s: State, f: string)
    ensures FragmentEvents(s.toolId, [f]) == Fragment(s, f) && Concat([f]) == f
  {
    assert [f][1..] == [];
    assert f + "" == f;
  }

  lemma MoreFragments(s: State, f: string, later: seq<string>)
    ensures FragmentEvents(s.toolId, [f] + later) == Fragment(s, f) + FragmentEvents(s.toolId, later)
    ensures Concat([f] + later) == f + Concat(later)
  {
    assert ([f] + later)[1..] == later;
  }

  lemma RunClose(tools: Tools, s: State, rest: string)
    requires s.mode == ReadingKey
    ensures Run(Poolside(tools), s, CALL_END + rest) ==
            After(Fragment(s, CloseText(s)),
                  Run(Poolside(tools), ResetCall(Emit(s, CloseText(s))).(mode := Outside), rest))
  {
    hide Run, Emit;
    RunGo(tools, s, CALL_END + rest, rest);
  }

  /** A call's arguments and its end: each argument is one fragment, and the end closes the object. */
  lemma {:induction false} RunArgs(tools: Tools, s: State, args: seq<Arg>, rest: string)
    requires s.mode == ReadingKey && forall a :: a in args ==> ArgRight(a)
    ensures var fragments := FragmentsFor(tools, s.funcName, s.jsonStarted, args);
            Run(Poolside(tools), s, ArgsText(args) + (CALL_END + rest)) ==
            After(FragmentEvents(s.toolId, fragments),
                  Run(Poolside(tools), ResetCall(Emit(s, Concat(fragments))).(mode := Outside), rest))
    decreases |args|
  {
    hide Run, AddTo, ArgText;
    if args == [] {
      assert "" + (CALL_END + rest) == CALL_END + rest;
      RunClose(tools, s, rest);
      OneFragment(s, CloseText(s));
    } else {
      var a := args[0];
      assert a in args && forall x :: x in args[1..] ==> x in args;
      var f := (if s.jsonStarted then ", " else "{") + PairOf(tools, s.funcName, a);
      var tail := ArgsText(args[1..]) + (CALL_END + rest);
      assert ArgsText(args) + (CALL_END + rest) == ArgText(a) + tail;
      RunArg(tools, s, a, tail);
      RunArgs(tools, Emitted(s, f), args[1..], rest);
      var later := FragmentsFor(tools, s.funcName, true, args[1..]);
      EmitTwice(s, f, Concat(later));
      MoreFragments(s, f, later);
      AfterAfter(Fragment(s, f), FragmentEvents(s.toolId, later),
                 Run(Poolside(tools), ResetCall(Emit(s, f + Concat(later))).(mode := Outside), rest));
    }
  }

  /** What a name ends at. */
  predicate EndsName(rest: string) {
    "\n" <= rest || KEY <= rest || CALL_END <= rest
  }

  lemma NameEnds(name: string, rest: string)
    requires '<' !in name && '\n' !in name && EndsName(rest)
    ensures NameBoundary(name + rest) == |name|
    ensures OccursAt("\n", name + rest, |name|) <==> "\n" <= rest
  {
    hide IndexOf, OccursAt;
    StandsOrLater("\n", name, rest);
    StandsOrLater(KEY, name, rest);
    StandsOrLater(CALL_END, name, rest);
  }

  /** A tag that does not start in the name stands right behind it, or later, or nowhere. */
  lemma StandsOrLater(t: string, name: string, rest: string)
    requires t != "" && t[0] !in name
    ensures var i := IndexOf(t, name + rest); i == -1 || i >= |name|
    ensures t <= rest <==> IndexOf(t, name + rest) == |name|
    ensures OccursAt(t, name + rest, |name|) <==> t <= rest
  {
    hide IndexOf;
    var b := name + rest;
    var i := IndexOf(t, b);
    if i != -1 && i < |name| {
      CharWithin(t, b, i, i);
    }
    if t <= rest {
      assert rest == t + rest[|t|..];
      StandsBehind(t, name, rest[|t|..]);
      FoundFirst(t, b, |name|);
    }
    if OccursAt(t, b, |name|) {
      assert b[|name|..|name| + |t|] == rest[..|t|];
    }
  }

  /** Where nothing ends it, the name is all there is. */
  lemma NameUnended(name: string)
    requires '<' !in name && '\n' !in name
    ensures NameBoundary(name) == -1
  {
    hide IndexOf, Occurs;
    NoFirstNoTag("\n", name);
    NoFirstNoTag(KEY, name);
    NoFirstNoTag(CALL_END, name);
  }

  /** The state that a call's name leads to. */
  function Named(tools: Tools, s: State, c: WireCall): State {
    if Known(tools, c) then
      s.(mode := ReadingKey, funcName := NameOf(c), toolId := s.toolId + 1, streamed := s.streamed + [""])
    else s.(mode := Draining)
  }

  function NameEvents(tools: Tools, s: State, c: WireCall): seq<Event<Item>> {
    if Known(tools, c) then [Called(Item(s.toolId + 1, Some(NameOf(c)), ""))] else []
  }

  lemma RunName(tools: Tools, s: State, c: WireCall, rest: string)
    requires s.mode == ReadingName && '<' !in c.name && '\n' !in c.name && |s.streamed| == s.toolId + 1
    requires EndsName(rest)
    ensures Run(Poolside(tools), s, c.name + rest) ==
            After(NameEvents(tools, s, c), Run(Poolside(tools), Named(tools, s, c), BehindName(rest)))
  {
    hide Run, NameBoundary, Strip;
    var b := c.name + rest;
    NameEnds(c.name, rest);
    assert Slice(b, 0, |c.name|) == c.name;
    assert seq(1, _ => "") == [""];
    RunGo(tools, s, b, BehindName(rest));
  }

  /** A newline behind the name is used up with it. */
  function BehindName(rest: string): string {
    if "\n" <= rest then rest[1..] else rest
  }

  /** Text outside calls is emitted, up to the next call. */
  lemma {:induction false} RunBetween(tools: Tools, s: State, t: string, rest: string)
    requires s.mode == Outside && !Occurs(CALL, t) && CALL <= rest && |rest| > |VALUE_END|
    ensures Run(Poolside(tools), s, t + rest) == After(Texts(t), Run(Poolside(tools), s, rest))
    decreases |t|
  {
    hide Run, Occurs, OpensOnce;
    if t == "" {
      assert t + rest == rest;
      AfterNothing(Run(Poolside(tools), s, rest));
    } else {
      var b := t + rest;
      TagsInert();
      assert rest == CALL + rest[|CALL|..];
      IndexAfter(CALL, t, rest[|CALL|..]);
      assert b == t + (CALL + rest[|CALL|..]);
      assert CALL <= b ==> OccursAt(CALL, b, 0);
      assert b[0] == t[0] && b[1..] == t[1..] + rest;
      NotInTail(CALL, t);
      RunGo(tools, s, b, t[1..] + rest);
      RunBetween(tools, s, t[1..], rest);
      AfterAfter([Text(t[0])], Texts(t[1..]), Run(Poolside(tools), s, rest));
    }
  }

  /** At the end, the text is emitted but for what is held back. */
  lemma {:induction false} RunTail(tools: Tools, s: State, t: string)
    requires s.mode == Outside && !Occurs(CALL, t)
    ensures var o := Run(Poolside(tools), s, t);
            o.state == s && TextOf(o.events) + o.rest == t && CallsOf(o.events) == []
    decreases |t|
  {
    hide Run, PartialTag, Occurs, TextOf, CallsOf;
    NotAtStart(CALL, t);
    if t != "" && !PartialTag(t) {
      NotInTail(CALL, t);
      RunTail(tools, s, t[1..]);
      RunGo(tools, s, t, t[1..]);
      var o := Run(Poolside(tools), s, t[1..]);
      OfConcat([Text(t[0])], o.events);
      OneText<Item>(t[0]);
      assert [t[0]] + TextOf(o.events) + o.rest == [t[0]] + (TextOf(o.events) + o.rest);
    } else {
      RunWait(tools, s, t);
    }
  }

  lemma RunWait(tools: Tools, s: State, b: string)
    requires Advance(tools, s, b).Wait?
    ensures var o := Run(Poolside(tools), s, b);
            o.state == s && o.rest == b && TextOf(o.events) == "" && CallsOf(o.events) == []
  {
  }

  /** A call to an unknown tool is passed over. */
  lemma {:induction false} RunDrained(tools: Tools, s: State, t: string, rest: string)
    requires s.mode == Draining && !Occurs(CALL_END, t)
    ensures Run(Poolside(tools), s, t + (CALL_END + rest)) == Run(Poolside(tools), s.(mode := Outside), rest)
    decreases |t|
  {
    hide Run;
    var b := t + (CALL_END + rest);
    if t == "" {
      assert b == CALL_END + rest && b[|CALL_END|..] == rest;
      RunGo(tools, s, b, rest);
      AfterNothing(Run(Poolside(tools), s.(mode := Outside), rest));
    } else {
      TagsInert();
      IndexAfter(CALL_END, t, rest);
      assert CALL_END <= b ==> OccursAt(CALL_END, b, 0);
      assert b[1..] == t[1..] + (CALL_END + rest);
      NotInTail(CALL_END, t);
      RunGo(tools, s, b, b[1..]);
      RunDrained(tools, s, t[1..], rest);
      AfterNothing(Run(Poolside(tools), s, b[1..]));
    }
  }

  /** What a call adds to the record and to the events. */
  function FragmentsOfCall(tools: Tools, c: WireCall): seq<string> {
    FragmentsFor(tools, NameOf(c), false, c.args)
  }

  function CallEvents(tools: Tools, id: int, c: WireCall): seq<Event<Item>> {
    if Known(tools, c) then
      [Called(Item(id, Some(NameOf(c)), ""))] + FragmentEvents(id, FragmentsOfCall(tools, c))
    else []
  }

  function CallRecord(tools: Tools, c: WireCall): seq<string> {
    if Known(tools, c) then [Concat(FragmentsOfCall(tools, c))] else []
  }

  predicate Between(s: State) {
    s.mode == Outside && |s.streamed| == s.toolId + 1
  }

  /** The state after a whole call. */
  function Past(tools: Tools, s: State, c: WireCall): State {
    var record := CallRecord(tools, c);
    ResetCall(s).(toolId := s.toolId + |record|, streamed := s.streamed + record)
  }

  /** Past the name, a call is either read argument by argument or passed over. */
  lemma RunBody(tools: Tools, s: State, c: WireCall, rest: string)
    requires s == ResetCall(s) && s.mode == ReadingName && |s.streamed| == s.toolId + 1 && Streams(tools, c)
    ensures Run(Poolside(tools), s, BodyText(c) + (CALL_END + rest)) ==
            After(CallEvents(tools, s.toolId + 1, c), Run(Poolside(tools), Past(tools, s, c).(mode := Outside), rest))
  {
    hide Run, After, Strip, ArgRight, Occurs, CallEvents, Past, ArgsText;
    var lead := if c.lead == "" then "" else c.lead[1..];
    var end := CALL_END + rest;
    assert BodyText(c) + end == c.name + (c.lead + ArgsText(c.args) + end);
    LeadBehindName(c, end);
    RunName(tools, s, c, c.lead + ArgsText(c.args) + end);
    if Known(tools, c) {
      RunKnown(tools, s, c, lead, rest);
    } else {
      RunUnknown(tools, s, c, lead, rest);
    }
  }

  lemma RunKnown(tools: Tools, s: State, c: WireCall, lead: string, rest: string)
    requires s == ResetCall(s) && s.mode == ReadingName && |s.streamed| == s.toolId + 1 && Known(tools, c)
    requires CallRight(c) && lead == if c.lead == "" then "" else c.lead[1..]
    ensures After(NameEvents(tools, s, c),
            Run(Poolside(tools), Named(tools, s, c), lead + ArgsText(c.args) + (CALL_END + rest))) ==
            After(CallEvents(tools, s.toolId + 1, c), Run(Poolside(tools), Past(tools, s, c).(mode := Outside), rest))
  {
    hide Run, After, Strip, ArgRight, Occurs, ArgsText;
    var t, end := Named(tools, s, c), CALL_END + rest;
    Assoc(lead, ArgsText(c.args), end);
    RunFiller(tools, t, lead, ArgsText(c.args) + end);
    RunArgs(tools, t, c.args, rest);
    RecordOfCall(tools, s, c);
    AfterAfter(NameEvents(tools, s, c), FragmentEvents(s.toolId + 1, FragmentsOfCall(tools, c)),
               Run(Poolside(tools), Past(tools, s, c).(mode := Outside), rest));
  }

  /** A call to an unknown tool is passed over. */
  lemma RunUnknown(tools: Tools, s: State, c: WireCall, lead: string, rest: string)
    requires s == ResetCall(s) && s.mode == ReadingName && !Known(tools, c) && Streams(tools, c)
    requires lead == if c.lead == "" then "" else c.lead[1..]
    ensures After(NameEvents(tools, s, c),
            Run(Poolside(tools), Named(tools, s, c), lead + ArgsText(c.args) + (CALL_END + rest))) ==
            After(CallEvents(tools, s.toolId + 1, c), Run(Poolside(tools), Past(tools, s, c).(mode := Outside), rest))
  {
    hide Run, After, Strip, ArgRight, Occurs, ArgsText;
    var inside := lead + ArgsText(c.args);
    var n := |BodyText(c)| - |inside|;
    NotInPart(CALL_END, BodyText(c), n, |BodyText(c)|);
    assert BodyText(c)[n..|BodyText(c)|] == inside;
    RunDrained(tools, Named(tools, s, c), inside, rest);
    assert s.streamed + [] == s.streamed;
  }

  lemma LeadBehindName(c: WireCall, end: string)
    requires CallRight(c) && CALL_END <= end
    ensures var rest := c.lead + ArgsText(c.args) + end;
            && EndsName(rest)
            && BehindName(rest) == (if c.lead == "" then "" else c.lead[1..]) + ArgsText(c.args) + end
  {
    hide ArgsText, Occurs, EndsName, BehindName;
    var args := ArgsText(c.args);
    if c.lead != "" {
      NewlineInFront(c.lead, args, end);
    } else {
      assert c.lead + args + end == "" + args + end == args + end;
      if c.args == [] {
        NoArgsText();
        assert args + end == end;
      } else {
        ArgsStart(c.args);
        assert KEY <= args + end;
      }
      TagInFront(args + end);
    }
  }

  lemma NoArgsText()
    ensures ArgsText([]) == ""
  {
  }

  lemma NewlineInFront(lead: string, args: string, end: string)
    requires lead != "" && lead[0] == '\n'
    ensures EndsName(lead + args + end) && BehindName(lead + args + end) == lead[1..] + args + end
  {
    var rest := lead + args + end;
    assert rest[..1] == "\n" && rest[1..] == lead[1..] + args + end;
  }

  lemma TagInFront(rest: string)
    requires KEY <= rest || CALL_END <= rest
    ensures EndsName(rest) && BehindName(rest) == rest
  {
    assert rest[0] == '<';
  }

  lemma ArgsStart(args: seq<Arg>)
    requires args != []
    ensures KEY <= ArgsText(args)
  {
    var a := args[0];
    assert ArgText(a)[..|KEY|] == KEY;
    assert ArgsText(args)[..|KEY|] == ArgText(a)[..|KEY|];
  }

  lemma RecordOfCall(tools: Tools, s: State, c: WireCall)
    requires |s.streamed| == s.toolId + 1 && Known(tools, c) && s == ResetCall(s)
    ensures ResetCall(Emit(Named(tools, s, c), Concat(FragmentsOfCall(tools, c)))).(mode := Outside)
         == Past(tools, s, c).(mode := Outside)
  {
    hide FragmentsOfCall, Strip, Concat;
    var record := Concat(FragmentsOfCall(tools, c));
    assert "" + record == record;
    assert (s.streamed + [""])[s.toolId + 1 := record] == s.streamed + [record];
  }

  /** The whole of a call. */
  lemma RunCall(tools: Tools, s: State, c: WireCall, rest: string)
    requires Between(s) && Streams(tools, c)
    ensures Run(Poolside(tools), s, CallText(c) + rest) ==
            After(CallEvents(tools, s.toolId + 1, c), Run(Poolside(tools), Past(tools, s, c), c.trail + rest))
  {
    hide Run, After, CallEvents, CallRecord, BodyText;
    var inside := BodyText(c) + (CALL_END + (c.trail + rest));
    assert CallText(c) + rest == CALL + inside;
    RunGo(tools, s, CALL + inside, inside);
    var t := ResetCall(s).(mode := ReadingName);
    RunBody(tools, t, c, c.trail + rest);
    assert Past(tools, t, c).(mode := Outside) == Past(tools, s, c);
    AfterNothing(After(CallEvents(tools, s.toolId + 1, c), Run(Poolside(tools), Past(tools, s, c), c.trail + rest)));
  }

  /** All the text outside calls. */
  function OutsideText(calls: seq<WireCall>): string {
    if calls == [] then "" else calls[0].trail + OutsideText(calls[1..])
  }

  function Records(tools: Tools, calls: seq<WireCall>): seq<string> {
    if calls == [] then [] else CallRecord(tools, calls[0]) + Records(tools, calls[1..])
  }

  function ReplyItems(tools: Tools, id: int, calls: seq<WireCall>): seq<Item>
    decreases |calls|
  {
    if calls == [] then []
    else CallsOf(CallEvents(tools, id, calls[0]))
         + ReplyItems(tools, id + |CallRecord(tools, calls[0])|, calls[1..])
  }

  lemma {:induction false} FragmentsAreCalls(id: int, fragments: seq<string>)
    ensures TextOf(FragmentEvents(id, fragments)) == ""
  {
    if fragments != [] {
      var more := FragmentEvents(id, fragments[1..]);
      assert ([Called(Item(id, None, fragments[0]))] + more)[1..] == more;
      FragmentsAreCalls(id, fragments[1..]);
    }
  }

  lemma CallHasNoText(tools: Tools, id: int, c: WireCall)
    ensures TextOf(CallEvents(tools, id, c)) == ""
  {
    if Known(tools, c) {
      var more := FragmentEvents(id, FragmentsOfCall(tools, c));
      FragmentsAreCalls(id, FragmentsOfCall(tools, c));
      assert CallEvents(tools, id, c)[1..] == more;
    }
  }

  /** The text before a call, and the call. */
  lemma RunUpTo(tools: Tools, s: State, before: string, c: WireCall, more: string)
    requires Between(s) && !Occurs(CALL, before) && Streams(tools, c)
    ensures Run(Poolside(tools), s, before + (CallText(c) + more)) ==
            After(Texts(before) + CallEvents(tools, s.toolId + 1, c),
              Run(Poolside(tools), Past(tools, s, c), c.trail + more))
  {
    hide Run, After, CallEvents, Past, CallText, CallRight, Occurs;
    CallIsLong(c, more);
    RunBetween(tools, s, before, CallText(c) + more);
    RunCall(tools, s, c, more);
    AfterAfter(Texts(before), CallEvents(tools, s.toolId + 1, c),
      Run(Poolside(tools), Past(tools, s, c), c.trail + more));
  }

  /** What a run over a reply comes to. */
  ghost predicate Replied(tools: Tools, s: State, before: string, calls: seq<WireCall>,
                          o: Outcome<State, Event<Item>>) {
    && Between(o.state) && o.state.streamed == s.streamed + Records(tools, calls)
    && TextOf(o.events) + o.rest == before + OutsideText(calls)
    && CallsOf(o.events) == ReplyItems(tools, s.toolId + 1, calls)
  }

  lemma RepliedMore(tools: Tools, s: State, before: string, calls: seq<WireCall>, o: Outcome<State, Event<Item>>)
    requires Between(s) && calls != [] && Replied(tools, Past(tools, s, calls[0]), calls[0].trail, calls[1..], o)
    ensures Replied(tools, s, before, calls, After(Texts(before) + CallEvents(tools, s.toolId + 1, calls[0]), o))
  {
    hide CallEvents, CallRecord, TextOf, CallsOf, Texts, Past;
    var c := calls[0];
    var events := CallEvents(tools, s.toolId + 1, c);
    PastIsBetween(tools, s, c);
    CallHasNoText(tools, s.toolId + 1, c);
    TextAndCall(before, events, o.events);
    assert (Texts(before) + events) + o.events == Texts(before) + (events + o.events);
    CallFirst(before, TextOf(o.events), o.rest, c.trail, OutsideText(calls[1..]));
    assert s.streamed + CallRecord(tools, c) + Records(tools, calls[1..]) == s.streamed + Records(tools, calls);
  }

  /** A whole reply, from the text before its first call: the text outside calls comes out as normal
      text but for what is held back at the very end, and each call of a known tool as one name and
      the fragments of its arguments. */
  lemma {:induction false} RunReply(tools: Tools, s: State, before: string, calls: seq<WireCall>)
    requires Between(s) && !Occurs(CALL, before) && forall c :: c in calls ==> Streams(tools, c)
    ensures Replied(tools, s, before, calls, Run(Poolside(tools), s, before + ReplyText(calls)))
    decreases |calls|
  {
    hide Run, After, Past, CallText, CallRight, CallEvents, Known, Occurs, TextOf, CallsOf, Replied;
    if calls == [] {
      RepliedTail(tools, s, before);
    } else {
      var c, more := calls[0], ReplyText(calls[1..]);
      assert c in calls && forall x :: x in calls[1..] ==> x in calls;
      CallIsLong(c, more);
      RunUpTo(tools, s, before, c, more);
      PastIsBetween(tools, s, c);
      RunReply(tools, Past(tools, s, c), c.trail, calls[1..]);
      RepliedMore(tools, s, before, calls, Run(Poolside(tools), Past(tools, s, c), c.trail + more));
    }
  }

  lemma RepliedTail(tools: Tools, s: State, before: string)
    requires Between(s) && !Occurs(CALL, before)
    ensures Replied(tools, s, before, [], Run(Poolside(tools), s, before + ReplyText([])))
  {
    hide Run, Occurs, TextOf, CallsOf;
    assert before + "" == before && s.streamed + [] == s.streamed;
    RunTail(tools, s, before);
  }

  lemma CallFirst(before: string, text: string, rest: string, trail: string, outside: string)
    requires text + rest == trail + outside
    ensures before + text + rest == before + (trail + outside)
  {
  }

  lemma CallIsLong(c: WireCall, more: string)
    requires CallRight(c)
    ensures CALL <= CallText(c) + more && |CallText(c) + more| > |VALUE_END| && !Occurs(CALL, c.trail)
  {
  }

  lemma PastIsBetween(tools: Tools, s: State, c: WireCall)
    requires Between(s)
    ensures Between(Past(tools, s, c)) && Past(tools, s, c).streamed == s.streamed + CallRecord(tools, c)
    ensures Past(tools, s, c).toolId == s.toolId + |CallRecord(tools, c)|
  {
  }
}

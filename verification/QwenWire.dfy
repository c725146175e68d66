/** Qwen3-Coder replies as written, and what streaming makes of them. */
module QwenWire {
  import opened Strings
  import opened Dictionaries
  import opened Events
  import opened Streaming
  import opened Cursors
  import opened ArgTags
  import opened QwenStream

  /** A parameter: its name, the text of its value, whether its own tag closes it, and what stands
      behind that tag. One without is ended by the tag that comes next. */
  datatype Param = Param(key: string, raw: string, closed: bool, gap: string)

  /** A call: what stands in front of its function, the function's name, what follows it, the
      parameters, what stands behind the function, and the normal text after the call. */
  datatype WireCall =
    WireCall(lead: string, name: string, gap: string, params: seq<Param>, after: string, trail: string)

  function EndText(p: Param): string {
    if p.closed then PARAMETER_END + p.gap else ""
  }

  function ParamText(p: Param): string {
    PARAMETER + (p.key + (">" + (p.raw + EndText(p))))
  }

  function ParamsText(params: seq<Param>): string {
    if params == [] then "" else ParamText(params[0]) + ParamsText(params[1..])
  }

  /** What stands between a function's tags, its name in front. */
  function BodyText(c: WireCall): string {
    c.name + (">" + (c.gap + ParamsText(c.params)))
  }

  function InsideText(c: WireCall): string {
    c.lead + (FUNCTION + (BodyText(c) + (FUNCTION_END + c.after)))
  }

  function CallText(c: WireCall): string {
    CALL + (InsideText(c) + (CALL_END + c.trail))
  }

  function ReplyText(calls: seq<WireCall>): string {
    if calls == [] then "" else CallText(calls[0]) + ReplyText(calls[1..])
  }

  ghost predicate ParamRight(p: Param) {
    && '>' !in p.key && '<' !in p.gap
    && !Occurs(PARAMETER_END, p.raw) && !Occurs(PARAMETER, p.raw) && !Occurs(FUNCTION_END, p.raw)
  }

  ghost predicate ParamsRight(params: seq<Param>) {
    forall p :: p in params ==> ParamRight(p)
  }

  /** Normal text: it holds no tag that the parser acts on. */
  ghost predicate TextRight(t: string) {
    && !Occurs(CALL, t) && !Occurs(CALL_END, t)
    && !Occurs(FUNCTION, t) && !Occurs(FUNCTION_END, t) && !Occurs(PARAMETER, t)
  }

  ghost predicate CallRight(c: WireCall) {
    && '<' !in c.lead && '>' !in c.name && '<' !in c.gap && '<' !in c.after
    && ParamsRight(c.params) && TextRight(c.trail)
  }

  lemma TagsOpenOnce()
    ensures OpensOnce(FUNCTION) && OpensOnce(FUNCTION_END) && OpensOnce(PARAMETER) && OpensOnce(PARAMETER_END)
    ensures OpensOnce(CALL) && OpensOnce(CALL_END) && OpensOnce(">")
  {
  }

  /** A value's text ends at the first tag that ends it. */
  lemma RawEnds(raw: string, tag: string, rest: string)
    requires !Occurs(PARAMETER_END, raw) && !Occurs(PARAMETER, raw) && !Occurs(FUNCTION_END, raw)
    requires tag in {PARAMETER_END, PARAMETER, FUNCTION_END}
    ensures ParameterEnd(raw + (tag + rest)) == |raw|
    ensures IndexOf(PARAMETER_END, raw + (tag + rest)) == |raw| <==> tag == PARAMETER_END
  {
    hide IndexOf, Occurs, OpensOnce;
    TagsOpenOnce();
    NoneAcross(PARAMETER_END, raw, tag + rest);
    NoneAcross(PARAMETER, raw, tag + rest);
    NoneAcross(FUNCTION_END, raw, tag + rest);
    IndexAfter(tag, raw, rest);
    EndsApart(raw + (tag + rest));
  }

  lemma AngleEnds(front: string, name: string, rest: string)
    requires '>' !in front && '>' !in name
    ensures var b, n := front + (name + (">" + rest)), |front| + |name|;
            IndexOf(">", b) == n && b[|front|..n] == name && b[n + 1..] == rest
  {
    hide IndexOf, Occurs, OpensOnce;
    TagsOpenOnce();
    assert front + (name + (">" + rest)) == (front + name) + (">" + rest);
    NoFirstNoTag(">", front + name);
    IndexAfter(">", front + name, rest);
  }

  /** The value of a parameter, and the fragment that it makes. */
  function PairOf(tools: Tools, f: Option<string>, p: Param): string {
    tools.keyJson(p.key) + ": " + tools.valueJson(f, p.key, Unwrap(p.raw))
  }

  function FragmentsOf(tools: Tools, s: State, p: Param): seq<string> {
    var pair := PairOf(tools, s.funcName, p);
    (if s.jsonStarted then [] else ["{"]) + [if s.paramCount > 0 then ", " + pair else pair]
  }

  function Counted(s: State): State {
    s.(jsonStarted := true, paramCount := s.paramCount + 1)
  }

  lemma RunGo(tools: Tools, s: State, b: string, t: State, rest: string, items: seq<Item>)
    requires |rest| < |b| && b[|b| - |rest|..] == rest
    requires Advance(tools, s, b) == Go(t, |b| - |rest|, Calls(items))
    ensures Run(Qwen(tools), s, b) == After(Calls(items), Run(Qwen(tools), t, rest))
  {
  }

  /** Inside a call, text without `<` is passed over. */
  lemma RunGap(tools: Tools, s: State, g: string, rest: string)
    requires s.inside && '<' !in g && rest != "" && rest[0] == '<'
    ensures Run(Qwen(tools), s, g + rest) == Run(Qwen(tools), s, rest)
  {
    hide Run, Plain, IndexOf, TakesPlain;
    PlainTaken(tools, s);
    PlainUpTo(g, rest);
    RunPlain(Qwen(tools), s, g + rest, false);
    Cut(g, rest);
    AfterNothing(Run(Qwen(tools), s, rest));
  }

  lemma PlainUpTo(g: string, rest: string)
    requires '<' !in g && rest != "" && rest[0] == '<'
    ensures Plain(g + rest) == |g|
  {
    hide IndexOf, Occurs;
    NoFirstNoTag("<", g);
    assert rest == "<" + rest[1..];
    IndexAfter("<", g, rest[1..]);
  }

  /** One parameter, up to the tag behind it. */
  lemma StepParam(tools: Tools, s: State, p: Param, tag: string, rest: string)
    requires ParamRight(p) && tag in {PARAMETER_END, PARAMETER, FUNCTION_END}
    ensures var b := PARAMETER + (p.key + (">" + (p.raw + (tag + rest))));
            Advance(tools, s, b) ==
            Go(Counted(s), |PARAMETER| + |p.key| + 1 + |p.raw| + (if tag == PARAMETER_END then |PARAMETER_END| else 0),
               Fragments(s, FragmentsOf(tools, s, p)))
  {
    hide IndexOf, Occurs, ParameterEnd, Unwrap, Fragments;
    var value := p.raw + (tag + rest);
    var b := PARAMETER + (p.key + (">" + value));
    AngleEnds(PARAMETER, p.key, value);
    RawEnds(p.raw, tag, rest);
    assert Slice(value, 0, |p.raw|) == p.raw;
    assert StartsWith(PARAMETER, b);
    OnlyThisTag(PARAMETER, b);
  }

  predicate EndsParam(rest: string) {
    PARAMETER <= rest || FUNCTION_END <= rest
  }

  lemma ParamTaken(tools: Tools, s: State, p: Param, tag: string, behind: string)
    requires ParamRight(p) && tag in {PARAMETER_END, PARAMETER, FUNCTION_END}
    ensures Run(Qwen(tools), s, PARAMETER + (p.key + (">" + (p.raw + (tag + behind))))) ==
            After(Fragments(s, FragmentsOf(tools, s, p)),
                  Run(Qwen(tools), Counted(s), if tag == PARAMETER_END then behind else tag + behind))
  {
    hide Run, Advance, After, Fragments, FragmentsOf, ParamRight;
    StepParam(tools, s, p, tag, behind);
    ParamPrefix(p, tag + behind);
    var b := PARAMETER + (p.key + (">" + (p.raw + (tag + behind))));
    var front := PARAMETER + (p.key + (">" + p.raw));
    if tag == PARAMETER_END {
      Assoc(front, tag, behind);
      Cut(front + tag, behind);
      RunPieces(tools, s, b, Counted(s), behind, FragmentsOf(tools, s, p));
    } else {
      Cut(front, tag + behind);
      RunPieces(tools, s, b, Counted(s), tag + behind, FragmentsOf(tools, s, p));
    }
  }

  lemma ParamPrefix(p: Param, rest: string)
    ensures PARAMETER + (p.key + (">" + (p.raw + rest))) == PARAMETER + (p.key + (">" + p.raw)) + rest
  {
  }

  /** The whole of a parameter. */
  lemma RunParam(tools: Tools, s: State, p: Param, rest: string)
    requires s.inside && ParamRight(p) && EndsParam(rest)
    ensures Run(Qwen(tools), s, ParamText(p) + rest) ==
            After(Fragments(s, FragmentsOf(tools, s, p)), Run(Qwen(tools), Counted(s), rest))
  {
    hide Run, After, Fragments, FragmentsOf, ParamRight;
    if p.closed {
      ParamTaken(tools, s, p, PARAMETER_END, p.gap + rest);
      Assoc(PARAMETER_END, p.gap, rest);
      ParamParts(p, PARAMETER_END + p.gap, rest, PARAMETER_END + (p.gap + rest));
      RunGapBehind(tools, Counted(s), p, rest);
    } else {
      var tag := if PARAMETER <= rest then PARAMETER else FUNCTION_END;
      var behind := rest[|tag|..];
      assert rest == tag + behind == "" + rest;
      ParamTaken(tools, s, p, tag, behind);
      ParamParts(p, "", rest, rest);
    }
  }

  lemma RunGapBehind(tools: Tools, s: State, p: Param, rest: string)
    requires s.inside && ParamRight(p) && EndsParam(rest)
    ensures Run(Qwen(tools), s, p.gap + rest) == Run(Qwen(tools), s, rest)
  {
    hide Run, Occurs;
    RunGap(tools, s, p.gap, rest);
  }

  lemma ParamParts(p: Param, end: string, rest: string, all: string)
    requires end == EndText(p) && all == end + rest
    ensures ParamText(p) + rest == PARAMETER + (p.key + (">" + (p.raw + all)))
  {
  }

  /** The fragments of the parameters that are left, and of the end. */
  function FragmentsFor(tools: Tools, s: State, params: seq<Param>): seq<string>
    decreases |params|
  {
    if params == [] then (if s.jsonStarted then [] else ["{"]) + ["}"]
    else FragmentsOf(tools, s, params[0]) + FragmentsFor(tools, Counted(s), params[1..])
  }

  function FunctionDone(s: State, n: nat): State {
    s.(jsonStarted := true, paramCount := s.paramCount + n, funcName := None)
  }

  lemma FragmentsTogether(s: State, t: State, x: seq<string>, y: seq<string>)
    requires s.toolId == t.toolId
    ensures Fragments(s, x + y) == Fragments(s, x) + Fragments(t, y)
  {
    assert Pieces(s.toolId, x + y) == Pieces(s.toolId, x) + Pieces(t.toolId, y);
    CallsTogether(Pieces(s.toolId, x), Pieces(t.toolId, y));
  }

  lemma ParamsFollow(params: seq<Param>, rest: string)
    ensures var b := ParamsText(params) + (FUNCTION_END + rest); EndsParam(b) && b[0] == '<'
  {
  }

  lemma {:induction false} RunParams(tools: Tools, s: State, params: seq<Param>, rest: string)
    requires s.inside && ParamsRight(params)
    ensures Run(Qwen(tools), s, ParamsText(params) + (FUNCTION_END + rest)) ==
            After(Fragments(s, FragmentsFor(tools, s, params)),
                  Run(Qwen(tools), FunctionDone(s, |params|), rest))
    decreases |params|
  {
    hide Run, After, Fragments, FragmentsOf, ParamText, ParamRight;
    var end := FUNCTION_END + rest;
    if params == [] {
      assert "" + end == end;
      RunFunctionEnd(tools, s, rest);
    } else {
      var p, tail := params[0], ParamsText(params[1..]) + end;
      assert p in params && forall x :: x in params[1..] ==> x in params;
      assert ParamsText(params) + end == ParamText(p) + tail;
      ParamsFollow(params[1..], rest);
      RunParam(tools, s, p, tail);
      RunParams(tools, Counted(s), params[1..], rest);
      var first, later := FragmentsOf(tools, s, p), FragmentsFor(tools, Counted(s), params[1..]);
      FragmentsTogether(s, Counted(s), first, later);
      AfterAfter(Fragments(s, first), Fragments(Counted(s), later), Run(Qwen(tools), FunctionDone(s, |params|), rest));
    }
  }

  lemma RunFunctionEnd(tools: Tools, s: State, rest: string)
    ensures Run(Qwen(tools), s, FUNCTION_END + rest) ==
            After(Fragments(s, FragmentsFor(tools, s, [])), Run(Qwen(tools), FunctionDone(s, 0), rest))
  {
    hide Run, Fragments;
    var b := FUNCTION_END + rest;
    assert StartsWith(FUNCTION_END, b);
    OnlyThisTag(FUNCTION_END, b);
    Cut(FUNCTION_END, rest);
    RunPieces(tools, s, b, FunctionDone(s, 0), rest, FragmentsFor(tools, s, []));
  }

  lemma RunPieces(tools: Tools, s: State, b: string, t: State, rest: string, fragments: seq<string>)
    requires |rest| < |b| && b[|b| - |rest|..] == rest
    requires Advance(tools, s, b) == Go(t, |b| - |rest|, Fragments(s, fragments))
    ensures Run(Qwen(tools), s, b) == After(Fragments(s, fragments), Run(Qwen(tools), t, rest))
  {
    hide Run, Advance;
    RunGo(tools, s, b, t, rest, Pieces(s.toolId, fragments));
  }

  /** A function of that name has begun. */
  function Begun(id: int, name: string): State {
    State(true, Some(name), id, 0, false)
  }

  function CallFragments(tools: Tools, c: WireCall): seq<string> {
    FragmentsFor(tools, Begun(0, c.name), c.params)
  }

  lemma {:induction false} FragmentsAnyCall(tools: Tools, s: State, t: State, params: seq<Param>)
    requires s == t.(toolId := s.toolId)
    ensures FragmentsFor(tools, s, params) == FragmentsFor(tools, t, params)
    decreases |params|
  {
    hide PairOf;
    if params != [] {
      FragmentsAnyCall(tools, Counted(s), Counted(t), params[1..]);
    }
  }

  lemma RunName(tools: Tools, s: State, name: string, rest: string)
    requires s.inside && '>' !in name
    ensures Run(Qwen(tools), s, FUNCTION + (name + (">" + rest))) ==
            After(Calls([Item(s.toolId + 1, Some(name), "")]), Run(Qwen(tools), Begun(s.toolId + 1, name), rest))
  {
    hide Run, IndexOf, Calls;
    var b := FUNCTION + (name + (">" + rest));
    AngleEnds(FUNCTION, name, rest);
    assert StartsWith(FUNCTION, b);
    OnlyThisTag(FUNCTION, b);
    OneCall(Item(s.toolId + 1, Some(name), ""));
    RunGo(tools, s, b, Begun(s.toolId + 1, name), rest, [Item(s.toolId + 1, Some(name), "")]);
  }

  function Past(s: State, c: WireCall): State {
    State(false, None, s.toolId + 1, |c.params|, true)
  }

  /** What a call streams: its name, then the pieces of its arguments. */
  function CallItems(tools: Tools, id: int, c: WireCall): seq<Item> {
    [Item(id, Some(c.name), "")] + Pieces(id, CallFragments(tools, c))
  }

  /** From the function of a call to what stands behind the call's tag. */
  lemma RunFunction(tools: Tools, s: State, c: WireCall, rest: string)
    requires s.inside && CallRight(c)
    ensures Run(Qwen(tools), s, FUNCTION + (BodyText(c) + (FUNCTION_END + rest))) ==
            After(Calls(CallItems(tools, s.toolId + 1, c)),
                  Run(Qwen(tools), Past(s, c).(inside := true), rest))
  {
    hide Run, After, Calls, ParamsRight, TextRight, ParamsText, FragmentsFor;
    var id := s.toolId + 1;
    var t := Begun(id, c.name);
    var params := ParamsText(c.params) + (FUNCTION_END + rest);
    assert BodyText(c) + (FUNCTION_END + rest) == c.name + (">" + (c.gap + params));
    RunName(tools, s, c.name, c.gap + params);
    ParamsFollow(c.params, rest);
    RunGap(tools, t, c.gap, params);
    RunParams(tools, t, c.params, rest);
    FragmentsAnyCall(tools, t, Begun(0, c.name), c.params);
    var name, pieces := [Item(id, Some(c.name), "")], Pieces(id, CallFragments(tools, c));
    CallsTogether(name, pieces);
    AfterAfter(Calls(name), Calls(pieces), Run(Qwen(tools), Past(s, c).(inside := true), rest));
  }

  /** The whole of a call. */
  lemma RunCall(tools: Tools, s: State, c: WireCall, rest: string)
    requires CallRight(c)
    ensures Run(Qwen(tools), s, CallText(c) + rest) ==
            After(Calls(CallItems(tools, s.toolId + 1, c)), Run(Qwen(tools), Past(s, c), c.trail + rest))
  {
    hide Run, After, BodyText, CallItems, ParamsRight, TextRight;
    var outside := c.trail + rest;
    var end := CALL_END + outside;
    var function' := FUNCTION + (BodyText(c) + (FUNCTION_END + (c.after + end)));
    assert CallText(c) + rest == CALL + (c.lead + function');
    NoCalls<Item>();
    var t := s.(inside := true);
    RunTag(tools, s, CALL, t, c.lead + function');
    RunGap(tools, t, c.lead, function');
    RunFunction(tools, t, c, c.after + end);
    var u := Past(s, c).(inside := true);
    RunGap(tools, u, c.after, end);
    RunTag(tools, u, CALL_END, Past(s, c), outside);
  }

  lemma RunTag(tools: Tools, s: State, tag: string, t: State, rest: string)
    requires (tag == CALL && t == s.(inside := true)) || (tag == CALL_END && t == s.(inside := false))
    ensures Run(Qwen(tools), s, tag + rest) == Run(Qwen(tools), t, rest)
  {
    hide Run;
    var b := tag + rest;
    assert StartsWith(tag, b);
    OnlyThisTag(tag, b);
    NoCalls<Item>();
    RunGo(tools, s, b, t, rest, []);
    AfterNothing(Run(Qwen(tools), t, rest));
  }

  const TAGS := {CALL, CALL_END, FUNCTION, FUNCTION_END, PARAMETER}

  lemma NoTagAcross(tag: string, t: string, rest: string)
    requires tag in TAGS + {PARAMETER_END} && t != "" && rest != "" && rest[0] == '<'
    ensures !(t + rest <= tag)
    ensures !Occurs(tag, t) ==> !(tag <= t + rest)
  {
    hide Occurs, IndexOf;
    TagsOpenOnce();
    if !Occurs(tag, t) {
      NoneAcross(tag, t, rest);
      if tag <= t + rest {
        FoundFirst(tag, t + rest, 0);
      }
    }
    assert (t + rest)[|t|] == '<';
  }

  lemma TextStep(tools: Tools, s: State, t: string, rest: string)
    requires !s.inside && TextRight(t) && t != "" && rest != "" && rest[0] == '<'
    ensures Advance(tools, s, t + rest) == Go(s, 1, [Text(t[0])])
  {
    hide Occurs;
    NoTagAcross(CALL, t, rest);
    NoTagAcross(CALL_END, t, rest);
    NoTagAcross(FUNCTION, t, rest);
    NoTagAcross(FUNCTION_END, t, rest);
    NoTagAcross(PARAMETER, t, rest);
    NoTagAcross(PARAMETER_END, t, rest);
  }

  lemma TextTail(t: string)
    requires TextRight(t) && t != ""
    ensures TextRight(t[1..])
  {
    hide Occurs;
    NotInTail(CALL, t);
    NotInTail(CALL_END, t);
    NotInTail(FUNCTION, t);
    NotInTail(FUNCTION_END, t);
    NotInTail(PARAMETER, t);
  }

  lemma RunText(tools: Tools, s: State, b: string)
    requires b != "" && Advance(tools, s, b) == Go(s, 1, [Text(b[0])])
    ensures Run(Qwen(tools), s, b) == After([Text(b[0])], Run(Qwen(tools), s, b[1..]))
  {
  }

  /** Text outside calls is emitted, up to the next call. */
  lemma {:induction false} RunBetween(tools: Tools, s: State, t: string, rest: string)
    requires !s.inside && TextRight(t) && rest != "" && rest[0] == '<'
    ensures Run(Qwen(tools), s, t + rest) == After(Texts(t), Run(Qwen(tools), s, rest))
    decreases |t|
  {
    hide Run, TextRight, Advance;
    if t == "" {
      assert t + rest == rest;
      AfterNothing(Run(Qwen(tools), s, rest));
    } else {
      TextStep(tools, s, t, rest);
      TextTail(t);
      assert (t + rest)[0] == t[0] && (t + rest)[1..] == t[1..] + rest;
      RunText(tools, s, t + rest);
      RunBetween(tools, s, t[1..], rest);
      AfterAfter([Text(t[0])], Texts(t[1..]), Run(Qwen(tools), s, rest));
    }
  }

  lemma TailStep(tools: Tools, s: State, t: string)
    requires !s.inside && TextRight(t)
    ensures Advance(tools, s, t) == if t == "" || MayBeTag(t) then Wait else Go(s, 1, [Text(t[0])])
  {
    hide Occurs;
    NotAtStart(CALL, t);
    NotAtStart(CALL_END, t);
    NotAtStart(FUNCTION, t);
    NotAtStart(FUNCTION_END, t);
    NotAtStart(PARAMETER, t);
  }

  lemma RunWait(tools: Tools, s: State, b: string)
    requires Advance(tools, s, b).Wait?
    ensures Run(Qwen(tools), s, b) == Outcome(s, b, [])
  {
  }

  /** At the end, the text is emitted but for what may become a tag. */
  lemma {:induction false} RunTail(tools: Tools, s: State, t: string)
    requires !s.inside && TextRight(t)
    ensures var o := Run(Qwen(tools), s, t);
            && o.state == s && TextOf(o.events) + o.rest == t && CallsOf(o.events) == []
            && (o.rest == "" || MayBeTag(o.rest))
    decreases |t|
  {
    hide Run, TextRight, TextOf, CallsOf, Advance, MayBeTag;
    TailStep(tools, s, t);
    NothingEmitted<Item>();
    if t == "" || MayBeTag(t) {
      RunWait(tools, s, t);
    } else {
      TextTail(t);
      RunTail(tools, s, t[1..]);
      RunText(tools, s, t);
      var o := Run(Qwen(tools), s, t[1..]);
      OfConcat([Text(t[0])], o.events);
      OneText<Item>(t[0]);
      assert [t[0]] + TextOf(o.events) + o.rest == [t[0]] + (TextOf(o.events) + o.rest);
    }
  }

  function OutsideText(calls: seq<WireCall>): string {
    if calls == [] then "" else calls[0].trail + OutsideText(calls[1..])
  }

  function ReplyItems(tools: Tools, id: int, calls: seq<WireCall>): seq<Item>
    decreases |calls|
  {
    if calls == [] then [] else CallItems(tools, id, calls[0]) + ReplyItems(tools, id + 1, calls[1..])
  }

  ghost predicate ReplyRight(before: string, calls: seq<WireCall>) {
    TextRight(before) && forall c :: c in calls ==> CallRight(c)
  }

  lemma CallOpens(c: WireCall, more: string)
    ensures var b := CallText(c) + more; b != "" && b[0] == '<'
  {
  }

  /** A whole reply, from the text before its first call: the text outside calls comes out as normal
      text but for what may become a tag at the very end, and each call as its name and the pieces of
      its arguments. */
  lemma {:induction false} RunReply(tools: Tools, s: State, before: string, calls: seq<WireCall>)
    requires !s.inside && ReplyRight(before, calls)
    ensures var o := Run(Qwen(tools), s, before + ReplyText(calls));
            && !o.state.inside && o.state.toolId == s.toolId + |calls|
            && TextOf(o.events) + o.rest == before + OutsideText(calls)
            && CallsOf(o.events) == ReplyItems(tools, s.toolId + 1, calls)
    decreases |calls|
  {
    hide Run, CallItems, CallText, ParamsRight, TextRight, TextOf, CallsOf;
    if calls == [] {
      assert before + "" == before;
      RunTail(tools, s, before);
    } else {
      var c, more := calls[0], ReplyText(calls[1..]);
      assert c in calls && forall x :: x in calls[1..] ==> x in calls;
      CallOpens(c, more);
      RunBetween(tools, s, before, CallText(c) + more);
      RunCall(tools, s, c, more);
      RunReply(tools, Past(s, c), c.trail, calls[1..]);
      var o := Run(Qwen(tools), Past(s, c), c.trail + more);
      OfCalls(CallItems(tools, s.toolId + 1, c));
      TextAndCall(before, Calls(CallItems(tools, s.toolId + 1, c)), o.events);
      assert before + TextOf(o.events) + o.rest == before + (TextOf(o.events) + o.rest);
      assert before + OutsideText(calls) == before + (c.trail + OutsideText(calls[1..]));
    }
  }

  /** Parameters and the texts of their values, as streamed. */
  function WrittenPairs(params: seq<Param>): seq<(string, string)> {
    if params == [] then [] else [(params[0].key, Unwrap(params[0].raw))] + WrittenPairs(params[1..])
  }

  /** The entries of a function's arguments, their values converted. */
  function Converted(tools: Tools, f: string, pairs: seq<(string, string)>): Entries<string> {
    if pairs == [] then []
    else [Entry(pairs[0].0, tools.valueJson(Some(f), pairs[0].0, pairs[0].1))] + Converted(tools, f, pairs[1..])
  }

  function Written(tools: Tools, f: string, params: seq<Param>): Entries<string> {
    Converted(tools, f, WrittenPairs(params))
  }

  lemma {:induction false} Joins(x: seq<string>, y: seq<string>)
    ensures Concat(x + y) == Concat(x) + Concat(y)
  {
    if x == [] {
      assert x + y == y;
    } else {
      assert (x + y)[1..] == x[1..] + y;
      Joins(x[1..], y);
    }
  }

  lemma JoinsOne(f: string)
    ensures Concat([f]) == f
  {
    assert f + "" == f;
  }

  /** The pieces of a call's arguments add up to the text of one object, entry by entry as written. */
  lemma {:induction false} FragmentsAddUp(tools: Tools, s: State, f: string, params: seq<Param>)
    requires (s.jsonStarted <==> s.paramCount > 0) && s.funcName == Some(f)
    ensures var entries := Written(tools, f, params);
            Concat(FragmentsFor(tools, s, params)) ==
            if s.jsonStarted then MoreOpen(tools.keyJson, entries) + "}" else ObjectText(tools.keyJson, entries)
    decreases |params|
  {
    hide Concat, Unwrap;
    JoinsOne("{");
    if params == [] {
      JoinsOne("}");
      Joins([] + ["{"], ["}"]);
      assert [] + ["}"] == ["}"] && [] + ["{"] == ["{"];
    } else {
      var entries := Written(tools, f, params);
      var p, first, later := params[0], FragmentsOf(tools, s, params[0]), FragmentsFor(tools, Counted(s), params[1..]);
      FragmentsAddUp(tools, Counted(s), f, params[1..]);
      assert WrittenPairs(params)[1..] == WrittenPairs(params[1..]);
      assert entries[1..] == Written(tools, f, params[1..]);
      assert EntryText(tools.keyJson, entries[0]) == PairOf(tools, s.funcName, p);
      Joins(first, later);
      var pair := PairOf(tools, s.funcName, p);
      JoinsOne(pair);
      JoinsOne(", " + pair);
      Joins(["{"], [pair]);
      assert [] + [", " + pair] == [", " + pair];
    }
  }

  /** The arguments of a call add up to `json.dumps` of its parameters as written. */
  lemma CallAddsUp(tools: Tools, c: WireCall)
    ensures Concat(CallFragments(tools, c)) == ObjectText(tools.keyJson, Written(tools, c.name, c.params))
  {
    FragmentsAddUp(tools, Begun(0, c.name), c.name, c.params);
  }
}

/** The one-shot Qwen3-Coder parser, and how far it agrees with the streaming one. */
module QwenOneShot {
  import opened Strings
  import opened Dictionaries
  import opened Events
  import opened Streaming
  import opened ArgTags
  import opened QwenStream
  import opened QwenWire

  datatype ToolCallItem = ToolCallItem(toolIndex: int, name: string, parameters: string)

  /** `re.findall` of `<function=(.*?)</function>|<function=(.*)$`, the groups taken together. */
  function Functions(content: string): seq<string>
    decreases |content|
  {
    var start := IndexOf(FUNCTION, content);
    if start == -1 then []
    else
      var tail := content[start..][|FUNCTION|..];
      var end := IndexOf(FUNCTION_END, tail);
      if end == -1 then [tail] else [tail[..end]] + Functions(tail[end..][|FUNCTION_END|..])
  }

  /** The text up to where `$` matches: all but a newline at the very end. */
  function BeforeDollar(t: string): string {
    if t != "" && t[|t| - 1] == '\n' then t[..|t| - 1] else t
  }

  /** `re.findall` of `<parameter=(.*?)(?:</parameter>|(?=<parameter=)|(?=</function>)|$)`. */
  function Parameters(text: string): seq<string>
    decreases |text|
  {
    var start := IndexOf(PARAMETER, text);
    if start == -1 then []
    else
      var tail := text[start..][|PARAMETER|..];
      var end := ParameterEnd(tail);
      if end == -1 then [BeforeDollar(tail)]
      else
        EndFits(tail);
        [tail[..end]] + Parameters(tail[end..][if end == IndexOf(PARAMETER_END, tail) then |PARAMETER_END| else 0..])
  }

  /** Names and values, for the matches that have both. */
  function Pairs(matches: seq<string>): seq<(string, string)> {
    if matches == [] then []
    else
      var angle := IndexOf(">", matches[0]);
      (if angle == -1 then [] else [(matches[0][..angle], Unwrap(matches[0][angle + 1..]))]) + Pairs(matches[1..])
  }

  /** The calls of functions, numbered from `id` on. */
  function CallsIn(tools: Tools, keyText: string -> string, id: int, functions: seq<string>): seq<ToolCallItem>
    decreases |functions|
  {
    if functions == [] then []
    else
      var angle := IndexOf(">", functions[0]);
      if angle == -1 then CallsIn(tools, keyText, id, functions[1..])
      else
        var name := functions[0][..angle];
        var args := PutAll([], Converted(tools, name, Pairs(Parameters(functions[0][angle + 1..]))));
        [ToolCallItem(id, name, ObjectText(keyText, args))] + CallsIn(tools, keyText, id + 1, functions[1..])
  }

  function FunctionsOf(contents: seq<string>): seq<string> {
    if contents == [] then [] else Functions(contents[0]) + FunctionsOf(contents[1..])
  }

  /** Where the functions stand: in the blocks of calls; in the whole text where no block is closed. */
  function Contents(text: string): seq<string> {
    if Bodies(text) == [] && IndexOf(FUNCTION, text) != -1 then [text] else Bodies(text)
  }

  method DetectAndParse(tools: Tools, keyText: string -> string, text: string)
      returns (normal: string, calls: seq<ToolCallItem>)
    ensures normal == if IndexOf(CALL, text) == -1 then text else text[..IndexOf(CALL, text)]
    ensures calls == if IndexOf(CALL, text) == -1 then [] else CallsIn(tools, keyText, 0, FunctionsOf(Contents(text)))
  {
    hide IndexOf, Bodies, Functions, CallsIn;
    if IndexOf(CALL, text) == -1 {
      return text, [];
    }
    calls := [];
    var contents := Contents(text);
    var toolIdx := 0;
    for k := 0 to |contents|
      invariant calls + CallsIn(tools, keyText, toolIdx, FunctionsOf(contents[k..]))
             == CallsIn(tools, keyText, 0, FunctionsOf(contents))
    {
      var functions := Functions(contents[k]);
      assert contents[k..][1..] == contents[k + 1..];
      ghost var later := FunctionsOf(contents[k + 1..]);
      ghost var before := calls;
      ghost var first := toolIdx;
      assert functions[0..] == functions;
      for j := 0 to |functions|
        invariant calls + CallsIn(tools, keyText, toolIdx, functions[j..] + later)
               == CallsIn(tools, keyText, 0, FunctionsOf(contents))
      {
        assert (functions[j..] + later)[1..] == functions[j + 1..] + later;
        CallsStep(tools, keyText, toolIdx, functions[j..] + later);
        var funcBody := functions[j];
        var nameEnd := IndexOf(">", funcBody);
        if nameEnd == -1 {
          continue;
        }
        var name := funcBody[..nameEnd];
        var args := ParseParams(tools, name, funcBody[nameEnd + 1..]);
        calls := calls + [ToolCallItem(toolIdx, name, ObjectText(keyText, args))];
        toolIdx := toolIdx + 1;
      }
      assert functions[|functions|..] + later == later;
    }
    assert contents[|contents|..] == [];
    NoFunctions(tools, keyText, toolIdx);
    normal := text[..IndexOf(CALL, text)];
  }

  lemma CallsStep(tools: Tools, keyText: string -> string, id: int, functions: seq<string>)
    requires functions != []
    ensures var angle := IndexOf(">", functions[0]);
            if angle == -1 then CallsIn(tools, keyText, id, functions) == CallsIn(tools, keyText, id, functions[1..])
            else
              CallsIn(tools, keyText, id, functions) ==
              [ToolCallItem(id, functions[0][..angle],
                 ObjectText(keyText, PutAll([], Converted(tools, functions[0][..angle],
                                                          Pairs(Parameters(functions[0][angle + 1..]))))))]
              + CallsIn(tools, keyText, id + 1, functions[1..])
  {
    hide PutAll, Parameters, Pairs, Converted, ObjectText, IndexOf;
  }

  lemma NoFunctions(tools: Tools, keyText: string -> string, id: int)
    ensures CallsIn(tools, keyText, id, []) == []
  {
  }

  method ParseParams(tools: Tools, name: string, text: string) returns (args: Entries<string>)
    ensures args == PutAll([], Converted(tools, name, Pairs(Parameters(text))))
  {
    hide Parameters, Unwrap, IndexOf;
    args := [];
    var matches := Parameters(text);
    for k := 0 to |matches|
      invariant PutAll(args, Converted(tools, name, Pairs(matches[k..])))
             == PutAll([], Converted(tools, name, Pairs(matches)))
    {
      assert matches[k..][1..] == matches[k + 1..];
      var angle := IndexOf(">", matches[k]);
      if angle == -1 {
        assert Pairs(matches[k..]) == Pairs(matches[k + 1..]);
        continue;
      }
      var value := Unwrap(matches[k][angle + 1..]);
      assert Pairs(matches[k..])[1..] == Pairs(matches[k + 1..]);
      assert Converted(tools, name, Pairs(matches[k..]))[1..] == Converted(tools, name, Pairs(matches[k + 1..]));
      args := Put(args, matches[k][..angle], tools.valueJson(Some(name), matches[k][..angle], value));
    }
    assert matches[|matches|..] == [];
  }

  /** What the one-shot parser needs of a call beside: names without `<`; and no call may start in it
      where an end of the call stands in one of its values. */
  ghost predicate ShotRight(c: WireCall) {
    NamesRight(c) && (EndsEarly(c.params) ==> !Occurs(CALL, InsideText(c)))
  }

  ghost predicate NamesRight(c: WireCall) {
    CallRight(c) && '<' !in c.name && forall p :: p in c.params ==> '<' !in p.key
  }

  /** A value holds the end of a call. */
  predicate EndsEarly(params: seq<Param>) {
    params != [] && (IndexOf(CALL_END, params[0].raw) != -1 || EndsEarly(params[1..]))
  }

  /** The parameters in front of the first end of a call: the last one is cut off there. */
  function SeenParams(params: seq<Param>): seq<Param> {
    if params == [] then []
    else
      var m := IndexOf(CALL_END, params[0].raw);
      if m == -1 then [params[0]] + SeenParams(params[1..]) else [Param(params[0].key, params[0].raw[..m], false, "")]
  }

  function SeenCall(c: WireCall): WireCall {
    c.(params := SeenParams(c.params))
  }

  ghost predicate KeysRight(params: seq<Param>) {
    ParamsRight(params) && forall p :: p in params ==> '<' !in p.key
  }

  /** Written parameters hold no end of a function. */
  lemma {:induction false} NotInParams(params: seq<Param>)
    requires KeysRight(params)
    ensures !Occurs(FUNCTION_END, ParamsText(params))
    ensures ParamsText(params) == "" <==> params == []
    ensures params != [] ==> PARAMETER <= ParamsText(params)
    decreases |params|
  {
    hide Occurs, OpensOnce, ParamText;
    TagsOpenOnce();
    if params == [] {
      NoFirstNoTag(FUNCTION_END, "");
    } else {
      var p, more := params[0], ParamsText(params[1..]);
      assert p in params && forall x :: x in params[1..] ==> x in params;
      NotInParams(params[1..]);
      var rest := EndText(p) + more;
      if p.closed {
        NotInPlain(FUNCTION_END, p.gap, more);
        NotInFront(FUNCTION_END, PARAMETER_END, p.gap + more, 2);
        Assoc(PARAMETER_END, p.gap, more);
      } else {
        assert rest == more;
      }
      NotAcross(FUNCTION_END, p.raw, rest);
      NotInPlain(FUNCTION_END, p.key + ">", p.raw + rest);
      NotInFront(FUNCTION_END, PARAMETER, p.key + ">" + (p.raw + rest), 1);
      ParamParts(p, EndText(p), more, rest);
      assert p.key + ">" + (p.raw + rest) == p.key + (">" + (p.raw + rest));
    }
  }

  /** The first end of a call among parameters stands behind those that are seen. */
  lemma {:induction false} EndInParams(params: seq<Param>)
    requires KeysRight(params)
    ensures var t, seen := ParamsText(params), ParamsText(SeenParams(params));
            if EndsEarly(params) then
              IndexOf(CALL_END, t) == |seen| <= |t| && t[..|seen|] == seen
            else IndexOf(CALL_END, t) == -1 && SeenParams(params) == params
    decreases |params|
  {
    hide IndexOf, Occurs, OpensOnce, ParamText, ParamRight;
    TagsOpenOnce();
    if params == [] {
      NoFirstNoTag(CALL_END, "");
    } else {
      var p, more := params[0], ParamsText(params[1..]);
      assert p in params && forall x :: x in params[1..] ==> x in params;
      EndInParams(params[1..]);
      var m := IndexOf(CALL_END, p.raw);
      NotInParams(params[1..]);
      EndInParam(p, more);
      if m != -1 {
        var cut := Param(p.key, p.raw[..m], false, "");
        CutParam(p, m, more);
        OneParam(cut);
        assert SeenParams(params) == [cut];
      } else {
        var seen := SeenParams(params[1..]);
        assert ([p] + seen)[1..] == seen;
        assert ParamsText(SeenParams(params)) == ParamText(p) + ParamsText(seen);
      }
    }
  }

  lemma {:induction false} SeenParamsRight(params: seq<Param>)
    requires KeysRight(params)
    ensures KeysRight(SeenParams(params))
    decreases |params|
  {
    hide IndexOf, ParamRight;
    if params != [] {
      var p := params[0];
      assert p in params && forall x :: x in params[1..] ==> x in params;
      var m := IndexOf(CALL_END, p.raw);
      if m != -1 {
        RawCutRight(p, m);
      } else {
        SeenParamsRight(params[1..]);
        assert forall x :: x in SeenParams(params) ==> x == p || x in SeenParams(params[1..]);
      }
    }
  }

  lemma OneParam(p: Param)
    ensures ParamsText([p]) == ParamText(p)
  {
    assert [p][1..] == [];
    assert ParamText(p) + "" == ParamText(p);
  }

  lemma RawCutRight(p: Param, m: nat)
    requires ParamRight(p) && m <= |p.raw|
    ensures ParamRight(Param(p.key, p.raw[..m], false, ""))
  {
    hide Occurs;
    assert p.raw[0..m] == p.raw[..m];
    NotInPart(PARAMETER_END, p.raw, 0, m);
    NotInPart(PARAMETER, p.raw, 0, m);
    NotInPart(FUNCTION_END, p.raw, 0, m);
  }

  lemma CutParam(p: Param, m: nat, more: string)
    requires m <= |p.raw|
    ensures var cut := ParamText(Param(p.key, p.raw[..m], false, ""));
            |cut| == |PARAMETER + p.key + ">"| + m <= |ParamText(p) + more| && (ParamText(p) + more)[..|cut|] == cut
  {
    var cut := ParamText(Param(p.key, p.raw[..m], false, ""));
    var front := PARAMETER + p.key + ">";
    assert p.raw[..m] + "" == p.raw[..m];
    assert cut == front + p.raw[..m];
    assert ParamText(p) + more == front + p.raw + (EndText(p) + more);
  }

  /** Where the end of a call stands in a parameter, or behind it. */
  lemma EndInParam(p: Param, more: string)
    requires ParamRight(p) && '<' !in p.key && (more == "" || more[0] == '<')
    ensures var m := IndexOf(CALL_END, p.raw);
            IndexOf(CALL_END, ParamText(p) + more) ==
            if m != -1 then |PARAMETER + p.key + ">"| + m else Further(|ParamText(p)|, IndexOf(CALL_END, more))
  {
    hide IndexOf, Occurs, OpensOnce;
    var rest := EndText(p) + more;
    ParamParts(p, EndText(p), more, rest);
    EndBehindKey(p, p.raw + rest);
    if IndexOf(CALL_END, p.raw) != -1 {
      IndexOfExtends(CALL_END, p.raw, rest);
    } else {
      EndBehindRaw(p, more);
    }
  }

  lemma EndBehindKey(p: Param, text: string)
    requires '<' !in p.key
    ensures IndexOf(CALL_END, PARAMETER + (p.key + (">" + text))) ==
            Further(|PARAMETER + p.key + ">"|, IndexOf(CALL_END, text))
  {
    hide IndexOf, Occurs, OpensOnce;
    TagsOpenOnce();
    var key := p.key + ">";
    assert p.key + (">" + text) == key + text;
    IndexBehindTag(CALL_END, PARAMETER, key + text, 1);
    IndexBehindPlain(CALL_END, key, text);
  }

  lemma EndBehindRaw(p: Param, more: string)
    requires ParamRight(p) && IndexOf(CALL_END, p.raw) == -1 && (more == "" || more[0] == '<')
    ensures IndexOf(CALL_END, p.raw + (EndText(p) + more)) == Further(|p.raw| + |EndText(p)|, IndexOf(CALL_END, more))
  {
    hide IndexOf, Occurs, OpensOnce;
    TagsOpenOnce();
    var rest := EndText(p) + more;
    if rest == "" {
      NoFirstNoTag(CALL_END, "");
      assert p.raw + rest == p.raw;
    } else {
      IndexBehindNone(CALL_END, p.raw, rest);
      if p.closed {
        GapRight(p);
        Assoc(PARAMETER_END, p.gap, more);
        IndexBehindTag(CALL_END, PARAMETER_END, p.gap + more, 2);
        IndexBehindPlain(CALL_END, p.gap, more);
      } else {
        assert rest == more;
      }
    }
  }

  /** What stands in a call, up to the first end of a call. */
  function SeenInside(c: WireCall): string {
    if EndsEarly(c.params) then c.lead + (FUNCTION + BodyText(SeenCall(c))) else InsideText(c)
  }

  lemma InsideEnds(c: WireCall)
    requires NamesRight(c)
    ensures var t, seen := InsideText(c), SeenInside(c);
            if EndsEarly(c.params) then
              IndexOf(CALL_END, t) == |seen| <= |t| && t[..|seen|] == seen
            else IndexOf(CALL_END, t) == -1 && seen == t
  {
    hide IndexOf, Occurs, OpensOnce, ParamsText, EndsEarly, SeenParams;
    EndInParams(c.params);
    var params := ParamsText(c.params);
    var end := FUNCTION_END + c.after;
    var front := FrontText(c);
    assert InsideText(c) == front + (params + end);
    EndBehindName(c, params + end);
    if EndsEarly(c.params) {
      IndexOfExtends(CALL_END, params, end);
      var seen := ParamsText(SeenParams(c.params));
      assert SeenInside(c) == front + seen;
      assert (params + end)[..|seen|] == seen;
    } else {
      EndBehindParams(c);
    }
  }

  /** A call up to its parameters. */
  function FrontText(c: WireCall): string {
    c.lead + (FUNCTION + (c.name + ">" + c.gap))
  }

  lemma EndBehindName(c: WireCall, text: string)
    requires NamesRight(c)
    ensures IndexOf(CALL_END, FrontText(c) + text) == Further(|FrontText(c)|, IndexOf(CALL_END, text))
  {
    hide IndexOf, Occurs, OpensOnce, ParamsRight, TextRight;
    TagsOpenOnce();
    var name := c.name + ">" + c.gap;
    assert FrontText(c) + text == c.lead + (FUNCTION + (name + text));
    IndexBehindPlain(CALL_END, name, text);
    IndexBehindTag(CALL_END, FUNCTION, name + text, 1);
    IndexBehindPlain(CALL_END, c.lead, FUNCTION + (name + text));
  }

  lemma EndBehindParams(c: WireCall)
    requires NamesRight(c) && IndexOf(CALL_END, ParamsText(c.params)) == -1
    ensures IndexOf(CALL_END, ParamsText(c.params) + (FUNCTION_END + c.after)) == -1
  {
    hide IndexOf, Occurs, OpensOnce, ParamsText, ParamsRight, TextRight;
    TagsOpenOnce();
    IndexBehindNone(CALL_END, ParamsText(c.params), FUNCTION_END + c.after);
    IndexBehindTag(CALL_END, FUNCTION_END, c.after, 2);
    NoFirstNoTag(CALL_END, c.after);
  }

  lemma BodyHoldsNone(c: WireCall)
    requires NamesRight(c)
    ensures NamesRight(SeenCall(c)) && !Occurs(FUNCTION_END, BodyText(SeenCall(c)))
  {
    hide IndexOf, Occurs, OpensOnce, ParamsText, SeenParams, TextRight;
    SeenParamsRight(c.params);
    var params := SeenParams(c.params);
    NotInParams(params);
    var front := c.name + ">" + c.gap;
    assert BodyText(SeenCall(c)) == front + ParamsText(params);
    NotInPlain(FUNCTION_END, front, ParamsText(params));
  }

  lemma FunctionOfCall(c: WireCall)
    requires NamesRight(c)
    ensures Functions(SeenInside(c)) == [BodyText(SeenCall(c))]
  {
    hide IndexOf, Occurs, OpensOnce, BodyText, Functions, SeenParams;
    BodyHoldsNone(c);
    EndInParams(c.params);
    if EndsEarly(c.params) {
      NoFirstNoTag(FUNCTION, c.lead);
      OpenFunction(c.lead, BodyText(SeenCall(c)));
    } else {
      assert SeenCall(c) == c;
      OneFunction(c.lead, BodyText(c), c.after);
    }
  }

  /** A function without an end. */
  lemma OpenFunction(lead: string, body: string)
    requires !Occurs(FUNCTION, lead) && !Occurs(FUNCTION_END, body)
    ensures Functions(lead + (FUNCTION + body)) == [body]
  {
    hide IndexOf, Occurs, OpensOnce;
    TagsOpenOnce();
    IndexAfter(FUNCTION, lead, body);
    Cut(lead, FUNCTION + body);
    Cut(FUNCTION, body);
  }

  lemma OneFunction(lead: string, body: string, after: string)
    requires '<' !in lead && '<' !in after && !Occurs(FUNCTION_END, body)
    ensures Functions(lead + (FUNCTION + (body + (FUNCTION_END + after)))) == [body]
  {
    hide Functions;
    NoFirstNoTag(FUNCTION, lead);
    FunctionFound(lead, body, after);
    NoFunction(after);
  }

  /** A function is found, and then those behind it. */
  lemma FunctionFound(lead: string, body: string, rest: string)
    requires !Occurs(FUNCTION, lead) && !Occurs(FUNCTION_END, body)
    ensures Functions(lead + (FUNCTION + (body + (FUNCTION_END + rest)))) == [body] + Functions(rest)
  {
    hide IndexOf, Occurs, OpensOnce;
    TagsOpenOnce();
    var tail := body + (FUNCTION_END + rest);
    IndexAfter(FUNCTION, lead, tail);
    IndexAfter(FUNCTION_END, body, rest);
    Cut(lead, FUNCTION + tail);
    Cut(FUNCTION, tail);
    Cut(body, FUNCTION_END + rest);
    Cut(FUNCTION_END, rest);
  }

  lemma NoFunction(after: string)
    requires '<' !in after
    ensures Functions(after) == []
  {
    NoFirstNoTag(FUNCTION, after);
  }

  function InsideTexts(calls: seq<WireCall>): seq<string> {
    if calls == [] then [] else [SeenInside(calls[0])] + InsideTexts(calls[1..])
  }

  function SeenCalls(calls: seq<WireCall>): (r: seq<WireCall>)
    ensures |r| == |calls| && forall i :: 0 <= i < |calls| ==> r[i] == SeenCall(calls[i])
  {
    seq(|calls|, i requires 0 <= i < |calls| => SeenCall(calls[i]))
  }

  function BodyTexts(calls: seq<WireCall>): seq<string> {
    if calls == [] then [] else [BodyText(calls[0])] + BodyTexts(calls[1..])
  }

  ghost predicate ShotsRight(before: string, calls: seq<WireCall>) {
    TextRight(before) && forall c :: c in calls ==> ShotRight(c)
  }

  lemma NoReply()
    ensures ReplyText([]) == ""
  {
  }

  lemma ReplyParts(calls: seq<WireCall>)
    requires calls != []
    ensures var c := calls[0];
            ReplyText(calls) == CALL + (InsideText(c) + (CALL_END + (c.trail + ReplyText(calls[1..]))))
  {
    hide InsideText;
  }

  /** The text between the first end of a call and the next call. */
  function Leftover(c: WireCall): string {
    var t, n := InsideText(c), |SeenInside(c)| + |CALL_END|;
    if EndsEarly(c.params) && n <= |t| then t[n..] + (CALL_END + c.trail) else c.trail
  }

  lemma InsideSeen(c: WireCall, more: string)
    requires ShotRight(c)
    ensures !Occurs(CALL, Leftover(c))
    ensures InsideText(c) + (CALL_END + (c.trail + more)) == SeenInside(c) + (CALL_END + (Leftover(c) + more))
    ensures IndexOf(CALL_END, SeenInside(c) + (CALL_END + (Leftover(c) + more))) == |SeenInside(c)|
  {
    hide IndexOf, Occurs, OpensOnce, InsideText, SeenInside, EndsEarly;
    TagsOpenOnce();
    InsideEnds(c);
    var t, seen := InsideText(c), SeenInside(c);
    if EndsEarly(c.params) {
      var rest := t[|seen| + |CALL_END|..];
      assert t == seen + (CALL_END + rest);
      NotInPart(CALL, t, |seen| + |CALL_END|, |t|);
      assert t[|seen| + |CALL_END|..|t|] == rest;
      NotInFront(CALL, CALL_END, c.trail, 1);
      NotAcross(CALL, rest, CALL_END + c.trail);
      IndexOfExtends(CALL_END, t, CALL_END + (c.trail + more));
      assert rest + (CALL_END + c.trail) + more == rest + (CALL_END + (c.trail + more));
      assert t + (CALL_END + (c.trail + more)) == seen + (CALL_END + (rest + (CALL_END + (c.trail + more))));
    } else {
      IndexAfter(CALL_END, t, c.trail + more);
    }
  }

  lemma {:induction false} BodiesOfReply(before: string, calls: seq<WireCall>)
    requires !Occurs(CALL, before) && forall c :: c in calls ==> ShotRight(c)
    ensures Bodies(before + ReplyText(calls)) == InsideTexts(calls)
    ensures IndexOf(CALL, before + ReplyText(calls)) == if calls == [] then -1 else |before|
    decreases |calls|
  {
    hide IndexOf, InsideText, SeenInside, Leftover, OpensOnce, Occurs, Bodies, ShotRight, ReplyText;
    if calls == [] {
      NoReply();
      assert before + "" == before;
      NoBodies(before);
    } else {
      var c, more := calls[0], ReplyText(calls[1..]);
      assert c in calls && forall x :: x in calls[1..] ==> x in calls;
      ReplyParts(calls);
      InsideSeen(c, more);
      TagsOpenOnce();
      IndexAfter(CALL, before, SeenInside(c) + (CALL_END + (Leftover(c) + more)));
      OneBody(before, SeenInside(c), Leftover(c) + more);
      BodiesOfReply(Leftover(c), calls[1..]);
    }
  }

  lemma {:induction false} FunctionsOfReply(calls: seq<WireCall>)
    requires forall c :: c in calls ==> NamesRight(c)
    ensures FunctionsOf(InsideTexts(calls)) == BodyTexts(SeenCalls(calls))
    decreases |calls|
  {
    hide SeenInside, SeenCall, BodyText, Functions, NamesRight;
    if calls != [] {
      assert calls[0] in calls && forall x :: x in calls[1..] ==> x in calls;
      FunctionOfCall(calls[0]);
      assert InsideTexts(calls)[1..] == InsideTexts(calls[1..]);
      assert SeenCalls(calls)[1..] == SeenCalls(calls[1..]);
      FunctionsOfReply(calls[1..]);
    }
  }

  /** The text of a value as the one-shot parser sees it: `$` ends the last one, where no tag does. */
  function SeenRaw(p: Param, last: bool): string {
    if p.closed || !last then p.raw else BeforeDollar(p.raw)
  }

  function MatchText(p: Param, last: bool): string {
    p.key + ">" + SeenRaw(p, last)
  }

  function MatchTexts(params: seq<Param>): seq<string> {
    if params == [] then [] else [MatchText(params[0], |params| == 1)] + MatchTexts(params[1..])
  }

  /** Parameters and the texts of their values, as found at once. */
  function SeenPairs(params: seq<Param>): seq<(string, string)> {
    if params == [] then []
    else [(params[0].key, Unwrap(SeenRaw(params[0], |params| == 1)))] + SeenPairs(params[1..])
  }

  /** A parameter ended by a tag. */
  lemma OneParameter(gap: string, text: string, tag: string, rest: string)
    requires '<' !in gap && tag in {PARAMETER_END, PARAMETER}
    requires !Occurs(PARAMETER_END, text) && !Occurs(PARAMETER, text) && !Occurs(FUNCTION_END, text)
    ensures Parameters(gap + (PARAMETER + (text + (tag + rest)))) ==
            [text] + Parameters(if tag == PARAMETER_END then rest else tag + rest)
  {
    hide IndexOf, Occurs, OpensOnce, ParameterEnd;
    TagsOpenOnce();
    NoFirstNoTag(PARAMETER, gap);
    var tail := text + (tag + rest);
    IndexAfter(PARAMETER, gap, tail);
    RawEnds(text, tag, rest);
    Cut(gap, PARAMETER + tail);
    Cut(PARAMETER, tail);
    Cut(text, tag + rest);
    Cut(tag, rest);
    assert (tag + rest)[0..] == tag + rest;
  }

  /** A parameter that runs to the end. */
  lemma LastParameter(gap: string, text: string)
    requires '<' !in gap
    requires !Occurs(PARAMETER_END, text) && !Occurs(PARAMETER, text) && !Occurs(FUNCTION_END, text)
    ensures Parameters(gap + (PARAMETER + text)) == [BeforeDollar(text)]
  {
    hide IndexOf, Occurs, OpensOnce;
    TagsOpenOnce();
    NoFirstNoTag(PARAMETER, gap);
    IndexAfter(PARAMETER, gap, text);
    Cut(gap, PARAMETER + text);
    Cut(PARAMETER, text);
  }

  lemma NoParameter(gap: string)
    requires '<' !in gap
    ensures Parameters(gap) == []
  {
    NoFirstNoTag(PARAMETER, gap);
  }

  lemma KeyInFront(p: Param)
    requires ParamRight(p) && '<' !in p.key
    ensures var text := p.key + ">" + p.raw;
            && !Occurs(PARAMETER_END, text) && !Occurs(PARAMETER, text) && !Occurs(FUNCTION_END, text)
            && BeforeDollar(text) == p.key + ">" + BeforeDollar(p.raw)
  {
    hide Occurs;
    NotInPlain(PARAMETER_END, p.key + ">", p.raw);
    NotInPlain(PARAMETER, p.key + ">", p.raw);
    NotInPlain(FUNCTION_END, p.key + ">", p.raw);
  }

  lemma {:induction false} ParametersFound(gap: string, params: seq<Param>)
    requires '<' !in gap && KeysRight(params)
    ensures Parameters(gap + ParamsText(params)) == MatchTexts(params)
    decreases |params|
  {
    hide Occurs, Parameters, BeforeDollar, ParamText, ParamRight, MatchText;
    if params == [] {
      assert gap + "" == gap;
      NoParameter(gap);
    } else {
      var p, more := params[0], ParamsText(params[1..]);
      assert p in params && forall x :: x in params[1..] ==> x in params;
      NotInParams(params[1..]);
      ParameterFound(gap, p, more);
      GapRight(p);
      ParametersFound(if p.closed then p.gap else "", params[1..]);
      assert "" + more == more;
    }
  }

  lemma GapRight(p: Param)
    requires ParamRight(p)
    ensures '<' !in p.gap
  {
    hide Occurs;
  }

  /** The parameter in front is found, and then those behind it. */
  lemma ParameterFound(gap: string, p: Param, more: string)
    requires '<' !in gap && ParamRight(p) && '<' !in p.key && (more == "" || PARAMETER <= more)
    ensures Parameters(gap + (ParamText(p) + more)) ==
            [MatchText(p, more == "")]
              + (if p.closed then Parameters(p.gap + more) else if more == "" then [] else Parameters(more))
  {
    hide Occurs, Parameters, BeforeDollar;
    var text := p.key + ">" + p.raw;
    KeyInFront(p);
    if p.closed {
      Assoc(PARAMETER_END, p.gap, more);
      KeyAndRaw(p, PARAMETER_END + (p.gap + more), more);
      OneParameter(gap, text, PARAMETER_END, p.gap + more);
    } else {
      KeyAndRaw(p, more, more);
      if more == "" {
        assert text + more == text;
        LastParameter(gap, text);
      } else {
        var rest := more[|PARAMETER|..];
        assert more == PARAMETER + rest;
        OneParameter(gap, text, PARAMETER, rest);
      }
    }
  }

  lemma KeyAndRaw(p: Param, all: string, more: string)
    requires all == EndText(p) + more
    ensures ParamText(p) + more == PARAMETER + (p.key + ">" + p.raw + all)
  {
    ParamParts(p, EndText(p), more, all);
    assert p.key + (">" + (p.raw + all)) == p.key + ">" + p.raw + all;
  }

  lemma {:induction false} PairsFound(params: seq<Param>)
    requires KeysRight(params)
    ensures Pairs(MatchTexts(params)) == SeenPairs(params)
    decreases |params|
  {
    hide Occurs, IndexOf, Unwrap, SeenRaw;
    if params != [] {
      var p, seen := params[0], SeenRaw(params[0], |params| == 1);
      assert p in params && forall x :: x in params[1..] ==> x in params;
      AngleEnds("", p.key, seen);
      assert MatchText(p, |params| == 1) == "" + (p.key + (">" + seen));
      assert MatchTexts(params)[1..] == MatchTexts(params[1..]);
      PairsFound(params[1..]);
    }
  }

  /** The arguments of a call as found at once. */
  function Seen(tools: Tools, c: WireCall): Entries<string> {
    Converted(tools, c.name, SeenPairs(c.params))
  }

  lemma CallFound(tools: Tools, keyText: string -> string, id: int, c: WireCall, more: seq<string>)
    requires NamesRight(c)
    ensures CallsIn(tools, keyText, id, [BodyText(c)] + more) ==
            [ToolCallItem(id, c.name, ObjectText(keyText, PutAll([], Seen(tools, c))))]
            + CallsIn(tools, keyText, id + 1, more)
  {
    hide CallsIn, Parameters, Pairs, Converted, PutAll, ObjectText, IndexOf, Occurs, SeenPairs, ParamsText;
    AngleEnds("", c.name, c.gap + ParamsText(c.params));
    assert BodyText(c) == "" + BodyText(c);
    ParametersFound(c.gap, c.params);
    PairsFound(c.params);
    assert ([BodyText(c)] + more)[1..] == more;
    CallsStep(tools, keyText, id, [BodyText(c)] + more);
  }

  lemma {:induction false} CallsOfReply(tools: Tools, keyText: string -> string, id: int, calls: seq<WireCall>)
    requires forall c :: c in calls ==> NamesRight(c)
    ensures var items := CallsIn(tools, keyText, id, BodyTexts(calls));
            && |items| == |calls|
            && forall i :: 0 <= i < |calls| ==>
                 items[i] == ToolCallItem(id + i, calls[i].name, ObjectText(keyText, PutAll([], Seen(tools, calls[i]))))
    decreases |calls|
  {
    hide NamesRight, BodyText, Seen, PutAll, ObjectText;
    if calls == [] {
      NoFunctions(tools, keyText, id);
    } else {
      assert calls[0] in calls && forall x :: x in calls[1..] ==> x in calls;
      CallFound(tools, keyText, id, calls[0], BodyTexts(calls[1..]));
      CallsOfReply(tools, keyText, id + 1, calls[1..]);
    }
  }

  /** The last value has no closing tag of its own and ends in two newlines, and is more than those. */
  predicate LosesNewline(params: seq<Param>) {
    params != [] && var p := params[|params| - 1]; !p.closed && |p.raw| > 2 && p.raw[|p.raw| - 2..] == "\n\n"
  }

  /** Only `$` in front of the second of two last newlines makes a difference to a value. */
  lemma DollarMatters(raw: string)
    ensures Unwrap(BeforeDollar(raw)) == Unwrap(raw) <==> !(|raw| > 2 && raw[|raw| - 2..] == "\n\n")
  {
    var n := |raw|;
    if n > 1 && raw[n - 1] == '\n' {
      assert raw[n - 2..] == [raw[n - 2], raw[n - 1]];
      var b := raw[..n - 1];
      if raw[0] == '\n' {
        assert raw[1..][..n - 2] == b[1..] == raw[1..n - 1];
      }
    } else if n > 2 {
      assert raw[n - 2..][1] == raw[n - 1];
    }
  }

  /** Both parsers see the same texts exactly where the last value loses no newline to `$`. */
  lemma {:induction false} SeenAsWritten(params: seq<Param>)
    ensures SeenPairs(params) == WrittenPairs(params) <==> !LosesNewline(params)
    decreases |params|
  {
    hide Unwrap, BeforeDollar;
    if params != [] {
      DollarMatters(params[0].raw);
      SeenAsWritten(params[1..]);
      if |params| > 1 {
        assert params[1..][|params[1..]| - 1] == params[|params| - 1];
      }
      assert SeenPairs(params)[1..] == SeenPairs(params[1..]) && WrittenPairs(params)[1..] == WrittenPairs(params[1..]);
    }
  }

  /** The value `a` and two newlines, with the function's end behind it: streaming passes on a newline
      that the one-shot parser drops. */
  lemma NewlineLost()
    ensures var params := [Param("k", "a\n\n", false, "")];
            WrittenPairs(params) == [("k", "a\n")] && SeenPairs(params) == [("k", "a")]
  {
    var p := Param("k", "a\n\n", false, "");
    assert [p][1..] == [];
    assert Unwrap("a\n\n") == "a\n" && BeforeDollar("a\n\n") == "a\n" && Unwrap("a\n") == "a";
  }

  lemma {:induction false} CutIsShorter(params: seq<Param>)
    requires EndsEarly(params)
    ensures SeenPairs(SeenParams(params)) != WrittenPairs(params)
    decreases |params|
  {
    hide IndexOf;
    var seen := SeenParams(params);
    var m := IndexOf(CALL_END, params[0].raw);
    if m != -1 {
      assert OccursAt(CALL_END, params[0].raw, m);
      assert |Unwrap(SeenRaw(seen[0], true))| < |Unwrap(params[0].raw)|;
      assert SeenPairs(seen)[0] != WrittenPairs(params)[0];
    } else {
      CutIsShorter(params[1..]);
      assert seen[1..] == SeenParams(params[1..]);
      assert SeenPairs(seen)[1..] == SeenPairs(seen[1..]) && WrittenPairs(params)[1..] == WrittenPairs(params[1..]);
    }
  }

  /** Both parsers see the same names and texts exactly where no value holds the end of a call and the last
      one loses no newline. */
  lemma SameExactly(params: seq<Param>)
    requires KeysRight(params)
    ensures SeenPairs(SeenParams(params)) == WrittenPairs(params) <==> !EndsEarly(params) && !LosesNewline(params)
  {
    hide IndexOf, LosesNewline, SeenPairs, WrittenPairs;
    if EndsEarly(params) {
      CutIsShorter(params);
    } else {
      EndInParams(params);
      SeenAsWritten(params);
    }
  }

  /** On a whole reply, however it is cut into pieces: streaming emits every call's name and pieces
      that add up to the object of its parameters as written; the one-shot parser finds the same names,
      and the dictionaries that the parameters in front of the first end of a call make. The two see the
      same values exactly where no value holds such an end and the last one loses no newline. The normal
      text differs: only streaming keeps what stands after the first call. */
  lemma ParsersAgree(tools: Tools, keyText: string -> string, before: string, calls: seq<WireCall>, pieces: seq<string>)
    requires ShotsRight(before, calls) && Concat(pieces) == before + ReplyText(calls)
    ensures var o := Feed(Qwen(tools), START, "", pieces);
            var items := CallsIn(tools, keyText, 0, FunctionsOf(Contents(before + ReplyText(calls))));
            && CallsOf(o.events) == ReplyItems(tools, 0, calls)
            && TextOf(o.events) + o.rest == before + OutsideText(calls)
            && |items| == |calls|
            && forall i :: 0 <= i < |calls| ==>
                 var c := calls[i];
                 && Concat(CallFragments(tools, c)) == ObjectText(tools.keyJson, Written(tools, c.name, c.params))
                 && items[i] == ToolCallItem(i, c.name, ObjectText(keyText, PutAll([], Seen(tools, SeenCall(c)))))
                 && (SeenPairs(SeenParams(c.params)) == WrittenPairs(c.params) <==>
                     !EndsEarly(c.params) && !LosesNewline(c.params))
  {
    hide Run, Feed, ReplyText, CallRight, Occurs, Bodies, CallsIn, FunctionsOf, Converted, SeenPairs, WrittenPairs,
      SeenParams, ReplyItems, TextOf, CallsOf, OutsideText, PutAll, ObjectText, InsideTexts, LosesNewline, EndsEarly,
      CallFragments, IndexOf;
    QwenStable(tools);
    FeedIsRun(Qwen(tools), START, "", pieces);
    assert "" + Concat(pieces) == before + ReplyText(calls);
    OnlyRight(before, calls);
    RunReply(tools, START, before, calls);
    BodiesOfReply(before, calls);
    NoFallback(before, calls);
    FunctionsOfReply(calls);
    SeenCallsRight(calls);
    CallsOfReply(tools, keyText, 0, SeenCalls(calls));
    forall i | 0 <= i < |calls|
      ensures Concat(CallFragments(tools, calls[i])) ==
              ObjectText(tools.keyJson, Written(tools, calls[i].name, calls[i].params))
      ensures SeenPairs(SeenParams(calls[i].params)) == WrittenPairs(calls[i].params) <==>
              !EndsEarly(calls[i].params) && !LosesNewline(calls[i].params)
    {
      CallAddsUp(tools, calls[i]);
      KeysOfCall(calls[i]);
      SameExactly(calls[i].params);
    }
  }

  lemma KeysOfCall(c: WireCall)
    requires NamesRight(c)
    ensures KeysRight(c.params)
  {
    hide Occurs;
  }

  lemma SeenCallsRight(calls: seq<WireCall>)
    requires forall c :: c in calls ==> NamesRight(c)
    ensures forall c :: c in SeenCalls(calls) ==> NamesRight(c)
  {
    hide NamesRight, SeenCall;
    forall c | c in SeenCalls(calls) ensures NamesRight(c) {
      var i :| 0 <= i < |calls| && SeenCalls(calls)[i] == c;
      assert calls[i] in calls;
      BodyHoldsNone(calls[i]);
    }
  }

  lemma OnlyRight(before: string, calls: seq<WireCall>)
    requires ShotsRight(before, calls)
    ensures ReplyRight(before, calls) && !Occurs(CALL, before)
    ensures forall c :: c in calls ==> NamesRight(c) && ShotRight(c)
  {
    hide CallRight, Occurs;
  }

  lemma NoFallback(before: string, calls: seq<WireCall>)
    requires ShotsRight(before, calls) && Bodies(before + ReplyText(calls)) == InsideTexts(calls)
    ensures Contents(before + ReplyText(calls)) == InsideTexts(calls)
  {
    hide Bodies;
    if calls == [] {
      assert before + "" == before;
    }
  }

  /** A call whose end has not come is looked for in the whole text, and so found as well. */
  lemma OpenCallFound(tools: Tools, keyText: string -> string, before: string, c: WireCall)
    requires TextRight(before) && NamesRight(c) && !EndsEarly(c.params)
    ensures var text := before + (CALL + (c.lead + (FUNCTION + BodyText(c))));
            CallsIn(tools, keyText, 0, FunctionsOf(Contents(text))) ==
            [ToolCallItem(0, c.name, ObjectText(keyText, PutAll([], Seen(tools, c))))]
  {
    hide IndexOf, Occurs, OpensOnce, BodyText, CallsIn, Functions, Seen, PutAll, ObjectText, EndsEarly, Contents;
    var body, lead := BodyText(c), before + (CALL + c.lead);
    var text := before + (CALL + (c.lead + (FUNCTION + body)));
    EndInParams(c.params);
    BodyHoldsNone(c);
    assert SeenCall(c) == c;
    NoEndInBody(c);
    WholeText(before, c.lead, body);
    assert text == lead + (FUNCTION + body);
    OpenFunction(lead, body);
    assert FunctionsOf([text]) == Functions(text) + FunctionsOf([text][1..]);
    CallFound(tools, keyText, 0, c, []);
    NoFunctions(tools, keyText, 1);
  }

  lemma NoEndInBody(c: WireCall)
    requires NamesRight(c) && !EndsEarly(c.params)
    ensures !Occurs(CALL_END, BodyText(c))
  {
    hide IndexOf, Occurs, OpensOnce, ParamsText, EndsEarly;
    EndInParams(c.params);
    NotInPlain(CALL_END, c.name + ">" + c.gap, ParamsText(c.params));
    assert c.name + ">" + c.gap + ParamsText(c.params) == BodyText(c);
  }

  lemma WholeText(before: string, lead: string, body: string)
    requires TextRight(before) && '<' !in lead && !Occurs(CALL_END, body)
    ensures var text := before + (CALL + (lead + (FUNCTION + body))); Contents(text) == [text]
    ensures !Occurs(FUNCTION, before + (CALL + lead))
  {
    hide IndexOf, Occurs, OpensOnce;
    TagsOpenOnce();
    var tail := lead + (FUNCTION + body);
    var text := before + (CALL + tail);
    IndexAfter(CALL, before, tail);
    NotInFront(CALL_END, FUNCTION, body, 1);
    NotInPlain(CALL_END, lead, FUNCTION + body);
    Cut(before, CALL + tail);
    Cut(CALL, tail);
    NoFirstNoTag(FUNCTION, lead);
    NotInFront(FUNCTION, CALL, lead, 1);
    NotAcross(FUNCTION, before, CALL + lead);
    IndexAfter(FUNCTION, before + (CALL + lead), body);
    assert text == before + (CALL + lead) + (FUNCTION + body);
  }

  /** One call with one parameter, letter by letter: what streaming emits, however it is cut, and what the
      one-shot parser finds. */
  lemma OneCallRead(tools: Tools, name: string, key: string, value: string, pieces: seq<string>)
    requires '<' !in name && '>' !in name && '<' !in key && '>' !in key
    requires !Occurs("</parameter>", value) && !Occurs("<parameter=", value)
    requires !Occurs("</function>", value) && !Occurs("</tool_call>", value)
    requires Concat(pieces) ==
      "<tool_call>" + "\n" + "<function=" + name + ">" + "\n" + "<parameter=" + key + ">" + "\n" + value + "\n"
      + "</parameter>" + "\n" + "</function>" + "\n" + "</tool_call>"
    ensures var o := Feed(Qwen(tools), START, "", pieces);
            var pair := tools.keyJson(key) + ": " + tools.valueJson(Some(name), key, value);
            && TextOf(o.events) + o.rest == ""
            && CallsOf(o.events) ==
                 [Item(0, Some(name), ""), Item(0, None, "{"), Item(0, None, pair), Item(0, None, "}")]
            && CallsIn(tools, tools.keyJson, 0, FunctionsOf(Contents(Concat(pieces)))) ==
               [ToolCallItem(0, name, "{" + pair + "}")]
  {
    hide Run, Feed, ReplyText, CallsIn, FunctionsOf, Contents, TextOf, CallsOf, Occurs, IndexOf, CallFragments,
      ObjectText, ReplyItems, SeenCall, LosesNewline, EndsEarly, Seen, PutAll, Written, WrittenPairs, SeenPairs,
      SeenParams, CallRight, ShotRight, TextRight, OutsideText, BodyText;
    var c := OneWireCall(name, key, value);
    OneCallRight(name, key, value);
    OneCallText(name, key, value);
    ParsersAgree(tools, tools.keyJson, "", [c], pieces);
    OneCallItems(tools, name, key, value);
    OneCallSeen(tools, name, key, value);
  }

  function OneWireCall(name: string, key: string, value: string): WireCall {
    WireCall("\n", name, "\n", [Param(key, "\n" + value + "\n", true, "\n")], "\n", "")
  }

  lemma OneCallText(name: string, key: string, value: string)
    ensures "" + ReplyText([OneWireCall(name, key, value)]) ==
            "<tool_call>" + "\n" + "<function=" + name + ">" + "\n" + "<parameter=" + key + ">" + "\n" + value + "\n"
            + "</parameter>" + "\n" + "</function>" + "\n" + "</tool_call>"
    ensures OutsideText([OneWireCall(name, key, value)]) == ""
  {
    var c := OneWireCall(name, key, value);
    assert [c][1..] == [] && c.params[1..] == [];
    assert ParamsText(c.params) == ParamText(c.params[0]) + "";
    assert ReplyText([c]) == CallText(c) + "";
    Regroup(CALL, FUNCTION, name, ">", PARAMETER, key, value, PARAMETER_END, FUNCTION_END, CALL_END, "\n");
  }

  lemma Regroup(call: string, function': string, name: string, angle: string, parameter: string, key: string,
                value: string, parameterEnd: string, functionEnd: string, callEnd: string, nl: string)
    ensures var param := parameter + (key + (angle + (nl + value + nl + (parameterEnd + nl)))) + "";
            "" + (call + (nl + (function' + ((name + (angle + (nl + param))) + (functionEnd + nl))) + (callEnd + ""))
              + "") ==
            call + nl + function' + name + angle + nl + parameter + key + angle + nl + value + nl
            + parameterEnd + nl + functionEnd + nl + callEnd
  {
  }

  lemma OneCallRight(name: string, key: string, value: string)
    requires '<' !in name && '>' !in name && '<' !in key && '>' !in key
    requires !Occurs("</parameter>", value) && !Occurs("<parameter=", value)
    requires !Occurs("</function>", value) && !Occurs("</tool_call>", value)
    ensures TextRight("") && ShotRight(OneWireCall(name, key, value))
    ensures var params := OneWireCall(name, key, value).params; !EndsEarly(params) && !LosesNewline(params)
  {
    hide Occurs, IndexOf;
    var c := OneWireCall(name, key, value);
    var p := c.params[0];
    assert c.params[1..] == [];
    EmptyRight();
    NotWrapped(PARAMETER_END, value);
    NotWrapped(PARAMETER, value);
    NotWrapped(FUNCTION_END, value);
    NotWrapped(CALL_END, value);
    assert ParamRight(p);
    assert forall x :: x in c.params ==> x == p;
    assert NamesRight(c);
    assert !EndsEarly(c.params[1..]);
  }

  lemma EmptyRight()
    ensures TextRight("")
  {
    NoFirstNoTag(CALL, "");
    NoFirstNoTag(CALL_END, "");
    NoFirstNoTag(FUNCTION, "");
    NoFirstNoTag(FUNCTION_END, "");
    NoFirstNoTag(PARAMETER, "");
  }

  lemma NotWrapped(tag: string, value: string)
    requires tag in {PARAMETER_END, PARAMETER, FUNCTION_END, CALL_END} && !Occurs(tag, value)
    ensures !Occurs(tag, "\n" + value + "\n")
  {
    hide Occurs;
    TagsOpenOnce();
    NoFirstNoTag(tag, "\n");
    NotBefore(tag, value, "\n");
    NotInPlain(tag, "\n", value + "\n");
    assert "\n" + (value + "\n") == "\n" + value + "\n";
  }

  lemma OneCallItems(tools: Tools, name: string, key: string, value: string)
    ensures var pair := tools.keyJson(key) + ": " + tools.valueJson(Some(name), key, value);
            ReplyItems(tools, 0, [OneWireCall(name, key, value)]) ==
            [Item(0, Some(name), ""), Item(0, None, "{"), Item(0, None, pair), Item(0, None, "}")]
  {
    hide Unwrap;
    var c := OneWireCall(name, key, value);
    var p := c.params[0];
    UnwrapExact("\n", value, "\n");
    assert p.raw == "\n" + (value + "\n");
    assert [c][1..] == [] && c.params[1..] == [];
    var pair := PairOf(tools, Some(name), p);
    var t := Counted(Begun(0, name));
    assert FragmentsOf(tools, Begun(0, name), p) == ["{", pair];
    assert FragmentsFor(tools, t, []) == ["}"];
    assert CallFragments(tools, c) == ["{", pair, "}"];
  }

  lemma OneCallSeen(tools: Tools, name: string, key: string, value: string)
    requires !EndsEarly(OneWireCall(name, key, value).params)
    ensures var c := OneWireCall(name, key, value);
            var pair := tools.keyJson(key) + ": " + tools.valueJson(Some(name), key, value);
            ObjectText(tools.keyJson, PutAll([], Seen(tools, SeenCall(c)))) == "{" + pair + "}"
  {
    hide Unwrap, IndexOf;
    var c := OneWireCall(name, key, value);
    var p := c.params[0];
    UnwrapExact("\n", value, "\n");
    assert p.raw == "\n" + (value + "\n");
    assert c.params[1..] == [];
    assert SeenParams(c.params) == c.params;
    assert SeenPairs(c.params) == [(key, value)];
    var e := Entry(key, tools.valueJson(Some(name), key, value));
    assert [(key, value)][1..] == [];
    assert Converted(tools, name, [(key, value)]) == [e];
    assert [e][1..] == [];
    assert PutAll([], [e]) == PutAll([e], []);
  }
}

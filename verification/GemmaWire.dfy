/** Gemma 4 replies as written: what streaming and the one-shot parser make of them. */
module GemmaWire {
  import opened Strings
  import opened Dictionaries
  import opened HoldBack
  import opened Events
  import opened Streaming
  import opened Cursors
  import opened GemmaParser
  import opened GemmaPrinter
  import opened GemmaRoundTrip
  import opened GemmaStream

  /** A call with its arguments, and the normal text after it. */
  datatype WireCall = WireCall(name: string, entries: Entries<Val>, trail: string)

  function BodyText(c: WireCall): string {
    PREFIX + (c.name + ("{" + (PrintEntries(c.entries) + "}")))
  }

  function CallText(c: WireCall): string {
    START_TOKEN + (BodyText(c) + (END_TOKEN + c.trail))
  }

  function ReplyText(calls: seq<WireCall>): string {
    if calls == [] then "" else CallText(calls[0]) + ReplyText(calls[1..])
  }

  ghost predicate CallRight(c: WireCall) {
    && c.name != "" && '{' !in c.name && Right(Dict(c.entries)) && !Occurs(START_TOKEN, c.trail)
  }

  /** A call's arguments are written out as the JSON text of what is parsed from them. */
  ghost predicate Dumps(tools: Tools, dumps: Entries<Val> -> string) {
    forall text {:trigger tools.argsJson(text)} ::
      Args(text, []).Some? ==> tools.argsJson(text) == dumps(Args(text, []).value)
  }

  lemma StringStep(t: string, depth: nat)
    requires depth > 0 && DELIM <= t
    ensures var rest := BehindString(t);
            if rest.None? then Nested(t, '{', '}', true, depth) == |t|
            else
              && Nested(t, '{', '}', true, depth) == |t| - |rest.value| + Nested(rest.value, '{', '}', true, depth)
              && MatchingBrace(t, depth) == Behind(|t| - |rest.value|, MatchingBrace(rest.value, depth))
  {
    hide IndexOf;
    var k := IndexOf(DELIM, t[|DELIM|..]);
    if k != -1 {
      DropDrop(t, |DELIM|, k + |DELIM|);
    }
  }

  lemma CharStep(t: string, depth: nat)
    requires depth > 0 && t != "" && !(DELIM <= t)
    ensures var d := if t[0] == '{' then depth + 1 else if t[0] == '}' then depth - 1 else depth;
            && Nested(t, '{', '}', true, depth) == 1 + Nested(t[1..], '{', '}', true, d)
            && MatchingBrace(t, depth) == if d == 0 then 0 else Behind(1, MatchingBrace(t[1..], d))
  {
  }

  /** Where the nested scan stops before the end of a text, it has found the matching brace. */
  lemma {:induction false} NestedIsBrace(t: string, depth: nat)
    requires depth > 0 && Nested(t, '{', '}', true, depth) < |t|
    ensures 0 <= MatchingBrace(t, depth) == Nested(t, '{', '}', true, depth) - 1
    decreases |t|
  {
    hide Nested, MatchingBrace, BehindString;
    if DELIM <= t {
      StringStep(t, depth);
      NestedIsBrace(BehindString(t).value, depth);
    } else {
      CharStep(t, depth);
      var d := if t[0] == '{' then depth + 1 else if t[0] == '}' then depth - 1 else depth;
      if d == 0 {
        NestedNone(t[1..], '{', '}', true);
      } else {
        NestedIsBrace(t[1..], d);
      }
    }
  }

  lemma ArgsEnd(entries: Entries<Val>, rest: string)
    requires EntriesPrintable(entries) && rest != ""
    ensures MatchingBrace(PrintEntries(entries) + ("}" + rest), 1) == |PrintEntries(entries)|
  {
    hide Nested, PrintEntries, EntriesPrintable, MatchingBrace;
    NestedEntries(entries, "}" + rest, '{', '}', 1);
    NestedChar('}', rest, '{', '}', 1);
    NestedNone(rest, '{', '}', true);
    NestedIsBrace(PrintEntries(entries) + ("}" + rest), 1);
  }

  predicate AtRest(s: State) {
    !s.inside && s.funcName == ""
  }

  /** What a call streams: its name, then its arguments in one piece. */
  function CallItems(tools: Tools, dumps: Entries<Val> -> string, c: WireCall): seq<Item> {
    [Item(tools.index(c.name), Some(c.name), "")] + [Item(tools.index(c.name), None, dumps(c.entries))]
  }

  function ReplyItems(tools: Tools, dumps: Entries<Val> -> string, calls: seq<WireCall>): seq<Item> {
    if calls == [] then [] else CallItems(tools, dumps, calls[0]) + ReplyItems(tools, dumps, calls[1..])
  }

  /** All the text outside calls. */
  function OutsideText(calls: seq<WireCall>): string {
    if calls == [] then "" else calls[0].trail + OutsideText(calls[1..])
  }

  /** One step taken. */
  lemma RunGo(tools: Tools, s: State, b: string, t: State, rest: string, items: seq<Item>)
    requires |rest| < |b| && b[|b| - |rest|..] == rest
    requires Advance(tools, s, b) == Go(t, |b| - |rest|, Calls(items))
    ensures Run(Gemma(tools), s, b) == After(Calls(items), Run(Gemma(tools), t, rest))
  {
  }

  lemma RunName(tools: Tools, s: State, c: WireCall, rest: string)
    requires s.inside && s.funcName == "" && CallRight(c)
    ensures Run(Gemma(tools), s, PREFIX + (c.name + ("{" + rest))) ==
            After(Calls([Item(tools.index(c.name), Some(c.name), "")]),
                  Run(Gemma(tools), s.(funcName := c.name, toolId := s.toolId + 1), rest))
  {
    hide Run, Calls, After, Right, Occurs;
    var front := PREFIX + c.name;
    var b := PREFIX + (c.name + ("{" + rest));
    assert b == front + ("{" + rest);
    NoFirstNoTag("{", front);
    IndexAfter("{", front, rest);
    OneCall(Item(tools.index(c.name), Some(c.name), ""));
    assert b[|PREFIX|..|front|] == c.name && b[|front| + 1..] == rest;
    RunGo(tools, s, b, s.(funcName := c.name, toolId := s.toolId + 1), rest,
          [Item(tools.index(c.name), Some(c.name), "")]);
  }

  lemma NoTokenInFront(entries: Entries<Val>, rest: string)
    requires EntriesPrintable(entries)
    ensures var b := PrintEntries(entries) + ("}" + rest); b != "" && b[0] != '<'
  {
    hide Printable, Print, MoreEntries;
    if entries != [] && entries[0].key != "" {
      assert entries[0].key[0] in entries[0].key;
    }
  }

  lemma RunArgs(tools: Tools, dumps: Entries<Val> -> string, s: State, c: WireCall, rest: string)
    requires s.inside && s.funcName == c.name && CallRight(c) && Dumps(tools, dumps) && rest != ""
    ensures Run(Gemma(tools), s, PrintEntries(c.entries) + ("}" + rest)) ==
            After(Calls([Item(tools.index(c.name), None, dumps(c.entries))]),
                  Run(Gemma(tools), s.(funcName := ""), rest))
  {
    hide Run, Calls, After, PrintEntries, EntriesPrintable, EntriesCut, MatchingBrace, Args;
    var args := PrintEntries(c.entries);
    var b := args + ("}" + rest);
    ArgsEnd(c.entries, rest);
    NoTokenInFront(c.entries, rest);
    RoundTrip(c.entries);
    assert b[..|args|] == args && b[|args| + 1..] == rest;
    OneCall(Item(tools.index(c.name), None, dumps(c.entries)));
    RunGo(tools, s, b, s.(funcName := ""), rest, [Item(tools.index(c.name), None, dumps(c.entries))]);
  }

  /** What stands between a call's tokens. */
  lemma RunInside(tools: Tools, dumps: Entries<Val> -> string, s: State, c: WireCall, rest: string)
    requires s.inside && s.funcName == "" && CallRight(c) && Dumps(tools, dumps) && rest != ""
    ensures Run(Gemma(tools), s, BodyText(c) + rest) ==
            After(Calls([Item(tools.index(c.name), Some(c.name), "")]),
                  After(Calls([Item(tools.index(c.name), None, dumps(c.entries))]),
                        Run(Gemma(tools), s.(toolId := s.toolId + 1), rest)))
  {
    hide Run, After, PrintEntries, CallRight, Dumps, Calls;
    var args := PrintEntries(c.entries) + ("}" + rest);
    assert BodyText(c) + rest == PREFIX + (c.name + ("{" + args));
    RunName(tools, s, c, args);
    RunArgs(tools, dumps, s.(funcName := c.name, toolId := s.toolId + 1), c, rest);
  }

  /** The whole of a call. */
  lemma RunCall(tools: Tools, dumps: Entries<Val> -> string, s: State, c: WireCall, rest: string)
    requires AtRest(s) && CallRight(c) && Dumps(tools, dumps)
    ensures Run(Gemma(tools), s, CallText(c) + rest) ==
            After(Calls(CallItems(tools, dumps, c)),
                  Run(Gemma(tools), s.(toolId := s.toolId + 1), c.trail + rest))
  {
    hide Run, After, BodyText, CallRight, Dumps, Calls;
    NoCalls<Item>();
    var end := END_TOKEN + (c.trail + rest);
    var b := BodyText(c) + end;
    assert CallText(c) + rest == START_TOKEN + b;
    var inside, past := s.(inside := true), s.(toolId := s.toolId + 1);
    RunGo(tools, s, START_TOKEN + b, inside, b, []);
    RunInside(tools, dumps, inside, c, end);
    RunGo(tools, past.(inside := true), end, past, c.trail + rest, []);
    CallTogether(Run(Gemma(tools), past, c.trail + rest), tools.index(c.name), c.name, dumps(c.entries));
  }

  lemma CallTogether(o: Outcome<State, Event<Item>>, index: int, name: string, json: string)
    ensures var first, second := Item(index, Some(name), ""), Item(index, None, json);
            After(Calls([]), After(Calls([first]), After(Calls([second]), After(Calls([]), o)))) ==
            After(Calls([first] + [second]), o)
  {
    hide After;
    var first, second := [Item(index, Some(name), "")], [Item(index, None, json)];
    NoCalls<Item>();
    AfterNothing(o);
    AfterAfter(Calls(first), Calls(second), o);
    AfterNothing(After(Calls(first) + Calls(second), o));
    assert (first + second)[1..] == second;
    OneCall(first[0]);
  }

  /** Text outside calls is emitted, up to the next call. */
  lemma RunBetween(tools: Tools, s: State, t: string, rest: string)
    requires AtRest(s) && !Occurs(START_TOKEN, t) && START_TOKEN <= rest
    ensures Run(Gemma(tools), s, t + rest) == After(Texts(t), Run(Gemma(tools), s, rest))
  {
    hide Run, Occurs, OpensOnce, SkipsTo, IndexOf, Skip;
    OutsideSkips(tools, s);
    var behind := rest[|START_TOKEN|..];
    assert rest == START_TOKEN + behind;
    IndexAfter(START_TOKEN, t, behind);
    SkipToToken(START_TOKEN, t + rest);
    RunSkips(Gemma(tools), s, START_TOKEN, t + rest, true);
    assert (t + rest)[..|t|] == t && (t + rest)[|t|..] == rest;
  }

  /** At the end, the text is emitted but for what is held back. */
  lemma RunTail(tools: Tools, s: State, t: string)
    requires AtRest(s) && !Occurs(START_TOKEN, t)
    ensures var o := Run(Gemma(tools), s, t);
            o.state == s && TextOf(o.events) + o.rest == t && CallsOf(o.events) == []
  {
    hide Run, SkipsTo, ShortestFrom, OpensOnce;
    OutsideSkips(tools, s);
    MovesHoldingBack(Gemma(tools), s, START_TOKEN, t, true);
    var end := |t| - ShortestFrom(t, START_TOKEN, 1);
    OfTexts<Item>(t[..end]);
  }

  /** A whole reply, from the text before its first call: the text outside calls comes out as normal
      text but for what is held back at the very end, and each call as its name and then the JSON text
      of the very arguments it was written from. */
  lemma {:induction false} RunReply(tools: Tools, dumps: Entries<Val> -> string, s: State, before: string,
                                    calls: seq<WireCall>)
    requires AtRest(s) && !Occurs(START_TOKEN, before) && Dumps(tools, dumps)
    requires forall c :: c in calls ==> CallRight(c)
    ensures var o := Run(Gemma(tools), s, before + ReplyText(calls));
            && o.state == s.(toolId := s.toolId + |calls|)
            && TextOf(o.events) + o.rest == before + OutsideText(calls)
            && CallsOf(o.events) == ReplyItems(tools, dumps, calls)
    decreases |calls|
  {
    hide Run, CallItems, CallText, Right, Dumps, Occurs, TextOf, CallsOf;
    if calls == [] {
      assert before + "" == before;
      RunTail(tools, s, before);
    } else {
      var c, more := calls[0], ReplyText(calls[1..]);
      assert c in calls && forall x :: x in calls[1..] ==> x in calls;
      CallOpens(c, more);
      RunBetween(tools, s, before, CallText(c) + more);
      RunCall(tools, dumps, s, c, more);
      var t := s.(toolId := s.toolId + 1);
      RunReply(tools, dumps, t, c.trail, calls[1..]);
      var o := Run(Gemma(tools), t, c.trail + more);
      OfCalls(CallItems(tools, dumps, c));
      TextAndCall(before, Calls(CallItems(tools, dumps, c)), o.events);
      assert before + TextOf(o.events) + o.rest == before + (TextOf(o.events) + o.rest);
      assert before + OutsideText(calls) == before + (c.trail + OutsideText(calls[1..]));
    }
  }

  lemma CallOpens(c: WireCall, more: string)
    ensures START_TOKEN <= CallText(c) + more
  {
  }
}

/** The one-shot Gemma 4 parser, and its agreement with the streaming one on a whole reply. */
module GemmaOneShot {
  import opened Strings
  import opened Dictionaries
  import opened Events
  import opened Streaming
  import opened GemmaParser
  import opened GemmaPrinter
  import opened GemmaRoundTrip
  import opened GemmaCuts
  import opened GemmaExact
  import opened GemmaEnds
  import opened GemmaStream
  import opened GemmaWire

  datatype ToolCallItem = ToolCallItem(toolIndex: int, name: string, parameters: string)

  /** A function name, and its arguments as written. */
  datatype Match = Match(name: string, args: string)

  /** What stands between the tokens of a call: none, or the call of a function. The arguments of one
      that is not closed run to the end. */
  function CallIn(inner: string): seq<Match> {
    var brace := IndexOf("{", inner);
    if !(PREFIX <= inner) || brace == -1 then []
    else
      var content := inner[brace + 1..];
      var end := MatchingBrace(content, 1);
      [Match(Slice(inner, |PREFIX|, brace), if end == -1 then content else content[..end])]
  }

  function Matches(text: string): seq<Match>
    decreases |text|
  {
    var start := IndexOf(START_TOKEN, text);
    if start == -1 then []
    else
      var tail := text[start..];
      var end := IndexOf(END_TOKEN, tail);
      if end == -1 then [] else CallIn(Slice(tail, |START_TOKEN|, end)) + Matches(tail[end + |END_TOKEN|..])
  }

  function ItemsOf(tools: Tools, matches: seq<Match>): seq<ToolCallItem> {
    seq(|matches|, i requires 0 <= i < |matches| =>
      ToolCallItem(tools.index(matches[i].name), matches[i].name, tools.argsJson(matches[i].args)))
  }

  lemma MatchesStep(text: string, from: nat, start: int, end: int)
    requires from <= |text| && start == FindFrom(START_TOKEN, text, from)
    requires start == -1 || end == FindFrom(END_TOKEN, text, start)
    ensures start == -1 || end == -1 ==> Matches(text[from..]) == []
    ensures start != -1 && end != -1 ==>
              from <= start <= end <= |text| - |END_TOKEN|
              && Matches(text[from..]) == CallIn(Slice(text, start + |START_TOKEN|, end))
                   + Matches(text[end + |END_TOKEN|..])
  {
    hide IndexOf, CallIn, Occurs, Matches;
    MatchesFirst(text[from..]);
    if start != -1 {
      DropDrop(text, from, start - from);
      if end != -1 {
        DropDrop(text, start, end - start + |END_TOKEN|);
        assert Slice(text[start..], |START_TOKEN|, end - start) == Slice(text, start + |START_TOKEN|, end);
      }
    }
  }

  lemma MatchesFirst(text: string)
    ensures var start := IndexOf(START_TOKEN, text);
            Matches(text) ==
            if start == -1 || IndexOf(END_TOKEN, text[start..]) == -1 then []
            else
              var end := IndexOf(END_TOKEN, text[start..]);
              CallIn(Slice(text[start..], |START_TOKEN|, end)) + Matches(text[start..][end + |END_TOKEN|..])
  {
    hide IndexOf, CallIn, Slice;
  }

  /** `_extract_tool_calls`. */
  method ExtractToolCalls(text: string) returns (results: seq<Match>)
    ensures results == Matches(text)
  {
    hide Matches, IndexOf, Slice, MatchingBrace;
    results := [];
    var searchFrom := 0;
    assert text[0..] == text;
    while true
      invariant 0 <= searchFrom <= |text|
      invariant results + Matches(text[searchFrom..]) == Matches(text)
      decreases |text| - searchFrom
    {
      var start := FindFrom(START_TOKEN, text, searchFrom);
      if start == -1 {
        MatchesStep(text, searchFrom, start, -1);
        break;
      }
      var end := FindFrom(END_TOKEN, text, start);
      MatchesStep(text, searchFrom, start, end);
      if end == -1 {
        break;
      }
      var inner := Slice(text, start + |START_TOKEN|, end);
      if PREFIX <= inner {
        var brace := IndexOf("{", inner);
        if brace != -1 {
          var argsContent := inner[brace + 1..];
          var matchIdx := FindMatchingBrace(argsContent);
          var args := if matchIdx == -1 then argsContent else argsContent[..matchIdx];
          results := results + [Match(Slice(inner, |PREFIX|, brace), args)];
        }
      }
      searchFrom := end + |END_TOKEN|;
    }
  }

  /** The calls of a text, and the text before the first of them; the whole text where no call stands. */
  method DetectAndParse(tools: Tools, text: string) returns (normal: string, calls: seq<ToolCallItem>)
    ensures calls == ItemsOf(tools, Matches(text))
    ensures normal == if Matches(text) == [] then text else Slice(text, 0, IndexOf(START_TOKEN, text))
  {
    hide Matches, IndexOf;
    calls := [];
    if IndexOf(START_TOKEN, text) == -1 {
      NoMatches(text);
      return text, [];
    }
    var matches := ExtractToolCalls(text);
    if matches == [] {
      return text, [];
    }
    for k := 0 to |matches|
      invariant calls == ItemsOf(tools, matches[..k])
    {
      calls := calls + [ToolCallItem(tools.index(matches[k].name), matches[k].name, tools.argsJson(matches[k].args))];
    }
    assert matches[..|matches|] == matches;
    var contentEnd := IndexOf(START_TOKEN, text);
    normal := if contentEnd > 0 then text[..contentEnd] else "";
  }

  lemma NoMatches(text: string)
    requires IndexOf(START_TOKEN, text) == -1
    ensures Matches(text) == []
  {
  }

  /** A matching brace is found without what follows it. */
  lemma {:induction false} BraceCut(t: string, e: string, depth: nat)
    requires depth > 0 && 0 <= MatchingBrace(t + e, depth) < |t|
    ensures MatchingBrace(t, depth) == MatchingBrace(t + e, depth)
    decreases |t|
  {
    hide BehindString;
    var w := t + e;
    var k := MatchingBrace(w, depth);
    assert w[0] == t[0] && w[1..] == t[1..] + e;
    if DELIM <= w {
      StringCut(t, e, k);
      BraceCut(BehindString(t).value, e, depth);
    } else if t[0] == '{' {
      BraceCut(t[1..], e, depth + 1);
    } else if t[0] != '}' {
      BraceCut(t[1..], e, depth);
    } else if depth > 1 {
      BraceCut(t[1..], e, depth - 1);
    }
  }

  lemma StringCut(t: string, e: string, k: nat)
    requires DELIM <= t + e && BehindString(t + e).Some? && k < |t|
    requires |t + e| - |BehindString(t + e).value| <= k
    ensures DELIM <= t && BehindString(t).Some? && BehindString(t + e) == Some(BehindString(t).value + e)
  {
    hide IndexOf;
    var u := t[|DELIM|..];
    assert (t + e)[|DELIM|..] == u + e;
    OccursInPrefix(DELIM, u, e, IndexOf(DELIM, u + e));
    StringExtends(t, e);
  }

  /** Arguments are found up to the brace behind them, though nothing follows it. */
  lemma ArgsFound(entries: Entries<Val>)
    requires EntriesPrintable(entries)
    ensures MatchingBrace(PrintEntries(entries) + "}", 1) == |PrintEntries(entries)|
  {
    hide PrintEntries, MatchingBrace, EntriesPrintable;
    var args := PrintEntries(entries);
    ArgsEnd(entries, " ");
    Assoc(args, "}", " ");
    BraceCut(args + "}", " ", 1);
  }

  /** The arguments up to the first end of a call in them. */
  function SeenArgs(c: WireCall): string {
    var args := PrintEntries(c.entries);
    var k := IndexOf(END_TOKEN, args);
    if k == -1 then args else args[..k]
  }

  /** What stands between the tokens of a call, as it is found. */
  function SeenBody(c: WireCall): string {
    PREFIX + (c.name + ("{" + (SeenArgs(c) + (if IndexOf(END_TOKEN, PrintEntries(c.entries)) == -1 then "}" else ""))))
  }

  /** Arguments cut off at an end of a call are not closed. */
  lemma NoneClosed(entries: Entries<Val>, k: nat)
    requires EntriesPrintable(entries) && k <= |PrintEntries(entries)|
    ensures MatchingBrace(PrintEntries(entries)[..k], 1) == -1
  {
    hide PrintEntries, MatchingBrace, EntriesPrintable;
    var args := PrintEntries(entries);
    ArgsFound(entries);
    if MatchingBrace(args[..k], 1) != -1 {
      BraceExtends(args[..k], args[k..] + "}", 1);
      assert args[..k] + (args[k..] + "}") == args + "}";
    }
  }

  lemma CallFound(c: WireCall)
    requires CallRight(c)
    ensures CallIn(SeenBody(c)) == [Match(c.name, SeenArgs(c))]
  {
    hide PrintEntries, MatchingBrace, EntriesPrintable, EntriesCut, IndexOf, OpensOnce, Occurs;
    var args := PrintEntries(c.entries);
    var k := IndexOf(END_TOKEN, args);
    if k == -1 {
      BraceFirst(c.name, args + "}");
      ArgsFound(c.entries);
      Cut(args, "}");
    } else {
      assert args[..k] + "" == args[..k];
      BraceFirst(c.name, args[..k]);
      NoneClosed(c.entries, k);
    }
  }

  lemma BraceFirst(name: string, content: string)
    requires '{' !in name
    ensures var inner, brace := PREFIX + (name + ("{" + content)), |PREFIX| + |name|;
            IndexOf("{", inner) == brace && inner[brace + 1..] == content && Slice(inner, |PREFIX|, brace) == name
  {
    hide IndexOf, OpensOnce, Occurs;
    var front := PREFIX + name;
    assert PREFIX + (name + ("{" + content)) == front + ("{" + content);
    NoFirstNoTag("{", front);
    BraceOpens();
    IndexAfter("{", front, content);
  }

  lemma BraceOpens()
    ensures OpensOnce("{")
  {
  }

  function Written(calls: seq<WireCall>): seq<Match> {
    if calls == [] then [] else [Match(calls[0].name, SeenArgs(calls[0]))] + Written(calls[1..])
  }

  lemma OneMatch(before: string, body: string, more: string)
    requires !Occurs(START_TOKEN, before) && !Occurs(END_TOKEN, body)
    ensures var text := before + (START_TOKEN + (body + (END_TOKEN + more)));
            IndexOf(START_TOKEN, text) == |before| && Matches(text) == CallIn(body) + Matches(more)
  {
    hide IndexOf, CallIn, Occurs, OpensOnce;
    TokensOpenOnce();
    var rest := body + (END_TOKEN + more);
    var tail := START_TOKEN + rest;
    IndexAfter(START_TOKEN, before, rest);
    Cut(before, tail);
    NotInFront(END_TOKEN, START_TOKEN, body, 1);
    assert tail == (START_TOKEN + body) + (END_TOKEN + more);
    IndexAfter(END_TOKEN, START_TOKEN + body, more);
    var end := |START_TOKEN| + |body|;
    assert Slice(tail, |START_TOKEN|, end) == body && tail[end + |END_TOKEN|..] == more;
  }

  lemma TokensOpenOnce()
    ensures OpensOnce(START_TOKEN) && OpensOnce(END_TOKEN)
  {
  }

  /** Names hold no `<`; and no call may start in one where an end of a call stands in its arguments. */
  ghost predicate ReplyRight(calls: seq<WireCall>) {
    forall c :: c in calls ==>
      CallRight(c) && '<' !in c.name
        && (IndexOf(END_TOKEN, PrintEntries(c.entries)) != -1 ==> !Occurs(START_TOKEN, BodyText(c)))
  }

  /** The end token does not reach into a closing brace. */
  lemma NotWithBrace(args: string)
    ensures IndexOf(END_TOKEN, args + "}") == IndexOf(END_TOKEN, args)
  {
    var i := IndexOf(END_TOKEN, args + "}");
    if IndexOf(END_TOKEN, args) != -1 {
      IndexOfExtends(END_TOKEN, args, "}");
    } else if i != -1 {
      if i + |END_TOKEN| <= |args| {
        OccursInPrefix(END_TOKEN, args, "}", i);
      } else {
        CharWithin(END_TOKEN, args + "}", i, |args|);
      }
    }
  }

  /** The text between the first end of a call and the next call. */
  function Leftover(c: WireCall): string {
    var args := PrintEntries(c.entries);
    var k := IndexOf(END_TOKEN, args);
    if k == -1 then c.trail else args[k + |END_TOKEN|..] + ("}" + (END_TOKEN + c.trail))
  }

  lemma BodySeen(c: WireCall, more: string)
    requires CallRight(c) && '<' !in c.name
    requires IndexOf(END_TOKEN, PrintEntries(c.entries)) != -1 ==> !Occurs(START_TOKEN, BodyText(c))
    ensures !Occurs(END_TOKEN, SeenBody(c)) && !Occurs(START_TOKEN, Leftover(c))
    ensures BodyText(c) + (END_TOKEN + (c.trail + more)) == SeenBody(c) + (END_TOKEN + (Leftover(c) + more))
  {
    hide IndexOf, Occurs, OpensOnce, PrintEntries, Right;
    var args := PrintEntries(c.entries);
    var front := PREFIX + c.name + "{";
    if IndexOf(END_TOKEN, args) == -1 {
      NotWithBrace(args);
      assert SeenBody(c) == BodyText(c) == front + (args + "}");
      IndexBehindPlain(END_TOKEN, front, args + "}");
    } else {
      assert BodyText(c) == front + (args + "}");
      CutBody(front, args, c.trail, more);
      assert SeenBody(c) == front + args[..IndexOf(END_TOKEN, args)];
    }
  }

  lemma CutBody(front: string, args: string, trail: string, more: string)
    requires '<' !in front && IndexOf(END_TOKEN, args) != -1 && !Occurs(START_TOKEN, trail)
    requires !Occurs(START_TOKEN, front + (args + "}"))
    ensures var k := IndexOf(END_TOKEN, args);
            var seen, left := front + args[..k], args[k + |END_TOKEN|..] + ("}" + (END_TOKEN + trail));
            && !Occurs(END_TOKEN, seen) && !Occurs(START_TOKEN, left)
            && front + (args + "}") + (END_TOKEN + (trail + more)) == seen + (END_TOKEN + (left + more))
  {
    hide IndexOf, Occurs, OpensOnce;
    var k := IndexOf(END_TOKEN, args);
    var rest := args[k + |END_TOKEN|..];
    NoneBeforeFirst(END_TOKEN, args);
    IndexBehindPlain(END_TOKEN, front, args[..k]);
    CutLeaves(front, args, trail);
    var seen, left := front + args[..k], rest + ("}" + (END_TOKEN + trail));
    assert args == args[..k] + (END_TOKEN + rest);
    assert front + (args + "}") + (END_TOKEN + (trail + more)) == seen + (END_TOKEN + (left + more));
  }

  lemma CutLeaves(front: string, args: string, trail: string)
    requires IndexOf(END_TOKEN, args) != -1 && !Occurs(START_TOKEN, trail) && !Occurs(START_TOKEN, front + (args + "}"))
    ensures !Occurs(START_TOKEN, args[IndexOf(END_TOKEN, args) + |END_TOKEN|..] + ("}" + (END_TOKEN + trail)))
  {
    hide IndexOf, Occurs, OpensOnce;
    TokensOpenOnce();
    var n := IndexOf(END_TOKEN, args) + |END_TOKEN|;
    var body := front + (args + "}");
    NotInPart(START_TOKEN, body, |front| + n, |body|);
    assert body[|front| + n..|body|] == args[n..] + "}";
    NotInFront(START_TOKEN, END_TOKEN, trail, 1);
    NotAcross(START_TOKEN, args[n..] + "}", END_TOKEN + trail);
    Assoc(args[n..], "}", END_TOKEN + trail);
  }

  lemma NoReply()
    ensures ReplyText([]) == ""
  {
  }

  lemma ReplyParts(calls: seq<WireCall>)
    requires calls != []
    ensures var c := calls[0];
            ReplyText(calls) == START_TOKEN + (BodyText(c) + (END_TOKEN + (c.trail + ReplyText(calls[1..]))))
  {
    hide BodyText;
  }

  lemma {:induction false} MatchesOfReply(before: string, calls: seq<WireCall>)
    requires !Occurs(START_TOKEN, before) && ReplyRight(calls)
    ensures Matches(before + ReplyText(calls)) == Written(calls)
    ensures IndexOf(START_TOKEN, before + ReplyText(calls)) == if calls == [] then -1 else |before|
    decreases |calls|
  {
    hide IndexOf, BodyText, SeenBody, SeenArgs, Leftover, OpensOnce, Occurs, Matches, CallIn, Right, DistinctKeys,
      ReplyText, PrintEntries;
    if calls == [] {
      NoReply();
      assert before + "" == before;
      NoMatches(before);
    } else {
      var c, more := calls[0], ReplyText(calls[1..]);
      assert c in calls && forall x :: x in calls[1..] ==> x in calls;
      ReplyParts(calls);
      BodySeen(c, more);
      OneMatch(before, SeenBody(c), Leftover(c) + more);
      CallFound(c);
      MatchesOfReply(Leftover(c), calls[1..]);
    }
  }

  /** What streaming emits for calls found at once: each name, and then the arguments. */
  function Streamed(items: seq<ToolCallItem>): seq<Item> {
    if items == [] then []
    else
      [Item(items[0].toolIndex, Some(items[0].name), "")] + [Item(items[0].toolIndex, None, items[0].parameters)]
      + Streamed(items[1..])
  }

  /** The parser ends on what the one-shot parser finds, cut off or not. */
  lemma SeenEnds(c: WireCall)
    requires CallRight(c)
    ensures Args(SeenArgs(c), []).Some?
  {
    hide Occurs, EntriesPrintable, EntriesCut, Args, PrintEntries, IndexOf;
    var args := PrintEntries(c.entries);
    var k := IndexOf(END_TOKEN, args);
    assert args[..|args|] == args;
    EntriesCutOffEnd(c.entries, if k == -1 then |args| else k, []);
  }

  lemma CallItem(tools: Tools, dumps: Entries<Val> -> string, c: WireCall)
    requires CallRight(c) && Dumps(tools, dumps)
    ensures Args(SeenArgs(c), []).Some? && tools.argsJson(SeenArgs(c)) == dumps(Args(SeenArgs(c), []).value)
    ensures IndexOf(END_TOKEN, PrintEntries(c.entries)) == -1 ==> tools.argsJson(SeenArgs(c)) == dumps(c.entries)
  {
    hide Occurs, EntriesRight, Args, PrintEntries, IndexOf;
    SeenEnds(c);
    RoundTrip(c.entries);
  }

  lemma {:induction false} WrittenAt(calls: seq<WireCall>)
    ensures |Written(calls)| == |calls|
    ensures forall i :: 0 <= i < |calls| ==> Written(calls)[i] == Match(calls[i].name, SeenArgs(calls[i]))
    decreases |calls|
  {
    hide SeenArgs;
    if calls != [] {
      WrittenAt(calls[1..]);
    }
  }

  /** Without an end of a call inside, what is found is what streaming emits. */
  lemma {:induction false} StreamedItems(tools: Tools, dumps: Entries<Val> -> string, calls: seq<WireCall>)
    requires ReplyRight(calls) && Dumps(tools, dumps)
    requires forall c :: c in calls ==> IndexOf(END_TOKEN, PrintEntries(c.entries)) == -1
    ensures ReplyItems(tools, dumps, calls) == Streamed(ItemsOf(tools, Written(calls)))
    decreases |calls|
  {
    hide Occurs, BodyText, Right, PrintEntries, IndexOf, SeenArgs, Dumps, CallRight;
    if calls != [] {
      assert calls[0] in calls && forall x :: x in calls[1..] ==> x in calls;
      CallItem(tools, dumps, calls[0]);
      StreamedItems(tools, dumps, calls[1..]);
      assert Written(calls)[1..] == Written(calls[1..]);
      assert ItemsOf(tools, Written(calls))[1..] == ItemsOf(tools, Written(calls[1..]));
    }
  }

  /** No string that an end of a call stands in is read as printed. */
  lemma EndIsNoTail(z: string)
    requires END_TOKEN <= z
    ensures !Tail(z)
  {
    forall i ensures !TailAt(z, i) {
      if TailAt(z, i) {
        EndNotThere(z, i);
      }
    }
  }

  lemma EndNotThere(z: string, i: int)
    requires END_TOKEN <= z && 0 <= i <= |z| && IsSuffix(z[..i], DELIM + DELIM)
    ensures exists c :: c in z[i..] && !Closer(c)
  {
    SuffixChars(z, i);
    DelimChars();
    assert z[0] == '<' && z[1] == 't';
    assert i == 0 ==> z[0] in z[i..];
  }

  lemma SuffixChars(z: string, i: int)
    requires 0 <= i <= |z| && IsSuffix(z[..i], DELIM + DELIM)
    ensures var d := DELIM + DELIM; (i > 0 ==> d[|d| - i] == z[0]) && (i > 1 ==> d[|d| - i + 1] == z[1])
  {
    var d := DELIM + DELIM;
    assert i > 0 ==> z[..i][0] == z[0];
    assert i > 1 ==> z[..i][1] == z[1];
  }

  lemma DelimChars()
    ensures var d := DELIM + DELIM; |d| == 10 && d[9] != '<' && forall k :: 0 <= k < |d| ==> d[k] != 't'
  {
  }

  /** The arguments that the one-shot parser reads are those of the call exactly when no end of a call
      stands in them. */
  lemma SeenAsPrinted(c: WireCall)
    requires CallRight(c)
    ensures Args(SeenArgs(c), []) == Some(c.entries) <==> IndexOf(END_TOKEN, PrintEntries(c.entries)) == -1
  {
    hide Args, PrintEntries, EntriesPrintable, EntriesCut, IndexOf, Tail, Occurs;
    var args := PrintEntries(c.entries);
    var k := IndexOf(END_TOKEN, args);
    if k == -1 {
      RoundTrip(c.entries);
    } else {
      assert [] + c.entries == c.entries;
      EntriesCutOff(c.entries, k, []);
      assert args[k..][..|END_TOKEN|] == args[k..k + |END_TOKEN|];
      EndIsNoTail(args[k..]);
    }
  }

  /** On a whole reply, however it is cut into pieces, streaming emits the JSON text of the very arguments
      that calls were written from, and the one-shot parser that of what their text up to the first end of
      a call in it is read as, on which it always ends: the same arguments exactly where there is none. The
      normal text differs: only streaming keeps what stands after the first call. */
  lemma ParsersAgree(tools: Tools, dumps: Entries<Val> -> string, before: string, calls: seq<WireCall>,
                     pieces: seq<string>)
    requires !Occurs(START_TOKEN, before) && ReplyRight(calls) && Dumps(tools, dumps)
    requires Concat(pieces) == before + ReplyText(calls)
    ensures var o := Feed(Gemma(tools), START, "", pieces);
            var items := ItemsOf(tools, Matches(before + ReplyText(calls)));
            && CallsOf(o.events) == ReplyItems(tools, dumps, calls) && |items| == |calls|
            && (forall i :: 0 <= i < |calls| ==>
                  && Args(SeenArgs(calls[i]), []).Some?
                  && items[i] == ToolCallItem(tools.index(calls[i].name), calls[i].name,
                       dumps(Args(SeenArgs(calls[i]), []).value))
                  && (Args(SeenArgs(calls[i]), []) == Some(calls[i].entries) <==>
                      IndexOf(END_TOKEN, PrintEntries(calls[i].entries)) == -1))
            && ((forall c :: c in calls ==> IndexOf(END_TOKEN, PrintEntries(c.entries)) == -1) ==>
                  CallsOf(o.events) == Streamed(items))
            && TextOf(o.events) + o.rest == before + OutsideText(calls)
            && o.state == START.(toolId := |calls| - 1)
  {
    hide Run, Feed, ReplyText, Occurs, Matches, Written, CallRight, Streamed, ReplyItems, TextOf, CallsOf, OutsideText,
      Dumps, SeenArgs, Args, IndexOf, PrintEntries;
    GemmaStable(tools);
    FeedIsRun(Gemma(tools), START, "", pieces);
    assert "" + Concat(pieces) == before + ReplyText(calls);
    RunReply(tools, dumps, START, before, calls);
    MatchesOfReply(before, calls);
    WrittenAt(calls);
    if forall c :: c in calls ==> IndexOf(END_TOKEN, PrintEntries(c.entries)) == -1 {
      StreamedItems(tools, dumps, calls);
    }
    forall i | 0 <= i < |calls|
      ensures Args(SeenArgs(calls[i]), []).Some?
      ensures tools.argsJson(SeenArgs(calls[i])) == dumps(Args(SeenArgs(calls[i]), []).value)
      ensures Args(SeenArgs(calls[i]), []) == Some(calls[i].entries) <==>
              IndexOf(END_TOKEN, PrintEntries(calls[i].entries)) == -1
    {
      CallItem(tools, dumps, calls[i]);
      SeenAsPrinted(calls[i]);
    }
  }

  /** One call with one text argument, letter by letter: what streaming emits, however it is cut, and what
      the one-shot parser finds. */
  lemma OneCallRead(tools: Tools, dumps: Entries<Val> -> string, name: string, key: string, value: string,
                    pieces: seq<string>)
    requires Dumps(tools, dumps) && name != "" && '{' !in name && '<' !in name
    requires Trim(key) && forall c :: c in key ==> c !in {'{', '}', '[', ']', '<', ':', ','}
    requires !Occurs("<|\"|>", value) && !Occurs("<tool_call|>", value)
    requires Concat(pieces) == "<|tool_call>" + "call:" + name + "{" + key + ":" + "<|\"|>" + value + "<|\"|>" + "}"
             + "<tool_call|>"
    ensures var o := Feed(Gemma(tools), START, "", pieces);
            var id, text := tools.index(name), dumps([Entry(key, Val.Text(value))]);
            && TextOf(o.events) + o.rest == ""
            && CallsOf(o.events) == [Item(id, Some(name), ""), Item(id, None, text)]
            && ItemsOf(tools, Matches(Concat(pieces))) == [ToolCallItem(id, name, text)]
  {
    hide Feed, TextOf, CallsOf, Matches, Occurs, IndexOf, Dumps, Strip, Args, SeenArgs, PrintEntries, CallRight;
    var entries := [Entry(key, Val.Text(value))];
    var c := WireCall(name, entries, "");
    assert [c][1..] == [];
    OneEntryRight(key, value);
    NoFirstNoTag(START_TOKEN, "");
    OneCallRight(c);
    Regroup(START_TOKEN, PREFIX, name, "{", key, ":", DELIM, value, "}", END_TOKEN);
    assert ReplyText([c]) == CallText(c) + "";
    ParsersAgree(tools, dumps, "", [c], pieces);
    NoMoreCalls(tools, dumps);
    assert CallItems(tools, dumps, c) ==
           [Item(tools.index(name), Some(name), ""), Item(tools.index(name), None, dumps(entries))];
  }

  lemma OneCallRight(c: WireCall)
    requires c.name != "" && '{' !in c.name && '<' !in c.name && Right(Dict(c.entries)) && c.trail == ""
    requires !Occurs(END_TOKEN, PrintEntries(c.entries))
    ensures ReplyRight([c])
  {
    hide Occurs, Right, PrintEntries;
    NoFirstNoTag(START_TOKEN, "");
  }

  lemma NoMoreCalls(tools: Tools, dumps: Entries<Val> -> string)
    ensures ReplyText([]) == "" && OutsideText([]) == "" && ReplyItems(tools, dumps, []) == []
  {
  }

  lemma OneEntryRight(key: string, value: string)
    requires Trim(key) && forall c :: c in key ==> c !in {'{', '}', '[', ']', '<', ':', ','}
    requires !Occurs(DELIM, value) && !Occurs(END_TOKEN, value)
    ensures var entries := [Entry(key, Val.Text(value))];
            && PrintEntries(entries) == key + (":" + (DELIM + (value + DELIM) + ""))
            && Right(Dict(entries)) && IndexOf(END_TOKEN, PrintEntries(entries)) == -1
  {
    hide Occurs, Strip;
    var entries := [Entry(key, Val.Text(value))];
    assert entries[1..] == [];
    StripTrims("", key, "");
    assert "" + (key + "") == key;
    forall c | c in key ensures Plain(c) && c != ':' {
      assert c !in {'{', '}', '[', ']', '<', ':', ','};
    }
    assert key == "" || key[0] in key;
    assert Printable(Val.Text(value)) && KeyRight(key);
    assert EntriesPrintable([]) && EntriesCut([]);
    assert EntriesPrintable(entries) && EntriesCut(entries);
    assert DELIM + "" == DELIM;
    NoFirstNoTag(END_TOKEN, "");
    NotInFront(END_TOKEN, DELIM, "", 1);
    NotAcross(END_TOKEN, value, DELIM);
    NotInFront(END_TOKEN, DELIM, value + DELIM, 1);
    NotInPlain(END_TOKEN, key + ":", DELIM + (value + DELIM));
    assert key + ":" + (DELIM + (value + DELIM)) == key + (":" + (DELIM + (value + DELIM) + ""));
  }

  lemma Regroup(start: string, prefix: string, name: string, open: string, key: string, colon: string, delim: string,
                value: string, close: string, end: string)
    ensures var entries := key + (colon + (delim + (value + delim) + ""));
            "" + (start + (prefix + (name + (open + (entries + close))) + (end + "")) + "") ==
            start + prefix + name + open + key + colon + delim + value + delim + close + end
  {
  }
}

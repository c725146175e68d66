/** The IQuest detector: the one-shot and the streaming parser over one object's buffer. */
module IQuestDetector {
  import opened Strings
  import opened HoldBack
  import opened Events
  import opened Streaming
  import opened Cursors
  import opened IQuestSpec

  datatype ToolCallItem = ToolCallItem(toolIndex: nat, name: string, parameters: string)

  /** Calls as items whose indices count on from `first`. */
  function Numbered(first: nat, calls: seq<Call>): (items: seq<ToolCallItem>)
    ensures |items| == |calls|
    ensures forall i :: 0 <= i < |calls| ==> items[i] == ToolCallItem(first + i, calls[i].name, calls[i].parameters)
  {
    seq(|calls|, i requires 0 <= i < |calls| => ToolCallItem(first + i, calls[i].name, calls[i].parameters))
  }

  lemma NumberedConcat(first: nat, x: seq<Call>, y: seq<Call>)
    ensures Numbered(first, x + y) == Numbered(first, x) + Numbered(first + |x|, y)
  {
  }

  function Parameters(calls: seq<Call>): (parameters: seq<string>)
    ensures |parameters| == |calls| && forall i :: 0 <= i < |calls| ==> parameters[i] == calls[i].parameters
  {
    seq(|calls|, i requires 0 <= i < |calls| => calls[i].parameters)
  }

  /** What has been emitted amounts to the events. */
  ghost predicate Emitted(events: seq<Event<Call>>, before: seq<Call>, now: seq<Call>, normal: string,
                          calls: seq<ToolCallItem>) {
    && normal == TextOf(events) && now == before + CallsOf(events)
    && calls == Numbered(|before|, CallsOf(events))
  }

  lemma EmittedNothing(before: seq<Call>)
    ensures Emitted([], before, before, "", [])
  {
    assert before + [] == before;
  }

  lemma EmittedMeans(events: seq<Event<Call>>, before: seq<Call>, now: seq<Call>, normal: string,
                     calls: seq<ToolCallItem>)
    requires Emitted(events, before, now, normal, calls)
    ensures normal == TextOf(events) && now == before + CallsOf(events)
    ensures calls == Numbered(|before|, CallsOf(events))
  {
  }

  lemma EmittedText(events: seq<Event<Call>>, before: seq<Call>, now: seq<Call>, normal: string,
                    calls: seq<ToolCallItem>, text: string)
    requires Emitted(events, before, now, normal, calls)
    ensures Emitted(events + Texts(text), before, now, normal + text, calls)
  {
    OfConcat(events, Texts(text));
    OfTexts<Call>(text);
  }

  lemma EmittedRejected(events: seq<Event<Call>>, before: seq<Call>, now: seq<Call>, normal: string,
                        calls: seq<ToolCallItem>, parse: BodyParser, body: string)
    requires Emitted(events, before, now, normal, calls) && parse(body).None?
    ensures Emitted(events + BlockEvents(parse, body), before, now, normal + (BOT + body + EOT), calls)
  {
    EmittedText(events, before, now, normal, calls, BOT + body + EOT);
  }

  lemma EmittedBlock(events: seq<Event<Call>>, before: seq<Call>, now: seq<Call>, normal: string,
                     calls: seq<ToolCallItem>, parse: BodyParser, body: string)
    requires Emitted(events, before, now, normal, calls) && parse(body).Some?
    ensures var blockCalls := parse(body).value;
            Emitted(events + BlockEvents(parse, body), before, now + blockCalls, normal,
                    calls + Numbered(|now|, blockCalls))
  {
    hide TextOf, CallsOf, Calls;
    var blockCalls := parse(body).value;
    OfConcat(events, Calls(blockCalls));
    OfCalls(blockCalls);
    NumberedConcat(|before|, CallsOf(events), blockCalls);
    assert |CallsOf(events)| == |calls|;
  }

  class Detector {
    const parse: BodyParser
    var buffer: string
    var insideCall: bool
    var prevToolCallArr: seq<Call>
    var streamedArgsForTool: seq<string>
    var currentToolId: int

    constructor (parse: BodyParser)
      ensures this.parse == parse && buffer == "" && !insideCall
      ensures prevToolCallArr == [] && Valid()
    {
      this.parse := parse;
      buffer, insideCall := "", false;
      prevToolCallArr, streamedArgsForTool, currentToolId := [], [], -1;
    }

    /** Parse a whole text: blocks that parse become calls, all else stays normal text. */
    method DetectAndParse(text: string) returns (normal: string, calls: seq<ToolCallItem>)
      ensures normal == TextOf(OneShot(parse, text))
      ensures calls == Numbered(0, CallsOf(OneShot(parse, text)))
    {
      hide Parsed, Numbered, OneShot, TextOf, CallsOf, FindFrom;
      normal, calls := "", [];
      ghost var found: seq<Call> := [];
      var contentStart, search := 0, 0;
      ParsedNothing(parse, text);
      var start := FindFrom(BOT, text, search);
      while start >= 0
        invariant 0 <= contentStart <= search <= |text|
        invariant Parsed(parse, text, contentStart, search, normal, found)
        invariant start == FindFrom(BOT, text, search)
        invariant calls == Numbered(0, found) && |calls| == |found|
        decreases |text| - search
      {
        var begin := start + |BOT|;
        var end := FindFrom(EOT, text, begin);
        if end < 0 {
          break;
        }
        ParsedBlock(parse, text, contentStart, search, normal, found, start, end);
        var action := parse(text[begin..end]);
        search := end + |EOT|;
        if action.Some? {
          NumberedConcat(0, found, action.value);
          calls := calls + Numbered(|calls|, action.value);
          found := found + action.value;
          normal := normal + text[contentStart..start];
          contentStart := search;
        }
        start := FindFrom(BOT, text, search);
      }
      ParsedEnd(parse, text, contentStart, search, normal, found, start);
      normal := normal + text[contentStart..];
    }

    /** Where the object stands after a run of the machine: its state, its buffer, its calls. */
    ghost predicate StandsAt(o: Outcome<bool, Event<Call>>, before: seq<Call>)
      reads this
    {
      insideCall == o.state && buffer == o.rest && prevToolCallArr == before + CallsOf(o.events)
    }

    /** The records of the calls made so far agree. */
    ghost predicate Valid()
      reads this`prevToolCallArr, this`streamedArgsForTool, this`currentToolId
    {
      && streamedArgsForTool == Parameters(prevToolCallArr)
      && currentToolId == |prevToolCallArr| - 1
    }

    /** Take in another piece of text: emit what can be told for sure and keep the rest. */
    method ParseStreamingIncrement(newText: string) returns (normal: string, calls: seq<ToolCallItem>)
      requires Valid()
      modifies this
      ensures Valid()
      ensures var o := Run(IQuest(parse), old(insideCall), old(buffer) + newText);
              && StandsAt(o, old(prevToolCallArr))
              && normal == TextOf(o.events)
              && calls == Numbered(|old(prevToolCallArr)|, CallsOf(o.events))
    {
      hide Run, Advance, TextOf, CallsOf, Numbered, BlockEvents, Texts, IQuest, IndexOf, Valid, Emitted, ShortestFrom,
        Going;
      buffer := buffer + newText;
      normal, calls := "", [];
      ghost var all := Run(IQuest(parse), insideCall, buffer);
      ghost var events: seq<Event<Call>> := [];
      GoingFromStart(IQuest(parse), insideCall, buffer);
      EmittedNothing(prevToolCallArr);
      while true
        invariant Going(IQuest(parse), all, events, insideCall, buffer)
        invariant Emitted(events, old(prevToolCallArr), prevToolCallArr, normal, calls) && Valid()
        decreases |buffer|, !insideCall
      {
        if !insideCall {
          var more: bool;
          more, normal, events := TakeText(all, events, old(prevToolCallArr), normal, calls);
          if !more {
            break;
          }
        }
        GoingPastBlock(parse, all, events, buffer);
        var end := IndexOf(EOT, buffer);
        if end < 0 {
          break;
        }
        var body := buffer[..end];
        buffer := buffer[end + |EOT|..];
        insideCall := false;
        normal, calls := TakeBlock(body, events, old(prevToolCallArr), normal, calls);
        events := events + BlockEvents(parse, body);
      }
      EmittedMeans(events, old(prevToolCallArr), prevToolCallArr, normal, calls);
    }

    /** Emit the text up to a block and step over the block's token; or, without one, all the text but
        what may become it. */
    method TakeText(ghost all: Outcome<bool, Event<Call>>, ghost events: seq<Event<Call>>, ghost before: seq<Call>,
                    normal: string, calls: seq<ToolCallItem>)
        returns (more: bool, normal': string, ghost events': seq<Event<Call>>)
      requires !insideCall && Going(IQuest(parse), all, events, false, buffer)
      requires Valid() && Emitted(events, before, prevToolCallArr, normal, calls)
      modifies this`buffer, this`insideCall
      ensures Valid() && Emitted(events', before, prevToolCallArr, normal', calls)
      ensures more ==> insideCall && |buffer| < |old(buffer)| && Going(IQuest(parse), all, events', true, buffer)
      ensures !more ==> all == Outcome(insideCall, buffer, events')
    {
      hide Run, Texts, IQuest, IndexOf, Emitted, ShortestFrom, Going;
      var start := IndexOf(BOT, buffer);
      if start < 0 {
        var keep := EndsWithPartialToken(buffer, BOT);
        var end := |buffer| - keep;
        GoingNowhere(parse, all, events, buffer);
        EmittedText(events, before, prevToolCallArr, normal, calls, buffer[..end]);
        events' := events + Texts(buffer[..end]);
        normal' := normal + buffer[..end];
        buffer := buffer[end..];
        return false, normal', events';
      }
      GoingToToken(parse, all, events, buffer);
      EmittedText(events, before, prevToolCallArr, normal, calls, buffer[..start]);
      events' := events + Texts(buffer[..start]);
      normal' := normal + buffer[..start];
      buffer := buffer[start + |BOT|..];
      insideCall := true;
      more := true;
    }

    /** Act on a block: its calls are recorded, or its text is kept when it holds none. */
    method TakeBlock(body: string, ghost events: seq<Event<Call>>, ghost before: seq<Call>, normal: string,
                     calls: seq<ToolCallItem>)
        returns (normal': string, calls': seq<ToolCallItem>)
      requires Valid() && Emitted(events, before, prevToolCallArr, normal, calls)
      modifies this
      ensures Valid() && buffer == old(buffer) && insideCall == old(insideCall)
      ensures Emitted(events + BlockEvents(parse, body), before, prevToolCallArr, normal', calls')
    {
      hide Emitted, BlockEvents, Numbered, Valid;
      normal', calls' := normal, calls;
      var action := parse(body);
      if action.None? {
        EmittedRejected(events, before, prevToolCallArr, normal, calls, parse, body);
        normal' := normal + (BOT + body + EOT);
      } else {
        EmittedBlock(events, before, prevToolCallArr, normal, calls, parse, body);
        var items := AppendCalls(action.value);
        calls' := calls + items;
      }
    }

    /** Record the calls of a block, numbering them on. */
    method AppendCalls(blockCalls: seq<Call>) returns (items: seq<ToolCallItem>)
      requires Valid()
      modifies this
      ensures Valid() && buffer == old(buffer) && insideCall == old(insideCall)
      ensures prevToolCallArr == old(prevToolCallArr) + blockCalls
      ensures items == Numbered(|old(prevToolCallArr)|, blockCalls)
    {
      items := [];
      for k := 0 to |blockCalls|
        invariant prevToolCallArr == old(prevToolCallArr) + blockCalls[..k]
        invariant items == Numbered(|old(prevToolCallArr)|, blockCalls[..k])
        invariant Valid() && buffer == old(buffer) && insideCall == old(insideCall)
      {
        var call := blockCalls[k];
        var index := |prevToolCallArr|;
        items := items + [ToolCallItem(index, call.name, call.parameters)];
        assert blockCalls[..k + 1] == blockCalls[..k] + [call];
        prevToolCallArr := prevToolCallArr + [call];
        streamedArgsForTool := streamedArgsForTool + [call.parameters];
        currentToolId := index;
      }
      assert blockCalls[..|blockCalls|] == blockCalls;
    }

    /** End of input: whatever was held back is normal text. */
    method Finish() returns (normal: string)
      requires Valid()
      modifies this`buffer, this`insideCall
      ensures Valid() && prevToolCallArr == old(prevToolCallArr) && currentToolId == old(currentToolId)
      ensures normal == (if old(insideCall) then BOT else "") + old(buffer)
      ensures buffer == "" && !insideCall
    {
      normal := (if insideCall then BOT else "") + buffer;
      buffer, insideCall := "", false;
    }
  }

  /** `w.find(p, from)`. */
  function FindFrom(p: string, w: string, from: nat): (i: int)
    requires from <= |w|
    ensures i == -1 || from <= i <= |w| - |p|
  {
    var k := IndexOf(p, w[from..]);
    if k == -1 then -1 else from + k
  }

  /** The text up to `search` is parsed: `normal` and the text from `contentStart` are what it left,
      and `found` the calls it held. */
  ghost predicate Parsed(parse: BodyParser, text: string, contentStart: nat, search: nat, normal: string,
                         found: seq<Call>) {
    && contentStart <= search <= |text|
    && TextOf(OneShot(parse, text)) == normal + text[contentStart..search] + TextOf(OneShot(parse, text[search..]))
    && CallsOf(OneShot(parse, text)) == found + CallsOf(OneShot(parse, text[search..]))
  }

  lemma ParsedNothing(parse: BodyParser, text: string)
    ensures Parsed(parse, text, 0, 0, "", []) && Numbered(0, []) == []
  {
    assert text[0..] == text && text[0..0] == "";
  }

  lemma OneShotBlock(parse: BodyParser, text: string, start: nat, end: nat)
    requires IndexOf(BOT, text) == start && IndexOf(EOT, text[start + |BOT|..]) == end
    ensures OneShot(parse, text)
         == Texts(text[..start]) + BlockEvents(parse, text[start + |BOT|..start + |BOT| + end])
            + OneShot(parse, text[start + |BOT| + end + |EOT|..])
  {
    hide Texts, BlockEvents, IndexOf;
  }

  /** One block of the one-shot parse, as text and calls. */
  lemma BlockTextAndCalls(parse: BodyParser, before: string, body: string, rest: seq<Event<Call>>)
    ensures var events := Texts(before) + BlockEvents(parse, body) + rest;
            match parse(body)
            case None =>
              TextOf(events) == before + (BOT + body + EOT) + TextOf(rest) && CallsOf(events) == CallsOf(rest)
            case Some(calls) =>
              TextOf(events) == before + TextOf(rest) && CallsOf(events) == calls + CallsOf(rest)
  {
    hide Texts, Calls, TextOf, CallsOf;
    OfConcat(Texts(before), BlockEvents(parse, body));
    OfConcat(Texts(before) + BlockEvents(parse, body), rest);
    OfTexts<Call>(before);
    match parse(body)
    case None =>
      OfTexts<Call>(BOT + body + EOT);
    case Some(calls) =>
      OfCalls(calls);
  }

  /** A block further: rejected, its text is kept; accepted, it separates two stretches of text. */
  lemma BlockThere(parse: BodyParser, text: string, search: nat, start: nat, end: nat)
    requires search <= |text| && FindFrom(BOT, text, search) == start && FindFrom(EOT, text, start + |BOT|) == end
    ensures OneShot(parse, text[search..])
         == Texts(text[search..start]) + BlockEvents(parse, text[start + |BOT|..end])
           + OneShot(parse, text[end + |EOT|..])
  {
    hide Texts, IndexOf, OneShot, BlockEvents, Occurs, OccursAt;
    var begin, tail := start + |BOT|, text[search..];
    assert tail[start - search + |BOT|..] == text[begin..];
    OneShotBlock(parse, tail, start - search, end - begin);
    assert tail[begin - search..end - search] == text[begin..end];
    assert tail[end - search + |EOT|..] == text[end + |EOT|..];
    assert tail[..start - search] == text[search..start];
  }

  lemma ParsedBlock(parse: BodyParser, text: string, contentStart: nat, search: nat, normal: string, found: seq<Call>,
                    start: nat, end: nat)
    requires contentStart <= search <= |text| && FindFrom(BOT, text, search) == start
    requires FindFrom(EOT, text, start + |BOT|) == end
    requires Parsed(parse, text, contentStart, search, normal, found)
    ensures parse(text[start + |BOT|..end]).None? ==>
              Parsed(parse, text, contentStart, end + |EOT|, normal, found)
    ensures parse(text[start + |BOT|..end]).Some? ==>
              Parsed(parse, text, end + |EOT|, end + |EOT|, normal + text[contentStart..start],
                     found + parse(text[start + |BOT|..end]).value)
  {
    hide Texts, Calls, TextOf, CallsOf, IndexOf, OneShot, BlockEvents;
    var begin, tail := start + |BOT|, text[search..];
    BlockThere(parse, text, search, start, end);
    assert tail[start - search + |BOT|..] == text[begin..];
    BlockTextAndCalls(parse, text[search..start], text[begin..end], OneShot(parse, text[end + |EOT|..]));
    assert OccursAt(BOT, tail, start - search);
    assert OccursAt(EOT, text[begin..], end - begin);
    CutBlock(text, search, start, begin, end);
    SlicesJoin(text, contentStart, search, start);
    SlicesJoin(text, contentStart, search, end + |EOT|);
  }

  lemma SlicesJoin(text: string, i: nat, j: nat, k: nat)
    requires i <= j <= k <= |text|
    ensures text[i..j] + text[j..k] == text[i..k]
  {
  }

  lemma CutBlock(text: string, search: nat, start: nat, begin: nat, end: nat)
    requires search <= start && begin == start + |BOT| <= end <= |text| - |EOT|
    requires OccursAt(BOT, text[search..], start - search) && OccursAt(EOT, text[begin..], end - begin)
    ensures text[search..end + |EOT|] == text[search..start] + (BOT + text[begin..end] + EOT)
  {
    TagThere(BOT, text, search, start);
    TagThere(EOT, text, begin, end);
    SlicesJoin(text, start, begin, end);
    SlicesJoin(text, start, end, end + |EOT|);
    SlicesJoin(text, search, start, end + |EOT|);
  }

  lemma TagThere(tag: string, text: string, from: nat, i: nat)
    requires from <= i <= |text| - |tag| && OccursAt(tag, text[from..], i - from)
    ensures text[i..i + |tag|] == tag
  {
    assert text[from..][i - from..i - from + |tag|] == text[i..i + |tag|];
  }

  lemma OneShotEnd(parse: BodyParser, text: string)
    requires IndexOf(BOT, text) == -1 || IndexOf(EOT, text[IndexOf(BOT, text) + |BOT|..]) == -1
    ensures TextOf(OneShot(parse, text)) == text && CallsOf(OneShot(parse, text)) == []
  {
    hide Texts, TextOf, CallsOf;
    OfTexts<Call>(text);
  }

  lemma OneShotEndFrom(parse: BodyParser, text: string, search: nat, start: int)
    requires search <= |text| && start == FindFrom(BOT, text, search)
    requires start == -1 || FindFrom(EOT, text, start + |BOT|) == -1
    ensures TextOf(OneShot(parse, text[search..])) == text[search..] && CallsOf(OneShot(parse, text[search..])) == []
  {
    hide TextOf, CallsOf, OneShot, IndexOf;
    assert start != -1 ==> text[search..][start - search + |BOT|..] == text[start + |BOT|..];
    OneShotEnd(parse, text[search..]);
  }

  /** No further block: the rest is text. */
  lemma ParsedEnd(parse: BodyParser, text: string, contentStart: nat, search: nat, normal: string, found: seq<Call>,
                  start: int)
    requires contentStart <= search <= |text| && start == FindFrom(BOT, text, search)
    requires start == -1 || FindFrom(EOT, text, start + |BOT|) == -1
    requires Parsed(parse, text, contentStart, search, normal, found)
    ensures TextOf(OneShot(parse, text)) == normal + text[contentStart..]
    ensures CallsOf(OneShot(parse, text)) == found
  {
    hide TextOf, CallsOf, OneShot, FindFrom;
    OneShotEndFrom(parse, text, search, start);
    assert text[contentStart..] == text[contentStart..search] + text[search..];
  }
}

/** The IQuest detector as a machine, and its one-shot parse as a function. */
module IQuestSpec {
  import opened Strings
  import opened HoldBack
  import opened Events
  import opened Streaming
  import opened Cursors

  const BOT := "<iquest_tool_call>"
  const EOT := "</iquest_tool_call>"

  datatype Call = Call(name: string, parameters: string)

  /** What a block's body parses to: nothing where it is malformed, else the calls to known tools. */
  type BodyParser = string -> Option<seq<Call>>

  /** One step; the state says whether an opening token has been used up. */
  function Advance(parse: BodyParser, inside: bool, b: string): Step<bool, Event<Call>> {
    if !inside then
      if BOT <= b then Go(true, |BOT|, [])
      else if b == "" || IsPartial(BOT, b) then Wait
      else Go(false, 1, [Text(b[0])])
    else
      var end := IndexOf(EOT, b);
      if end == -1 then Wait
      else Go(false, end + |EOT|, BlockEvents(parse, b[..end]))
  }

  /** A malformed block is normal text, tokens included. */
  function BlockEvents(parse: BodyParser, body: string): seq<Event<Call>> {
    match parse(body)
    case None => Texts(BOT + body + EOT)
    case Some(calls) => Calls(calls)
  }

  function IQuest(parse: BodyParser): Machine<bool, Event<Call>> {
    Machine((inside, b) => Advance(parse, inside, b), inside => 0)
  }

  lemma StepExtends(parse: BodyParser, inside: bool, b: string, e: string)
    requires Advance(parse, inside, b).Go?
    ensures Advance(parse, inside, b + e) == Advance(parse, inside, b)
  {
    hide IndexOf, Occurs, BlockEvents;
    if inside {
      IndexOfExtends(EOT, b, e);
      var end := IndexOf(EOT, b);
      assert (b + e)[..end] == b[..end];
    } else if !(BOT <= b) {
      assert (b + e)[0] == b[0];
      PrefixOfExtension(BOT, b, e);
    }
  }

  lemma IQuestStable(parse: BodyParser)
    ensures Stable(IQuest(parse))
  {
    hide Advance;
    var m := IQuest(parse);
    forall inside, b, e | Advances(m, inside, b) ensures m.step(inside, b + e) == m.step(inside, b) {
      StepExtends(parse, inside, b, e);
    }
  }

  /** Text and blocks in order: the one-shot parse. */
  function OneShot(parse: BodyParser, text: string): seq<Event<Call>>
    decreases |text|
  {
    var start := IndexOf(BOT, text);
    if start == -1 then Texts(text)
    else
      var begin := start + |BOT|;
      var end := IndexOf(EOT, text[begin..]);
      if end == -1 then Texts(text)
      else
        var body := text[begin..begin + end];
        Texts(text[..start]) + BlockEvents(parse, body) + OneShot(parse, text[begin + end + |EOT|..])
  }

  /** The text `finish` returns: what was held back, after the opening token if one was used up. */
  function Leftover(o: Outcome<bool, Event<Call>>): string {
    (if o.state then BOT else "") + o.rest
  }

  lemma OutsideSkips(parse: BodyParser)
    ensures SkipsTo(IQuest(parse), false, BOT, true)
  {
  }

  lemma RunInside(parse: BodyParser, b: string)
    ensures var m, end := IQuest(parse), IndexOf(EOT, b);
            Run(m, true, b) ==
              if end == -1 then Outcome(true, b, [])
              else After(BlockEvents(parse, b[..end]), Run(m, false, b[end + |EOT|..]))
  {
  }

  lemma RunToToken(parse: BodyParser, text: string)
    requires IndexOf(BOT, text) != -1
    ensures var start := IndexOf(BOT, text);
            Run(IQuest(parse), false, text)
            == After(Texts(text[..start]), Run(IQuest(parse), true, text[start + |BOT|..]))
  {
    hide IndexOf, Occurs, SkipsTo, Run, IQuest, Texts;
    var start := IndexOf(BOT, text);
    OutsideSkips(parse);
    RunSkips(IQuest(parse), false, BOT, text, true);
    SkipToToken(BOT, text);
    var b := text[start..];
    assert b[|BOT|..] == text[start + |BOT|..];
    RunTakesToken(parse, b);
  }

  lemma RunTakesToken(parse: BodyParser, b: string)
    requires BOT <= b
    ensures Run(IQuest(parse), false, b) == Run(IQuest(parse), true, b[|BOT|..])
  {
    var m := IQuest(parse);
    assert Advances(m, false, b);
    assert [] + Run(m, true, b[|BOT|..]).events == Run(m, true, b[|BOT|..]).events;
  }

  lemma TokenOpensOnce()
    ensures OpensOnce(BOT)
  {
  }

  /** Without a token, all but what must be held back is emitted. */
  lemma RunHoldsBack(parse: BodyParser, text: string)
    requires IndexOf(BOT, text) == -1
    ensures var end := |text| - ShortestFrom(text, BOT, 1);
            0 <= end <= |text| &&
            Run(IQuest(parse), false, text) == Outcome(false, text[end..], Texts(text[..end]))
  {
    hide ShortestFrom, IndexOf, Occurs, OccursAt, OpensOnce, Run, SkipsTo, IQuest;
    OutsideSkips(parse);
    TokenOpensOnce();
    RunHoldingBack(IQuest(parse), false, BOT, text, true);
  }

  lemma RunWithoutToken(parse: BodyParser, text: string)
    requires IndexOf(BOT, text) == -1
    ensures var o := Run(IQuest(parse), false, text);
            !o.state && o.events + Texts(o.rest) == Texts(text)
  {
    hide Run, IQuest, IndexOf, Texts, ShortestFrom;
    RunHoldsBack(parse, text);
    var end := |text| - ShortestFrom(text, BOT, 1);
    assert text == text[..end] + text[end..];
    TextsConcat<Call>(text[..end], text[end..]);
  }

  lemma GoingToToken(parse: BodyParser, all: Outcome<bool, Event<Call>>, events: seq<Event<Call>>, b: string)
    requires IndexOf(BOT, b) != -1 && Going(IQuest(parse), all, events, false, b)
    ensures var start := IndexOf(BOT, b);
            Going(IQuest(parse), all, events + Texts(b[..start]), true, b[start + |BOT|..])
  {
    hide Run, Texts, IQuest;
    RunToToken(parse, b);
    var start := IndexOf(BOT, b);
    AfterAfter(events, Texts(b[..start]), Run(IQuest(parse), true, b[start + |BOT|..]));
  }

  lemma GoingNowhere(parse: BodyParser, all: Outcome<bool, Event<Call>>, events: seq<Event<Call>>, b: string)
    requires IndexOf(BOT, b) == -1 && Going(IQuest(parse), all, events, false, b)
    ensures var end := |b| - ShortestFrom(b, BOT, 1);
            0 <= end <= |b| && all == Outcome(false, b[end..], events + Texts(b[..end]))
  {
    hide Run, Texts, IQuest;
    RunHoldsBack(parse, b);
  }

  lemma GoingPastBlock(parse: BodyParser, all: Outcome<bool, Event<Call>>, events: seq<Event<Call>>, b: string)
    requires Going(IQuest(parse), all, events, true, b)
    ensures var end := IndexOf(EOT, b);
            if end == -1 then all == Outcome(true, b, events)
            else Going(IQuest(parse), all, events + BlockEvents(parse, b[..end]), false, b[end + |EOT|..])
  {
    hide Run, IQuest, BlockEvents;
    RunInside(parse, b);
    var end := IndexOf(EOT, b);
    if end == -1 {
      assert events + [] == events;
    } else {
      AfterAfter(events, BlockEvents(parse, b[..end]), Run(IQuest(parse), false, b[end + |EOT|..]));
    }
  }

  /** Streaming from outside a block and finishing emits what the one-shot parse does. */
  ghost predicate Refines(parse: BodyParser, text: string) {
    var o := Run(IQuest(parse), false, text);
    o.events + Texts(Leftover(o)) == OneShot(parse, text)
  }

  lemma RefinesUnterminated(parse: BodyParser, text: string)
    requires IndexOf(BOT, text) != -1 && IndexOf(EOT, text[IndexOf(BOT, text) + |BOT|..]) == -1
    ensures Refines(parse, text)
  {
    hide Texts, BlockEvents, IndexOf, Occurs, Run;
    var start := IndexOf(BOT, text);
    var inner := text[start + |BOT|..];
    RunToToken(parse, text);
    RunInside(parse, inner);
    assert text == text[..start] + (BOT + inner);
    TextsConcat<Call>(text[..start], BOT + inner);
    assert Texts<Call>(text[..start]) + [] == Texts(text[..start]);
  }

  lemma RefinesBlock(parse: BodyParser, text: string, start: nat, end: nat)
    requires IndexOf(BOT, text) == start
    requires IndexOf(EOT, text[start + |BOT|..]) == end
    requires Refines(parse, text[start + |BOT| + end + |EOT|..])
    ensures Refines(parse, text)
  {
    hide Texts, BlockEvents, IndexOf, Run;
    var inner, rest := text[start + |BOT|..], text[start + |BOT| + end + |EOT|..];
    RunToToken(parse, text);
    RunInside(parse, inner);
    assert inner[end + |EOT|..] == rest;
    assert inner[..end] == text[start + |BOT|..start + |BOT| + end];
    var o := Run(IQuest(parse), false, rest);
    var before, block := Texts<Call>(text[..start]), BlockEvents(parse, inner[..end]);
    assert Run(IQuest(parse), false, text) == Outcome(o.state, o.rest, before + (block + o.events));
    assert (before + (block + o.events)) + Texts(Leftover(o)) == before + block + (o.events + Texts(Leftover(o)));
  }

  /** Streaming a text and finishing emits the one-shot parse: events, order and all. */
  lemma {:induction false} RunIsOneShot(parse: BodyParser, text: string)
    ensures Refines(parse, text)
    decreases |text|
  {
    var start := IndexOf(BOT, text);
    if start == -1 {
      RunWithoutToken(parse, text);
      assert "" + Run(IQuest(parse), false, text).rest == Run(IQuest(parse), false, text).rest;
    } else {
      var end := IndexOf(EOT, text[start + |BOT|..]);
      if end == -1 {
        RefinesUnterminated(parse, text);
      } else {
        RunIsOneShot(parse, text[start + |BOT| + end + |EOT|..]);
        RefinesBlock(parse, text, start, end);
      }
    }
  }

  /** However a text is cut, feeding the pieces and finishing gives the one-shot parse. */
  lemma FeedIsOneShot(parse: BodyParser, pieces: seq<string>)
    ensures var o := Feed(IQuest(parse), false, "", pieces);
            var events := OneShot(parse, Concat(pieces));
            TextOf(o.events) + Leftover(o) == TextOf(events) && CallsOf(o.events) == CallsOf(events)
  {
    IQuestStable(parse);
    FeedIsRun(IQuest(parse), false, "", pieces);
    assert "" + Concat(pieces) == Concat(pieces);
    RunIsOneShot(parse, Concat(pieces));
    var o := Feed(IQuest(parse), false, "", pieces);
    OfConcat(o.events, Texts(Leftover(o)));
    OfTexts<Call>(Leftover(o));
  }

  /** A block as written, and the text behind it. */
  datatype Block = Block(body: string, trail: string)

  ghost predicate BlockRight(b: Block) {
    !Occurs(EOT, b.body) && !Occurs(BOT, b.trail)
  }

  function BlocksText(blocks: seq<Block>): string {
    if blocks == [] then "" else BOT + (blocks[0].body + (EOT + (blocks[0].trail + BlocksText(blocks[1..]))))
  }

  /** The text that is no call: what stands outside blocks, and rejected blocks, tags and all. */
  function PlainText(parse: BodyParser, blocks: seq<Block>): string {
    if blocks == [] then ""
    else
      (if parse(blocks[0].body).None? then BOT + blocks[0].body + EOT else "") + blocks[0].trail
      + PlainText(parse, blocks[1..])
  }

  /** The calls of the blocks that are accepted, in order. */
  function BlockCalls(parse: BodyParser, blocks: seq<Block>): seq<Call> {
    if blocks == [] then []
    else (if parse(blocks[0].body).None? then [] else parse(blocks[0].body).value) + BlockCalls(parse, blocks[1..])
  }

  lemma BlockSays(parse: BodyParser, body: string)
    ensures TextOf(BlockEvents(parse, body)) == if parse(body).None? then BOT + body + EOT else ""
    ensures CallsOf(BlockEvents(parse, body)) == if parse(body).None? then [] else parse(body).value
  {
    hide Texts, Calls, TextOf, CallsOf;
    match parse(body)
    case None => OfTexts<Call>(BOT + body + EOT);
    case Some(calls) => OfCalls(calls);
  }

  lemma TagsOpenOnce()
    ensures OpensOnce(BOT) && OpensOnce(EOT)
  {
  }

  /** The first block of a text is found between the first tags. */
  lemma BlockFirst(parse: BodyParser, before: string, b: Block, rest: string)
    requires !Occurs(BOT, before) && BlockRight(b)
    ensures var text := before + (BOT + (b.body + (EOT + (b.trail + rest))));
            OneShot(parse, text) == Texts(before) + BlockEvents(parse, b.body) + OneShot(parse, b.trail + rest)
  {
    hide IndexOf, Occurs, OpensOnce, Texts, BlockEvents, OneShot;
    TagsOpenOnce();
    var more := b.trail + rest;
    var inner := b.body + (EOT + more);
    IndexAfter(BOT, before, inner);
    IndexAfter(EOT, b.body, more);
    PartsOf(before, BOT, b.body, EOT, more);
    OneShotStep(parse, before + (BOT + inner), |before|, |b.body|);
  }

  lemma OneShotStep(parse: BodyParser, text: string, start: nat, end: nat)
    requires IndexOf(BOT, text) == start && start + |BOT| + end + |EOT| <= |text|
    requires IndexOf(EOT, text[start + |BOT|..]) == end
    ensures var begin := start + |BOT|;
            OneShot(parse, text) == Texts(text[..start]) + BlockEvents(parse, text[begin..begin + end])
                                    + OneShot(parse, text[begin + end + |EOT|..])
  {
    hide IndexOf, Occurs, OccursAt, Texts, BlockEvents;
  }

  lemma PartsOf(before: string, open: string, body: string, close: string, more: string)
    ensures var text, begin := before + (open + (body + (close + more))), |before| + |open|;
            && begin + |body| + |close| <= |text| && text[..|before|] == before
                 && text[begin..] == body + (close + more)
            && text[begin..begin + |body|] == body && text[begin + |body| + |close|..] == more
  {
  }

  /** A text with blocks in it, the last perhaps open: its calls are those of the accepted blocks, and all
      else is text, a rejected block and an open one with their tags. */
  lemma {:induction false} BlocksParsed(parse: BodyParser, before: string, blocks: seq<Block>, open: Option<string>)
    requires !Occurs(BOT, before) && (forall b :: b in blocks ==> BlockRight(b))
    requires open.Some? ==> !Occurs(EOT, open.value)
    ensures var end := if open.None? then "" else BOT + open.value;
            var events := OneShot(parse, before + (BlocksText(blocks) + end));
            TextOf(events) == before + (PlainText(parse, blocks) + end) && CallsOf(events) == BlockCalls(parse, blocks)
    decreases |blocks|
  {
    hide OneShot, Texts, BlockEvents, TextOf, CallsOf, Occurs, BlocksText, PlainText, BlockCalls;
    var end := if open.None? then "" else BOT + open.value;
    if blocks == [] {
      NoBlocks(parse);
      assert before + ("" + end) == before + end;
      AllPlain(parse, before, open);
    } else {
      var b, rest := blocks[0], BlocksText(blocks[1..]) + end;
      assert b in blocks && forall x :: x in blocks[1..] ==> x in blocks;
      BlocksParts(parse, blocks, end);
      BlockFirst(parse, before, b, rest);
      BlocksParsed(parse, b.trail, blocks[1..], open);
      EventsJoin(parse, before, b.body, OneShot(parse, b.trail + rest));
      var own := if parse(b.body).None? then BOT + b.body + EOT else "";
      Assoc(before, own, b.trail + (PlainText(parse, blocks[1..]) + end));
    }
  }

  lemma NoBlocks(parse: BodyParser)
    ensures BlocksText([]) == PlainText(parse, []) == "" && BlockCalls(parse, []) == []
  {
  }

  lemma BlocksParts(parse: BodyParser, blocks: seq<Block>, end: string)
    requires blocks != []
    ensures var b, rest := blocks[0], BlocksText(blocks[1..]) + end;
            BlocksText(blocks) + end == BOT + (b.body + (EOT + (b.trail + rest)))
    ensures var b, rest := blocks[0], PlainText(parse, blocks[1..]) + end;
            PlainText(parse, blocks) + end == (if parse(b.body).None? then BOT + b.body + EOT else "")
              + (b.trail + rest)
    ensures BlockCalls(parse, blocks) ==
            (if parse(blocks[0].body).None? then [] else parse(blocks[0].body).value) + BlockCalls(parse, blocks[1..])
  {
    var b := blocks[0];
    EndsBehind(BOT, b.body, EOT, b.trail, BlocksText(blocks[1..]), end);
    EndBehind(if parse(b.body).None? then BOT + b.body + EOT else "", b.trail, PlainText(parse, blocks[1..]), end);
  }

  lemma EndsBehind(a: string, b: string, c: string, d: string, e: string, end: string)
    ensures (a + (b + (c + (d + e)))) + end == a + (b + (c + (d + (e + end))))
  {
  }

  lemma EndBehind(a: string, b: string, c: string, end: string)
    ensures (a + b + c) + end == a + (b + (c + end))
  {
  }

  lemma EventsJoin(parse: BodyParser, before: string, body: string, more: seq<Event<Call>>)
    ensures var events := Texts<Call>(before) + BlockEvents(parse, body) + more;
            && TextOf(events) == before + (if parse(body).None? then BOT + body + EOT else "") + TextOf(more)
            && CallsOf(events) == (if parse(body).None? then [] else parse(body).value) + CallsOf(more)
  {
    hide Texts, BlockEvents, TextOf, CallsOf;
    OfTexts<Call>(before);
    BlockSays(parse, body);
    OfConcat(Texts<Call>(before), BlockEvents(parse, body));
    OfConcat(Texts<Call>(before) + BlockEvents(parse, body), more);
  }

  lemma AllPlain(parse: BodyParser, before: string, open: Option<string>)
    requires !Occurs(BOT, before) && (open.Some? ==> !Occurs(EOT, open.value))
    ensures var text := before + if open.None? then "" else BOT + open.value;
            TextOf(OneShot(parse, text)) == text && CallsOf(OneShot(parse, text)) == []
  {
    hide IndexOf, Occurs, OpensOnce, Texts, TextOf, CallsOf;
    TagsOpenOnce();
    var text := before + if open.None? then "" else BOT + open.value;
    if open.Some? {
      IndexAfter(BOT, before, open.value);
      assert text[|before| + |BOT|..] == open.value;
    } else {
      assert text == before;
    }
    assert OneShot(parse, text) == Texts(text);
    OfTexts<Call>(text);
  }

  /** One block, letter by letter, however the text is cut and then finished: its calls, and the text around
      it; or, where it is rejected, the whole text. */
  lemma OneBlockRead(parse: BodyParser, before: string, body: string, trail: string, pieces: seq<string>)
    requires !Occurs("<iquest_tool_call>", before) && !Occurs("<iquest_tool_call>", trail)
    requires !Occurs("</iquest_tool_call>", body)
    requires Concat(pieces) == before + "<iquest_tool_call>" + body + "</iquest_tool_call>" + trail
    ensures var o := Feed(IQuest(parse), false, "", pieces);
            match parse(body)
            case Some(calls) => TextOf(o.events) + Leftover(o) == before + trail && CallsOf(o.events) == calls
            case None => TextOf(o.events) + Leftover(o) == Concat(pieces) && CallsOf(o.events) == []
  {
    hide Feed, TextOf, CallsOf, OneShot, Occurs, Leftover, PlainText, BlockCalls, BlocksText;
    OneBlock(parse, body, trail);
    Assoc(before, BOT, body);
    Assoc(before, BOT + body, EOT + trail);
    assert before + (BlocksText([Block(body, trail)]) + "") == Concat(pieces);
    FeedIsOneShot(parse, pieces);
    BlocksParsed(parse, before, [Block(body, trail)], None);
  }

  lemma OneBlock(parse: BodyParser, body: string, trail: string)
    ensures var blocks := [Block(body, trail)];
            && BlocksText(blocks) == BOT + body + (EOT + trail)
            && PlainText(parse, blocks) == (if parse(body).None? then BOT + body + EOT else "") + trail
            && BlockCalls(parse, blocks) == if parse(body).None? then [] else parse(body).value
  {
    var b := Block(body, trail);
    assert [b][1..] == [];
    NoBlocks(parse);
  }
}

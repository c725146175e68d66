/** What the MiniMax M3 stack machine computes, by recursion over element trees instead of a stack. */
module MiniMaxTrees {
  import opened Strings
  import opened JsonValues
  import opened MiniMaxM3

  /** An element: its tag, the text after the tag, its children, and what stands after its end. */
  datatype Tree = Tree(tag: string, text: string, children: seq<Tree>, after: string)

  function Events(t: Tree): seq<Event>
    decreases t, 0
  {
    [Open(t.tag, StripRight(t.text))] + EventsAll(t.children) + [Close(t.tag)]
  }

  function EventsAll(ts: seq<Tree>): seq<Event>
    decreases ts
  {
    if ts == [] then [] else Events(ts[0]) + EventsAll(ts[1..])
  }

  /** The value of an element under its schema. */
  function Denote(convert: Converter, schema: Json, t: Tree): Result<Json>
    decreases t, 0
  {
    DenoteAll(convert, schema, StartValue(convert, StripRight(t.text), schema), t.children)
  }

  /** A value with the elements assigned into it one after the other. */
  function DenoteAll(convert: Converter, schema: Json, value: Json, ts: seq<Tree>): Result<Json>
    decreases ts
  {
    if ts == [] then Ok(value)
    else
      match Denote(convert, ChildSchema(schema, ts[0].tag, value), ts[0])
      case Err(e) => Err(e)
      case Ok(child) =>
        match AssignChild(value, ts[0].tag, child)
        case Err(e) => Err(e)
        case Ok(grown) => DenoteAll(convert, schema, grown, ts[1..])
  }

  lemma {:induction false} RunEventsConcat(convert: Converter, stack: seq<Frame>, x: seq<Event>, y: seq<Event>)
    requires stack != []
    ensures RunEvents(convert, stack, x + y) ==
              match RunEvents(convert, stack, x)
              case Err(e) => Err(e)
              case Ok(stack') => RunEvents(convert, stack', y)
    decreases |x|
  {
    hide Act;
    if x == [] {
      assert x + y == y;
    } else {
      assert (x + y)[0] == x[0] && (x + y)[1..] == x[1..] + y;
      match Act(convert, stack, x[0])
      case Err(e) =>
      case Ok(stack') => RunEventsConcat(convert, stack', x[1..], y);
    }
  }

  /** The stack with the value on top replaced by what `r` says. */
  function OnTop(stack: seq<Frame>, r: Result<Json>): Result<seq<Frame>>
    requires stack != []
  {
    match r
    case Err(e) => Err(e)
    case Ok(v) => Ok(stack[..|stack| - 1] + [stack[|stack| - 1].(value := v)])
  }

  /** Assigning one element into a value. */
  function Attach(convert: Converter, schema: Json, value: Json, t: Tree): Result<Json> {
    match Denote(convert, ChildSchema(schema, t.tag, value), t)
    case Err(e) => Err(e)
    case Ok(child) => AssignChild(value, t.tag, child)
  }

  lemma RunOneEvent(convert: Converter, stack: seq<Frame>, e: Event)
    requires stack != []
    ensures RunEvents(convert, stack, [e]) == Act(convert, stack, e)
  {
    match Act(convert, stack, e)
    case Err(_) =>
    case Ok(stack') => assert RunEvents(convert, stack', [e][1..]) == Ok(stack');
  }

  /** Pushing and popping frames does to the top of the stack what the recursion does to a value. */
  lemma {:induction false} TreeRuns(convert: Converter, stack: seq<Frame>, t: Tree)
    requires stack != []
    ensures var top := stack[|stack| - 1];
            RunEvents(convert, stack, Events(t)) == OnTop(stack, Attach(convert, top.schema, top.value, t))
    decreases t, 0
  {
    hide RunEvents, StartValue, ChildSchema, AssignChild;
    var top, text := stack[|stack| - 1], StripRight(t.text);
    var schema := ChildSchema(top.schema, t.tag, top.value);
    var pushed := stack + [Frame(t.tag, schema, StartValue(convert, text, schema))];
    RunEventsConcat(convert, stack, [Open(t.tag, text)] + EventsAll(t.children), [Close(t.tag)]);
    RunEventsConcat(convert, stack, [Open(t.tag, text)], EventsAll(t.children));
    RunOneEvent(convert, stack, Open(t.tag, text));
    ForestRuns(convert, pushed, t.children);
    match Denote(convert, schema, t)
    case Err(e) =>
    case Ok(v) =>
      var popped := stack + [Frame(t.tag, schema, v)];
      assert pushed[..|pushed| - 1] == stack;
      RunOneEvent(convert, popped, Close(t.tag));
      assert popped[..|popped| - 2] == stack[..|stack| - 1];
  }

  lemma {:induction false} ForestRuns(convert: Converter, stack: seq<Frame>, ts: seq<Tree>)
    requires stack != []
    ensures var top := stack[|stack| - 1];
            RunEvents(convert, stack, EventsAll(ts)) == OnTop(stack, DenoteAll(convert, top.schema, top.value, ts))
    decreases ts
  {
    hide Act, ChildSchema, AssignChild;
    var top := stack[|stack| - 1];
    if ts == [] {
      assert stack[..|stack| - 1] + [top] == stack;
    } else {
      RunEventsConcat(convert, stack, Events(ts[0]), EventsAll(ts[1..]));
      TreeRuns(convert, stack, ts[0]);
      match Attach(convert, top.schema, top.value, ts[0])
      case Err(e) =>
      case Ok(v) =>
        var stack' := stack[..|stack| - 1] + [top.(value := v)];
        ForestRuns(convert, stack', ts[1..]);
        assert stack'[..|stack'| - 1] == stack[..|stack| - 1];
    }
  }

  lemma {:induction false} EventsAllConcat(x: seq<Tree>, y: seq<Tree>)
    ensures EventsAll(x + y) == EventsAll(x) + EventsAll(y)
    decreases |x|
  {
    if x == [] {
      assert x + y == y;
    } else {
      assert (x + y)[0] == x[0] && (x + y)[1..] == x[1..] + y;
      EventsAllConcat(x[1..], y);
    }
  }

  /** An element that is still open, with the children it has so far. */
  datatype Level = Level(tag: string, text: string, done: seq<Tree>)

  /** The events that led to these open elements; the bottom level has no tag of its own. */
  function PathEvents(levels: seq<Level>): seq<Event>
    requires levels != []
  {
    var top := levels[|levels| - 1];
    if |levels| == 1 then EventsAll(top.done)
    else PathEvents(levels[..|levels| - 1]) + [Open(top.tag, top.text)] + EventsAll(top.done)
  }

  /** The levels account for the events read and for the tags on the stack. */
  ghost predicate Accounts(levels: seq<Level>, stack: seq<Frame>, events: seq<Event>) {
    && |levels| == |stack| > 0 && PathEvents(levels) == events
    && (forall i :: 1 <= i < |levels| ==> levels[i].tag == stack[i].tag && StripRight(levels[i].text) == levels[i].text)
  }

  predicate Stripped(e: Event) {
    e.Open? ==> StripRight(e.text) == e.text
  }

  lemma AccountsOpen(levels: seq<Level>, stack: seq<Frame>, events: seq<Event>, tag: string, text: string, frame: Frame)
    requires Accounts(levels, stack, events) && frame.tag == tag && StripRight(text) == text
    ensures Accounts(levels + [Level(tag, text, [])], stack + [frame], events + [Open(tag, text)])
  {
    hide StripRight;
    var levels' := levels + [Level(tag, text, [])];
    assert levels'[..|levels|] == levels;
  }

  /** One more child of the innermost open element. */
  lemma PathGrows(levels: seq<Level>, t: Tree)
    requires levels != []
    ensures var n, top := |levels|, levels[|levels| - 1];
            PathEvents(levels[..n - 1] + [top.(done := top.done + [t])]) == PathEvents(levels) + Events(t)
  {
    hide Events;
    var n, top := |levels|, levels[|levels| - 1];
    var levels' := levels[..n - 1] + [top.(done := top.done + [t])];
    EventsAllConcat(top.done, [t]);
    assert EventsAll([t]) == Events([t][0]) + EventsAll([t][1..]);
    assert levels'[..n - 1] == levels[..n - 1];
  }

  lemma AccountsClose(levels: seq<Level>, stack: seq<Frame>, events: seq<Event>, tag: string, value: Json)
      returns (levels': seq<Level>)
    requires Accounts(levels, stack, events) && |stack| > 1 && stack[|stack| - 1].tag == tag
    ensures var n := |stack|;
            Accounts(levels', stack[..n - 2] + [stack[n - 2].(value := value)], events + [Close(tag)])
  {
    hide StripRight, EventsAll;
    var n := |levels|;
    var top, below := levels[n - 1], levels[n - 2];
    var t := Tree(tag, top.text, top.done, "");
    levels' := levels[..n - 2] + [below.(done := below.done + [t])];
    assert levels[..n - 1][..n - 2] == levels[..n - 2];
    PathGrows(levels[..n - 1], t);
    assert PathEvents(levels[..n - 1]) + Events(t) == PathEvents(levels) + [Close(tag)];
  }

  lemma AccountsStep(convert: Converter, levels: seq<Level>, stack: seq<Frame>, events: seq<Event>, e: Event)
      returns (levels': seq<Level>)
    requires stack != [] && Accounts(levels, stack, events) && Act(convert, stack, e).Ok? && Stripped(e)
    ensures Accounts(levels', Act(convert, stack, e).value, events + [e])
  {
    hide AssignChild, ChildSchema, StartValue, StripRight, Accounts;
    match e
    case Open(tag, text) =>
      levels' := levels + [Level(tag, text, [])];
      AccountsOpen(levels, stack, events, tag, text, Push(convert, stack, tag, text)[|stack|]);
    case Close(tag) =>
      var v := AssignChild(stack[|stack| - 2].value, stack[|stack| - 1].tag, stack[|stack| - 1].value).value;
      levels' := AccountsClose(levels, stack, events, tag, v);
  }

  lemma {:induction false} RunAccounts(convert: Converter, levels: seq<Level>, stack: seq<Frame>, before: seq<Event>,
                                       events: seq<Event>) returns (levels': seq<Level>)
    requires stack != [] && Accounts(levels, stack, before) && RunEvents(convert, stack, events).Ok?
    requires forall e :: e in events ==> Stripped(e)
    ensures Accounts(levels', RunEvents(convert, stack, events).value, before + events)
    decreases |events|
  {
    hide Accounts, Act, Stripped;
    if events == [] {
      assert before + events == before;
      levels' := levels;
    } else {
      assert events[0] in events && forall e :: e in events[1..] ==> e in events;
      var next := AccountsStep(convert, levels, stack, before, events[0]);
      levels' := RunAccounts(convert, next, Act(convert, stack, events[0]).value, before + [events[0]], events[1..]);
      assert before + [events[0]] + events[1..] == before + events;
    }
  }

  /** The machine reads a whole parameter exactly when its tags nest properly and every element with
      children is a container: a closing tag that does not match the open one is never accepted. */
  lemma AcceptedAreForests(convert: Converter, root: Frame, events: seq<Event>)
    requires forall e :: e in events ==> Stripped(e)
    ensures var r := RunEvents(convert, [root], events);
            r.Ok? && |r.value| == 1 <==>
            exists ts :: EventsAll(ts) == events && DenoteAll(convert, root.schema, root.value, ts).Ok?
  {
    var r := RunEvents(convert, [root], events);
    if r.Ok? && |r.value| == 1 {
      var levels := RunAccounts(convert, [Level("", "", [])], [root], [], events);
      assert [] + events == events;
      ForestRuns(convert, [root], levels[0].done);
    }
    forall ts | EventsAll(ts) == events && DenoteAll(convert, root.schema, root.value, ts).Ok?
      ensures r.Ok? && |r.value| == 1
    {
      ForestRuns(convert, [root], ts);
    }
  }

  /** The frames that open elements leave on a stack, or the error that one of their parts is. */
  function Frames(convert: Converter, stack: seq<Frame>, levels: seq<Level>): Result<seq<Frame>>
    requires stack != [] && levels != []
    decreases |levels|
  {
    var top := stack[|stack| - 1];
    match DenoteAll(convert, top.schema, top.value, levels[0].done)
    case Err(e) => Err(e)
    case Ok(v) =>
      var stack' := stack[..|stack| - 1] + [top.(value := v)];
      if |levels| == 1 then Ok(stack')
      else Frames(convert, Push(convert, stack', levels[1].tag, levels[1].text), levels[1..])
  }

  /** The events of open elements, from the outermost in. */
  lemma {:induction false} PathFront(levels: seq<Level>)
    requires levels != []
    ensures PathEvents(levels) ==
            EventsAll(levels[0].done)
            + if |levels| == 1 then [] else [Open(levels[1].tag, levels[1].text)] + PathEvents(levels[1..])
    decreases |levels|
  {
    hide EventsAll, PathEvents;
    var n := |levels|;
    PathLast(levels);
    if n == 1 {
      assert EventsAll(levels[0].done) + [] == EventsAll(levels[0].done);
    } else {
      var top, below := levels[n - 1], levels[..n - 1];
      PathFront(below);
      PathLast(levels[1..]);
      var end := [Open(top.tag, top.text)] + EventsAll(top.done);
      if n > 2 {
        assert below[1..] == levels[1..][..n - 2];
        var first, open, mid := EventsAll(levels[0].done), [Open(levels[1].tag, levels[1].text)],
          PathEvents(below[1..]);
        assert (first + (open + mid)) + end == first + (open + (mid + end));
      } else {
        assert PathEvents(below) + end == EventsAll(levels[0].done) + end;
      }
    }
  }

  /** The events of the innermost element come last. */
  lemma PathLast(levels: seq<Level>)
    requires levels != []
    ensures var n, top := |levels|, levels[|levels| - 1];
            PathEvents(levels) ==
            if n == 1 then EventsAll(top.done)
            else PathEvents(levels[..n - 1]) + ([Open(top.tag, top.text)] + EventsAll(top.done))
  {
    hide EventsAll;
  }

  lemma {:induction false} PathRuns(convert: Converter, stack: seq<Frame>, levels: seq<Level>)
    requires stack != [] && levels != []
    ensures RunEvents(convert, stack, PathEvents(levels)) == Frames(convert, stack, levels)
    decreases |levels|
  {
    hide EventsAll, Push, RunEvents, DenoteAll, PathEvents;
    PathFront(levels);
    var first := EventsAll(levels[0].done);
    ForestRuns(convert, stack, levels[0].done);
    if |levels| == 1 {
      assert PathEvents(levels) == first;
    } else {
      var open, rest := [Open(levels[1].tag, levels[1].text)], PathEvents(levels[1..]);
      RunEventsConcat(convert, stack, first, open + rest);
      if RunEvents(convert, stack, first).Ok? {
        var stack' := RunEvents(convert, stack, first).value;
        RunEventsConcat(convert, stack', open, rest);
        RunOneEvent(convert, stack', open[0]);
        PathRuns(convert, Push(convert, stack', levels[1].tag, levels[1].text), levels[1..]);
      }
    }
  }

  /** As many frames as there are levels, named by them; and below the first, none has changed. */
  lemma {:induction false} FramesStand(convert: Converter, stack: seq<Frame>, levels: seq<Level>)
    requires stack != [] && levels != [] && Frames(convert, stack, levels).Ok?
    ensures var n, frames, top := |stack|, Frames(convert, stack, levels).value, stack[|stack| - 1];
            && |frames| == n - 1 + |levels| && frames[..n - 1] == stack[..n - 1]
            && (|levels| > 1 ==> frames[|frames| - 1].tag == levels[|levels| - 1].tag)
            && Ok(frames[n - 1].value) == DenoteAll(convert, top.schema, top.value, levels[0].done)
    decreases |levels|
  {
    hide DenoteAll, ChildSchema, StartValue;
    if |levels| > 1 {
      var top := stack[|stack| - 1];
      var v := DenoteAll(convert, top.schema, top.value, levels[0].done).value;
      var stack' := stack[..|stack| - 1] + [top.(value := v)];
      var pushed := Push(convert, stack', levels[1].tag, levels[1].text);
      FramesStand(convert, pushed, levels[1..]);
      assert pushed[..|stack|] == stack' && stack'[..|stack| - 1] == stack[..|stack| - 1];
      var frames := Frames(convert, stack, levels).value;
      assert frames[..|stack|] == stack';
      assert frames[|stack| - 1] == frames[..|stack|][|stack| - 1];
      assert frames[..|stack| - 1] == frames[..|stack|][..|stack| - 1];
    }
  }

  /** The machine comes to the end of a parameter without an error exactly when its events are elements,
      some of the last perhaps open, all of whose parts have values; and elements that are still open
      are dropped: what counts is the value of those that were closed. */
  lemma AcceptedMayBeOpen(convert: Converter, root: Frame, events: seq<Event>)
    requires forall e :: e in events ==> Stripped(e)
    ensures var r := RunEvents(convert, [root], events);
            && (r.Ok? <==>
                  exists levels :: levels != [] && PathEvents(levels) == events && Frames(convert, [root], levels).Ok?)
            && forall levels: seq<Level> :: levels != [] && PathEvents(levels) == events && r.Ok? ==>
                 |r.value| == |levels|
                   && Ok(r.value[0].value) == DenoteAll(convert, root.schema, root.value, levels[0].done)
  {
    hide RunEvents, DenoteAll, PathEvents, Frames, Accounts;
    var r := RunEvents(convert, [root], events);
    forall levels: seq<Level> | levels != [] && PathEvents(levels) == events
      ensures r == Frames(convert, [root], levels)
      ensures r.Ok? ==>
                |r.value| == |levels|
                  && Ok(r.value[0].value) == DenoteAll(convert, root.schema, root.value, levels[0].done)
    {
      PathRuns(convert, [root], levels);
      if r.Ok? {
        FramesStand(convert, [root], levels);
      }
    }
    if r.Ok? {
      NothingAccounts(root);
      var levels := RunAccounts(convert, [Level("", "", [])], [root], [], events);
      assert [] + events == events;
      AccountsPath(levels, r.value, events);
    }
  }

  lemma NothingAccounts(root: Frame)
    ensures Accounts([Level("", "", [])], [root], [])
  {
  }

  lemma AccountsPath(levels: seq<Level>, stack: seq<Frame>, events: seq<Event>)
    requires Accounts(levels, stack, events)
    ensures levels != [] && PathEvents(levels) == events
  {
  }
}

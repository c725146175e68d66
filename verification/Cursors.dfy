/** How a detector's cursor moves along its buffer, stretch by stretch, while the machine it follows
    takes its steps. */
module Cursors {
  import opened Strings
  import opened HoldBack
  import opened Events
  import opened Streaming

  /** A stretch of the run: from `s` before `b` to `t` before `c` with these events on the way; and
      when nothing more can be done, the end of the run. */
  ghost predicate Moves<S, E>(m: Machine<S, E>, s: S, b: string, t: S, c: string, events: seq<E>, more: bool) {
    if more then
      Run(m, s, b) == After(events, Run(m, t, c)) && (|c| < |b| || (|c| == |b| && m.rank(t) < m.rank(s)))
    else Run(m, s, b) == Outcome(t, c, events)
  }

  lemma MovesStep<S, E>(m: Machine<S, E>, s: S, b: string)
    requires Advances(m, s, b)
    ensures var Go(t, used, events) := m.step(s, b); Moves(m, s, b, t, b[used..], events, true)
  {
  }

  lemma MovesWait<S, E>(m: Machine<S, E>, s: S, b: string)
    requires m.step(s, b).Wait?
    ensures Moves(m, s, b, s, b, [], false)
  {
  }

  /** `all` is what has been emitted so far and the run still to come. */
  ghost predicate Going<S, E>(m: Machine<S, E>, all: Outcome<S, E>, events: seq<E>, s: S, b: string) {
    all == After(events, Run(m, s, b))
  }

  lemma GoingFromStart<S, E>(m: Machine<S, E>, s: S, b: string)
    ensures Going(m, Run(m, s, b), [], s, b)
  {
    AfterNothing(Run(m, s, b));
  }

  lemma GoingOn<S, E>(m: Machine<S, E>, all: Outcome<S, E>, events: seq<E>, s: S, b: string, t: S, c: string,
                      emitted: seq<E>, more: bool)
    requires Going(m, all, events, s, b) && Moves(m, s, b, t, c, emitted, more)
    ensures more ==> Going(m, all, events + emitted, t, c)
    ensures more ==> |c| < |b| || (|c| == |b| && m.rank(t) < m.rank(s))
    ensures !more ==> all == Outcome(t, c, events + emitted)
  {
    hide Run;
    AfterAfter(events, emitted, Run(m, t, c));
  }

  /** With nothing left to read, the run is over. */
  lemma GoingDone<S, E>(m: Machine<S, E>, all: Outcome<S, E>, events: seq<E>, s: S)
    requires Going(m, all, events, s, "") && m.step(s, "").Wait?
    ensures all == Outcome(s, "", events)
  {
    assert events + [] == events;
  }

  /** One stretch's text and items join the text and the calls so far. */
  lemma EmittedMore<C>(events: seq<Event<C>>, text: string, items: seq<C>)
    ensures TextOf(events + (Texts(text) + Calls(items))) == TextOf(events) + text
    ensures CallsOf(events + (Texts(text) + Calls(items))) == CallsOf(events) + items
    ensures items == [] ==> Texts(text) + Calls(items) == Texts(text)
    ensures text == "" ==> Texts(text) + Calls(items) == Calls(items)
  {
    hide TextOf, CallsOf, Texts, Calls;
    NoTexts<C>();
    NoCalls<C>();
    OfConcat(events, Texts(text) + Calls(items));
    OfConcat(Texts(text), Calls(items));
    OfTexts<C>(text);
    OfCalls(items);
  }

  lemma NothingEmitted<C>()
    ensures TextOf<C>([]) == "" && CallsOf<C>([]) == []
  {
  }

  lemma NoTexts<C>()
    ensures Texts<C>("") == [] && Texts<C>("<") == [Text('<')]
  {
    assert "<"[1..] == "";
  }

  lemma NoCalls<C>()
    ensures Calls<C>([]) == []
  {
  }

  lemma OneCall<C>(item: C)
    ensures Calls([item]) == [Called(item)]
  {
    assert [item][1..] == [];
  }

  /** How many characters stand before the first `<`: `find("<")`, or all of them. */
  function Plain(b: string): (k: nat)
    ensures k <= |b|
  {
    if IndexOf("<", b) == -1 then |b| else IndexOf("<", b)
  }

  lemma PlainStep(b: string)
    requires b != ""
    ensures b[0] == '<' ==> Plain(b) == 0
    ensures b[0] != '<' ==> Plain(b) == 1 + Plain(b[1..])
  {
    if b[0] == '<' {
      assert b == "<" + b[1..];
    } else {
      assert !("<" <= b);
    }
  }

  /** The machine takes a character that is no `<` by itself: it emits it, or drops it. */
  ghost predicate TakesPlain<S, C>(m: Machine<S, Event<C>>, s: S, kept: bool) {
    forall b: string {:trigger m.step(s, b)} :: b != "" && b[0] != '<' ==>
      m.step(s, b) == Go(s, 1, if kept then [Text(b[0])] else [])
  }

  function KeptTexts<C>(kept: bool, text: string): seq<Event<C>> {
    if kept then Texts(text) else []
  }

  /** Text up to the next `<` is emitted, or dropped. */
  lemma {:induction false} RunPlain<S, C>(m: Machine<S, Event<C>>, s: S, b: string, kept: bool)
    requires TakesPlain(m, s, kept)
    ensures Run(m, s, b) == After(KeptTexts(kept, b[..Plain(b)]), Run(m, s, b[Plain(b)..]))
    decreases |b|
  {
    hide IndexOf, Plain;
    var k := Plain(b);
    if k == 0 {
      assert b[0..] == b;
      AfterNothing(Run(m, s, b));
    } else {
      PlainStep(b);
      RunPlain(m, s, b[1..], kept);
      assert Advances(m, s, b);
      assert b[1..][k - 1..] == b[k..];
      assert b[..k][0] == b[0] && b[..k][1..] == b[1..][..k - 1];
      var one: seq<Event<C>> := if kept then [Text(b[0])] else [];
      AfterAfter(one, KeptTexts(kept, b[1..][..k - 1]), Run(m, s, b[k..]));
      assert one + KeptTexts(kept, b[1..][..k - 1]) == KeptTexts<C>(kept, b[..k]);
    }
  }

  lemma MovesPlain<S, C>(m: Machine<S, Event<C>>, s: S, b: string, kept: bool)
    requires TakesPlain(m, s, kept) && b != "" && b[0] != '<'
    ensures Moves(m, s, b, s, b[Plain(b)..], KeptTexts(kept, b[..Plain(b)]), true)
  {
    hide Run, IndexOf, TakesPlain;
    RunPlain(m, s, b, kept);
    PlainStep(b);
  }

  /** The machine takes characters one by one until the token, or what may become it, stands in front. */
  ghost predicate SkipsTo<S, C>(m: Machine<S, Event<C>>, s: S, token: string, kept: bool) {
    && (forall b: string {:trigger m.step(s, b)} :: b != "" && !(token <= b) && !IsPartial(token, b) ==>
          m.step(s, b) == Go(s, 1, if kept then [Text(b[0])] else []))
    && (forall b: string {:trigger m.step(s, b)} :: b == "" || IsPartial(token, b) ==> m.step(s, b) == Wait)
  }

  lemma {:induction false} RunSkips<S, C>(m: Machine<S, Event<C>>, s: S, token: string, b: string, kept: bool)
    requires SkipsTo(m, s, token, kept)
    ensures var k := Skip(token, b);
            Run(m, s, b) == After(KeptTexts(kept, b[..k]), Run(m, s, b[k..]))
    decreases |b|
  {
    var k := Skip(token, b);
    if k == 0 {
      assert b[0..] == b;
      AfterNothing(Run(m, s, b));
    } else {
      RunSkips(m, s, token, b[1..], kept);
      assert Advances(m, s, b);
      assert b[1..][k - 1..] == b[k..];
      assert b[..k][0] == b[0] && b[..k][1..] == b[1..][..k - 1];
      var one: seq<Event<C>> := if kept then [Text(b[0])] else [];
      AfterAfter(one, KeptTexts(kept, b[1..][..k - 1]), Run(m, s, b[k..]));
      assert one + KeptTexts(kept, b[1..][..k - 1]) == KeptTexts<C>(kept, b[..k]);
    }
  }

  /** Up to the token. */
  lemma MovesToToken<S, C>(m: Machine<S, Event<C>>, s: S, token: string, b: string, kept: bool)
    requires SkipsTo(m, s, token, kept) && IndexOf(token, b) > 0
    ensures var k := IndexOf(token, b);
            Moves(m, s, b, s, b[k..], KeptTexts(kept, b[..k]), true) && token <= b[k..]
  {
    hide IndexOf, Skip, Run, SkipsTo;
    RunSkips(m, s, token, b, kept);
    SkipToToken(token, b);
    var k := IndexOf(token, b);
    assert b[k..][..|token|] == b[k..k + |token|];
  }

  /** Without the token: all but what may become it. */
  lemma MovesHoldingBack<S, C>(m: Machine<S, Event<C>>, s: S, token: string, b: string, kept: bool)
    requires SkipsTo(m, s, token, kept) && OpensOnce(token) && IndexOf(token, b) == -1
    ensures var end := |b| - ShortestFrom(b, token, 1);
            0 <= end <= |b| && Moves(m, s, b, s, b[end..], KeptTexts(kept, b[..end]), false)
  {
    hide IndexOf, OpensOnce, ShortestFrom, Run, SkipsTo;
    RunHoldingBack(m, s, token, b, kept);
  }

  lemma RunHoldingBack<S, C>(m: Machine<S, Event<C>>, s: S, token: string, b: string, kept: bool)
    requires SkipsTo(m, s, token, kept) && OpensOnce(token) && IndexOf(token, b) == -1
    ensures var end := |b| - ShortestFrom(b, token, 1);
            0 <= end <= |b| && Run(m, s, b) == Outcome(s, b[end..], KeptTexts(kept, b[..end]))
  {
    hide IndexOf, OpensOnce, ShortestFrom, Skip, Run, SkipsTo, After;
    var k := Skip(token, b);
    RunSkips(m, s, token, b, kept);
    SkipIsHoldBack(token, b);
    SkipStops(token, b);
    RunHeldBack(m, s, token, b[k..], kept);
    AfterOutcome(KeptTexts<C>(kept, b[..k]), s, b[k..]);
  }

  lemma RunHeldBack<S, C>(m: Machine<S, Event<C>>, s: S, token: string, b: string, kept: bool)
    requires SkipsTo(m, s, token, kept) && (b == "" || IsPartial(token, b))
    ensures Run(m, s, b) == Outcome(s, b, [])
  {
    assert m.step(s, b) == Wait;
  }

  lemma AfterOutcome<S, E>(events: seq<E>, s: S, b: string)
    ensures After(events, Outcome(s, b, [])) == Outcome(s, b, events)
  {
    assert events + [] == events;
  }
}

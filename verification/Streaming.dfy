/** Parsers that are fed text in pieces: a small-step machine, its run over a buffer, and why the
    pieces do not matter. */
module Streaming {

  /** What a machine does at the front of its buffer: wait for more text, or move to a state, using
      up some of the text and emitting some events. */
  datatype Step<S, E> = Wait | Go(next: S, used: nat, events: seq<E>)

  datatype Machine<!S, !E> = Machine(step: (S, string) -> Step<S, E>, rank: S -> nat)

  /** Where a run stops, the text it leaves, and all it emitted. */
  datatype Outcome<S, E> = Outcome(state: S, rest: string, events: seq<E>)

  /** The step uses up text, or else lowers the rank of the state. */
  predicate Advances<S, E>(m: Machine<S, E>, s: S, b: string) {
    match m.step(s, b)
    case Wait => false
    case Go(next, used, _) => used <= |b| && (used > 0 || m.rank(next) < m.rank(s))
  }

  function After<S, E>(events: seq<E>, o: Outcome<S, E>): Outcome<S, E> {
    o.(events := events + o.events)
  }

  /** Take steps until the machine waits. */
  function Run<S, E>(m: Machine<S, E>, s: S, b: string): Outcome<S, E>
    decreases |b|, m.rank(s)
  {
    if !Advances(m, s, b) then Outcome(s, b, [])
    else
      var Go(next, used, events) := m.step(s, b);
      After(events, Run(m, next, b[used..]))
  }

  /** A step once taken is taken whatever text follows. */
  ghost predicate Stable<S(!new), E>(m: Machine<S, E>) {
    forall s, b, e :: Advances(m, s, b) ==> m.step(s, b + e) == m.step(s, b)
  }

  /** Running over `b + e` is running over `b`, then over what is left of it and `e`. */
  lemma {:induction false} RunOfConcat<S(!new), E>(m: Machine<S, E>, s: S, b: string, e: string)
    requires Stable(m)
    ensures var o := Run(m, s, b); Run(m, s, b + e) == After(o.events, Run(m, o.state, o.rest + e))
    decreases |b|, m.rank(s)
  {
    if Advances(m, s, b) {
      var Go(next, used, events) := m.step(s, b);
      assert m.step(s, b + e) == m.step(s, b);
      assert (b + e)[used..] == b[used..] + e;
      RunOfConcat(m, next, b[used..], e);
      var o := Run(m, next, b[used..]);
      assert (events + o.events) + Run(m, o.state, o.rest + e).events
          == events + (o.events + Run(m, o.state, o.rest + e).events);
    } else {
      assert Run(m, s, b).events == [];
    }
  }

  /** Feed the pieces one after the other, keeping the unused text in between. */
  function Feed<S, E>(m: Machine<S, E>, s: S, b: string, pieces: seq<string>): Outcome<S, E>
    decreases |pieces|
  {
    if pieces == [] then Run(m, s, b)
    else
      var o := Run(m, s, b + pieces[0]);
      After(o.events, Feed(m, o.state, o.rest, pieces[1..]))
  }

  function Concat(pieces: seq<string>): string {
    if pieces == [] then "" else pieces[0] + Concat(pieces[1..])
  }

  /** Feeding pieces is running over their concatenation. */
  lemma {:induction false} FeedIsRun<S(!new), E>(m: Machine<S, E>, s: S, b: string, pieces: seq<string>)
    requires Stable(m)
    ensures Feed(m, s, b, pieces) == Run(m, s, b + Concat(pieces))
    decreases |pieces|
  {
    if pieces == [] {
      assert b + "" == b;
    } else {
      var o := Run(m, s, b + pieces[0]);
      FeedIsRun(m, o.state, o.rest, pieces[1..]);
      RunOfConcat(m, s, b + pieces[0], Concat(pieces[1..]));
      assert b + Concat(pieces) == b + pieces[0] + Concat(pieces[1..]);
    }
  }

  /** Chunk invariance: however a text is cut, the events, the final state and the text held back are
      the same. */
  lemma ChunkInvariance<S(!new), E>(m: Machine<S, E>, s: S, b: string, xs: seq<string>, ys: seq<string>)
    requires Stable(m) && Concat(xs) == Concat(ys)
    ensures Feed(m, s, b, xs) == Feed(m, s, b, ys)
  {
    FeedIsRun(m, s, b, xs);
    FeedIsRun(m, s, b, ys);
  }

  /** A run that has taken its first steps has the rest to take. */
  lemma AfterAfter<S, E>(x: seq<E>, y: seq<E>, o: Outcome<S, E>)
    ensures After(x, After(y, o)) == After(x + y, o)
  {
    assert x + (y + o.events) == (x + y) + o.events;
  }

  lemma AfterNothing<S, E>(o: Outcome<S, E>)
    ensures After([], o) == o
  {
    assert [] + o.events == o.events;
  }
}

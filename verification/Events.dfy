/** The events a streaming tool-call parser emits, and the normal text and calls they amount to. */
module Events {

  datatype Event<C> = Text(c: char) | Called(call: C)

  /** The events that emit a text, one character at a time. */
  function Texts<C>(s: string): seq<Event<C>> {
    if s == "" then [] else [Text(s[0])] + Texts(s[1..])
  }

  function Calls<C>(calls: seq<C>): seq<Event<C>> {
    if calls == [] then [] else [Called(calls[0])] + Calls(calls[1..])
  }

  /** The normal text among the events. */
  function TextOf<C>(events: seq<Event<C>>): string {
    if events == [] then ""
    else (if events[0].Text? then [events[0].c] else "") + TextOf(events[1..])
  }

  /** The calls among the events. */
  function CallsOf<C>(events: seq<Event<C>>): seq<C> {
    if events == [] then []
    else (if events[0].Called? then [events[0].call] else []) + CallsOf(events[1..])
  }

  lemma OfConcat<C>(x: seq<Event<C>>, y: seq<Event<C>>)
    ensures TextOf(x + y) == TextOf(x) + TextOf(y)
    ensures CallsOf(x + y) == CallsOf(x) + CallsOf(y)
  {
    TextOfConcat(x, y);
    CallsOfConcat(x, y);
  }

  lemma {:induction false} TextOfConcat<C>(x: seq<Event<C>>, y: seq<Event<C>>)
    ensures TextOf(x + y) == TextOf(x) + TextOf(y)
  {
    if x == [] {
      assert x + y == y;
    } else {
      assert (x + y)[0] == x[0] && (x + y)[1..] == x[1..] + y;
      TextOfConcat(x[1..], y);
    }
  }

  lemma {:induction false} CallsOfConcat<C>(x: seq<Event<C>>, y: seq<Event<C>>)
    ensures CallsOf(x + y) == CallsOf(x) + CallsOf(y)
  {
    if x == [] {
      assert x + y == y;
    } else {
      assert (x + y)[0] == x[0] && (x + y)[1..] == x[1..] + y;
      CallsOfConcat(x[1..], y);
    }
  }

  lemma OneText<C>(c: char)
    ensures TextOf<C>([Text(c)]) == [c] && CallsOf<C>([Text(c)]) == []
  {
    var events: seq<Event<C>> := [Text(c)];
    assert events[1..] == [];
  }

  lemma {:induction false} OfTexts<C>(s: string)
    ensures TextOf<C>(Texts(s)) == s && CallsOf<C>(Texts(s)) == []
  {
    if s != "" {
      assert ([Text(s[0])] + Texts<C>(s[1..]))[1..] == Texts<C>(s[1..]);
      OfTexts<C>(s[1..]);
    }
  }

  lemma {:induction false} OfCalls<C>(calls: seq<C>)
    ensures TextOf<C>(Calls(calls)) == "" && CallsOf<C>(Calls(calls)) == calls
  {
    if calls != [] {
      assert ([Called(calls[0])] + Calls(calls[1..]))[1..] == Calls(calls[1..]);
      OfCalls(calls[1..]);
    }
  }

  lemma {:induction false} CallsTogether<C>(x: seq<C>, y: seq<C>)
    ensures Calls(x + y) == Calls(x) + Calls(y)
  {
    if x == [] {
      assert x + y == y;
    } else {
      assert (x + y)[1..] == x[1..] + y;
      CallsTogether(x[1..], y);
    }
  }

  lemma TextAndCall<C>(before: string, events: seq<Event<C>>, more: seq<Event<C>>)
    requires TextOf(events) == ""
    ensures TextOf(Texts(before) + (events + more)) == before + TextOf(more)
    ensures CallsOf(Texts(before) + (events + more)) == CallsOf(events) + CallsOf(more)
  {
    hide Texts, TextOf, CallsOf;
    OfConcat(Texts(before), events + more);
    OfConcat(events, more);
    OfTexts<C>(before);
    assert before + ("" + TextOf(more)) == before + TextOf(more);
    assert [] + (CallsOf(events) + CallsOf(more)) == CallsOf(events) + CallsOf(more);
  }

  lemma {:induction false} TextsConcat<C>(s: string, t: string)
    ensures Texts<C>(s + t) == Texts(s) + Texts(t)
  {
    if s == "" {
      assert s + t == t;
    } else {
      assert (s + t)[1..] == s[1..] + t;
      TextsConcat<C>(s[1..], t);
    }
  }
}

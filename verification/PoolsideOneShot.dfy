/** The one-shot Poolside parser, and its agreement with the streaming one on a whole reply. */
module PoolsideOneShot {
  import opened Strings
  import opened Dictionaries
  import opened Events
  import opened Streaming
  import opened ArgTags
  import opened PoolsideSpec
  import opened PoolsideWire

  /** What the one-shot parser needs beside `Tools`: the position of a tool in the request, and the
      JSON text of a key, which here is not restricted to ASCII. */
  datatype Request = Request(index: string -> int, keyText: string -> string)

  datatype ToolCallItem = ToolCallItem(toolIndex: int, name: string, parameters: string)

  type Dict = Entries<string>

  /** A match of `<arg_key>([^<]*?)</arg_key>\s*<arg_value>(.*?)</arg_value>` at the front of `b`: the
      two groups and the text behind. */
  function MatchPair(b: string): (r: Option<(string, string, string)>)
    ensures r.Some? ==> |r.value.2| < |b|
  {
    if !(KEY <= b) then None
    else
      var k := IndexOf("<", b[|KEY|..]);
      if k == -1 || !(KEY_END <= b[|KEY|..][k..]) then None
      else MatchValue(b[|KEY|..][..k], StripLeft(b[|KEY|..][k..][|KEY_END|..]))
  }

  function MatchValue(key: string, t: string): (r: Option<(string, string, string)>)
    ensures r.Some? ==> |r.value.2| < |t|
  {
    if !(VALUE <= t) then None
    else
      var v := IndexOf(VALUE_END, t[|VALUE|..]);
      if v == -1 then None else Some((key, t[|VALUE|..][..v], t[|VALUE|..][v..][|VALUE_END|..]))
  }

  function FindPairs(b: string): seq<(string, string)>
    decreases |b|
  {
    if b == "" then []
    else
      match MatchPair(b)
      case None => FindPairs(b[1..])
      case Some((key, raw, behind)) => [(key, raw)] + FindPairs(behind)
  }

  /** A key and a value as found, with the value converted for its function. */
  function ConvertedPair(tools: Tools, f: string, pair: (string, string)): Entry<string> {
    Entry(Strip(pair.0), tools.valueJson(f, Strip(pair.0), Unwrap(pair.1)))
  }

  function Converted(tools: Tools, f: string, pairs: seq<(string, string)>): Dict {
    if pairs == [] then [] else [ConvertedPair(tools, f, pairs[0])] + Converted(tools, f, pairs[1..])
  }

  function NameIn(body: string): string {
    Strip(if NameBoundary(body) == -1 then body else Slice(body, 0, NameBoundary(body)))
  }

  /** The calls that bodies of calls hold. */
  function CallsIn(tools: Tools, request: Request, bodies: seq<string>): seq<ToolCallItem> {
    if bodies == [] then []
    else
      var name := NameIn(bodies[0]);
      (if name == "" || name !in tools.known then []
       else
         var args := PutAll([], Converted(tools, name, FindPairs(bodies[0])));
         [ToolCallItem(request.index(name), name, ObjectText(request.keyText, args))])
      + CallsIn(tools, request, bodies[1..])
  }

  method DetectAndParse(tools: Tools, request: Request, text: string)
      returns (normal: string, calls: seq<ToolCallItem>)
    ensures normal == if IndexOf(CALL, text) == -1 then text else text[..IndexOf(CALL, text)]
    ensures calls == CallsIn(tools, request, Bodies(text))
  {
    hide Bodies, NameIn, FindPairs, Converted, IndexOf, PutAll, ObjectText;
    calls := [];
    var first := IndexOf(CALL, text);
    if first == -1 {
      NoBodies(text);
      return text, [];
    }
    normal := text[..first];
    var bodies := Bodies(text);
    for k := 0 to |bodies|
      invariant calls + CallsIn(tools, request, bodies[k..]) == CallsIn(tools, request, bodies)
    {
      var body := bodies[k];
      assert bodies[k..][1..] == bodies[k + 1..];
      var name := NameIn(body);
      if name == "" || name !in tools.known {
        continue;
      }
      var args := ParseArgs(tools, name, body);
      calls := calls + [ToolCallItem(request.index(name), name, ObjectText(request.keyText, args))];
    }
    assert bodies[|bodies|..] == [];
  }

  method ParseArgs(tools: Tools, name: string, body: string) returns (args: Dict)
    ensures args == PutAll([], Converted(tools, name, FindPairs(body)))
  {
    args := [];
    var pairs := FindPairs(body);
    for k := 0 to |pairs|
      invariant PutAll(args, Converted(tools, name, pairs[k..])) == PutAll([], Converted(tools, name, pairs))
    {
      assert pairs[k..][1..] == pairs[k + 1..];
      var key := Strip(pairs[k].0);
      var val := Unwrap(pairs[k].1);
      args := Put(args, key, tools.valueJson(name, key, val));
      assert Converted(tools, name, pairs[k..])[1..] == Converted(tools, name, pairs[k + 1..]);
    }
    assert pairs[|pairs|..] == [];
  }

  lemma ValueMatches(key: string, raw: string, behind: string)
    requires !Occurs(VALUE_END, raw)
    ensures MatchValue(key, VALUE + (raw + (VALUE_END + behind))) == Some((key, raw, behind))
  {
    hide IndexOf, Occurs, OpensOnce;
    TagsInert();
    Cut(VALUE, raw + (VALUE_END + behind));
    IndexAfter(VALUE_END, raw, behind);
    Cut(raw, VALUE_END + behind);
    Cut(VALUE_END, behind);
  }

  lemma KeyMatches(key: string, behind: string)
    requires '<' !in key
    ensures MatchPair(KEY + (key + (KEY_END + behind))) == MatchValue(key, StripLeft(behind))
  {
    hide IndexOf, StripLeft, Occurs, OpensOnce, MatchValue;
    Cut(KEY, key + (KEY_END + behind));
    KeyEnds(key, behind);
    Cut(key, KEY_END + behind);
    Cut(KEY_END, behind);
  }

  lemma PairMatches(a: Arg, tail: string)
    requires ArgRight(a)
    ensures MatchPair(ArgText(a) + tail) == Some((a.key, a.raw, a.after + tail))
  {
    hide MatchPair, MatchValue, StripLeft, Occurs;
    var value := VALUE + (a.raw + (VALUE_END + (a.after + tail)));
    assert ArgText(a) + tail == KEY + (a.key + (KEY_END + (a.gap + value)));
    KeyMatches(a.key, a.gap + value);
    BlanksStripped(a.gap, value);
    ValueMatches(a.key, a.raw, a.after + tail);
  }

  lemma KeyEnds(key: string, rest: string)
    requires '<' !in key
    ensures IndexOf("<", key + (KEY_END + rest)) == |key|
  {
    hide IndexOf, Occurs, OpensOnce;
    NoFirstNoTag("<", key);
    OneCharOpens();
    var more := KEY_END[1..];
    IndexAfter("<", key, more + rest);
    Assoc("<", more, rest);
  }

  lemma OneCharOpens()
    ensures OpensOnce("<") && KEY_END == "<" + KEY_END[1..]
  {
  }

  lemma {:induction false} PairsBehind(g: string, rest: string)
    requires '<' !in g
    ensures FindPairs(g + rest) == FindPairs(rest)
    decreases |g|
  {
    if g == "" {
      assert g + rest == rest;
    } else {
      assert (g + rest)[0] == g[0] && (g + rest)[1..] == g[1..] + rest;
      PairsBehind(g[1..], rest);
    }
  }

  lemma {:induction false} PairsOfArgs(args: seq<Arg>)
    requires forall a :: a in args ==> ArgRight(a)
    ensures FindPairs(ArgsText(args)) == PairsOf(args)
    decreases |args|
  {
    hide MatchPair, ArgText;
    if args != [] {
      var a, more := args[0], ArgsText(args[1..]);
      assert a in args && forall x :: x in args[1..] ==> x in args;
      PairMatches(a, more);
      PairsBehind(a.after, more);
      PairsOfArgs(args[1..]);
      assert |ArgText(a) + more| > 0 by {
        assert MatchPair(ArgText(a) + more).Some?;
      }
    }
  }

  /** An argument up to its value. */
  function ArgFront(a: Arg): string {
    KEY + (a.key + (KEY_END + (a.gap + VALUE)))
  }

  lemma ArgParts(a: Arg, rest: string)
    ensures ArgText(a) + rest == ArgFront(a) + (a.raw + (VALUE_END + (a.after + rest)))
    ensures |ArgText(a)| == |ArgFront(a)| + |a.raw| + |VALUE_END| + |a.after|
  {
  }

  /** Neither the end of a call nor the end of a value stands in front of a value. */
  lemma EndBehindFront(a: Arg, text: string)
    requires ArgRight(a)
    ensures IndexOf(CALL_END, ArgFront(a) + text) == Further(|ArgFront(a)|, IndexOf(CALL_END, text))
    ensures IndexOf(VALUE_END, ArgFront(a) + text) == Further(|ArgFront(a)|, IndexOf(VALUE_END, text))
  {
    hide IndexOf, Occurs, OpensOnce, ArgFront;
    TagsInert();
    BlanksHoldNoTag(a.gap);
    TagBehindFront(CALL_END, 1, 2, 1, a, text);
    TagBehindFront(VALUE_END, 1, 6, 1, a, text);
  }

  /** A tag that differs from the three in front of a value is looked for only behind them. */
  lemma TagBehindFront(t: string, i: nat, j: nat, k: nat, a: Arg, text: string)
    requires OpensOnce(t) && t[0] == '<' && '<' !in a.key && '<' !in a.gap
    requires OpensOnce(VALUE) && OpensOnce(KEY_END) && OpensOnce(KEY)
    requires i < |t| && i < |VALUE| && t[i] != VALUE[i]
    requires j < |t| && j < |KEY_END| && t[j] != KEY_END[j]
    requires k < |t| && k < |KEY| && t[k] != KEY[k]
    ensures IndexOf(t, ArgFront(a) + text) == Further(|ArgFront(a)|, IndexOf(t, text))
  {
    hide IndexOf, Occurs;
    var value := VALUE + text;
    var key := KEY_END + (a.gap + value);
    assert ArgFront(a) + text == KEY + (a.key + key);
    IndexBehindTag(t, VALUE, text, i);
    IndexBehindPlain(t, a.gap, value);
    IndexBehindTag(t, KEY_END, a.gap + value, j);
    IndexBehindPlain(t, a.key, key);
    IndexBehindTag(t, KEY, a.key + key, k);
  }

  lemma BlanksHoldNoTag(gap: string)
    requires forall c :: c in gap ==> IsSpace(c)
    ensures '<' !in gap
  {
  }

  /** Where the first end of a call stands among written arguments: in the first value that holds one. */
  function EndAmong(args: seq<Arg>): (i: int)
    ensures i >= -1
  {
    if args == [] then -1
    else if IndexOf(CALL_END, args[0].raw) != -1 then |ArgFront(args[0])| + IndexOf(CALL_END, args[0].raw)
    else Further(|ArgText(args[0])|, EndAmong(args[1..]))
  }

  lemma {:induction false} EndIsAmong(args: seq<Arg>)
    requires forall a :: a in args ==> ArgRight(a)
    ensures IndexOf(CALL_END, ArgsText(args)) == EndAmong(args)
    decreases |args|
  {
    hide IndexOf, Occurs, ArgText, ArgFront, OpensOnce;
    TagsInert();
    if args == [] {
      NoFirstNoTag(CALL_END, "");
    } else {
      var a, more := args[0], ArgsText(args[1..]);
      assert a in args && forall x :: x in args[1..] ==> x in args;
      EndIsAmong(args[1..]);
      ArgParts(a, more);
      var behind := VALUE_END + (a.after + more);
      EndBehindFront(a, a.raw + behind);
      if IndexOf(CALL_END, a.raw) != -1 {
        IndexOfExtends(CALL_END, a.raw, behind);
      } else {
        IndexBehindNone(CALL_END, a.raw, behind);
        IndexBehindTag(CALL_END, VALUE_END, a.after + more, 2);
        AfterHoldsNone(a);
        IndexBehindPlain(CALL_END, a.after, more);
      }
    }
  }

  lemma AfterHoldsNone(a: Arg)
    ensures ArgRight(a) ==> '<' !in a.after
  {
    hide Occurs;
  }

  /** The arguments that stand whole in front of the first end of a call. */
  function SeenArgs(args: seq<Arg>): seq<Arg> {
    if args == [] || IndexOf(CALL_END, args[0].raw) != -1 then [] else [args[0]] + SeenArgs(args[1..])
  }

  /** All arguments are seen exactly when no value holds the end of a call. */
  lemma {:induction false} SeenAll(args: seq<Arg>)
    ensures SeenArgs(args) == args <==> forall a :: a in args ==> IndexOf(CALL_END, a.raw) == -1
    ensures |SeenArgs(args)| <= |args|
    ensures EndAmong(args) == -1 <==> forall a :: a in args ==> IndexOf(CALL_END, a.raw) == -1
    decreases |args|
  {
    hide IndexOf;
    if args != [] {
      SeenAll(args[1..]);
      assert forall a :: a in args <==> a == args[0] || a in args[1..];
      assert IndexOf(CALL_END, args[0].raw) == -1 ==> SeenArgs(args)[1..] == SeenArgs(args[1..]);
    }
  }

  lemma NoMatch(b: string)
    requires !Occurs(VALUE_END, b)
    ensures MatchPair(b) == None
  {
    hide IndexOf, Occurs, StripLeft;
    if KEY <= b {
      var k := IndexOf("<", b[|KEY|..]);
      if k != -1 && KEY_END <= b[|KEY|..][k..] {
        var t := b[|KEY|..][k..][|KEY_END|..];
        StripLeftIsEnd(t);
        var u := StripLeft(t);
        if VALUE <= u {
          var n := |b| - |u| + |VALUE|;
          assert u[|VALUE|..] == b[n..|b|];
          NotInPart(VALUE_END, b, n, |b|);
        }
      }
    }
  }

  lemma {:induction false} NoPairs(t: string)
    requires !Occurs(VALUE_END, t)
    ensures FindPairs(t) == []
    decreases |t|
  {
    hide MatchPair, Occurs;
    if t != "" {
      NoMatch(t);
      NotInTail(VALUE_END, t);
      NoPairs(t[1..]);
    }
  }

  /** In arguments cut off at the first end of a call, the pairs of those in front are found. */
  lemma {:induction false} PairsSeen(args: seq<Arg>)
    requires (forall a :: a in args ==> ArgRight(a)) && 0 <= EndAmong(args) <= |ArgsText(args)|
    ensures FindPairs(ArgsText(args)[..EndAmong(args)]) == PairsOf(SeenArgs(args))
    decreases |args|
  {
    hide MatchPair, ArgText, ArgFront, IndexOf, Occurs, FindPairs;
    var a, more := args[0], ArgsText(args[1..]);
    assert a in args && forall x :: x in args[1..] ==> x in args;
    var i := EndAmong(args);
    if IndexOf(CALL_END, a.raw) != -1 {
      var m := IndexOf(CALL_END, a.raw);
      ArgParts(a, more);
      assert ArgsText(args)[..i] == ArgFront(a) + a.raw[..m];
      RawHoldsNoEnd(a, m);
      NoPairs(ArgsText(args)[..i]);
    } else {
      var tail := more[..i - |ArgText(a)|];
      assert ArgsText(args)[..i] == ArgText(a) + tail;
      PairsSeen(args[1..]);
      PairFirst(a, tail);
      assert SeenArgs(args)[1..] == SeenArgs(args[1..]);
    }
  }

  lemma RawHoldsNoEnd(a: Arg, m: nat)
    requires ArgRight(a) && m <= |a.raw|
    ensures !Occurs(VALUE_END, ArgFront(a) + a.raw[..m])
  {
    hide Occurs, IndexOf, ArgFront;
    NotInPart(VALUE_END, a.raw, 0, m);
    assert a.raw[0..m] == a.raw[..m];
    EndBehindFront(a, a.raw[..m]);
  }

  lemma PairFirst(a: Arg, tail: string)
    requires ArgRight(a)
    ensures FindPairs(ArgText(a) + tail) == [(a.key, a.raw)] + FindPairs(tail)
  {
    hide MatchPair, ArgText;
    PairMatches(a, tail);
    AfterHoldsNone(a);
    PairsBehind(a.after, tail);
    assert |ArgText(a) + tail| > 0 by {
      assert MatchPair(ArgText(a) + tail).Some?;
    }
  }

  /** A body up to the first end of a call in it. */
  function SeenText(c: WireCall): string {
    if IndexOf(CALL_END, BodyText(c)) == -1 then BodyText(c) else BodyText(c)[..IndexOf(CALL_END, BodyText(c))]
  }

  lemma BodyEnds(c: WireCall)
    requires CallRight(c)
    ensures var front := c.name + c.lead;
            && BodyText(c) == front + ArgsText(c.args)
            && IndexOf(CALL_END, BodyText(c)) == Further(|front|, EndAmong(c.args))
  {
    hide IndexOf, Occurs, EndAmong;
    var front := c.name + c.lead;
    assert BodyText(c) == front + ArgsText(c.args);
    EndIsAmong(c.args);
    IndexBehindPlain(CALL_END, front, ArgsText(c.args));
  }

  lemma PairsOfBody(c: WireCall)
    requires CallRight(c)
    ensures FindPairs(SeenText(c)) == PairsOf(SeenArgs(c.args)) && NameIn(SeenText(c)) == NameOf(c)
  {
    hide FindPairs, Strip, NameBoundary, IndexOf, Occurs, EndAmong, SeenArgs;
    BodyEnds(c);
    SeenAll(c.args);
    EndIsAmong(c.args);
    var front := c.name + c.lead;
    var i := EndAmong(c.args);
    var seen := if i == -1 then ArgsText(c.args) else ArgsText(c.args)[..i];
    assert SeenText(c) == front + seen == c.name + (c.lead + seen);
    if i == -1 {
      PairsOfArgs(c.args);
    } else {
      PairsSeen(c.args);
    }
    PairsBehind(front, seen);
    NameSeen(c, seen);
    assert Slice(SeenText(c), 0, |c.name|) == c.name;
  }

  lemma NameSeen(c: WireCall, seen: string)
    requires CallRight(c)
    requires var i, text := EndAmong(c.args), ArgsText(c.args);
             i <= |text| && seen == if i == -1 then text else text[..i]
    ensures var end := NameBoundary(c.name + (c.lead + seen));
            if end == -1 then c.lead + seen == "" else end == |c.name|
  {
    hide NameBoundary, IndexOf, EndAmong, ArgsText;
    var rest := c.lead + seen;
    if c.lead != "" {
      assert rest[..1] == "\n";
      NameEnds(c.name, rest);
    } else if c.args != [] {
      assert rest == seen;
      KeySeen(c.args, seen);
      NameEnds(c.name, rest);
    } else {
      NoneAmong();
      assert rest == "" && c.name + "" == c.name;
      NameUnended(c.name);
    }
  }

  lemma KeySeen(args: seq<Arg>, seen: string)
    requires args != []
    requires var i, text := EndAmong(args), ArgsText(args); i <= |text| && seen == if i == -1 then text else text[..i]
    ensures KEY <= seen
  {
    hide IndexOf, EndAmong;
    ArgsStart(args);
    KeyBeforeEnd(args);
  }

  lemma NoneAmong()
    ensures EndAmong([]) == -1 && ArgsText([]) == ""
  {
  }

  lemma KeyBeforeEnd(args: seq<Arg>)
    requires args != []
    ensures EndAmong(args) == -1 || EndAmong(args) >= |KEY|
  {
    hide IndexOf;
    ArgParts(args[0], "");
  }

  function SeenTexts(calls: seq<WireCall>): seq<string> {
    if calls == [] then [] else [SeenText(calls[0])] + SeenTexts(calls[1..])
  }

  lemma ReplyParts(calls: seq<WireCall>)
    requires calls != []
    ensures ReplyText(calls) ==
            CALL + (BodyText(calls[0]) + (CALL_END + (calls[0].trail + ReplyText(calls[1..]))))
  {
    hide BodyText;
  }

  lemma NoReply()
    ensures ReplyText([]) == ""
  {
  }

  /** The one-shot parser finds the next call behind the first end of this one: no call may start in
      between. */
  ghost predicate ShotRight(c: WireCall) {
    CallRight(c) && (IndexOf(CALL_END, BodyText(c)) != -1 ==> !Occurs(CALL, BodyText(c)))
  }

  /** The text between the first end of a call and the next call. */
  function Leftover(c: WireCall): string {
    if IndexOf(CALL_END, BodyText(c)) == -1 then c.trail
    else BodyText(c)[IndexOf(CALL_END, BodyText(c)) + |CALL_END|..] + (CALL_END + c.trail)
  }

  lemma BodySeen(c: WireCall, more: string)
    requires ShotRight(c)
    ensures !Occurs(CALL, Leftover(c))
    ensures BodyText(c) + (CALL_END + (c.trail + more)) == SeenText(c) + (CALL_END + (Leftover(c) + more))
    ensures IndexOf(CALL_END, SeenText(c) + (CALL_END + (Leftover(c) + more))) == |SeenText(c)|
  {
    hide IndexOf, Occurs, OpensOnce, BodyText;
    TagsInert();
    var b := BodyText(c);
    var i := IndexOf(CALL_END, b);
    if i == -1 {
      IndexAfter(CALL_END, b, c.trail + more);
    } else {
      var rest := b[i + |CALL_END|..|b|];
      CutAround(CALL_END, b, i);
      NotInPart(CALL, b, i + |CALL_END|, |b|);
      NotInFront(CALL, CALL_END, c.trail, 1);
      NotAcross(CALL, rest, CALL_END + c.trail);
      IndexOfExtends(CALL_END, b, CALL_END + (c.trail + more));
      EndsMove(SeenText(c), rest, CALL_END, c.trail, more);
    }
  }

  lemma {:induction false} BodiesOfReply(before: string, calls: seq<WireCall>)
    requires !Occurs(CALL, before) && forall c :: c in calls ==> ShotRight(c)
    ensures Bodies(before + ReplyText(calls)) == SeenTexts(calls)
    ensures IndexOf(CALL, before + ReplyText(calls)) == if calls == [] then -1 else |before|
    decreases |calls|
  {
    hide IndexOf, BodyText, OpensOnce, Occurs, Bodies, ReplyText, CallRight, SeenText, Leftover;
    if calls == [] {
      NoReply();
      assert before + "" == before;
      NoBodies(before);
    } else {
      var c, more := calls[0], ReplyText(calls[1..]);
      assert c in calls && forall x :: x in calls[1..] ==> x in calls;
      ReplyParts(calls);
      BodySeen(c, more);
      TagsInert();
      IndexAfter(CALL, before, SeenText(c) + (CALL_END + (Leftover(c) + more)));
      OneBody(before, SeenText(c), Leftover(c) + more);
      BodiesOfReply(Leftover(c), calls[1..]);
    }
  }

  /** The arguments of a call as written. */
  function Written(tools: Tools, c: WireCall): Dict {
    Converted(tools, NameOf(c), PairsOf(c.args))
  }

  function KnownCalls(tools: Tools, calls: seq<WireCall>): seq<WireCall> {
    if calls == [] then []
    else (if Known(tools, calls[0]) then [calls[0]] else []) + KnownCalls(tools, calls[1..])
  }

  /** The arguments of a call as found at once. */
  function Seen(tools: Tools, c: WireCall): Dict {
    Converted(tools, NameOf(c), PairsOf(SeenArgs(c.args)))
  }

  function OneShotItem(tools: Tools, request: Request, c: WireCall): ToolCallItem {
    ToolCallItem(request.index(NameOf(c)), NameOf(c), ObjectText(request.keyText, PutAll([], Seen(tools, c))))
  }

  lemma {:induction false} CallsOfReply(tools: Tools, request: Request, calls: seq<WireCall>)
    requires forall c :: c in calls ==> CallRight(c)
    ensures var known, items := KnownCalls(tools, calls), CallsIn(tools, request, SeenTexts(calls));
            |items| == |known| && forall i :: 0 <= i < |known| ==> items[i] == OneShotItem(tools, request, known[i])
    decreases |calls|
  {
    hide SeenText, NameIn, FindPairs, NameOf, PairsOf, SeenArgs, Converted, PutAll, ObjectText;
    if calls != [] {
      assert calls[0] in calls && forall x :: x in calls[1..] ==> x in calls;
      PairsOfBody(calls[0]);
      assert SeenTexts(calls)[1..] == SeenTexts(calls[1..]);
      CallsOfReply(tools, request, calls[1..]);
    }
  }

  lemma NoneJoined()
    ensures Concat([]) == ""
  {
  }

  lemma JoinedMore(f: string, more: seq<string>)
    ensures Concat([f] + more) == f + Concat(more)
  {
    assert ([f] + more)[1..] == more;
  }

  /** The fragments of a call add up to the text of one object, entry by entry as written. */
  lemma {:induction false} FragmentsAddUp(tools: Tools, f: string, args: seq<Arg>)
    ensures Concat(FragmentsFor(tools, f, true, args)) == MoreOpen(tools.keyJson, Converted(tools, f, PairsOf(args)))
            + "}"
    ensures Concat(FragmentsFor(tools, f, false, args)) == ObjectText(tools.keyJson, Converted(tools, f, PairsOf(args)))
    decreases |args|
  {
    hide Concat, Strip, Unwrap;
    if args == [] {
      JoinedMore("}", []);
      JoinedMore("{}", []);
      NoneJoined();
      assert ["}"] + [] == ["}"] && ["{}"] + [] == ["{}"];
    } else {
      var entries := Converted(tools, f, PairsOf(args));
      var more := FragmentsFor(tools, f, true, args[1..]);
      FragmentsAddUp(tools, f, args[1..]);
      assert entries[1..] == Converted(tools, f, PairsOf(args[1..]));
      assert EntryText(tools.keyJson, entries[0]) == PairOf(tools, f, args[0]);
      JoinedMore(", " + PairOf(tools, f, args[0]), more);
      JoinedMore("{" + PairOf(tools, f, args[0]), more);
    }
  }

  lemma {:induction false} RecordsOfReply(tools: Tools, calls: seq<WireCall>)
    ensures var known, records := KnownCalls(tools, calls), Records(tools, calls);
            |records| == |known|
            && forall i :: 0 <= i < |known| ==> records[i] == ObjectText(tools.keyJson, Written(tools, known[i]))
    decreases |calls|
  {
    hide Known, NameOf, FragmentsFor, ObjectText, Concat, PairsOf, Converted;
    if calls != [] {
      FragmentsAddUp(tools, NameOf(calls[0]), calls[0].args);
      RecordsOfReply(tools, calls[1..]);
    }
  }

  lemma {:induction false} ConvertedSize(tools: Tools, f: string, args: seq<Arg>)
    ensures |Converted(tools, f, PairsOf(args))| == |args|
    decreases |args|
  {
    hide ConvertedPair;
    if args != [] {
      ConvertedSize(tools, f, args[1..]);
    }
  }

  lemma {:induction false} SeenIsFront(args: seq<Arg>)
    ensures |SeenArgs(args)| == |args| ==> SeenArgs(args) == args
    decreases |args|
  {
    hide IndexOf;
    SeenAll(args);
    if args != [] {
      SeenAll(args[1..]);
      SeenIsFront(args[1..]);
      assert SeenArgs(args) != [] ==> SeenArgs(args)[1..] == SeenArgs(args[1..]);
    }
  }

  /** What the one-shot parser makes of a call is the entries as streamed exactly when no key is repeated
      and no value holds the end of a call. */
  lemma SameExactly(tools: Tools, c: WireCall)
    ensures PutAll([], Seen(tools, c)) == Written(tools, c) <==>
            DistinctKeys(Written(tools, c)) && forall a :: a in c.args ==> IndexOf(CALL_END, a.raw) == -1
  {
    hide IndexOf, PutAll, DistinctKeys, SeenArgs, Converted, NameOf;
    SeenAll(c.args);
    SeenIsFront(c.args);
    ConvertedSize(tools, NameOf(c), c.args);
    ConvertedSize(tools, NameOf(c), SeenArgs(c.args));
    PutAllSize([], Seen(tools, c));
    DictIsAsWritten(Written(tools, c));
  }

  /** On a whole reply, however it is cut into pieces, both parsers find the same calls. The streamed text
      spells the arguments out as written; the one-shot text the dictionary of those that stand in front
      of the first end of a call: of the same arguments exactly when no key is repeated and no value holds
      one. The normal text differs: only streaming keeps what stands after the first call. */
  lemma ParsersAgree(tools: Tools, request: Request, before: string, calls: seq<WireCall>, pieces: seq<string>)
    requires !Occurs(CALL, before) && forall c :: c in calls ==> Streams(tools, c) && ShotRight(c)
    requires Concat(pieces) == before + ReplyText(calls)
    ensures var o, known := Feed(Poolside(tools), START, "", pieces), KnownCalls(tools, calls);
            var items := CallsIn(tools, request, Bodies(before + ReplyText(calls)));
            && |items| == |o.state.streamed| == |known|
            && (forall i :: 0 <= i < |known| ==>
                  && items[i] == OneShotItem(tools, request, known[i])
                  && o.state.streamed[i] == ObjectText(tools.keyJson, Written(tools, known[i]))
                  && (SeenArgs(known[i].args) == known[i].args <==>
                      forall a :: a in known[i].args ==> IndexOf(CALL_END, a.raw) == -1)
                  && (PutAll([], Seen(tools, known[i])) == Written(tools, known[i]) <==>
                      DistinctKeys(Written(tools, known[i]))
                      && forall a :: a in known[i].args ==> IndexOf(CALL_END, a.raw) == -1))
            && CallsOf(o.events) == ReplyItems(tools, 0, calls)
            && TextOf(o.events) + o.rest == before + OutsideText(calls)
  {
    hide Run, Feed, ReplyText, CallRight, Streams, Occurs, Bodies, SeenTexts, SeenArgs, CallsIn, KnownCalls, Records,
      OneShotItem, Written, Seen, PutAll, DistinctKeys, ObjectText, ReplyItems, TextOf, CallsOf, OutsideText, IndexOf;
    PoolsideStable(tools);
    FeedIsRun(Poolside(tools), START, "", pieces);
    assert "" + Concat(pieces) == before + ReplyText(calls);
    RunReply(tools, START, before, calls);
    BodiesOfReply(before, calls);
    CallsOfReply(tools, request, calls);
    RecordsOfReply(tools, calls);
    assert START.streamed + Records(tools, calls) == Records(tools, calls);
    forall c: WireCall
      ensures SeenArgs(c.args) == c.args <==> forall a :: a in c.args ==> IndexOf(CALL_END, a.raw) == -1
      ensures PutAll([], Seen(tools, c)) == Written(tools, c) <==>
              DistinctKeys(Written(tools, c)) && forall a :: a in c.args ==> IndexOf(CALL_END, a.raw) == -1
    {
      SeenAll(c.args);
      SameExactly(tools, c);
    }
  }

  /** A call of a known tool, its values without the end of a call. */
  ghost predicate Plain(tools: Tools, c: WireCall) {
    && CallRight(c) && c.trail == "" && Trim(c.name) && c.name != "" && c.name in tools.known
    && forall a :: a in c.args ==> !Occurs(CALL_END, a.raw)
  }

  /** `ParsersAgree` for such a call on its own. */
  lemma OneCallAgrees(tools: Tools, request: Request, c: WireCall, pieces: seq<string>)
    requires Plain(tools, c) && Concat(pieces) == CALL + (BodyText(c) + CALL_END)
    ensures var o := Feed(Poolside(tools), START, "", pieces);
            && TextOf(o.events) + o.rest == ""
            && CallsOf(o.events) == [Item(0, Some(c.name), "")]
                 + CallsOf(FragmentEvents(0, FragmentsFor(tools, c.name, false, c.args)))
            && CallsIn(tools, request, Bodies(Concat(pieces))) ==
               [ToolCallItem(request.index(c.name), c.name,
                             ObjectText(request.keyText, PutAll([], Converted(tools, c.name, PairsOf(c.args)))))]
  {
    hide Feed, CallsIn, Bodies, TextOf, Occurs, Strip, IndexOf, CallRight, BodyText, FragmentsFor, FragmentEvents,
      DistinctKeys, PutAll, Converted, ObjectText;
    NoFirstNoTag(CALL, "");
    assert [c][1..] == [];
    StripTrims("", c.name, "");
    assert "" + (c.name + "") == c.name;
    BodyEnds(c);
    SeenAll(c.args);
    assert ReplyText([c]) == CALL + (BodyText(c) + (CALL_END + "")) + "";
    assert "" + ReplyText([c]) == CALL + (BodyText(c) + CALL_END);
    ParsersAgree(tools, request, "", [c], pieces);
    assert KnownCalls(tools, [c]) == [c];
    assert ReplyItems(tools, 0, [c]) == CallsOf(CallEvents(tools, 0, c));
    var name, more := [Called(Item(0, Some(c.name), ""))], FragmentEvents(0, FragmentsOfCall(tools, c));
    OfConcat(name, more);
    assert name[1..] == [];
  }

  /** One call with one argument, letter by letter: what streaming emits, however it is cut, and what the
      one-shot parser finds. */
  lemma OneCallRead(tools: Tools, request: Request, name: string, key: string, value: string, pieces: seq<string>)
    requires name in tools.known && name != "" && Trim(name) && '<' !in name && '\n' !in name
    requires Trim(key) && '<' !in key
    requires !Occurs("</arg_value>", value) && !Occurs("</tool_call>", value)
    requires value == "" || (value[0] != '\n' && value[|value| - 1] != '\n')
    requires Concat(pieces) == "<tool_call>" + name + "\n" + "<arg_key>" + key + "</arg_key>" + "\n"
                               + "<arg_value>" + value + "</arg_value>" + "\n" + "</tool_call>"
    ensures var o := Feed(Poolside(tools), START, "", pieces);
            var text := tools.valueJson(name, key, value);
            && TextOf(o.events) + o.rest == ""
            && CallsOf(o.events) ==
               [Item(0, Some(name), ""), Item(0, None, "{" + (tools.keyJson(key) + ": " + text)), Item(0, None, "}")]
            && CallsIn(tools, request, Bodies(Concat(pieces))) ==
               [ToolCallItem(request.index(name), name, "{" + (request.keyText(key) + ": " + text) + "}")]
  {
    hide Feed, CallsIn, Bodies, TextOf, CallsOf, Occurs, Strip, FragmentsFor, FragmentEvents, PutAll, Converted,
      ObjectText, Unwrap;
    var a := Arg(key, "\n", value, "\n");
    var c := WireCall(name, "\n", [a], "");
    NoFirstNoTag(CALL, "");
    UnwrapExact("", value, "");
    StripTrims("", key, "");
    assert "" + (value + "") == value && "" + (key + "") == key;
    Regroup(CALL, name, KEY, key, KEY_END, VALUE, value, VALUE_END, CALL_END, "\n");
    assert c.args[1..] == [];
    assert ArgsText(c.args) == ArgText(a) + "";
    OneCallAgrees(tools, request, c, pieces);
    OneFragment(tools, name, a);
    OneEntry(tools, request, name, a);
  }

  lemma Regroup(call: string, name: string, keyTag: string, key: string, keyEnd: string, valueTag: string,
                value: string, valueEnd: string, callEnd: string, nl: string)
    ensures var arg := keyTag + key + (keyEnd + (nl + (valueTag + value + (valueEnd + nl)))) + "";
            call + ((name + (nl + arg)) + callEnd) ==
            call + name + nl + keyTag + key + keyEnd + nl + valueTag + value + valueEnd + nl + callEnd
  {
  }

  lemma OneFragment(tools: Tools, name: string, a: Arg)
    ensures CallsOf(FragmentEvents(0, FragmentsFor(tools, name, false, [a]))) ==
            [Item(0, None, "{" + PairOf(tools, name, a)), Item(0, None, "}")]
  {
    hide PairOf;
    assert [a][1..] == [];
    var fragments := ["{" + PairOf(tools, name, a), "}"];
    assert FragmentsFor(tools, name, true, []) == ["}"];
    assert FragmentsFor(tools, name, false, [a]) == fragments;
    assert fragments[1..] == ["}"] && ["}"][1..] == [];
    var first, last: Event<Item> := Called(Item(0, None, fragments[0])), Called(Item(0, None, "}"));
    assert FragmentEvents(0, ["}"]) == [last];
    assert FragmentEvents(0, fragments) == [first, last];
    assert [first, last][1..] == [last] && [last][1..] == [];
    assert CallsOf([last]) == [last.call];
  }

  lemma OneEntry(tools: Tools, request: Request, name: string, a: Arg)
    ensures var e := ConvertedPair(tools, name, (a.key, a.raw));
            ObjectText(request.keyText, PutAll([], Converted(tools, name, PairsOf([a])))) ==
            "{" + (request.keyText(e.key) + ": " + e.value) + "}"
  {
    hide ConvertedPair;
    var e := ConvertedPair(tools, name, (a.key, a.raw));
    assert [a][1..] == [] && [(a.key, a.raw)][1..] == [] && [e][1..] == [];
    assert PairsOf([a]) == [(a.key, a.raw)];
    assert Converted(tools, name, PairsOf([a])) == [e];
    assert PutAll([], [e]) == PutAll([e], []);
  }

  /** One call without arguments, letter by letter. */
  lemma BareCallRead(tools: Tools, request: Request, name: string, pieces: seq<string>)
    requires name in tools.known && name != "" && Trim(name) && '<' !in name && '\n' !in name
    requires Concat(pieces) == "<tool_call>" + name + "</tool_call>"
    ensures var o := Feed(Poolside(tools), START, "", pieces);
            && TextOf(o.events) + o.rest == ""
            && CallsOf(o.events) == [Item(0, Some(name), ""), Item(0, None, "{}")]
            && CallsIn(tools, request, Bodies(Concat(pieces))) == [ToolCallItem(request.index(name), name, "{}")]
  {
    hide Feed, CallsIn, Bodies, TextOf, CallsOf, Occurs, Strip;
    var c := WireCall(name, "", [], "");
    NoFirstNoTag(CALL, "");
    assert BodyText(c) == name;
    OneCallAgrees(tools, request, c, pieces);
    assert FragmentsFor(tools, name, false, []) == ["{}"];
    NoArguments();
    assert ObjectText(request.keyText, []) == "{}";
  }

  lemma NoArguments()
    ensures CallsOf(FragmentEvents(0, ["{}"])) == [Item(0, None, "{}")]
    ensures PairsOf([]) == []
  {
    assert ["{}"][1..] == [];
    assert FragmentEvents(0, ["{}"]) == [Called(Item(0, None, "{}"))];
    assert [Called(Item(0, None, "{}"))][1..] == [];
  }
}

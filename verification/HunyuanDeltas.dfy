/** The deltas of a well-formed Hunyuan call add up to the JSON text of its arguments, however the text
    arrives. */
module HunyuanDeltas {
  import opened Strings
  import opened HoldBack
  import opened Dictionaries
  import opened JsonStrings
  import opened ArgTags
  import opened Streaming
  import opened HunyuanArgs

  /** An argument up to its end tag. */
  function ClosedText(a: Arg): string {
    KEY + a.key + (KEY_END + (a.gap + (VALUE + (a.raw + VALUE_END))))
  }

  /** An argument up to its value. */
  function Front(a: Arg): string {
    KEY + (a.key + (KEY_END + (a.gap + VALUE)))
  }

  lemma ArgParts(lead: string, a: Arg, rest: string)
    ensures ArgText(a) + rest == ClosedText(a) + (a.after + rest)
    ensures lead + ClosedText(a) == lead + Front(a) + (a.raw + VALUE_END)
  {
  }

  /** The end tag of a value stands nowhere before the end of the argument. */
  lemma EndStandsLast(lead: string, a: Arg)
    requires '<' !in lead && ArgRight(a)
    ensures !Occurs(VALUE_END, lead + Front(a) + a.raw)
  {
    hide Occurs, OpensOnce;
    TagsInert();
    NotInFront(VALUE_END, VALUE, a.raw, 1);
    assert VALUE_END[0] !in a.gap;
    NotInPlain(VALUE_END, a.gap, VALUE + a.raw);
    NotInFront(VALUE_END, KEY_END, a.gap + (VALUE + a.raw), 6);
    NotInPlain(VALUE_END, a.key, KEY_END + (a.gap + (VALUE + a.raw)));
    NotInFront(VALUE_END, KEY, a.key + (KEY_END + (a.gap + (VALUE + a.raw))), 1);
    NotInPlain(VALUE_END, lead, KEY + (a.key + (KEY_END + (a.gap + (VALUE + a.raw)))));
    assert lead + Front(a) + a.raw == lead + (KEY + (a.key + (KEY_END + (a.gap + (VALUE + a.raw)))));
  }

  /** Nor does the tag that begins it stand anywhere before the value. */
  lemma StartStandsLast(lead: string, a: Arg)
    requires '<' !in lead && ArgRight(a)
    ensures !Occurs(VALUE, lead + (KEY + (a.key + (KEY_END + a.gap))))
    ensures !Occurs(VALUE, KEY_END + a.gap)
  {
    hide Occurs, OpensOnce;
    TagsInert();
    NoFirstNoTag(VALUE, a.gap);
    NotInFront(VALUE, KEY_END, a.gap, 1);
    NotInPlain(VALUE, a.key, KEY_END + a.gap);
    NotInFront(VALUE, KEY, a.key + (KEY_END + a.gap), 5);
    NotInPlain(VALUE, lead, KEY + (a.key + (KEY_END + a.gap)));
  }

  /** A proper prefix of a text that ends in its only such tag does not hold the tag. */
  lemma NotYet(t: string, before: string, p: string)
    requires OpensOnce(t) && !Occurs(t, before) && p <= before + t && |p| < |before + t|
    ensures !Occurs(t, p)
  {
    hide OpensOnce, Occurs;
    IndexAfter(t, before, "");
    assert before + (t + "") == before + t;
    var e := (before + t)[|p|..];
    assert p + e == before + t;
    if IndexOf(t, p) != -1 {
      IndexOfExtends(t, p, e);
    }
  }

  lemma NoEndNoMatch(b: string)
    requires !Occurs(VALUE_END, b)
    ensures FirstMatch(b) == None && Pairs(b) == [] && Tail(b) == b
  {
  }

  lemma MatchAfterLead(lead: string, rest: string)
    requires '<' !in lead && rest != "" && MatchArg(rest).Some?
    ensures FirstMatch(lead + rest) == MatchArg(rest)
  {
    hide MatchBehind;
    if lead == "" {
      assert lead + rest == rest;
    } else {
      assert (lead + rest)[0] == lead[0] && (lead + rest)[1..] == lead[1..] + rest;
      MatchAfterLead(lead[1..], rest);
    }
  }

  lemma MatchesAtKey(key: string, gap: string, raw: string, rest: string)
    requires '<' !in key && (forall c :: c in gap ==> IsSpace(c)) && !Occurs(VALUE_END, raw)
    ensures MatchBehind("", key + (KEY_END + (gap + (VALUE + (raw + (VALUE_END + rest)))))) == Some((key, raw, rest))
  {
    hide IndexOf, StripLeft, Occurs, OpensOnce;
    var value := VALUE + (raw + (VALUE_END + rest));
    TagsInert();
    NoFirstNoTag(KEY_END, key);
    IndexAfter(KEY_END, key, gap + value);
    assert (key + (KEY_END + (gap + value)))[|key| + |KEY_END|..] == gap + value;
    Cut(key, KEY_END + (gap + value));
    BlanksStripped(gap, value);
    assert "" + key == key;
    Cut(VALUE, raw + (VALUE_END + rest));
    IndexAfter(VALUE_END, raw, rest);
    Cut(raw, VALUE_END + rest);
    Cut(VALUE_END, rest);
  }

  /** A whole argument is matched, with what follows left. */
  lemma ClosedMatches(lead: string, a: Arg, rest: string)
    requires '<' !in lead && ArgRight(a)
    ensures FirstMatch(lead + (ClosedText(a) + rest)) == Some((a.key, a.raw, rest))
  {
    hide FirstMatch, MatchBehind, Occurs;
    var inner := a.key + (KEY_END + (a.gap + (VALUE + (a.raw + (VALUE_END + rest)))));
    assert ClosedText(a) + rest == KEY + inner;
    Cut(KEY, inner);
    MatchesAtKey(a.key, a.gap, a.raw, rest);
    MatchAfterLead(lead, KEY + inner);
  }

  lemma PrefixHasNone(t: string, w: string, p: string)
    requires !Occurs(t, w) && p <= w
    ensures !Occurs(t, p)
  {
    assert p + w[|p|..] == w;
    if IndexOf(t, p) != -1 {
      IndexOfExtends(t, p, w[|p|..]);
    }
  }

  /** How many arguments are closed within the first `n` characters. */
  function Done(lead: string, args: seq<Arg>, n: nat): (done: nat)
    ensures done <= |args|
    decreases |args|
  {
    if args == [] || n < |lead| + |ClosedText(args[0])| then 0
    else 1 + Done(args[0].after, args[1..], n - |lead| - |ClosedText(args[0])|)
  }

  lemma {:induction false} DoneGrows(lead: string, args: seq<Arg>, n: nat, m: nat)
    requires n <= m
    ensures Done(lead, args, n) <= Done(lead, args, m)
    decreases |args|
  {
    if args != [] && n >= |lead| + |ClosedText(args[0])| {
      var k := |lead| + |ClosedText(args[0])|;
      DoneGrows(args[0].after, args[1..], n - k, m - k);
    }
  }

  ghost predicate ProperPrefix(p: string, w: string) {
    p <= w && |p| < |w|
  }

  ghost predicate AllRight(args: seq<Arg>) {
    forall a :: a in args ==> ArgRight(a)
  }

  /** What is left to read of a prefix once the closed arguments are taken: the beginning of the next
      argument, or of the end of the call. */
  ghost predicate LeftOver(args: seq<Arg>, done: nat, lead: string, tail: string)
    requires done <= |args|
  {
    '<' !in lead && ProperPrefix(tail, lead + if done < |args| then ClosedText(args[done]) else CALL_END)
  }

  lemma EndHasNone(lead: string)
    requires '<' !in lead
    ensures !Occurs(VALUE_END, lead + CALL_END) && !Occurs(KEY, lead + CALL_END)
  {
    hide Occurs, OpensOnce;
    TagsInert();
    NoFirstNoTag(VALUE_END, "");
    NoFirstNoTag(KEY, "");
    NotInFront(VALUE_END, CALL_END, "", 2);
    NotInFront(KEY, CALL_END, "", 1);
    assert CALL_END + "" == CALL_END;
    NotInPlain(VALUE_END, lead, CALL_END);
    NotInPlain(KEY, lead, CALL_END);
  }

  lemma SplitPrefix(p: string, front: string, back: string)
    requires p <= front + back
    ensures |p| <= |front| ==> p <= front
    ensures |p| >= |front| ==> p == front + p[|front|..] && p[|front|..] <= back
  {
    if |p| >= |front| {
      assert (front + back)[|front|..|p|] == back[..|p| - |front|];
    }
  }

  /** A call's arguments up to its end. */
  function Whole(lead: string, args: seq<Arg>): string {
    lead + (ArgsText(args) + CALL_END)
  }

  lemma WholeOfNone(lead: string)
    ensures Whole(lead, []) == lead + CALL_END
  {
    assert "" + CALL_END == CALL_END;
  }

  lemma FirstOfWhole(lead: string, args: seq<Arg>)
    requires args != []
    ensures Whole(lead, args) == lead + ClosedText(args[0]) + Whole(args[0].after, args[1..])
  {
    hide ClosedText, ArgText;
    var more := ArgsText(args[1..]) + CALL_END;
    ArgParts(lead, args[0], more);
    assert ArgsText(args) + CALL_END == ArgText(args[0]) + more;
  }

  lemma {:induction false} PrefixRead(lead: string, args: seq<Arg>, p: string) returns (lead': string)
    requires '<' !in lead && AllRight(args) && ProperPrefix(p, Whole(lead, args))
    ensures var done := Done(lead, args, |p|);
            Pairs(p) == PairsOf(args[..done]) && LeftOver(args, done, lead', Tail(p))
    decreases |args|
  {
    hide FirstMatch, ClosedText, ArgsText, Occurs, ArgRight, Whole;
    lead' := lead;
    if args == [] {
      WholeOfNone(lead);
      EndHasNone(lead);
      PrefixHasNone(VALUE_END, lead + CALL_END, p);
      NoEndNoMatch(p);
    } else {
      var a, more := args[0], Whole(args[0].after, args[1..]);
      assert a in args && forall x :: x in args[1..] ==> x in args;
      var closed := lead + ClosedText(a);
      FirstOfWhole(lead, args);
      SplitPrefix(p, closed, more);
      if |p| < |closed| {
        EndStandsLast(lead, a);
        ArgParts(lead, a, "");
        assert closed == lead + Front(a) + a.raw + VALUE_END;
        TagsInert();
        NotYet(VALUE_END, lead + Front(a) + a.raw, p);
        NoEndNoMatch(p);
      } else {
        var rest := p[|closed|..];
        ClosedMatches(lead, a, rest);
        assert p == lead + (ClosedText(a) + rest);
        AfterIsPlain(a);
        lead' := PrefixRead(a.after, args[1..], rest);
        ReadOne(p, a.key, a.raw, rest);
        var done := Done(lead, args, |p|);
        assert args[..done] == [a] + args[1..][..done - 1];
      }
    }
  }

  lemma AfterIsPlain(a: Arg)
    requires ArgRight(a)
    ensures '<' !in a.after
  {
  }

  lemma ReadOne(p: string, key: string, value: string, rest: string)
    requires FirstMatch(p) == Some((key, value, rest))
    ensures Pairs(p) == [(key, value)] + Pairs(rest) && Tail(p) == Tail(rest)
  {
  }

  lemma SafeIsPrefix(raw: string, v: string)
    requires ProperPrefix(v, raw + VALUE_END)
    ensures Safe(v) <= raw
  {
    hide Longest, OpensOnce, BorderFree, ShortestFrom;
    TagsInert();
    OpensOnceBorderFree(VALUE_END);
    BorderFreeHolds(v, VALUE_END);
    SplitPrefix(v, raw, VALUE_END);
    if |v| > |raw| {
      LongestIsLongest(v, VALUE_END, |v| - |raw|);
    }
  }

  /** A value is streamed only once its begin tag is there in full. */
  lemma PartialNeedsStart(tools: Tools, tail: string)
    ensures Partial(tools, tail).Some? ==> Occurs(VALUE, tail) && Occurs(KEY, tail)
  {
    if Partial(tools, tail).Some? {
      var k := IndexOf(KEY, tail);
      var t := tail[k..][|KEY|..];
      BehindOccurs(VALUE, tail, k);
      BehindOccurs(VALUE, tail[k..], |KEY|);
      BehindOccurs(VALUE, t, IndexOf(KEY_END, t));
    }
  }

  lemma PartialAtValue(tools: Tools, lead: string, a: Arg, v: string)
    requires '<' !in lead && ArgRight(a)
    ensures Partial(tools, lead + Front(a) + v) ==
            if tools.strings(Strip(a.key)) then Some((Strip(a.key), v)) else None
  {
    hide IndexOf, Strip, Occurs, OpensOnce;
    TagsInert();
    var value := VALUE + v;
    assert lead + Front(a) + v == lead + (KEY + (a.key + (KEY_END + (a.gap + value))));
    TagFound(KEY, lead, a.key + (KEY_END + (a.gap + value)));
    TagFound(KEY_END, a.key, a.gap + value);
    StartStandsLast(lead, a);
    IndexAfter(VALUE, KEY_END + a.gap, v);
    Assoc(KEY_END, a.gap, value);
    Cut(KEY_END + a.gap, value);
    Cut(VALUE, v);
  }

  /** A tag behind plain text, and the text on both sides of it. */
  lemma TagFound(t: string, plain: string, rest: string)
    requires OpensOnce(t) && t[0] !in plain
    ensures var w, n := plain + (t + rest), |plain|;
            IndexOf(t, w) == n && w[..n] == plain && w[n..] == t + rest && w[n..][|t|..] == rest
  {
    hide IndexOf, Occurs;
    NoFirstNoTag(t, plain);
    IndexAfter(t, plain, rest);
    Cut(plain, t + rest);
    Cut(t, rest);
  }

  /** What counts as a partial value is the beginning of this argument's. */
  lemma PartialOf(tools: Tools, lead: string, a: Arg, tail: string)
    requires '<' !in lead && ArgRight(a) && ProperPrefix(tail, lead + ClosedText(a))
    ensures match Partial(tools, tail)
            case None => true
            case Some((key, v)) => key == Strip(a.key) && tools.strings(key) && ProperPrefix(v, a.raw + VALUE_END)
  {
    hide Partial, ArgRight, Occurs, Front, ClosedText;
    var front := lead + Front(a);
    ArgParts(lead, a, "");
    SplitPrefix(tail, front, a.raw + VALUE_END);
    if |tail| < |front| {
      StartStandsLast(lead, a);
      FrontEnds(lead, a);
      TagsInert();
      NotYet(VALUE, lead + (KEY + (a.key + (KEY_END + a.gap))), tail);
      PartialNeedsStart(tools, tail);
    } else {
      PartialAtValue(tools, lead, a, tail[|front|..]);
    }
  }

  lemma FrontEnds(lead: string, a: Arg)
    ensures lead + Front(a) == lead + (KEY + (a.key + (KEY_END + a.gap))) + VALUE
  {
  }

  function EntryOf(tools: Tools, a: Arg): Entry<string> {
    Entry(Strip(a.key), ValueJson(tools, Strip(a.key), a.raw))
  }

  /** The arguments as written. */
  function Written(tools: Tools, args: seq<Arg>): (d: Entries<string>)
    ensures |d| == |args| && forall i :: 0 <= i < |d| ==> d[i] == EntryOf(tools, args[i])
  {
    seq(|args|, i requires 0 <= i < |args| => EntryOf(tools, args[i]))
  }

  /** Absorbing what is written again and more adds only what is more. */
  lemma {:induction false} AbsorbMore(tools: Tools, args: seq<Arg>, m: nat, i: nat, n: nat)
    requires m <= n && i <= n <= |args| && DistinctKeys(Written(tools, args))
    ensures Absorb(tools, Written(tools, args)[..if m < i then i else m], PairsOf(args[i..n]))
         == Written(tools, args)[..n]
    decreases n - i
  {
    hide Strip, ValueJson, DistinctKeys;
    var d := Written(tools, args);
    if i < n {
      assert args[i..n][0] == args[i] && args[i..n][1..] == args[i + 1..n];
      if i < m {
        KeyIsThere(d[..m], i);
      } else {
        KeyIsNew(d, i);
      }
      AbsorbMore(tools, args, m, i + 1, n);
    }
  }

  lemma KeyIsThere(d: Entries<string>, i: nat)
    requires i < |d|
    ensures HasKey(d, d[i].key)
  {
  }

  lemma KeyIsNew(d: Entries<string>, i: nat)
    requires DistinctKeys(d) && i < |d|
    ensures !HasKey(d[..i], d[i].key) && Put(d[..i], d[i].key, d[i].value) == d[..i + 1]
  {
    PutGrows(d[..i], d[i].key, d[i].value);
    assert d[..i] + [d[i]] == d[..i + 1];
  }

  lemma {:induction false} OpenTextPrefix(key: string -> string, d: Entries<string>, n: nat)
    requires n <= |d|
    ensures OpenText(key, d[..n]) <= OpenText(key, d)
    decreases |d| - n
  {
    hide OpenText;
    if n == |d| {
      assert d[..n] == d;
    } else {
      OpenTextPrefix(key, d, n + 1);
      assert d[..n + 1] == d[..n] + [d[n]];
      OpenTextMore(key, d[..n], d[n]);
    }
  }

  /** A well-formed call: readable arguments with distinct keys, and no end of the call inside them. */
  ghost predicate CallRight(tools: Tools, lead: string, args: seq<Arg>) {
    && '<' !in lead && AllRight(args) && !Occurs(CALL_END, lead + ArgsText(args))
    && DistinctKeys(Written(tools, args))
  }

  /** The strings hold no control character but newline, carriage return and tab. */
  ghost predicate NoRaw(tools: Tools, args: seq<Arg>) {
    forall a, c :: a in args && tools.strings(Strip(a.key)) && c in a.raw ==> !Raw(c)
  }

  /** What is sent of an argument that is not closed yet is a beginning of its entry. */
  lemma PartialFits(tools: Tools, lead: string, a: Arg, tail: string)
    requires '<' !in lead && ArgRight(a) && ProperPrefix(tail, lead + ClosedText(a))
    requires tools.strings(Strip(a.key)) ==> forall c :: c in a.raw ==> !Raw(c)
    ensures Partial(tools, tail).Some? ==>
              PartialText(Partial(tools, tail).value) <= EntryText(Quoted, EntryOf(tools, a))
  {
    hide Partial, Strip, ArgRight, ClosedText, Escape, Dump, Safe;
    PartialOf(tools, lead, a, tail);
    if Partial(tools, tail).Some? {
      var (key, v) := Partial(tools, tail).value;
      SafeIsPrefix(a.raw, v);
      PrefixDumps(a.raw, |Safe(v)|);
      var front := Quoted(key) + ": \"";
      assert a.raw[..|Safe(v)|] == Safe(v);
      assert EntryText(Quoted, EntryOf(tools, a)) == front + (Dump(a.raw) + "\"");
      assert PartialText((key, v)) == front + Escape(Safe(v));
    }
  }

  /** The snapshot of a prefix of the call is a prefix of the JSON text to come. */
  lemma SnapshotFits(tools: Tools, args: seq<Arg>, lead: string, done: nat, tail: string)
    requires AllRight(args) && done <= |args| && LeftOver(args, done, lead, tail)
    requires NoRaw(tools, args)
    ensures OpenSnapshot(Written(tools, args)[..done], Partial(tools, tail)) <= OpenText(Quoted, Written(tools, args))
  {
    hide Partial, Strip, ArgRight, ClosedText, PartialText, OpenText, EntryText, Occurs;
    var d := Written(tools, args);
    OpenTextPrefix(Quoted, d, done);
    if done == |args| {
      EndHasNone(lead);
      PrefixHasNone(KEY, lead + CALL_END, tail);
      PartialNeedsStart(tools, tail);
    } else {
      assert args[done] in args;
      PartialFits(tools, lead, args[done], tail);
      OpenTextPrefix(Quoted, d, done + 1);
      assert d[..done + 1] == d[..done] + [d[done]];
      OpenTextMore(Quoted, d[..done], d[done]);
    }
  }

  /** The state in the middle of a call: what has been sent is so much of the JSON text to come. */
  ghost predicate Mid(tools: Tools, lead: string, args: seq<Arg>, o: Open, sent: string) {
    && ProperPrefix(o.buffer, Whole(lead, args))
    && o.completed == Written(tools, args)[..Done(lead, args, |o.buffer|)]
    && |sent| == o.sent && sent <= OpenText(Quoted, Written(tools, args))
  }

  /** The complete arguments after another piece. */
  lemma Absorbs(tools: Tools, lead: string, args: seq<Arg>, n: nat, p: string) returns (lead': string)
    requires CallRight(tools, lead, args) && ProperPrefix(p, Whole(lead, args)) && n <= |p|
    ensures var d, done := Written(tools, args), Done(lead, args, |p|);
            Absorb(tools, d[..Done(lead, args, n)], Pairs(p)) == d[..done] && LeftOver(args, done, lead', Tail(p))
  {
    hide Absorb, Occurs, DistinctKeys, Written, LeftOver, Strip, Tail;
    lead' := PrefixRead(lead, args, p);
    DoneGrows(lead, args, n, |p|);
    assert args[0..Done(lead, args, |p|)] == args[..Done(lead, args, |p|)];
    AbsorbMore(tools, args, Done(lead, args, n), 0, Done(lead, args, |p|));
  }

  /** A piece that does not end the call sends a beginning of what is still to be sent. */
  lemma Sends(tools: Tools, lead: string, args: seq<Arg>, o: Open, sent: string, piece: string)
    requires CallRight(tools, lead, args) && NoRaw(tools, args) && Mid(tools, lead, args, o, sent)
    requires ProperPrefix(o.buffer + piece, Whole(lead, args))
    ensures var r := StreamArgs(tools, o.(buffer := o.buffer + piece));
            r.Waiting? && r.next.buffer == o.buffer + piece && Mid(tools, lead, args, r.next, sent + r.delta)
  {
    hide Absorb, Partial, Pairs, Tail, OpenSnapshot, OpenText, Written, Occurs, DistinctKeys, LeftOver, Done, ArgsText,
      AllRight, OpensOnce, Strip;
    var p := o.buffer + piece;
    var lead' := Absorbs(tools, lead, args, |o.buffer|, p);
    TagsInert();
    assert lead + ArgsText(args) + CALL_END == Whole(lead, args);
    NotYet(CALL_END, lead + ArgsText(args), p);
    SnapshotFits(tools, args, lead', Done(lead, args, |p|), Tail(p));
    Extends(OpenSnapshot(Written(tools, args)[..Done(lead, args, |p|)], Partial(tools, Tail(p))),
            sent, OpenText(Quoted, Written(tools, args)));
    assert sent + "" == sent;
  }

  /** Two beginnings of one text: the shorter one is a beginning of the longer. */
  lemma Extends(snapshot: string, sent: string, all: string)
    requires snapshot <= all && sent <= all
    ensures |snapshot| > |sent| ==> sent + snapshot[|sent|..] == snapshot
  {
  }

  lemma {:induction false} DoneAll(lead: string, args: seq<Arg>)
    ensures Done(lead, args, |lead + ArgsText(args)|) == |args|
    decreases |args|
  {
    if args != [] {
      ArgParts(lead, args[0], ArgsText(args[1..]));
      DoneAll(args[0].after, args[1..]);
    }
  }

  /** The piece that ends the call sends all the rest. */
  lemma Finishes(tools: Tools, lead: string, args: seq<Arg>, o: Open, sent: string, piece: string, rest: string)
    requires CallRight(tools, lead, args) && NoRaw(tools, args) && Mid(tools, lead, args, o, sent)
    requires o.buffer + piece == Whole(lead, args) + rest
    ensures var r := StreamArgs(tools, o.(buffer := o.buffer + piece));
            && r.Finished? && r.rest == rest && r.completed == Written(tools, args)
            && sent + r.delta == ObjectText(Quoted, Written(tools, args))
  {
    hide Absorb, Pairs, Tail, OpenText, Written, Occurs, DistinctKeys, LeftOver, Done, AllRight, OpensOnce, Strip,
      ArgsText, IndexOf;
    var body, d := lead + ArgsText(args), Written(tools, args);
    var p := o.buffer + piece;
    assert p == body + (CALL_END + rest) && Whole(lead, args) == body + CALL_END;
    TagsInert();
    IndexAfter(CALL_END, body, rest);
    Cut(body, CALL_END + rest);
    Cut(CALL_END, rest);
    DoneAll(lead, args);
    var n := |o.buffer|;
    if n > |body| {
      DoneGrows(lead, args, |body|, n);
      n := |body|;
    }
    var lead' := Absorbs(tools, lead, args, n, body);
    assert d[..|args|] == d;
    assert sent <= ObjectText(Quoted, d) && |sent| <= |ObjectText(Quoted, d)|;
  }

  /** However a well-formed call is cut into pieces, what is sent is at all times a beginning of the
      JSON text of its arguments, and all of it once the call has ended. */
  lemma {:induction false} DeltasAddUp(tools: Tools, lead: string, args: seq<Arg>, o: Open, sent: string,
                                       pieces: seq<string>)
    requires CallRight(tools, lead, args) && NoRaw(tools, args) && Mid(tools, lead, args, o, sent)
    ensures var text := o.buffer + Concat(pieces);
            && (ProperPrefix(text, Whole(lead, args)) ==>
                  sent + Deltas(tools, o, pieces) <= OpenText(Quoted, Written(tools, args)))
            && (Whole(lead, args) <= text ==>
                  sent + Deltas(tools, o, pieces) == ObjectText(Quoted, Written(tools, args)))
    decreases |pieces|
  {
    hide StreamArgs, OpenText, Written, CallRight, Whole, Done;
    if pieces == [] {
      assert o.buffer + "" == o.buffer && sent + "" == sent;
    } else {
      var p, w := o.buffer + pieces[0], Whole(lead, args);
      assert o.buffer + Concat(pieces) == p + Concat(pieces[1..]);
      SplitPrefixes(p, Concat(pieces[1..]), w);
      var r := StreamArgs(tools, o.(buffer := p));
      if ProperPrefix(p, w) {
        Sends(tools, lead, args, o, sent, pieces[0]);
        DeltasAddUp(tools, lead, args, r.next, sent + r.delta, pieces[1..]);
        assert sent + (r.delta + Deltas(tools, r.next, pieces[1..])) ==
               sent + r.delta + Deltas(tools, r.next, pieces[1..]);
      } else if w <= p {
        assert p == w + p[|w|..];
        Finishes(tools, lead, args, o, sent, pieces[0], p[|w|..]);
      }
    }
  }

  lemma SplitPrefixes(p: string, more: string, w: string)
    ensures p + more <= w || w <= p + more ==> ProperPrefix(p, w) || w <= p
  {
  }

  /** The whole stream of a call, from its first character. */
  lemma CallStreams(tools: Tools, lead: string, args: seq<Arg>, pieces: seq<string>)
    requires CallRight(tools, lead, args) && NoRaw(tools, args)
    ensures ProperPrefix(Concat(pieces), Whole(lead, args)) ==>
              Deltas(tools, NOTHING, pieces) <= OpenText(Quoted, Written(tools, args))
    ensures Whole(lead, args) <= Concat(pieces) ==>
              Deltas(tools, NOTHING, pieces) == ObjectText(Quoted, Written(tools, args))
  {
    hide OpenText, Deltas, Written, DistinctKeys, Occurs, AllRight;
    assert "" + Concat(pieces) == Concat(pieces)
           && "" + Deltas(tools, NOTHING, pieces) == Deltas(tools, NOTHING, pieces);
    DoneNothing(lead, args);
    assert Written(tools, args)[..0] == [];
    DeltasAddUp(tools, lead, args, NOTHING, "", pieces);
  }

  lemma DoneNothing(lead: string, args: seq<Arg>)
    ensures Done(lead, args, 0) == 0
  {
  }

  /** The arguments the one-shot parser finds in the text between the name and the end of the call: of
      a repeated key it keeps the last value. */
  function OneShotText(tools: Tools, text: string): string {
    ObjectText(Quoted, PutAll([], Converted(tools, Pairs(text))))
  }

  function Converted(tools: Tools, pairs: seq<(string, string)>): Entries<string> {
    if pairs == [] then []
    else [Entry(Strip(pairs[0].0), ValueJson(tools, Strip(pairs[0].0), pairs[0].1))] + Converted(tools, pairs[1..])
  }

  lemma {:induction false} ConvertedIsWritten(tools: Tools, args: seq<Arg>)
    ensures Converted(tools, PairsOf(args)) == Written(tools, args)
  {
    hide Strip, ValueJson;
    if args != [] {
      ConvertedIsWritten(tools, args[1..]);
    }
  }

  lemma OneShotIsWritten(tools: Tools, lead: string, args: seq<Arg>)
    requires CallRight(tools, lead, args)
    ensures OneShotText(tools, lead + ArgsText(args)) == ObjectText(Quoted, Written(tools, args))
  {
    hide Pairs, Tail, PutAll, DistinctKeys, Occurs, Written, ObjectText, ArgsText, Done, LeftOver;
    var body := lead + ArgsText(args);
    assert body + CALL_END == Whole(lead, args);
    var lead' := PrefixRead(lead, args, body);
    DoneAll(lead, args);
    assert args[..|args|] == args;
    ConvertedIsWritten(tools, args);
    DictIsAsWritten(Written(tools, args));
  }

  /** The lead of the argument after the first `i`. */
  function LeadOf(lead: string, args: seq<Arg>, i: nat): string
    requires i <= |args|
  {
    if i == 0 then lead else args[i - 1].after
  }

  /** The text up to where the value of argument `i` has come as far as `v`. */
  function UpTo(lead: string, args: seq<Arg>, i: nat, v: string): string
    requires i < |args|
    decreases i
  {
    if i == 0 then lead + Front(args[0]) + v
    else lead + (ClosedText(args[0]) + UpTo(args[0].after, args[1..], i - 1, v))
  }

  lemma ReadFirst(lead: string, a: Arg, v: string)
    requires '<' !in lead && ArgRight(a) && ProperPrefix(v, a.raw + VALUE_END)
    ensures var p := lead + Front(a) + v;
            Pairs(p) == [] && Tail(p) == p && ProperPrefix(p, lead + ClosedText(a))
  {
    hide ClosedText, Front, FirstMatch, ArgRight, Occurs;
    var p := lead + Front(a) + v;
    ArgParts(lead, a, "");
    EndStandsLast(lead, a);
    TagsInert();
    assert p <= lead + Front(a) + a.raw + VALUE_END;
    NotYet(VALUE_END, lead + Front(a) + a.raw, p);
    NoEndNoMatch(p);
  }

  lemma {:induction false} ReadUpTo(lead: string, args: seq<Arg>, i: nat, v: string)
    requires i < |args| && '<' !in lead && AllRight(args) && ProperPrefix(v, args[i].raw + VALUE_END)
    ensures var p := UpTo(lead, args, i, v);
            && Pairs(p) == PairsOf(args[..i]) && Tail(p) == LeadOf(lead, args, i) + Front(args[i]) + v
            && ProperPrefix(p, Whole(lead, args))
    decreases i
  {
    hide ArgText, ArgsText, ClosedText, Front, FirstMatch, ArgRight, Occurs, Whole;
    var a, p := args[0], UpTo(lead, args, i, v);
    assert a in args && forall x :: x in args[1..] ==> x in args;
    FirstOfWhole(lead, args);
    if i == 0 {
      ReadFirst(lead, a, v);
      assert PairsOf(args[..0]) == [];
    } else {
      var rest := UpTo(a.after, args[1..], i - 1, v);
      AfterIsPlain(a);
      ReadUpTo(a.after, args[1..], i - 1, v);
      ClosedMatches(lead, a, rest);
      ReadOne(p, a.key, a.raw, rest);
      assert args[..i] == [a] + args[1..][..i - 1];
      assert p == lead + ClosedText(a) + rest;
    }
  }

  /** All of a value goes out while its end tag is all but there. */
  lemma SafeAtEnd(raw: string)
    ensures Safe(raw + VALUE_END[..|VALUE_END| - 1]) == raw
  {
    var n := |VALUE_END| - 1;
    var v := raw + VALUE_END[..n];
    assert v[|v| - n..] == VALUE_END[..n];
    TagsInert();
    OpensOnceBorderFree(VALUE_END);
    BorderFreeHolds(v, VALUE_END);
    LongestIsLongest(v, VALUE_END, n);
  }

  /** What is sent first when the text comes up to the end of argument `i`'s value, then the rest. */
  lemma FirstSent(tools: Tools, lead: string, args: seq<Arg>, i: nat)
    requires CallRight(tools, lead, args) && i < |args| && tools.strings(Strip(args[i].key))
    ensures var key, p := Strip(args[i].key), UpTo(lead, args, i, args[i].raw + VALUE_END[..|VALUE_END| - 1]);
            var r := StreamArgs(tools, NOTHING.(buffer := p));
            && ProperPrefix(p, Whole(lead, args)) && r.Waiting?
            && r.delta == OpenText(Quoted, Written(tools, args)[..i]) + (if i == 0 then "" else ", ")
                          + (Quoted(key) + ": \"" + Escape(args[i].raw))
  {
    hide Pairs, Tail, Partial, UpTo, Written, Front, Strip, Occurs, DistinctKeys, ArgsText, IndexOf, OpenText, Escape,
      Safe, OpensOnce, OpenSnapshot;
    var v := args[i].raw + VALUE_END[..|VALUE_END| - 1];
    var p, d := UpTo(lead, args, i, v), Written(tools, args);
    ReadUpTo(lead, args, i, v);
    TagsInert();
    assert lead + ArgsText(args) + CALL_END == Whole(lead, args);
    NotYet(CALL_END, lead + ArgsText(args), p);
    assert d[..0] == [] && args[0..i] == args[..i];
    AbsorbMore(tools, args, 0, 0, i);
    var lead' := LeadOf(lead, args, i);
    assert args[i] in args;
    LeadIsPlain(lead, args, i);
    PartialAtValue(tools, lead', args[i], v);
    SafeAtEnd(args[i].raw);
    SnapshotIs(d[..i], Strip(args[i].key), v);
  }

  lemma SnapshotIs(d: Entries<string>, key: string, v: string)
    ensures OpenSnapshot(d, Some((key, v)))
         == OpenText(Quoted, d) + (if d == [] then "" else ", ") + (Quoted(key) + ": \"" + Escape(Safe(v)))
    ensures |OpenSnapshot(d, Some((key, v)))| > 0
  {
    hide Quoted, Escape, Safe;
    Assoc(OpenText(Quoted, d), if d == [] then "" else ", ", PartialText((key, v)));
  }

  lemma LeadIsPlain(lead: string, args: seq<Arg>, i: nat)
    requires i <= |args| && '<' !in lead && AllRight(args)
    ensures '<' !in LeadOf(lead, args, i)
  {
    if i > 0 {
      assert args[i - 1] in args;
    }
  }

  /** One string with a raw control character, and the deltas do not add up for every cutting. */
  lemma RawLeaks(tools: Tools, lead: string, args: seq<Arg>, i: nat) returns (pieces: seq<string>)
    requires CallRight(tools, lead, args) && i < |args| && tools.strings(Strip(args[i].key))
    requires exists c :: c in args[i].raw && Raw(c)
    ensures Concat(pieces) == Whole(lead, args)
    ensures Deltas(tools, NOTHING, pieces) != ObjectText(Quoted, Written(tools, args))
  {
    hide UpTo, StreamArgs, Written, Strip, OpenText, Escape, Dump, CallRight, Whole;
    var a, d := args[i], Written(tools, args);
    var p := UpTo(lead, args, i, a.raw + VALUE_END[..|VALUE_END| - 1]);
    FirstSent(tools, lead, args, i);
    var rest := Whole(lead, args)[|p|..];
    pieces := [p, rest];
    assert pieces[1..] == [rest] && [rest][1..] == [];
    assert Concat([rest]) == rest + Concat([rest][1..]) == rest;
    assert p + rest == Whole(lead, args);
    assert "" + p == p;
    OpenTextPrefix(Quoted, d, i + 1);
    assert d[..i + 1] == d[..i] + [d[i]];
    OpenTextMore(Quoted, d[..i], d[i]);
    var front := OpenText(Quoted, d[..i]) + (if i == 0 then "" else ", ") + (Quoted(Strip(a.key)) + ": \"");
    var tail := OpenText(Quoted, d)[|OpenText(Quoted, d[..i + 1])|..] + "}";
    assert ObjectText(Quoted, d) == front + (Dump(a.raw) + ("\"" + tail));
    RawNeverFits(a.raw, "\"" + tail);
    SamePrefix(front, Escape(a.raw), Dump(a.raw) + ("\"" + tail));
    var r := StreamArgs(tools, NOTHING.(buffer := p));
    assert Deltas(tools, NOTHING, pieces) == r.delta + Deltas(tools, r.next, pieces[1..]);
    assert r.delta == front + Escape(a.raw);
  }

  /** The deltas of a well-formed call add up for every cutting of its text exactly when its strings
      hold no control character that the streaming code leaves raw. */
  lemma AddsUpIffNoRaw(tools: Tools, lead: string, args: seq<Arg>)
    requires CallRight(tools, lead, args)
    ensures (forall pieces :: Concat(pieces) == Whole(lead, args) ==>
               Deltas(tools, NOTHING, pieces) == ObjectText(Quoted, Written(tools, args)))
            <==> NoRaw(tools, args)
  {
    hide Deltas, Written, CallRight, Whole, ObjectText, Strip;
    if NoRaw(tools, args) {
      forall pieces | Concat(pieces) == Whole(lead, args)
        ensures Deltas(tools, NOTHING, pieces) == ObjectText(Quoted, Written(tools, args))
      {
        CallStreams(tools, lead, args, pieces);
      }
    } else {
      var a, c :| a in args && tools.strings(Strip(a.key)) && c in a.raw && Raw(c);
      var i :| 0 <= i < |args| && args[i] == a;
      var pieces := RawLeaks(tools, lead, args, i);
    }
  }
}

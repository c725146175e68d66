/** What the Hunyuan detector sends is JSON and sent in time; and which text its argument pattern matches. */
module HunyuanExact {
  import opened Strings
  import opened Streaming
  import opened Dictionaries
  import opened JsonStrings
  import opened ArgTags
  import opened HunyuanArgs
  import opened HunyuanDeltas
  import Json = JsonGrammar
  import Objects = JsonObjects

  /** A text that the argument pattern matches at its front, group by group. */
  ghost predicate Splits(b: string, key: string, gap: string, value: string, behind: string) {
    && b == key + (KEY_END + (gap + (VALUE + (value + (VALUE_END + behind)))))
    && Spaces(gap) && !Occurs(VALUE_END, value)
  }

  lemma TagsOpen()
    ensures OpensOnce(VALUE_END) && OpensOnce(KEY_END) && !IsSpace('<') && VALUE[0] == '<'
  {
  }

  /** From a key's end tag on, the rest of the pattern matches in one way at most. */
  lemma BehindKey(t: string, gap: string, value: string, behind: string)
    requires t == gap + (VALUE + (value + (VALUE_END + behind))) && Spaces(gap) && !Occurs(VALUE_END, value)
    ensures var u := StripLeft(t);
            && VALUE <= u && u == VALUE + (value + (VALUE_END + behind))
            && IndexOf(VALUE_END, u[|VALUE|..]) == |value|
            && u[|VALUE|..][..|value|] == value && u[|VALUE|..][|value|..][|VALUE_END|..] == behind
  {
    hide IndexOf, Occurs, IsSpace, OpensOnce;
    TagsOpen();
    var u := VALUE + (value + (VALUE_END + behind));
    SpacesLeft(gap, u);
    assert u[0] == '<';
    assert StripLeft(u) == u;
    Cut(VALUE, value + (VALUE_END + behind));
    IndexAfter(VALUE_END, value, behind);
    Cut(value, VALUE_END + behind);
    Cut(VALUE_END, behind);
  }

  /** What the search behind a key's end tag finds is such a match. */
  lemma FoundBehind(t: string)
    requires var u := StripLeft(t); VALUE <= u && IndexOf(VALUE_END, u[|VALUE|..]) != -1
    ensures var u := StripLeft(t)[|VALUE|..];
            var n := IndexOf(VALUE_END, u);
            var gap := t[..|t| - |StripLeft(t)|];
            && t == gap + (VALUE + (u[..n] + (VALUE_END + u[n..][|VALUE_END|..])))
            && Spaces(gap) && !Occurs(VALUE_END, u[..n])
  {
    hide IndexOf, Occurs, IsSpace, StripLeft, Spaces;
    StripLeftIsEnd(t);
    LeftIsSpace(t);
    var u := StripLeft(t)[|VALUE|..];
    AroundFirst(VALUE_END, u);
    NoneBeforeFirst(VALUE_END, u);
    assert StripLeft(t) == VALUE + u;
    assert t == t[..|t| - |StripLeft(t)|] + StripLeft(t);
  }

  /** A text around the first place of another. */
  lemma AroundFirst(t: string, w: string)
    requires IndexOf(t, w) != -1
    ensures var n := IndexOf(t, w); 0 <= n && n + |t| <= |w| && w == w[..n] + (t + w[n..][|t|..])
  {
    var n := IndexOf(t, w);
    assert w[n..] == t + w[n..][|t|..];
  }

  /** A match of the text behind the first end tag of a key is one of the whole text with a longer key. */
  lemma KeyBehind(u: string, key: string, gap: string, value: string, behind: string)
    requires Splits(u, key, gap, value, behind)
    ensures 0 <= IndexOf(KEY_END, u) <= |key|
    ensures |key| > IndexOf(KEY_END, u) ==>
              var k := IndexOf(KEY_END, u); Splits(u[k + 1..], key[k + 1..], gap, value, behind)
  {
    hide IndexOf, Occurs;
    StandsBehind(KEY_END, key, gap + (VALUE + (value + (VALUE_END + behind))));
    FoundFirst(KEY_END, u, |key|);
    var k := IndexOf(KEY_END, u);
    if |key| > k {
      assert u[k + 1..] == key[k + 1..] + (KEY_END + (gap + (VALUE + (value + (VALUE_END + behind)))));
    }
  }

  /** The text behind the first end tag of a key holds the rest of a match. */
  predicate EndsHere(u: string) {
    IndexOf(KEY_END, u) != -1 &&
    var t := StripLeft(u[IndexOf(KEY_END, u) + |KEY_END|..]);
    VALUE <= t && IndexOf(VALUE_END, t[|VALUE|..]) != -1
  }

  lemma MatchStep(before: string, u: string)
    ensures IndexOf(KEY_END, u) == -1 ==> MatchBehind(before, u) == None
    ensures IndexOf(KEY_END, u) != -1 && !EndsHere(u) ==>
              var k := IndexOf(KEY_END, u); MatchBehind(before, u) == MatchBehind(before + u[..k + 1], u[k + 1..])
    ensures EndsHere(u) ==>
              var k := IndexOf(KEY_END, u);
              var t := StripLeft(u[k + |KEY_END|..])[|VALUE|..];
              var n := IndexOf(VALUE_END, t);
              MatchBehind(before, u) == Some((before + u[..k], t[..n], t[n..][|VALUE_END|..]))
  {
    hide IndexOf, StripLeft, Occurs;
  }

  /** What the search for the end of a key finds is a match. */
  lemma {:induction false} MatchSound(before: string, u: string)
    ensures var r := MatchBehind(before, u);
            r.Some? ==>
              before <= r.value.0 && exists gap :: Splits(u, r.value.0[|before|..], gap, r.value.1, r.value.2)
    decreases |u|
  {
    hide IndexOf, Occurs, StripLeft, MatchBehind, EndsHere;
    MatchStep(before, u);
    var k := IndexOf(KEY_END, u);
    if EndsHere(u) {
      SoundHere(before, u);
    } else if k != -1 {
      var more := before + u[..k + 1];
      MatchSound(more, u[k + 1..]);
      var r := MatchBehind(more, u[k + 1..]);
      if r.Some? {
        var key := r.value.0[|more|..];
        var gap :| Splits(u[k + 1..], key, gap, r.value.1, r.value.2);
        assert u == u[..k + 1] + u[k + 1..];
        assert r.value.0[|before|..] == u[..k + 1] + key;
        LongerKey(u, k + 1, key, gap, r.value.1, r.value.2);
      }
    }
  }

  lemma LongerKey(u: string, n: nat, key: string, gap: string, value: string, behind: string)
    requires n <= |u| && Splits(u[n..], key, gap, value, behind)
    ensures Splits(u, u[..n] + key, gap, value, behind)
  {
    hide Occurs;
    assert u == u[..n] + u[n..];
  }

  lemma SoundHere(before: string, u: string)
    requires EndsHere(u)
    ensures var r := MatchBehind(before, u);
            r.Some? && before <= r.value.0 && exists gap :: Splits(u, r.value.0[|before|..], gap, r.value.1, r.value.2)
  {
    hide IndexOf, Occurs, StripLeft, MatchBehind, Splits;
    MatchStep(before, u);
    var k := IndexOf(KEY_END, u);
    var w := u[k + |KEY_END|..];
    FoundBehind(w);
    var gap, r := w[..|w| - |StripLeft(w)|], MatchBehind(before, u).value;
    assert u[k..k + |KEY_END|] == KEY_END;
    AtKeyEnd(u, k, gap, r.1, r.2);
    Cut(before, u[..k]);
  }

  lemma AtKeyEnd(u: string, k: nat, gap: string, value: string, behind: string)
    requires k + |KEY_END| <= |u| && u[k..k + |KEY_END|] == KEY_END
    requires u[k + |KEY_END|..] == gap + (VALUE + (value + (VALUE_END + behind))) && Spaces(gap)
             && !Occurs(VALUE_END, value)
    ensures Splits(u, u[..k], gap, value, behind)
  {
    hide Occurs;
    assert u == u[..k] + (u[k..k + |KEY_END|] + u[k + |KEY_END|..]);
  }

  /** No match has a shorter key. */
  lemma {:induction false} MatchLeast(before: string, u: string, key: string, gap: string, value: string,
                                      behind: string)
    requires Splits(u, key, gap, value, behind)
    ensures var r := MatchBehind(before, u);
            && r.Some? && |r.value.0| <= |before| + |key|
            && (|r.value.0| == |before| + |key| ==> r.value == (before + key, value, behind))
    decreases |u|
  {
    hide IndexOf, Occurs, StripLeft, MatchBehind, EndsHere, Splits;
    MatchStep(before, u);
    KeyBehind(u, key, gap, value, behind);
    var k := IndexOf(KEY_END, u);
    KeyHere(before, u, key, gap, value, behind);
    if !EndsHere(u) {
      var more := before + u[..k + 1];
      MatchLeast(more, u[k + 1..], key[k + 1..], gap, value, behind);
      assert before + key == more + key[k + 1..];
    }
  }

  /** A match whose key ends at the first end tag is the one that is found; one that does not is longer. */
  lemma KeyHere(before: string, u: string, key: string, gap: string, value: string, behind: string)
    requires Splits(u, key, gap, value, behind)
    ensures var k := IndexOf(KEY_END, u);
            && 0 <= k <= |key| <= |u| && (k == |key| ==> EndsHere(u)) && u[..k] == key[..k]
                 && (k < |key| ==> u[..k + 1] == key[..k + 1])
            && (EndsHere(u) ==> MatchBehind(before, u).Some? && |MatchBehind(before, u).value.0| == |before| + k)
            && (k == |key| ==> MatchBehind(before, u) == Some((before + key, value, behind)))
  {
    hide IndexOf, Occurs, StripLeft, MatchBehind;
    MatchStep(before, u);
    KeyBehind(u, key, gap, value, behind);
    var k := IndexOf(KEY_END, u);
    if k == |key| {
      var rest := gap + (VALUE + (value + (VALUE_END + behind)));
      Cut(key, KEY_END + rest);
      Cut(KEY_END, rest);
      assert u[k..][|KEY_END|..] == u[k + |KEY_END|..];
      BehindKey(rest, gap, value, behind);
    }
  }

  /** The argument pattern, with both groups as short as can be, the key first: what it matches at the front
      of a text is a split of it with the shortest key, and it matches nothing only where there is none. */
  lemma MatchExact(b: string)
    ensures var r := MatchArg(b);
            r.Some? ==> KEY <= b && exists gap :: Splits(b[|KEY|..], r.value.0, gap, r.value.1, r.value.2)
    ensures KEY <= b ==> forall key, gap, value, behind :: Splits(b[|KEY|..], key, gap, value, behind) ==>
              var r := MatchArg(b);
              r.Some? && |r.value.0| <= |key| && (|r.value.0| == |key| ==> r.value == (key, value, behind))
  {
    hide Splits, MatchBehind;
    if KEY <= b {
      var u := b[|KEY|..];
      MatchSound("", u);
      if MatchArg(b).Some? {
        assert MatchArg(b).value.0[|""|..] == MatchArg(b).value.0;
      }
      forall key, gap, value, behind | Splits(u, key, gap, value, behind)
        ensures var r := MatchArg(b);
                r.Some? && |r.value.0| <= |key| && (|r.value.0| == |key| ==> r.value == (key, value, behind))
      {
        MatchLeast("", u, key, gap, value, behind);
        assert "" + key == key;
      }
    }
  }

  /** All that can be said of the arguments by now has been sent: `sent` is how much. */
  ghost predicate UpToDate(tools: Tools, lead: string, args: seq<Arg>, p: string, sent: nat) {
    var d, partial := Written(tools, args)[..Done(lead, args, |p|)], Partial(tools, Tail(p));
    (d == [] && partial.None?) || sent >= |OpenSnapshot(d, partial)|
  }

  lemma SendsAll(tools: Tools, lead: string, args: seq<Arg>, o: Open, sent: string, piece: string)
    requires CallRight(tools, lead, args) && NoRaw(tools, args) && Mid(tools, lead, args, o, sent)
    requires ProperPrefix(o.buffer + piece, Whole(lead, args))
    ensures var r := StreamArgs(tools, o.(buffer := o.buffer + piece));
            r.Waiting? && UpToDate(tools, lead, args, o.buffer + piece, r.next.sent)
  {
    hide Absorb, Partial, Pairs, Tail, OpenSnapshot, OpenText, Written, Occurs, DistinctKeys, LeftOver, Done, ArgsText,
      AllRight, OpensOnce, Strip;
    Sends(tools, lead, args, o, sent, piece);
    var lead' := Absorbs(tools, lead, args, |o.buffer|, o.buffer + piece);
  }

  /** However a call is cut into pieces, it is up to date after each. */
  lemma {:induction false} DeltasInTime(tools: Tools, lead: string, args: seq<Arg>, o: Open, sent: string,
                                        pieces: seq<string>)
    requires CallRight(tools, lead, args) && NoRaw(tools, args) && Mid(tools, lead, args, o, sent)
    requires pieces != [] && ProperPrefix(o.buffer + Concat(pieces), Whole(lead, args))
    ensures UpToDate(tools, lead, args, o.buffer + Concat(pieces), |sent + Deltas(tools, o, pieces)|)
    decreases |pieces|
  {
    hide StreamArgs, CallRight, Whole, Done, UpToDate, NoRaw, Written, OpenText;
    var p := o.buffer + pieces[0];
    assert o.buffer + Concat(pieces) == p + Concat(pieces[1..]);
    var r := StreamArgs(tools, o.(buffer := p));
    Sends(tools, lead, args, o, sent, pieces[0]);
    SendsAll(tools, lead, args, o, sent, pieces[0]);
    var more := Deltas(tools, r.next, pieces[1..]);
    Assoc(sent, r.delta, more);
    if pieces[1..] == [] {
      assert p + "" == p && sent + r.delta + "" == sent + r.delta;
    } else {
      DeltasInTime(tools, lead, args, r.next, sent + r.delta, pieces[1..]);
    }
  }

  lemma {:induction false} PairsCount(args: seq<Arg>)
    ensures |PairsOf(args)| == |args|
  {
    if args != [] {
      PairsCount(args[1..]);
    }
  }

  /** With the value of argument `i` come as far as `v`, the text of the arguments before it has been sent,
      and, if it can only be a string, of its own all but what may be the beginning of its end tag. */
  lemma SentInTime(tools: Tools, lead: string, args: seq<Arg>, i: nat, v: string, pieces: seq<string>)
    requires CallRight(tools, lead, args) && NoRaw(tools, args) && i < |args|
    requires ProperPrefix(v, args[i].raw + VALUE_END) && Concat(pieces) == UpTo(lead, args, i, v)
    ensures var d, key, sent := Written(tools, args)[..i], Strip(args[i].key), Deltas(tools, NOTHING, pieces);
            if tools.strings(key) then
              OpenText(Quoted, d) + (if i == 0 then "" else ", ") + (Quoted(key) + ": \"" + Escape(Safe(v))) <= sent
            else i > 0 ==> OpenText(Quoted, d) <= sent
  {
    hide Deltas, OpenText, Written, DistinctKeys, Occurs, AllRight, Strip, Quoted, Escape, Safe, Partial, Tail, Pairs,
      OpenSnapshot, Front, ArgRight, Whole, Done, NoRaw;
    var p, d, key := UpTo(lead, args, i, v), Written(tools, args), Strip(args[i].key);
    ReadUpTo(lead, args, i, v);
    var lead' := PrefixRead(lead, args, p);
    PairsCount(args[..i]);
    PairsCount(args[..Done(lead, args, |p|)]);
    assert Done(lead, args, |p|) == i;
    NothingYet(tools, lead, args);
    InFront(lead, args, i, v);
    assert Concat([]) == "";
    DeltasInTime(tools, lead, args, NOTHING, "", pieces);
    assert "" + Concat(pieces) == p && "" + Deltas(tools, NOTHING, pieces) == Deltas(tools, NOTHING, pieces);
    CallStreams(tools, lead, args, pieces);
    SnapshotFits(tools, args, lead', i, Tail(p));
    LeadIsPlain(lead, args, i);
    assert args[i] in args;
    PartialHere(tools, lead, args, i, v);
    SnapshotParts(d[..i], key, v);
  }

  lemma PartialHere(tools: Tools, lead: string, args: seq<Arg>, i: nat, v: string)
    requires i < |args| && '<' !in LeadOf(lead, args, i) && AllRight(args)
    ensures var key := Strip(args[i].key);
            Partial(tools, LeadOf(lead, args, i) + Front(args[i]) + v) == if tools.strings(key) then Some((key, v))
              else None
  {
    hide Partial, ArgRight, Front, Strip;
    assert args[i] in args;
    PartialAtValue(tools, LeadOf(lead, args, i), args[i], v);
  }

  lemma SnapshotParts(d: Entries<string>, key: string, v: string)
    ensures OpenSnapshot(d, Some((key, v)))
         == OpenText(Quoted, d) + (if d == [] then "" else ", ") + (Quoted(key) + ": \"" + Escape(Safe(v)))
    ensures OpenSnapshot(d, None) == OpenText(Quoted, d)
  {
    hide Quoted, Escape, Safe, OpenText;
    SnapshotIs(d, key, v);
    assert OpenText(Quoted, d) + "" == OpenText(Quoted, d);
  }

  lemma NothingYet(tools: Tools, lead: string, args: seq<Arg>)
    ensures Mid(tools, lead, args, NOTHING, "")
  {
    hide OpenText, Written, ClosedText;
    DoneNothing(lead, args);
    assert Written(tools, args)[..0] == [];
  }

  /** The beginning of a value does not stand at the very beginning. */
  lemma InFront(lead: string, args: seq<Arg>, i: nat, v: string)
    requires i < |args|
    ensures UpTo(lead, args, i, v) != ""
  {
    if i == 0 {
      assert |Front(args[0])| > 0;
    } else {
      assert |ClosedText(args[0])| > 0;
    }
  }

  /** The JSON value that an argument stands for: the string of its text, or what its value is converted to. */
  predicate StandsFor(tools: Tools, a: Arg, v: Json.Value) {
    if tools.strings(Strip(a.key)) then v == Json.Str(Objects.UnitsOf(a.raw))
    else Json.TextOf(v) == tools.otherJson(Strip(a.key), a.raw)
  }

  function KeysOf(args: seq<Arg>): (names: seq<string>)
    ensures |names| == |args|
  {
    seq(|args|, i requires 0 <= i < |args| => Strip(args[i].key))
  }

  /** All that is sent of a call, however it is cut into pieces, is the text of one JSON object: its names are
      those of the arguments, its values what they stand for, in order; names and strings read back. */
  lemma DeltasAreJson(tools: Tools, lead: string, args: seq<Arg>, pieces: seq<string>, values: seq<Json.Value>)
    requires CallRight(tools, lead, args) && NoRaw(tools, args) && Whole(lead, args) <= Concat(pieces)
    requires |values| == |args| && forall i :: 0 <= i < |args| ==> StandsFor(tools, args[i], values[i])
    ensures Deltas(tools, NOTHING, pieces) == Json.TextOf(Json.Obj("", Objects.Members(KeysOf(args), values)))
    ensures forall i :: 0 <= i < |args| ==> Objects.ReadUnits(Objects.UnitsOf(KeysOf(args)[i])) == Some(KeysOf(args)[i])
    ensures forall i :: 0 <= i < |args| && tools.strings(KeysOf(args)[i]) ==>
              values[i].Str? && Objects.ReadUnits(values[i].units) == Some(args[i].raw)
    ensures (forall v :: v in values ==> Json.WellFormed(v)) ==>
              Json.WellFormed(Json.Obj("", Objects.Members(KeysOf(args), values)))
  {
    hide Deltas, ObjectText, DistinctKeys, Occurs, AllRight, Strip, Quoted, Json.TextOf, Objects.UnitsOf,
      Objects.ReadUnits, Json.WellFormed, Whole, NoRaw;
    CallStreams(tools, lead, args, pieces);
    var d := Written(tools, args);
    forall i | 0 <= i < |args| ensures Json.TextOf(values[i]) == d[i].value && d[i].key == KeysOf(args)[i] {
      ValueStands(tools, args[i], values[i]);
    }
    Objects.ObjectIsJson(d, values);
    assert Objects.Names(d) == KeysOf(args);
    forall i | 0 <= i < |args| ensures Objects.ReadUnits(Objects.UnitsOf(args[i].raw)) == Some(args[i].raw) {
      Objects.QuotedReads(args[i].raw);
    }
  }

  lemma ValueStands(tools: Tools, a: Arg, v: Json.Value)
    requires StandsFor(tools, a, v)
    ensures EntryOf(tools, a) == Entry(Strip(a.key), Json.TextOf(v))
  {
    hide Strip, Objects.UnitsOf, Quoted;
    Objects.QuotedReads(a.raw);
  }
}

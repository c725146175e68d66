/** What scans for brackets do on text that is cut off, and on text behind a wrong cut. */
module GemmaCuts {
  import opened Strings
  import opened Dictionaries
  import opened GemmaParser
  import opened GemmaPrinter
  import opened GemmaRoundTrip

  predicate Closer(c: char) {
    c == ']' || c == '}'
  }

  predicate Closers(z: string) {
    forall c :: c in z ==> Closer(c)
  }

  /** The end of two string delimiters, and then only closing brackets. */
  predicate TailAt(z: string, i: int) {
    0 <= i <= |z| && IsSuffix(z[..i], DELIM + DELIM) && Closers(z[i..])
  }

  /** Text that may be missing at the end without a value being read differently. */
  ghost predicate Tail(z: string) {
    exists i :: TailAt(z, i)
  }

  lemma TailMore(z: string, c: char)
    requires z != "" && Tail(z) && Closer(c)
    ensures Tail(z[1..] + [c])
  {
    var i :| TailAt(z, i);
    var y := z[1..] + [c];
    if i == 0 {
      assert z[0..] == z && y[..0] == "" && y[0..] == y;
      assert forall x :: x in y ==> x in z || x == c;
      assert TailAt(y, 0);
    } else {
      var d := DELIM + DELIM;
      assert y[..i - 1] == z[..i][1..];
      assert d[|d| - i..][1..] == d[|d| - (i - 1)..];
      assert y[i - 1..] == z[i..] + [c];
      assert TailAt(y, i - 1);
    }
  }

  lemma TailOfDelims(z: string)
    requires IsSuffix(z, DELIM + DELIM)
    ensures Tail(z)
  {
    assert z[..|z|] == z && z[|z|..] == "";
    assert TailAt(z, |z|);
  }

  lemma TailOfClosers(z: string)
    requires Closers(z)
    ensures Tail(z)
  {
    assert z[0..] == z && z[..0] == "";
    assert TailAt(z, 0);
  }

  lemma DelimsHoldNoBracket()
    ensures forall k :: 0 <= k < |DELIM + DELIM| ==> (DELIM + DELIM)[k] in "<|\">" && !Closer((DELIM + DELIM)[k])
  {
  }

  lemma TailBracket(z: string)
    requires Tail(z) && |z| >= 2 && z[1] == ']'
    ensures Closers(z[2..])
  {
    var i :| TailAt(z, i);
    DelimsThere(z, i);
    assert forall c :: c in z[2..] ==> c in z[i..];
  }

  lemma DelimsThere(z: string, i: int)
    requires TailAt(z, i)
    ensures i >= 2 ==> z[1] != ']'
  {
    var d := DELIM + DELIM;
    DelimsHoldNoBracket();
    assert i >= 2 ==> z[..i][1] == d[|d| - i + 1];
  }

  /** A scan without a closing bracket to find goes through all. */
  lemma {:induction false} NothingCloses(t: string, open: char, close: char, depth: nat)
    requires close !in t && depth > 0
    ensures Nested(t, open, close, true, depth) == |t|
    decreases |t|
  {
    hide IndexOf;
    if t != "" {
      if DELIM <= t {
        var k := IndexOf(DELIM, t[|DELIM|..]);
        if k != -1 {
          NothingCloses(t[|DELIM|..][k + |DELIM|..], open, close, depth);
        }
      } else {
        NothingCloses(t[1..], open, close, if t[0] == open then depth + 1 else depth);
      }
    }
  }

  /** Where the scan stops before the end of a text, it stops there in every extension. */
  lemma {:induction false} NestedExtends(t: string, e: string, open: char, close: char, depth: nat)
    requires depth > 0 && Pair(open, close) && Nested(t, open, close, true, depth) < |t|
    ensures Nested(t + e, open, close, true, depth) == Nested(t, open, close, true, depth)
    decreases |t|
  {
    hide IndexOf, Occurs, Nested;
    var w := t + e;
    if DELIM <= t {
      var u := t[|DELIM|..];
      assert w[|DELIM|..] == u + e;
      NestedString(t, open, close, depth);
      NestedString(w, open, close, depth);
      IndexOfExtends(DELIM, u, e);
      var k := IndexOf(DELIM, u);
      assert (u + e)[k + |DELIM|..] == u[k + |DELIM|..] + e;
      NestedExtends(u[k + |DELIM|..], e, open, close, depth);
    } else {
      LateDelim(t, e, open, close, depth);
      assert w[0] == t[0] && w[1..] == t[1..] + e;
      NestedOne(t, open, close, depth);
      NestedOne(w, open, close, depth);
      var d := if t[0] == open then depth + 1 else if t[0] == close then depth - 1 else depth;
      if d > 0 {
        NestedExtends(t[1..], e, open, close, d);
      }
      NestedNone(t[1..], open, close, true);
      NestedNone(t[1..] + e, open, close, true);
    }
  }

  lemma NestedString(t: string, open: char, close: char, depth: nat)
    requires depth > 0 && DELIM <= t
    ensures var u, k := t[|DELIM|..], IndexOf(DELIM, t[|DELIM|..]);
            Nested(t, open, close, true, depth) ==
            if k == -1 then |t| else |DELIM| + k + |DELIM| + Nested(u[k + |DELIM|..], open, close, true, depth)
  {
  }

  lemma NestedOne(t: string, open: char, close: char, depth: nat)
    requires depth > 0 && Pair(open, close) && t != "" && !(DELIM <= t)
    ensures var d := if t[0] == open then depth + 1 else if t[0] == close then depth - 1 else depth;
            Nested(t, open, close, true, depth) == 1 + Nested(t[1..], open, close, true, d)
  {
  }

  lemma LateDelim(t: string, e: string, open: char, close: char, depth: nat)
    requires depth > 0 && Pair(open, close) && Nested(t, open, close, true, depth) < |t| && !(DELIM <= t)
    ensures !(DELIM <= t + e)
  {
    hide Nested;
    if DELIM <= t + e {
      PrefixOfExtension(DELIM, t, e);
      assert forall c :: c in t ==> c in DELIM;
      NothingCloses(t, open, close, depth);
    }
  }

  /** Printed entries that are cut off: the scan for the brace behind them finds none. */
  lemma EntriesUnclosed(entries: Entries<Val>, k: nat)
    requires EntriesPrintable(entries) && k <= |PrintEntries(entries)|
    ensures Nested(PrintEntries(entries)[..k], '{', '}', true, 1) == k
  {
    hide Nested, PrintEntries, EntriesPrintable;
    var t := PrintEntries(entries);
    NestedEntries(entries, "", '{', '}', 1);
    assert t + "" == t && t[..k] + t[k..] == t;
    if Nested(t[..k], '{', '}', true, 1) < k {
      NestedExtends(t[..k], t[k..], '{', '}', 1);
    }
  }

  lemma ItemsUnclosed(items: seq<Val>, k: nat)
    requires ItemsPrintable(items) && k <= |PrintItems(items)|
    ensures Nested(PrintItems(items)[..k], '[', ']', true, 1) == k
  {
    hide Nested, PrintItems, ItemsPrintable;
    var t := PrintItems(items);
    NestedItems(items, "", '[', ']', 1);
    assert t + "" == t && t[..k] + t[k..] == t;
    if Nested(t[..k], '[', ']', true, 1) < k {
      NestedExtends(t[..k], t[k..], '[', ']', 1);
    }
  }

  /** The scan that knows no strings: it goes through all, or stops behind the bracket that closes. */
  lemma {:induction false} RawStops(t: string, depth: nat)
    requires depth > 0
    ensures var n := Nested(t, '[', ']', false, depth);
            if OpenAfter(t, depth) > 0 then n == |t|
            else 0 < n <= |t| && t[n - 1] == ']' && OpenAfter(t[..n - 1], depth) == 1
    decreases |t|
  {
    if t != "" {
      var d := if t[0] == '[' then depth + 1 else if t[0] == ']' then depth - 1 else depth;
      if d == 0 {
        NestedNone(t[1..], '[', ']', false);
        assert t[..0] == "";
      } else {
        RawStops(t[1..], d);
        var n := Nested(t[1..], '[', ']', false, d);
        if OpenAfter(t[1..], d) == 0 {
          assert t[..n][0] == t[0] && t[..n][1..] == t[1..][..n - 1];
        }
      }
    }
  }

  lemma {:induction false} OpenConcat(t: string, e: string, depth: nat)
    ensures OpenAfter(t + e, depth) == OpenAfter(e, OpenAfter(t, depth))
    decreases |t|
  {
    if t == "" {
      assert t + e == e;
    } else if depth > 0 {
      assert (t + e)[0] == t[0] && (t + e)[1..] == t[1..] + e;
      OpenConcat(t[1..], e, if t[0] == '[' then depth + 1 else if t[0] == ']' then depth - 1 else depth);
    }
  }

  /** Text in which nothing closes early from a lower depth is the same from a higher one. */
  lemma {:induction false} OpenHigher(t: string, depth: nat, more: nat)
    requires OpenAfter(t, depth) > 0
    ensures OpenAfter(t, depth + more) == OpenAfter(t, depth) + more
    decreases |t|
  {
    if t != "" {
      OpenHigher(t[1..], if t[0] == '[' then depth + 1 else if t[0] == ']' then depth - 1 else depth, more);
    }
  }

  /** The raw scan behind an array's text: through it, or stopped within. */
  lemma {:induction false} RawBehind(t: string, e: string, depth: nat)
    requires depth > 0
    ensures var n := Nested(t + e, '[', ']', false, depth);
            n == if OpenAfter(t, depth) > 0 then |t| + Nested(e, '[', ']', false, OpenAfter(t, depth))
                 else Nested(t, '[', ']', false, depth)
    decreases |t|
  {
    if t == "" {
      assert t + e == e;
    } else {
      assert (t + e)[0] == t[0] && (t + e)[1..] == t[1..] + e;
      var d := if t[0] == '[' then depth + 1 else if t[0] == ']' then depth - 1 else depth;
      if d > 0 {
        RawBehind(t[1..], e, d);
      } else {
        NestedNone(t[1..], '[', ']', false);
        NestedNone(t[1..] + e, '[', ']', false);
      }
    }
  }

  lemma ValueShortens(t: string)
    requires t != ""
    ensures var one := OneValue(t, false); one.Some? ==> one.value.1 == t || |one.value.1| < |t|
  {
    hide Args, Items, Nested;
  }

  /** What has been read stays in front. */
  lemma {:induction false} ItemsKeep(t: string, done: seq<Val>)
    ensures var r := Items(t, done); r.Some? ==> done <= r.value
    decreases |t|
  {
    hide OneValue;
    var u := t[Leading(t, SEPARATORS)..];
    if u != "" {
      ValueShortens(u);
      var one := OneValue(u, false);
      if one.Some? && one.value.1 != u {
        ItemsKeep(one.value.1, done + [one.value.0]);
      }
    }
  }

  lemma {:induction false} StripKeepsFirst(s: string)
    requires s != "" && !IsSpace(s[0])
    ensures Strip(s) != "" && Strip(s)[0] == s[0]
    decreases |s|
  {
    hide IsSpace;
    if |s| > 1 && IsSpace(s[|s| - 1]) {
      StripKeepsFirst(s[..|s| - 1]);
    }
  }

  /** An item that would start with a closing bracket is none that can be printed. */
  lemma CloserSpoils(x: string, done: seq<Val>, items: seq<Val>)
    requires x != "" && Closer(x[0]) && ItemsPrintable(items)
    ensures Items(x, done) != Some(done + items)
  {
    hide Items, Strip, IsSpace;
    if x[0] == ']' {
      assert x == "]" + x[1..];
      BracketNeverEnds(x[1..], done);
    } else {
      ItemStep(x, done);
      var n := Until(x, ITEM_STOPS);
      var w := Bare(Strip(x[..n]));
      BraceIsNoSpace();
      StripKeepsFirst(x[..n]);
      assert OneValue(x, false) == Some((w, x[n..]));
      ItemsKeep(x[n..], done + [w]);
      if items != [] {
        assert (done + items)[|done|] == items[0];
        assert w.word[0] in w.word;
      }
    }
  }

  lemma BraceIsNoSpace()
    ensures !IsSpace('}')
  {
  }
}

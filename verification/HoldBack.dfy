/** How much of a buffer's end to hold back because it may be the start of a token. */
module HoldBack {
  import opened Strings

  /** `s` may still grow into `token`: Python's `token.startswith(s)` for a shorter, non-empty `s`. */
  predicate IsPartial(token: string, s: string) {
    0 < |s| < |token| && s <= token
  }

  /** The last `i` characters of `b` may still grow into the token. */
  predicate PartialEnd(token: string, b: string, i: nat) {
    i <= |b| && IsPartial(token, b[|b| - i..])
  }

  /** The longest suffix of `b` that may still grow into the token: what must be held back. */
  function Longest(b: string, token: string): (n: nat)
    ensures n <= |b| && (n != 0 ==> PartialEnd(token, b, n))
  {
    if b == "" then 0
    else if IsPartial(token, b) then |b|
    else
      var n := Longest(b[1..], token);
      assert b[1..][|b| - 1 - n..] == b[|b| - n..];
      n
  }

  lemma {:induction false} LongestIsLongest(b: string, token: string, i: nat)
    requires PartialEnd(token, b, i)
    ensures i <= Longest(b, token)
  {
    if !IsPartial(token, b) && i < |b| {
      assert b[1..][|b| - 1 - i..] == b[|b| - i..];
      LongestIsLongest(b[1..], token, i);
    }
  }

  /** The least `i`, from the given one on, whose suffix may grow into the token; 0 if there is none. */
  function ShortestFrom(b: string, token: string, i: nat): (n: nat)
    requires i > 0
    ensures n != 0 ==> i <= n && PartialEnd(token, b, n)
    ensures forall j: nat {:trigger PartialEnd(token, b, j)} :: i <= j && PartialEnd(token, b, j) ==> n != 0 && n <= j
    decreases |b| + 1 - i
  {
    if i > |b| || i >= |token| then
      0
    else if PartialEnd(token, b, i) then
      i
    else
      ShortestFrom(b, token, i + 1)
  }

  method EndsWithPartialToken(buffer: string, token: string) returns (n: nat)
    ensures n == ShortestFrom(buffer, token, 1)
  {
    var i := 1;
    while i < |buffer| + 1 && i < |token|
      invariant i > 0
      invariant ShortestFrom(buffer, token, i) == ShortestFrom(buffer, token, 1)
    {
      if buffer[|buffer| - i..] <= token {
        assert PartialEnd(token, buffer, i);
        return i;
      }
      i := i + 1;
    }
    return 0;
  }

  /** The prefix of length `i` of the token ends in the one of length `j`. */
  predicate HasBorder(token: string, i: nat, j: nat) {
    0 < j < i < |token| && token[i - j..i] == token[..j]
  }

  /** No proper prefix of the token ends in a shorter prefix of it. */
  ghost predicate BorderFree(token: string) {
    forall i, j :: !HasBorder(token, i, j)
  }

  /** Two partial ends of one buffer make a border. */
  lemma PartialEndsMakeBorder(token: string, b: string, i: nat, j: nat)
    requires PartialEnd(token, b, i) && PartialEnd(token, b, j) && j < i
    ensures HasBorder(token, i, j)
  {
    var s := b[|b| - i..];
    assert s == token[..i];
    assert b[|b| - j..] == s[i - j..] == token[..i][i - j..] == token[i - j..i];
  }

  lemma BorderMakesPartialEnds(token: string, i: nat, j: nat)
    requires HasBorder(token, i, j)
    ensures PartialEnd(token, token[..i], i) && PartialEnd(token, token[..i], j)
  {
    var b := token[..i];
    assert b[|b| - i..] == b;
    assert b[|b| - j..] == token[i - j..i];
  }

  /** The scan for the shortest suffix holds back enough on every buffer exactly for the tokens whose
      proper prefixes are border-free. */
  lemma ShortestIsLongest(token: string)
    ensures (forall b :: ShortestFrom(b, token, 1) == Longest(b, token)) <==> BorderFree(token)
  {
    if BorderFree(token) {
      forall b ensures ShortestFrom(b, token, 1) == Longest(b, token) {
        BorderFreeHolds(b, token);
      }
    } else {
      var i: nat, j: nat :| HasBorder(token, i, j);
      BorderMakesPartialEnds(token, i, j);
      LongestIsLongest(token[..i], token, i);
      assert ShortestFrom(token[..i], token, 1) <= j < Longest(token[..i], token);
    }
  }

  lemma BorderFreeHolds(b: string, token: string)
    requires BorderFree(token)
    ensures ShortestFrom(b, token, 1) == Longest(b, token)
  {
    var i, j := Longest(b, token), ShortestFrom(b, token, 1);
    if j != 0 {
      LongestIsLongest(b, token, j);
      if j < i {
        PartialEndsMakeBorder(token, b, i, j);
      }
    }
  }

  lemma OpensOnceBorderFree(token: string)
    requires OpensOnce(token)
    ensures BorderFree(token)
  {
    forall i, j ensures !HasBorder(token, i, j) {
      if HasBorder(token, i, j) {
        OpensTwice(token, i, j);
      }
    }
  }

  lemma OpensTwice(token: string, i: nat, j: nat)
    requires HasBorder(token, i, j)
    ensures !OpensOnce(token)
  {
    assert token[i - j..i][0] == token[i - j] && token[..j][0] == token[0];
  }

  /** How far a scan for the token goes one character at a time: to the token, to an end that may grow
      into it, or to the end. */
  function Skip(token: string, b: string): (n: nat)
    ensures n <= |b|
  {
    if b == "" || token <= b || IsPartial(token, b) then 0 else 1 + Skip(token, b[1..])
  }

  lemma {:induction false} SkipToToken(token: string, b: string)
    requires IndexOf(token, b) != -1
    ensures Skip(token, b) == IndexOf(token, b)
  {
    if b != "" && !(token <= b) {
      OccursInTail(token, b);
      SkipToToken(token, b[1..]);
    }
  }

  lemma {:induction false} SkipToEnd(token: string, b: string)
    requires IndexOf(token, b) == -1
    ensures Skip(token, b) == |b| - Longest(b, token)
  {
    assert token <= b ==> OccursAt(token, b, 0);
    if b != "" && !IsPartial(token, b) {
      OccursInTail(token, b);
      SkipToEnd(token, b[1..]);
    }
  }

  /** The scan stops at the token, at an end that may grow into it, or at the end. */
  lemma {:induction false} SkipStops(token: string, b: string)
    ensures var r := b[Skip(token, b)..];
            (token <= r || r == "" || IsPartial(token, r)) && (token <= r ==> IndexOf(token, b) != -1)
  {
    var k := Skip(token, b);
    if k == 0 {
      assert b[k..] == b;
      assert token <= b ==> OccursAt(token, b, 0);
    } else {
      SkipStops(token, b[1..]);
      assert b[1..][k - 1..] == b[k..];
      OccursInTail(token, b);
      assert IndexOf(token, b[1..]) != -1 ==> OccursAt(token, b, IndexOf(token, b[1..]) + 1);
    }
  }

  /** Where the detectors cut a buffer without a whole token: the scan and the hold-back agree. */
  lemma SkipIsHoldBack(token: string, b: string)
    requires OpensOnce(token) && IndexOf(token, b) == -1
    ensures Skip(token, b) == |b| - ShortestFrom(b, token, 1)
  {
    SkipToEnd(token, b);
    OpensOnceBorderFree(token);
    BorderFreeHolds(b, token);
  }
}

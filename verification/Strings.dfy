/** Words over the characters of the model's output, and where one word occurs inside another. */
module Strings {

  datatype Option<+T> = None | Some(value: T)

  /** `p` is the end of `w`. */
  predicate IsSuffix(p: string, w: string) {
    |p| <= |w| && w[|w| - |p|..] == p
  }

  /** `p` stands in `w` at position `i`: Python's `w.startswith(p, i)`. */
  predicate OccursAt(p: string, w: string, i: int) {
    0 <= i <= |w| - |p| && w[i..i + |p|] == p
  }

  /** `p in w`, Python's substring test. */
  ghost predicate Occurs(p: string, w: string) {
    exists i :: OccursAt(p, w, i)
  }

  /** `w.find(p)`: the first position of `p` in `w`, or -1. */
  function IndexOf(p: string, w: string): (i: int)
    ensures i == -1 <==> !Occurs(p, w)
    ensures i != -1 ==> OccursAt(p, w, i) && forall j :: OccursAt(p, w, j) ==> i <= j
    decreases |w|
  {
    if p <= w then
      assert OccursAt(p, w, 0);
      0
    else if w == "" then
      -1
    else
      var k := IndexOf(p, w[1..]);
      OccursInTail(p, w);
      assert k != -1 ==> OccursAt(p, w, k + 1);
      if k == -1 then -1 else k + 1
  }

  lemma OccursInTail(p: string, w: string)
    requires w != "" && !(p <= w)
    ensures forall j :: OccursAt(p, w, j) <==> 1 <= j && OccursAt(p, w[1..], j - 1)
  {
    forall j ensures OccursAt(p, w, j) <==> 1 <= j && OccursAt(p, w[1..], j - 1) {
      if 1 <= j <= |w| - |p| {
        assert w[1..][j - 1..j - 1 + |p|] == w[j..j + |p|];
      }
    }
  }

  lemma CharWithin(p: string, w: string, i: int, n: int)
    requires OccursAt(p, w, i) && i <= n < i + |p|
    ensures w[n] == p[n - i]
  {
    assert w[i..i + |p|][n - i] == w[n];
  }

  lemma OccursInPrefix(p: string, w: string, e: string, i: int)
    requires OccursAt(p, w + e, i) && i + |p| <= |w|
    ensures OccursAt(p, w, i)
  {
    assert (w + e)[i..i + |p|] == w[i..i + |p|];
  }

  /** A first position found in a text is found in every extension of it. */
  lemma IndexOfExtends(p: string, w: string, e: string)
    requires IndexOf(p, w) != -1
    ensures IndexOf(p, w + e) == IndexOf(p, w)
  {
    var i, j := IndexOf(p, w), IndexOf(p, w + e);
    assert (w + e)[i..i + |p|] == w[i..i + |p|];
    assert OccursAt(p, w + e, i);
    assert 0 <= j <= i <= |w| - |p|;
    OccursInPrefix(p, w, e, j);
  }

  /** Text appended to `b` decides whether `t` starts it only while `b` is a prefix of `t`. */
  lemma PrefixOfExtension(t: string, b: string, e: string)
    ensures t <= b + e ==> t <= b || b <= t
    ensures b + e <= t ==> b <= t
  {
  }

  /** The only character of `t` that opens it is its first: true of every tag `<...>`. */
  predicate OpensOnce(t: string) {
    t != "" && forall i :: 0 < i < |t| ==> t[i] != t[0]
  }

  lemma StandsBehind(t: string, front: string, rest: string)
    ensures OccursAt(t, front + (t + rest), |front|)
  {
    assert (front + (t + rest))[|front|..|front| + |t|] == t;
  }

  lemma OccurrenceOccurs(t: string, w: string, i: int)
    ensures OccursAt(t, w, i) ==> Occurs(t, w)
  {
  }

  /** What is found is an occurrence no later than any other. */
  lemma FoundFirst(t: string, w: string, i: int)
    requires OccursAt(t, w, i)
    ensures 0 <= IndexOf(t, w) <= i && OccursAt(t, w, IndexOf(t, w))
  {
  }

  /** The first such tag after a text without one. */
  lemma IndexAfter(t: string, before: string, rest: string)
    requires OpensOnce(t) && !Occurs(t, before)
    ensures IndexOf(t, before + (t + rest)) == |before|
  {
    StandsBehind(t, before, rest);
    NoneAcross(t, before, t + rest);
  }

  /** Such a tag does not reach from a text without one into what starts as it does. */
  lemma NoneAcross(t: string, before: string, rest: string)
    requires OpensOnce(t) && !Occurs(t, before) && rest != "" && rest[0] == t[0]
    ensures IndexOf(t, before + rest) == -1 || IndexOf(t, before + rest) >= |before|
  {
    var w := before + rest;
    var j := IndexOf(t, w);
    if 0 <= j < |before| {
      if j + |t| <= |before| {
        OccursInPrefix(t, before, rest, j);
      } else {
        CharWithin(t, w, j, |before|);
      }
    }
  }

  lemma Cut(front: string, back: string)
    ensures (front + back)[|front|..] == back && (front + back)[..|front|] == front
  {
  }

  lemma Assoc(a: string, b: string, c: string)
    ensures a + b + c == a + (b + c)
  {
  }

  /** A tag does not occur where its first character does not. */
  lemma NoFirstNoTag(t: string, w: string)
    requires t != "" && t[0] !in w
    ensures !Occurs(t, w)
  {
    forall i ensures !OccursAt(t, w, i) {
      if OccursAt(t, w, i) {
        CharWithin(t, w, i, i);
      }
    }
  }

  /** A tag that differs from the one in front is looked for only behind it. */
  lemma NotInFront(t: string, front: string, text: string, m: nat)
    requires OpensOnce(t) && OpensOnce(front) && t[0] == front[0] && m < |t| && m < |front| && t[m] != front[m]
    requires !Occurs(t, text)
    ensures !Occurs(t, front + text)
  {
    forall i ensures !OccursAt(t, front + text, i) {
      NotAtFront(t, front, text, m, i);
      BehindFront(t, front, text, i);
    }
  }

  lemma NotAtFront(t: string, front: string, text: string, m: nat, i: int)
    requires OpensOnce(front) && t != "" && t[0] == front[0] && m < |t| && m < |front| && t[m] != front[m]
    ensures OccursAt(t, front + text, i) ==> i >= |front|
  {
    if OccursAt(t, front + text, i) {
      CharWithin(t, front + text, i, i);
      CharWithin(t, front + text, i, i + m);
    }
  }

  lemma BehindFront(t: string, front: string, text: string, i: int)
    ensures OccursAt(t, front + text, i) && i >= |front| ==> OccursAt(t, text, i - |front|)
  {
    if OccursAt(t, front + text, i) && i >= |front| {
      assert text[i - |front|..i - |front| + |t|] == (front + text)[i..i + |t|];
    }
  }

  lemma NotInTail(t: string, w: string)
    requires w != "" && !Occurs(t, w)
    ensures !Occurs(t, w[1..])
  {
    assert t <= w ==> OccursAt(t, w, 0);
    OccursInTail(t, w);
    forall i ensures !OccursAt(t, w[1..], i) {
      assert OccursAt(t, w, i + 1) <==> 1 <= i + 1 && OccursAt(t, w[1..], i + 1 - 1);
    }
  }

  lemma NotAtStart(t: string, w: string)
    requires !Occurs(t, w)
    ensures !(t <= w)
  {
    assert t <= w ==> OccursAt(t, w, 0);
  }

  /** Nor is it in front of the text what its first character does not stand in. */
  lemma NotInPlain(t: string, plain: string, text: string)
    requires t != "" && t[0] !in plain && !Occurs(t, text)
    ensures !Occurs(t, plain + text)
  {
    forall i ensures !OccursAt(t, plain + text, i) {
      if OccursAt(t, plain + text, i) {
        CharWithin(t, plain + text, i, i);
        BehindFront(t, plain, text, i);
      }
    }
  }

  lemma NotAcross(t: string, before: string, rest: string)
    requires OpensOnce(t) && !Occurs(t, before) && !Occurs(t, rest) && (rest == "" || rest[0] == t[0])
    ensures !Occurs(t, before + rest)
  {
    if rest == "" {
      assert before + rest == before;
    } else {
      NoneAcross(t, before, rest);
      BehindFront(t, before, rest, IndexOf(t, before + rest));
    }
  }

  /** A tag that does not end in plain text stays out when such text is put behind. */
  lemma NotBefore(t: string, text: string, plain: string)
    requires t != "" && !Occurs(t, text) && forall i :: 0 <= i < |t| ==> t[i] !in plain
    ensures !Occurs(t, text + plain)
  {
    forall i ensures !OccursAt(t, text + plain, i) {
      if OccursAt(t, text + plain, i) {
        if i + |t| <= |text| {
          OccursInPrefix(t, text, plain, i);
        } else {
          CharWithin(t, text + plain, i, i + |t| - 1);
        }
      }
    }
  }

  lemma NotInPart(t: string, w: string, i: nat, j: nat)
    requires i <= j <= |w| && !Occurs(t, w)
    ensures !Occurs(t, w[i..j])
  {
    forall k ensures OccursAt(t, w[i..j], k) ==> OccursAt(t, w, i + k) {
      if OccursAt(t, w[i..j], k) {
        forall x | 0 <= x < |t| ensures w[i + k..i + k + |t|][x] == t[x] {
          CharWithin(t, w[i..j], k, k + x);
        }
      }
    }
  }

  lemma OccursBefore(t: string, w: string, m: nat, i: int)
    requires m <= |w| && OccursAt(t, w[..m], i)
    ensures OccursAt(t, w, i)
  {
    assert w[..m][i..i + |t|] == w[i..i + |t|];
  }

  /** A position `n` further on, where -1 is none. */
  function Further(n: nat, i: int): int {
    if i == -1 then -1 else n + i
  }

  lemma OccursBehind(t: string, front: string, text: string, j: int)
    ensures OccursAt(t, text, j) ==> OccursAt(t, front + text, |front| + j)
  {
    if OccursAt(t, text, j) {
      assert (front + text)[|front| + j..|front| + j + |t|] == text[j..j + |t|];
    }
  }

  /** Where a word is found behind a text that it does not start in. */
  lemma IndexBehind(t: string, front: string, text: string)
    requires forall i :: OccursAt(t, front + text, i) ==> i >= |front|
    ensures IndexOf(t, front + text) == Further(|front|, IndexOf(t, text))
  {
    hide OccursAt, IndexOf;
    var i, j := IndexOf(t, front + text), IndexOf(t, text);
    BehindFront(t, front, text, i);
    OccursBehind(t, front, text, j);
    if i != -1 {
      FoundFirst(t, text, i - |front|);
    }
    if j != -1 {
      FoundFirst(t, front + text, |front| + j);
    }
  }

  lemma IndexBehindTag(t: string, front: string, text: string, m: nat)
    requires OpensOnce(front) && t != "" && t[0] == front[0] && m < |t| && m < |front| && t[m] != front[m]
    ensures IndexOf(t, front + text) == Further(|front|, IndexOf(t, text))
  {
    forall i ensures OccursAt(t, front + text, i) ==> i >= |front| {
      NotAtFront(t, front, text, m, i);
    }
    IndexBehind(t, front, text);
  }

  lemma IndexBehindPlain(t: string, plain: string, text: string)
    requires t != "" && t[0] !in plain
    ensures IndexOf(t, plain + text) == Further(|plain|, IndexOf(t, text))
  {
    forall i ensures OccursAt(t, plain + text, i) ==> i >= |plain| {
      if OccursAt(t, plain + text, i) && i < |plain| {
        CharWithin(t, plain + text, i, i);
      }
    }
    IndexBehind(t, plain, text);
  }

  /** Behind a text without the word, where what follows starts as the word does. */
  lemma IndexBehindNone(t: string, before: string, rest: string)
    requires OpensOnce(t) && !Occurs(t, before) && rest != "" && rest[0] == t[0]
    ensures IndexOf(t, before + rest) == Further(|before|, IndexOf(t, rest))
  {
    NoneAcross(t, before, rest);
    IndexBehind(t, before, rest);
  }

  /** The characters Python's `str.strip` removes. */
  predicate IsSpace(c: char) {
    var n := c as int;
    9 <= n <= 13 || 28 <= n <= 32 || n == 0x85 || n == 0xa0 || n == 0x1680 || 0x2000 <= n <= 0x200a
    || n == 0x2028 || n == 0x2029 || n == 0x202f || n == 0x205f || n == 0x3000
  }

  function StripLeft(s: string): (r: string)
    ensures |r| <= |s|
  {
    if s != "" && IsSpace(s[0]) then StripLeft(s[1..]) else s
  }

  lemma {:induction false} StripLeftIsEnd(s: string)
    ensures StripLeft(s) == s[|s| - |StripLeft(s)|..]
    decreases |s|
  {
    if s != "" && IsSpace(s[0]) {
      StripLeftIsEnd(s[1..]);
    }
  }

  function StripRight(s: string): (r: string)
    ensures |r| <= |s|
  {
    if s != "" && IsSpace(s[|s| - 1]) then StripRight(s[..|s| - 1]) else s
  }

  /** `s.strip()`. */
  function Strip(s: string): (r: string)
    ensures |r| <= |s|
  {
    StripRight(StripLeft(s))
  }

  lemma {:induction false} BlanksStripped(g: string, rest: string)
    requires (forall c :: c in g ==> IsSpace(c)) && rest != "" && !IsSpace(rest[0])
    ensures StripLeft(g + rest) == rest
  {
    if g == "" {
      assert g + rest == rest;
    } else {
      assert (g + rest)[0] == g[0] && (g + rest)[1..] == g[1..] + rest;
      BlanksStripped(g[1..], rest);
    }
  }

  lemma StripNothing()
    ensures Strip("") == ""
  {
    assert StripLeft("") == "";
  }

  /** A stripped text begins with no blank. */
  lemma StrippedStart(s: string)
    requires Strip(s) == s && s != ""
    ensures !IsSpace(s[0])
  {
  }

  /** `s[i:j]` for positions from the left: empty where they cross. */
  function Slice(s: string, i: nat, j: nat): string {
    if i <= j <= |s| then s[i..j] else ""
  }

  /** The smaller of two positions, where -1 is none. */
  function Earlier(i: int, j: int): int {
    if i == -1 then j else if j == -1 || i <= j then i else j
  }

  /** `t` opens with one of these characters, and holds none of them further in. */
  predicate Inert(t: string, opens: set<char>) {
    t != "" && t[0] in opens && forall i :: 0 < i < |t| ==> t[i] !in opens
  }

  /** A boundary completed only by the added text starts no earlier than an opener already there. */
  lemma LateBoundary(t: string, b: string, e: string, n: nat, opens: set<char>)
    requires Inert(t, opens) && n < |b| && b[n] in opens
    ensures IndexOf(t, b) != -1 ==> IndexOf(t, b + e) == IndexOf(t, b)
    ensures IndexOf(t, b) == -1 && IndexOf(t, b + e) != -1 ==> n <= IndexOf(t, b + e)
  {
    if IndexOf(t, b) != -1 {
      IndexOfExtends(t, b, e);
    } else if IndexOf(t, b + e) != -1 {
      var j := IndexOf(t, b + e);
      if j + |t| <= |b| {
        OccursInPrefix(t, b, e, j);
      } else if j < n {
        CharWithin(t, b + e, j, n);
      }
    }
  }

  /** `s.removeprefix("\n").removesuffix("\n")`. */
  function Unwrap(s: string): string {
    var t := if s != "" && s[0] == '\n' then s[1..] else s;
    if t != "" && t[|t| - 1] == '\n' then t[..|t| - 1] else t
  }

  /** One newline is taken off at either end, where there is one. */
  lemma UnwrapExact(front: string, s: string, back: string)
    requires front in {"", "\n"} && back in {"", "\n"}
    requires front == "" ==> s + back == "" || (s + back)[0] != '\n'
    requires back == "" ==> s == "" || s[|s| - 1] != '\n'
    ensures Unwrap(front + (s + back)) == s
  {
    Cut(front, s + back);
    Cut(s, back);
    if front == "" {
      assert front + (s + back) == s + back;
    }
    if back == "" {
      assert s + back == s;
    }
  }

  predicate Spaces(s: string) {
    forall c :: c in s ==> IsSpace(c)
  }

  /** Text that neither starts nor ends in white space. */
  predicate Trim(s: string) {
    s == "" || (!IsSpace(s[0]) && !IsSpace(s[|s| - 1]))
  }

  lemma {:induction false} SpacesRight(s: string, right: string)
    requires Spaces(right) && (s == "" || !IsSpace(s[|s| - 1]))
    ensures StripRight(s + right) == s
    decreases |right|
  {
    if right == "" {
      assert s + right == s;
    } else {
      var n := |right| - 1;
      assert (s + right)[..|s| + n] == s + right[..n];
      SpacesRight(s, right[..n]);
    }
  }

  /** Stripping takes away the white space on both sides, and nothing else. */
  lemma StripTrims(left: string, s: string, right: string)
    requires Spaces(left) && Spaces(right) && Trim(s)
    ensures Strip(left + (s + right)) == s
  {
    hide IsSpace, StripRight;
    SpacesLeft(left, s + right);
    if s == "" {
      SpacesLeft(right, "");
      assert s + right == right + "" == right;
      assert StripLeft("") == "" && left + (s + right) == left + right;
      SpacesRight("", "");
      assert "" + "" == "";
    } else {
      assert (s + right)[0] == s[0];
      assert StripLeft(s + right) == s + right;
      SpacesRight(s, right);
    }
  }

  lemma {:induction false} SpacesLeft(left: string, s: string)
    requires Spaces(left)
    ensures StripLeft(left + s) == StripLeft(s)
    decreases |left|
  {
    if left == "" {
      assert left + s == s;
    } else {
      assert (left + s)[0] == left[0] && (left + s)[1..] == left[1..] + s;
      SpacesLeft(left[1..], s);
    }
  }

  lemma StripIsTrim(s: string)
    ensures Trim(Strip(s))
  {
    StrippedLeft(s);
    StrippedRight(StripLeft(s));
  }

  lemma {:induction false} StrippedLeft(s: string)
    ensures StripLeft(s) == "" || !IsSpace(StripLeft(s)[0])
  {
    if s != "" && IsSpace(s[0]) {
      StrippedLeft(s[1..]);
    }
  }

  lemma {:induction false} StrippedRight(s: string)
    ensures var r := StripRight(s); r <= s && (r == "" || !IsSpace(r[|r| - 1]))
  {
    if s != "" && IsSpace(s[|s| - 1]) {
      StrippedRight(s[..|s| - 1]);
    }
  }

  lemma {:induction false} LeftIsSpace(t: string)
    ensures Spaces(t[..|t| - |StripLeft(t)|])
    decreases |t|
  {
    hide IsSpace;
    if t != "" && IsSpace(t[0]) {
      LeftIsSpace(t[1..]);
      var n := |t| - |StripLeft(t)|;
      assert t[..n] == [t[0]] + t[1..][..n - 1];
    }
  }

  lemma NoneBeforeFirst(t: string, w: string)
    requires t != "" && IndexOf(t, w) != -1
    ensures !Occurs(t, w[..IndexOf(t, w)])
  {
    var k := IndexOf(t, w);
    forall i ensures OccursAt(t, w[..k], i) ==> OccursAt(t, w, i) && i < k {
      if OccursAt(t, w[..k], i) {
        OccursBefore(t, w, k, i);
      }
    }
  }
}

/** The mathematics behind the exclusion grammar: the Aho-Corasick automaton of a prefix-closed set
    of words, described by longest suffixes rather than by the links that compute them. */
module ExclusionAutomaton {
  import opened Strings

  /** The words of a trie: the empty word, and every prefix of each of its words. */
  ghost predicate PrefixClosed(words: set<string>) {
    && "" in words
    && forall w {:trigger ParentIn(words, w)} :: w in words ==> ParentIn(words, w)
  }

  predicate ParentIn(words: set<string>, w: string) {
    w != "" ==> w[..|w| - 1] in words
  }

  /** The longest suffix of `w` that is a word of the trie. */
  function Back(words: set<string>, w: string): (s: string)
    requires "" in words
    ensures s in words && IsSuffix(s, w)
  {
    if w in words || w == "" then w else Back(words, w[1..])
  }

  /** The failure target of `w`: its longest proper suffix in the trie. */
  function Fail(words: set<string>, w: string): (s: string)
    requires "" in words && w != ""
    ensures s in words && |s| < |w| && IsSuffix(s, w)
  {
    Back(words, w[1..])
  }

  /** The state that walking failure links from `w` until one has a `c` child arrives at, or the
      root: the walk both the link builder and the transition function make. */
  function Follow(words: set<string>, w: string, c: char): (s: string)
    requires "" in words
    ensures s in words
    decreases |w|
  {
    if w + [c] in words then w + [c]
    else if w == "" then ""
    else Follow(words, Fail(words, w), c)
  }

  /** Some pattern ends exactly at the end of `w`. */
  ghost predicate EndsForbidden(patterns: set<string>, w: string) {
    exists p :: p in patterns && IsSuffix(p, w)
  }

  lemma {:induction false} BackIsLongest(words: set<string>, w: string, s: string)
    requires "" in words && s in words && IsSuffix(s, w)
    ensures IsSuffix(s, Back(words, w))
  {
    if w in words || w == "" {
    } else {
      assert s != w;
      assert w[1..][|w| - 1 - |s|..] == w[|w| - |s|..];
      BackIsLongest(words, w[1..], s);
    }
  }

  lemma {:induction false} BackOfBack(words: set<string>, w: string, c: char)
    requires PrefixClosed(words)
    ensures Back(words, w + [c]) == Back(words, Back(words, w) + [c])
  {
    if w in words || w == "" {
    } else {
      assert (w + [c])[..|w|] == w;
      assert ParentIn(words, w + [c]) ==> w + [c] !in words;
      assert (w + [c])[1..] == w[1..] + [c];
      BackOfBack(words, w[1..], c);
    }
  }

  /** Walking the failure links finds the longest suffix: the links never skip a candidate. */
  lemma {:induction false} FollowIsBack(words: set<string>, w: string, c: char)
    requires PrefixClosed(words) && w in words
    ensures Follow(words, w, c) == Back(words, w + [c])
    decreases |w|
  {
    hide Back, IsSuffix;
    BackStep(words, w + [c]);
    BackStep(words, "");
    if w + [c] in words {
    } else if w == "" {
      assert (w + [c])[1..] == "";
    } else {
      FollowIsBack(words, Fail(words, w), c);
      BackOfBack(words, w[1..], c);
      assert (w + [c])[1..] == w[1..] + [c];
    }
  }

  lemma BackStep(words: set<string>, w: string)
    requires "" in words
    ensures w in words ==> Back(words, w) == w
    ensures w !in words ==> w != "" && Back(words, w) == Back(words, w[1..])
  {
  }

  /** The link of a child is found by following its parent's links. */
  lemma FailOfChild(words: set<string>, w: string, c: char)
    requires PrefixClosed(words) && w in words && w != ""
    ensures Fail(words, w + [c]) == Follow(words, Fail(words, w), c)
  {
    BackOfBack(words, w[1..], c);
    assert (w + [c])[1..] == w[1..] + [c];
    FollowIsBack(words, Fail(words, w), c);
  }

  /** A pattern ends at `w` exactly when `w` is a pattern or one ends at its failure target, so
      propagating the end mark along one link is enough. */
  lemma EndsForbiddenAlongFail(words: set<string>, patterns: set<string>, w: string)
    requires "" in words && patterns <= words && w != ""
    ensures EndsForbidden(patterns, w) <==> w in patterns || EndsForbidden(patterns, Fail(words, w))
  {
    if w in patterns {
      assert IsSuffix(w, w);
    }
    var f := Fail(words, w);
    if EndsForbidden(patterns, f) {
      var p :| p in patterns && IsSuffix(p, f);
      SuffixTransitive(p, f, w);
    }
    if EndsForbidden(patterns, w) && w !in patterns {
      var p :| p in patterns && IsSuffix(p, w);
      assert w[1..][|w| - 1 - |p|..] == w[|w| - |p|..];
      BackIsLongest(words, w[1..], p);
    }
  }

  lemma SuffixTransitive(a: string, b: string, c: string)
    requires IsSuffix(a, b) && IsSuffix(b, c)
    ensures IsSuffix(a, c)
  {
    assert c[|c| - |a|..] == c[|c| - |b|..][|b| - |a|..];
  }

  /** The automaton's state remembers all that matters: a pattern ends at `w` exactly when one ends
      at the state reached by reading `w`. */
  lemma EndsForbiddenAtBack(words: set<string>, patterns: set<string>, w: string)
    requires "" in words && patterns <= words
    ensures EndsForbidden(patterns, w) <==> EndsForbidden(patterns, Back(words, w))
  {
    var s := Back(words, w);
    if EndsForbidden(patterns, w) {
      var p :| p in patterns && IsSuffix(p, w);
      BackIsLongest(words, w, p);
    }
    if EndsForbidden(patterns, s) {
      var p :| p in patterns && IsSuffix(p, s);
      SuffixTransitive(p, s, w);
    }
  }

  /** Reading `v` from state `s` never completes a pattern. */
  predicate Safe(words: set<string>, bad: set<string>, s: string, v: string)
    requires "" in words
    decreases |v|
  {
    v == "" ||
    (Follow(words, s, v[0]) !in bad && Safe(words, bad, Follow(words, s, v[0]), v[1..]))
  }

  /** No pattern ends inside `v` when `v` is read after `u`. */
  ghost predicate NoneEnds(patterns: set<string>, u: string, v: string)
    decreases |v|
  {
    v == "" || (!EndsForbidden(patterns, u + [v[0]]) && NoneEnds(patterns, u + [v[0]], v[1..]))
  }

  /** The run from the state of `u` over `v` is safe exactly when no pattern ends inside `v`. */
  lemma {:induction false} SafeMeansNoneEnds(words: set<string>, patterns: set<string>, bad: set<string>, u: string,
                                             v: string)
    requires PrefixClosed(words) && patterns <= words
    requires forall w :: w in words ==> (w in bad <==> EndsForbidden(patterns, w))
    ensures Safe(words, bad, Back(words, u), v) <==> NoneEnds(patterns, u, v)
    decreases |v|
  {
    if v != "" {
      FollowIsBack(words, Back(words, u), v[0]);
      BackOfBack(words, u, v[0]);
      EndsForbiddenAtBack(words, patterns, u + [v[0]]);
      SafeMeansNoneEnds(words, patterns, bad, u + [v[0]], v[1..]);
    }
  }

  /** Ending somewhere inside `v` is being a suffix of one of the prefixes read so far. */
  lemma {:induction false} NoneEndsPrefixes(patterns: set<string>, u: string, v: string)
    ensures NoneEnds(patterns, u, v) <==> forall i :: |u| < i <= |u + v| ==> !EndsForbidden(patterns, (u + v)[..i])
    decreases |v|
  {
    if v != "" {
      var u' := u + [v[0]];
      NoneEndsPrefixes(patterns, u', v[1..]);
      assert u' + v[1..] == u + v;
      assert (u + v)[..|u'|] == u';
    }
  }

  /** A non-empty pattern occurs in `v` exactly when it ends at one of its non-empty prefixes. */
  lemma OccursMeansEnds(p: string, v: string)
    requires p != ""
    ensures Occurs(p, v) <==> exists i :: 1 <= i <= |v| && IsSuffix(p, v[..i])
  {
    if Occurs(p, v) {
      var i :| OccursAt(p, v, i);
      assert v[..i + |p|][i..] == v[i..i + |p|];
      assert IsSuffix(p, v[..i + |p|]);
    }
    if i :| 1 <= i <= |v| && IsSuffix(p, v[..i]) {
      assert v[..i][i - |p|..] == v[i - |p|..i];
      assert OccursAt(p, v, i - |p|);
    }
  }

  /** From the root, safety is the absence of every pattern as a substring. */
  lemma SafeMeansNoneOccurs(words: set<string>, patterns: set<string>, bad: set<string>, v: string)
    requires PrefixClosed(words) && patterns <= words && "" !in patterns
    requires forall w :: w in words ==> (w in bad <==> EndsForbidden(patterns, w))
    ensures Safe(words, bad, "", v) <==> forall p :: p in patterns ==> !Occurs(p, v)
  {
    SafeMeansNoneEnds(words, patterns, bad, "", v);
    NoneEndsPrefixes(patterns, "", v);
    assert "" + v == v;
    forall p | p in patterns
      ensures Occurs(p, v) <==> exists i :: 1 <= i <= |v| && IsSuffix(p, v[..i])
    {
      OccursMeansEnds(p, v);
    }
  }
}

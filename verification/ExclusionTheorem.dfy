/** A grammar faithful to the finished automaton derives exactly the words free of every pattern. */
module ExclusionTheorem {
  import opened Strings
  import opened ExclusionAutomaton
  import opened TrieShape
  import opened FailureLinks
  import opened ExclusionGrammar

  ghost function Bound(words: seq<string>): (n: nat)
    ensures forall w :: w in words ==> |w| < n
  {
    if words == [] then 0
    else
      var n := Bound(words[1..]);
      assert words == [words[0]] + words[1..];
      if |words[0]| < n then n else |words[0]| + 1
  }

  /** Every link and every end mark is what the patterns call for. */
  ghost predicate Finished(t: Trie, marks: seq<bool>, links: map<nat, nat>) {
    && Valid(t) && "" !in EndWords(t) && |marks| == |t.words|
    && Shrinking(t, links, Bound(t.words)) && LinksRight(t, links, Bound(t.words))
    && (forall i {:trigger marks[i]} :: 0 <= i < |marks| ==> (marks[i] <==> EndsForbidden(EndWords(t), t.words[i])))
  }

  /** The breadth-first computation ends with every link and mark right. */
  lemma SearchFinishes(t: Trie, b: Bfs)
    requires Inv(t, b) && b.todo == {} && b.queue == []
    ensures Finished(t, b.marks, b.links)
  {
    AllNodesLinked(t, b);
    assert Valid(t) && "" !in EndWords(t) && |b.marks| == |t.words|;
    hide Inv;
    AllLinked(t, b, Bound(t.words));
  }

  lemma AllLinked(t: Trie, b: Bfs, bound: nat)
    requires Valid(t) && |b.marks| == |t.words|
    requires forall i :: 0 <= i < |t.words| ==> i in b.links && LinkedRight(t, b, i)
    ensures Shrinking(t, b.links, bound) && LinksRight(t, b.links, bound)
    ensures forall i {:trigger b.marks[i]} ::
              0 <= i < |b.marks| ==> (b.marks[i] <==> EndsForbidden(EndWords(t), t.words[i]))
  {
    forall i | 0 <= i < |t.words|
      ensures i in b.links && b.links[i] < |t.words| && t.words[b.links[i]] == FailWord(t, i)
      ensures i != 0 ==> Len(t, b.links[i]) < Len(t, i)
      ensures b.marks[i] <==> EndsForbidden(EndWords(t), t.words[i])
    {
      LinkShortens(t, b, i);
    }
  }

  lemma LinkShortens(t: Trie, b: Bfs, i: nat)
    requires Valid(t) && |b.marks| == |t.words| && i in b.links && i < |t.words| && LinkedRight(t, b, i)
    ensures b.links[i] < |t.words| && t.words[b.links[i]] == FailWord(t, i)
    ensures i != 0 ==> Len(t, b.links[i]) < Len(t, i)
    ensures b.marks[i] <==> EndsForbidden(EndWords(t), t.words[i])
  {
    RootIsOnlyEmpty(t, i);
  }

  /** The automaton's transition function over node numbers. */
  ghost function Target(t: Trie, links: map<nat, nat>): (nat, char) -> nat {
    (i: nat, c: char) =>
      if |t.kids| == |t.words| && Shrinking(t, links, Bound(t.words)) && i < |t.words| && Len(t, i) < Bound(t.words)
      then Chase(t, links, Bound(t.words), i, c) else 0
  }

  ghost function Dead(marks: seq<bool>): set<nat> {
    set i: nat | i < |marks| && marks[i]
  }

  /** The forbidden words of the trie. */
  ghost function Bad(t: Trie): set<string>
    requires Valid(t)
  {
    set w | w in WordSet(t) && EndsForbidden(EndWords(t), w)
  }

  lemma TargetIsFollow(t: Trie, marks: seq<bool>, links: map<nat, nat>, i: nat, c: char)
    requires Finished(t, marks, links) && i < |t.words|
    ensures "" in WordSet(t) && Target(t, links)(i, c) < |t.words|
    ensures t.words[Target(t, links)(i, c)] == Follow(WordSet(t), t.words[i], c)
    ensures Target(t, links)(i, c) in Dead(marks) <==> Follow(WordSet(t), t.words[i], c) in Bad(t)
  {
    assert t.words[i] in t.words;
    ChaseIsFollow(t, links, Bound(t.words), i, c);
    var j := Target(t, links)(i, c);
    RootIsOnlyEmpty(t, j);
    assert marks[j] <==> EndsForbidden(EndWords(t), t.words[j]);
  }

  lemma {:induction false} LivesIsSafe(t: Trie, marks: seq<bool>, links: map<nat, nat>, i: nat, w: string)
    requires Finished(t, marks, links) && i < |t.words| && "" in WordSet(t)
    ensures Lives(Target(t, links), Dead(marks), i, w) <==> Safe(WordSet(t), Bad(t), t.words[i], w)
    decreases |w|
  {
    if w != "" {
      TargetIsFollow(t, marks, links, i, w[0]);
      LivesIsSafe(t, marks, links, Target(t, links)(i, w[0]), w[1..]);
    }
  }

  /** The exclusion theorem: what the root state derives is exactly what contains no pattern. */
  lemma RootDerivesPatternFree(t: Trie, marks: seq<bool>, links: map<nat, nat>, rules: seq<Rule>, w: string)
    requires Finished(t, marks, links)
    requires RulesFaithful(rules, Target(t, links), Dead(marks), |t.words|)
    ensures Derives(rules, 0, w) <==> forall p :: p in EndWords(t) ==> !Occurs(p, w)
  {
    RootIsOnlyEmpty(t, 0);
    WordsPrefixClosed(t);
    PatternsAreWords(t);
    RootIsLive(t, marks, links);
    forall i: nat, c | i < |t.words| ensures Target(t, links)(i, c) < |t.words| {
      TargetIsFollow(t, marks, links, i, c);
    }
    DerivesIsLives(rules, Target(t, links), Dead(marks), |t.words|, 0, w);
    LivesIsSafe(t, marks, links, 0, w);
    SafeMeansNoneOccurs(WordSet(t), EndWords(t), Bad(t), w);
  }

  lemma RootIsLive(t: Trie, marks: seq<bool>, links: map<nat, nat>)
    requires Finished(t, marks, links)
    ensures 0 !in Dead(marks)
  {
    assert marks[0] <==> EndsForbidden(EndWords(t), t.words[0]);
    forall p | p in EndWords(t) ensures !IsSuffix(p, "") {
      assert p != "";
    }
  }
}

/** The breadth-first computation of failure links, as a state over node numbers. */
module FailureLinks {
  import opened ExclusionAutomaton
  import opened TrieShape

  /** End marks and links set so far; the queue; the nodes whose children are all linked; and the
      node being expanded with the characters of its children still to do. */
  datatype Bfs = Bfs(marks: seq<bool>, links: map<nat, nat>, queue: seq<nat>,
                     done: set<nat>, front: nat, todo: set<char>)

  function Len(t: Trie, i: nat): nat
    requires i < |t.words|
  {
    |t.words[i]|
  }

  /** Where the link of node `i` must point: the root's to itself. */
  function FailWord(t: Trie, i: nat): string
    requires Valid(t) && i < |t.words|
  {
    if i == 0 then "" else RootIsOnlyEmpty(t, i); Fail(WordSet(t), t.words[i])
  }

  lemma RootIsOnlyEmpty(t: Trie, i: nat)
    requires Valid(t) && i < |t.words|
    ensures "" in WordSet(t) && t.words[i] in WordSet(t) && (i != 0 ==> t.words[i] != "")
  {
    assert t.words[0] in t.words;
    assert SameWord(t, i, 0) ==> i == 0;
  }

  ghost predicate LinkedRight(t: Trie, b: Bfs, i: nat)
    requires Valid(t) && |b.marks| == |t.words| && i in b.links && i < |t.words|
  {
    && b.links[i] < |t.words| && t.words[b.links[i]] == FailWord(t, i)
    && (b.marks[i] <==> EndsForbidden(EndWords(t), t.words[i]))
  }

  /** The links and marks set so far are right, and the other marks are the patterns'. */
  ghost predicate Right(t: Trie, b: Bfs)
    requires Valid(t)
  {
    && |b.marks| == |t.words| && 0 in b.links
    && (forall i :: i in b.links ==> i < |t.words|)
    && (forall i {:trigger LinkedRight(t, b, i)} :: i in b.links ==> LinkedRight(t, b, i))
    && (forall i :: 0 <= i < |t.words| && i !in b.links ==> b.marks[i] == t.ends[i])
  }

  /** The child of `i` for `c` has been reached. */
  predicate Reached(b: Bfs, i: nat, c: char) {
    i in b.done || (i == b.front && c !in b.todo)
  }

  /** Exactly the root and the children reached have links. */
  ghost predicate Frontier(t: Trie, b: Bfs)
    requires Valid(t)
  {
    && b.front < |t.words| && b.todo <= t.kids[b.front].Keys && b.front in b.links
    && (0 in b.done || b.front == 0)
    && (forall i :: i in b.done ==> i < |t.words| && i in b.links)
    && (forall i, c {:trigger Reached(b, i, c)} :: 0 <= i < |t.words| && c in t.kids[i] ==>
         (Reached(b, i, c) <==> t.kids[i][c] in b.links))
    && (forall i :: i in b.links ==> i in b.done || i == b.front || i in b.queue)
  }

  ghost predicate Queued(t: Trie, b: Bfs, k: nat)
    requires b.front < |t.words| && k < |b.queue|
  {
    && b.queue[k] in b.links && b.queue[k] !in b.done && b.queue[k] != b.front
    && b.queue[k] < |t.words| && Len(t, b.front) <= Len(t, b.queue[k]) <= Len(t, b.front) + 1
  }

  ghost predicate InTurn(t: Trie, b: Bfs, k: nat, l: nat)
    requires k < l < |b.queue|
  {
    && b.queue[k] < |t.words| && b.queue[l] < |t.words|
    && b.queue[k] != b.queue[l] && Len(t, b.queue[k]) <= Len(t, b.queue[l])
  }

  /** The queue holds distinct unexpanded nodes in order of length, spanning at most two lengths. */
  ghost predicate Ordered(t: Trie, b: Bfs)
    requires Valid(t) && b.front < |t.words|
  {
    && b.front !in b.done
    && (forall k :: 0 <= k < |b.queue| ==> b.queue[k] < |t.words|)
    && (forall k: nat {:trigger Queued(t, b, k)} :: k < |b.queue| ==> Queued(t, b, k))
    && (forall k: nat, l: nat {:trigger InTurn(t, b, k, l)} :: k < l < |b.queue| ==> InTurn(t, b, k, l))
  }

  ghost predicate Inv(t: Trie, b: Bfs) {
    Valid(t) && "" !in EndWords(t) && Right(t, b) && Frontier(t, b) && Ordered(t, b)
  }

  /** The parts of a search state are about the nodes of the trie. */
  ghost predicate Ranged(t: Trie, b: Bfs) {
    && |b.marks| == |t.words| == |t.kids| && b.front < |t.words|
    && b.todo <= t.kids[b.front].Keys
    && (forall c :: c in t.kids[b.front] ==> t.kids[b.front][c] < |t.words|)
    && (forall k :: 0 <= k < |b.queue| ==> b.queue[k] < |t.words|)
  }

  lemma InvRanged(t: Trie, b: Bfs)
    requires Inv(t, b)
    ensures Ranged(t, b)
  {
  }

  function Start(t: Trie): Bfs
    requires Valid(t)
  {
    Bfs(t.ends, map[0 := 0], [], {}, 0, t.kids[0].Keys)
  }

  lemma EndsAreEndWords(t: Trie, i: nat)
    requires Valid(t) && i < |t.words|
    ensures t.ends[i] <==> t.words[i] in EndWords(t)
  {
    if t.words[i] in EndWords(t) {
      var j :| 0 <= j < |t.words| && t.ends[j] && t.words[j] == t.words[i];
      assert SameWord(t, i, j);
    }
  }

  lemma StartInv(t: Trie)
    requires Valid(t) && "" !in EndWords(t)
    ensures Inv(t, Start(t))
  {
    EndsAreEndWords(t, 0);
  }

  /** Breadth-first order: when all shorter nodes are expanded, the nodes of length `m` have links. */
  lemma {:induction false} LevelLinked(t: Trie, b: Bfs, m: nat, j: nat)
    requires Valid(t) && Right(t, b) && Frontier(t, b)
    requires forall i :: i in b.links && Len(t, i) < m ==> i in b.done || (i == b.front && b.todo == {})
    requires j < |t.words| && Len(t, j) <= m
    ensures j in b.links
    decreases j
  {
    if j != 0 {
      assert HasParent(t, j);
      var i, c :| 0 <= i < j && c in t.kids[i] && t.kids[i][c] == j;
      assert t.words[t.kids[i][c]] == t.words[i] + [c];
      LevelLinked(t, b, m, i);
      assert Reached(b, i, c);
    }
  }

  /** Link one child of the front node and put it in the queue. */
  function LinkChild(t: Trie, b: Bfs, c: char, r: nat): Bfs
    requires b.front < |t.kids| && c in t.kids[b.front]
    requires t.kids[b.front][c] < |b.marks| && r < |b.marks|
  {
    var child := t.kids[b.front][c];
    b.(marks := b.marks[child := b.marks[child] || b.marks[r]], links := b.links[child := r],
       queue := b.queue + [child], todo := b.todo - {c})
  }

  lemma LinkChildQueues(t: Trie, b: Bfs, c: char, r: nat)
    requires Ranged(t, b) && c in t.kids[b.front] && r < |t.words|
    ensures LinkChild(t, b, c, r).queue == b.queue + [t.kids[b.front][c]]
    ensures LinkChild(t, b, c, r).todo == b.todo - {c}
    ensures LinkChild(t, b, c, r).front == b.front && LinkChild(t, b, c, r).done == b.done
  {
  }

  /** The only way into a node is from its parent. */
  lemma OneParent(t: Trie, i: nat, c: char, k: nat, d: char)
    requires Valid(t) && i < |t.words| && k < |t.words| && c in t.kids[i] && d in t.kids[k]
    requires t.kids[i][c] == t.kids[k][d]
    ensures i == k && c == d
  {
    var w := t.words[t.kids[i][c]];
    assert w == t.words[i] + [c] && w == t.words[k] + [d];
    assert w[..|w| - 1] == t.words[i] && w[..|w| - 1] == t.words[k];
    assert SameWord(t, i, k) && w[|w| - 1] == c == d;
  }

  lemma QueuedIsLong(t: Trie, b: Bfs, i: nat)
    requires Inv(t, b) && i in b.queue
    ensures i < |t.words| && Len(t, b.front) <= Len(t, i)
  {
    var k :| 0 <= k < |b.queue| && b.queue[k] == i;
    assert Queued(t, b, k);
  }

  /** Nodes no longer than the front node have links already. */
  lemma ShortLinked(t: Trie, b: Bfs, j: nat)
    requires Inv(t, b) && j < |t.words| && Len(t, j) <= Len(t, b.front)
    ensures j in b.links
  {
    forall i | i in b.links && Len(t, i) < Len(t, b.front) ensures i in b.done {
      if i in b.queue {
        QueuedIsLong(t, b, i);
      }
    }
    LevelLinked(t, b, Len(t, b.front), j);
  }

  /** Nodes shorter than `bound` have links, and the links lead to ever shorter nodes. */
  ghost predicate Shrinking(t: Trie, links: map<nat, nat>, bound: nat) {
    forall i {:trigger i in links} :: 0 <= i < |t.words| && Len(t, i) < bound ==>
      i in links && links[i] < |t.words| && (i != 0 ==> Len(t, links[i]) < Len(t, i))
  }

  /** Where walking the links from node `i` in search of a `c` child ends: that child, or the root. */
  ghost function Chase(t: Trie, links: map<nat, nat>, bound: nat, i: nat, c: char): nat
    requires |t.kids| == |t.words| && Shrinking(t, links, bound) && i < |t.words| && Len(t, i) < bound
    decreases Len(t, i)
  {
    if c in t.kids[i] then t.kids[i][c] else if i == 0 then 0 else Chase(t, links, bound, links[i], c)
  }

  ghost predicate LinksRight(t: Trie, links: map<nat, nat>, bound: nat)
    requires Valid(t) && Shrinking(t, links, bound)
  {
    forall i {:trigger FailWord(t, i)} :: 0 <= i < |t.words| && Len(t, i) < bound ==>
      t.words[links[i]] == FailWord(t, i)
  }

  /** Walking links over numbers is following failure targets over words. */
  lemma {:induction false} ChaseIsFollow(t: Trie, links: map<nat, nat>, bound: nat, i: nat, c: char)
    requires Valid(t) && Shrinking(t, links, bound) && LinksRight(t, links, bound)
    requires i < |t.words| && Len(t, i) < bound
    ensures "" in WordSet(t) && Chase(t, links, bound, i, c) < |t.words|
    ensures t.words[Chase(t, links, bound, i, c)] == Follow(WordSet(t), t.words[i], c)
    decreases Len(t, i)
  {
    RootIsOnlyEmpty(t, i);
    NoKidNoWord(t, i, c);
    assert t.words[links[i]] == FailWord(t, i);
    if c !in t.kids[i] && i != 0 {
      ChaseIsFollow(t, links, bound, links[i], c);
    }
  }

  lemma ShortLinksRight(t: Trie, b: Bfs)
    requires Inv(t, b)
    ensures Shrinking(t, b.links, Len(t, b.front) + 1) && LinksRight(t, b.links, Len(t, b.front) + 1)
  {
    forall i | 0 <= i < |t.words| && Len(t, i) <= Len(t, b.front)
      ensures i in b.links && LinkedRight(t, b, i) && (i != 0 ==> Len(t, b.links[i]) < Len(t, i))
    {
      RootIsOnlyEmpty(t, i);
      ShortLinked(t, b, i);
      assert LinkedRight(t, b, i);
    }
  }

  /** The link of a node's child is where the chase from the node's own link ends. */
  lemma ChildLink(t: Trie, links: map<nat, nat>, bound: nat, i: nat, c: char)
    requires Valid(t) && Shrinking(t, links, bound) && LinksRight(t, links, bound)
    requires 0 < i < |t.words| && Len(t, i) < bound && c in t.kids[i]
    ensures i in links && links[i] < |t.words| && Len(t, links[i]) < Len(t, i)
    ensures Chase(t, links, bound, links[i], c) < |t.words|
    ensures t.words[Chase(t, links, bound, links[i], c)] == FailWord(t, t.kids[i][c])
    ensures Chase(t, links, bound, links[i], c) != t.kids[i][c]
  {
    var child := t.kids[i][c];
    RootIsOnlyEmpty(t, i);
    RootIsOnlyEmpty(t, child);
    WordsPrefixClosed(t);
    assert i in links && links[i] < |t.words|;
    assert t.words[links[i]] == FailWord(t, i);
    ChaseIsFollow(t, links, bound, links[i], c);
    assert t.words[child] == t.words[i] + [c];
    FailOfChild(WordSet(t), t.words[i], c);
  }

  lemma LinkChildRight(t: Trie, b: Bfs, c: char, r: nat)
    requires Inv(t, b) && c in b.todo && r < |t.words|
    requires t.words[r] == FailWord(t, t.kids[b.front][c])
    ensures t.kids[b.front][c] !in b.links
    ensures Right(t, LinkChild(t, b, c, r))
  {
    hide LinkedRight, FailWord, EndsForbidden;
    var child := t.kids[b.front][c];
    var b' := LinkChild(t, b, c, r);
    assert !Reached(b, b.front, c);
    ChildLinkedRight(t, b, c, r);
    forall i | i in b'.links ensures i < |t.words| && LinkedRight(t, b', i) {
      if i != child {
        assert LinkedRight(t, b, i);
        LinkedRightKept(t, b, b', i);
      }
    }
  }

  lemma LinkedRightKept(t: Trie, b: Bfs, b': Bfs, i: nat)
    requires Valid(t) && |b.marks| == |b'.marks| == |t.words| && i in b.links && i in b'.links && i < |t.words|
    requires LinkedRight(t, b, i) && b'.links[i] == b.links[i] && b'.marks[i] == b.marks[i]
    ensures LinkedRight(t, b', i)
  {
  }

  /** The new link is right, and so is the mark taken over along it. */
  lemma ChildLinkedRight(t: Trie, b: Bfs, c: char, r: nat)
    requires Inv(t, b) && c in b.todo && r < |t.words| && t.kids[b.front][c] !in b.links
    requires t.words[r] == FailWord(t, t.kids[b.front][c])
    ensures LinkedRight(t, LinkChild(t, b, c, r), t.kids[b.front][c])
  {
    hide EndsForbidden, Ordered;
    var child := t.kids[b.front][c];
    assert t.words[child] == t.words[b.front] + [c];
    RootIsOnlyEmpty(t, child);
    ShortLinked(t, b, r);
    assert LinkedRight(t, b, r);
    EndsAreEndWords(t, child);
    PatternsAreWords(t);
    EndsForbiddenAlongFail(WordSet(t), EndWords(t), t.words[child]);
  }

  lemma PatternsAreWords(t: Trie)
    requires Valid(t)
    ensures EndWords(t) <= WordSet(t)
  {
  }

  lemma LinkChildFrontier(t: Trie, b: Bfs, c: char, r: nat)
    requires Inv(t, b) && c in b.todo && r < |t.words|
    ensures Frontier(t, LinkChild(t, b, c, r))
  {
    var child := t.kids[b.front][c];
    var b' := LinkChild(t, b, c, r);
    forall i, d | 0 <= i < |t.words| && d in t.kids[i]
      ensures Reached(b', i, d) <==> t.kids[i][d] in b'.links
    {
      assert Reached(b, i, d) <==> t.kids[i][d] in b.links;
      if t.kids[i][d] == child {
        OneParent(t, i, d, b.front, c);
      }
    }
    assert b'.queue[|b.queue|] == child;
    forall i | i in b'.links ensures i in b'.done || i == b'.front || i in b'.queue {
      if i != child && i in b.queue {
        var k :| 0 <= k < |b.queue| && b.queue[k] == i;
        assert b'.queue[k] == i;
      }
    }
  }

  /** The children of the root link to the root, which no pattern ends at. */
  lemma RootChildLink(t: Trie, b: Bfs, c: char)
    requires Inv(t, b) && b.front == 0 && c in b.todo
    ensures t.words[0] == FailWord(t, t.kids[0][c]) && !b.marks[0]
    ensures Inv(t, LinkChild(t, b, c, 0))
  {
    var child := t.kids[0][c];
    RootIsOnlyEmpty(t, child);
    assert t.words[child] == t.words[0] + [c] == [c];
    assert t.words[child][1..] == "";
    assert LinkedRight(t, b, 0);
    LinkChildInv(t, b, c, 0);
  }

  lemma LinkChildOrdered(t: Trie, b: Bfs, c: char, r: nat)
    requires Valid(t) && Frontier(t, b) && Ordered(t, b) && |b.marks| == |t.words| && c in b.todo && r < |t.words|
    requires t.kids[b.front][c] !in b.links
    ensures Ordered(t, LinkChild(t, b, c, r))
  {
    var child := t.kids[b.front][c];
    var b' := LinkChild(t, b, c, r);
    assert t.words[child] == t.words[b.front] + [c];
    assert Len(t, child) == Len(t, b.front) + 1;
    forall k: nat | k < |b'.queue| ensures Queued(t, b', k) {
      if k < |b.queue| {
        assert Queued(t, b, k);
      }
    }
    forall k: nat, l: nat | k < l < |b'.queue| ensures InTurn(t, b', k, l) {
      assert Queued(t, b, k);
      if l < |b.queue| {
        assert InTurn(t, b, k, l);
      }
    }
  }

  lemma LinkChildInv(t: Trie, b: Bfs, c: char, r: nat)
    requires Inv(t, b) && c in b.todo && r < |t.words|
    requires t.words[r] == FailWord(t, t.kids[b.front][c])
    ensures Inv(t, LinkChild(t, b, c, r))
  {
    LinkChildRight(t, b, c, r);
    LinkChildFrontier(t, b, c, r);
    LinkChildOrdered(t, b, c, r);
  }

  /** Close the front node and take the next one from the queue. */
  function Pop(t: Trie, b: Bfs): Bfs
    requires |b.queue| > 0 && b.queue[0] < |t.kids|
  {
    b.(done := b.done + {b.front}, front := b.queue[0], queue := b.queue[1..], todo := t.kids[b.queue[0]].Keys)
  }

  lemma PopRight(t: Trie, b: Bfs)
    requires Valid(t) && Right(t, b) && |b.queue| > 0 && b.queue[0] < |t.words|
    ensures Right(t, Pop(t, b))
  {
    forall i | i in b.links ensures i < |t.words| && LinkedRight(t, Pop(t, b), i) {
      assert LinkedRight(t, b, i);
    }
  }

  lemma PopFrontier(t: Trie, b: Bfs)
    requires Valid(t) && Frontier(t, b) && Ordered(t, b) && b.todo == {} && |b.queue| > 0
    ensures Frontier(t, Pop(t, b))
  {
    assert Queued(t, b, 0);
    var b' := Pop(t, b);
    forall i, d | 0 <= i < |t.words| && d in t.kids[i]
      ensures Reached(b', i, d) <==> t.kids[i][d] in b'.links
    {
      assert Reached(b, i, d) <==> t.kids[i][d] in b.links;
    }
    assert b.queue == [b.queue[0]] + b'.queue;
  }

  lemma PopOrdered(t: Trie, b: Bfs)
    requires Valid(t) && Frontier(t, b) && Ordered(t, b) && |b.queue| > 0
    ensures Ordered(t, Pop(t, b))
  {
    var b' := Pop(t, b);
    assert Queued(t, b, 0);
    forall k: nat | k < |b'.queue| ensures Queued(t, b', k) {
      assert Queued(t, b, k + 1) && InTurn(t, b, 0, k + 1);
    }
    forall k: nat, l: nat | k < l < |b'.queue| ensures InTurn(t, b', k, l) {
      assert InTurn(t, b, k + 1, l + 1);
    }
  }

  lemma PopInv(t: Trie, b: Bfs)
    requires Inv(t, b) && b.todo == {} && |b.queue| > 0
    ensures Inv(t, Pop(t, b))
  {
    PopRight(t, b);
    PopFrontier(t, b);
    PopOrdered(t, b);
  }

  function Unfinished(t: Trie, b: Bfs): set<int> {
    set i | 0 <= i < |t.words| && i !in b.done
  }

  lemma PopFinishes(t: Trie, b: Bfs)
    requires Inv(t, b) && b.todo == {} && |b.queue| > 0
    ensures b.queue[0] < |t.words| && b.queue[0] != 0
    ensures Pop(t, b).marks == b.marks && Pop(t, b).links == b.links
    ensures Pop(t, b).front == b.queue[0] && Pop(t, b).queue == b.queue[1..]
    ensures Pop(t, b).todo == t.kids[b.queue[0]].Keys && Ranged(t, Pop(t, b))
    ensures Unfinished(t, Pop(t, b)) < Unfinished(t, b)
  {
    assert Queued(t, b, 0);
    PopInv(t, b);
    assert b.front in Unfinished(t, b) && b.front !in Unfinished(t, Pop(t, b));
  }

  /** When the queue runs dry every node has its link. */
  lemma AllNodesLinked(t: Trie, b: Bfs)
    requires Inv(t, b) && b.todo == {} && b.queue == []
    ensures forall i :: 0 <= i < |t.words| ==> i in b.links && LinkedRight(t, b, i)
  {
    forall i | 0 <= i < |t.words| ensures i in b.links {
      LevelLinked(t, b, Len(t, i), i);
    }
  }

  /** The links that the search from the front node needs are there, and shrink. */
  ghost predicate ChaseReady(t: Trie, b: Bfs) {
    && |t.kids| == |t.words| == |b.marks| && b.front < |t.words| && Shrinking(t, b.links, Len(t, b.front) + 1)
    && b.front in b.links && b.links[b.front] < |t.words| && Len(t, b.links[b.front]) < Len(t, b.front)
  }

  /** The search from the front node for a link of its `c` child ends at `r`, another node. */
  ghost predicate LinkedTo(t: Trie, b: Bfs, c: char, r: nat) {
    && ChaseReady(t, b) && r == Chase(t, b.links, Len(t, b.front) + 1, b.links[b.front], c) < |t.words|
    && c in t.kids[b.front] && t.kids[b.front][c] < |t.words| && r != t.kids[b.front][c]
  }

  lemma SearchReady(t: Trie, b: Bfs)
    requires Inv(t, b) && b.front != 0
    ensures Valid(t) && ChaseReady(t, b) && LinksRight(t, b.links, Len(t, b.front) + 1)
  {
    hide EndsForbidden, Ordered, LinkedRight, FailWord, LinksRight;
    ShortLinksRight(t, b);
    InvRanged(t, b);
    assert b.front in b.links;
  }

  lemma SearchEnds(t: Trie, b: Bfs, c: char) returns (r: nat)
    requires Valid(t) && ChaseReady(t, b) && LinksRight(t, b.links, Len(t, b.front) + 1)
    requires b.front != 0 && c in t.kids[b.front]
    ensures LinkedTo(t, b, c, r) && t.words[r] == FailWord(t, t.kids[b.front][c])
  {
    hide FailWord, LinksRight, Shrinking;
    var bound := Len(t, b.front) + 1;
    ChildLink(t, b.links, bound, b.front, c);
    r := Chase(t, b.links, bound, b.links[b.front], c);
  }

  /** The node a child of the front node links to: with the child's longest proper suffix for its word;
      and linking it keeps the invariant. */
  lemma LinkTarget(t: Trie, b: Bfs, c: char) returns (r: nat)
    requires Inv(t, b) && b.front != 0 && c in b.todo
    ensures LinkedTo(t, b, c, r)
    ensures t.words[r] == FailWord(t, t.kids[b.front][c])
    ensures Inv(t, LinkChild(t, b, c, r))
  {
    hide Right, Ordered, ChaseReady, FailWord, LinksRight;
    SearchReady(t, b);
    InvRanged(t, b);
    r := SearchEnds(t, b, c);
    LinkChildInv(t, b, c, r);
  }
}

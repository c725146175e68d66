/** The trie of forbidden words as a value: one word per node, in creation order. */
module TrieShape {
  import opened ExclusionAutomaton

  /** Node `i` spells `words[i]`; `kids[i]` is its children dictionary and `ends[i]` its end mark. */
  datatype Trie = Trie(words: seq<string>, kids: seq<map<char, nat>>, ends: seq<bool>)

  const EMPTY := Trie([""], [map[]], [false])

  function WordSet(t: Trie): set<string> {
    set w | w in t.words
  }

  /** Every node but the root is the child of an earlier node. */
  ghost predicate HasParent(t: Trie, j: nat)
    requires |t.kids| == |t.words| && j < |t.words|
  {
    exists i, c :: 0 <= i < j && c in t.kids[i] && t.kids[i][c] == j
  }

  predicate SameWord(t: Trie, i: nat, j: nat)
    requires i < |t.words| && j < |t.words|
  {
    t.words[i] == t.words[j]
  }

  ghost predicate Valid(t: Trie) {
    && |t.kids| == |t.ends| == |t.words| > 0 && t.words[0] == ""
    && (forall i, j {:trigger SameWord(t, i, j)} ::
          0 <= i < |t.words| && 0 <= j < |t.words| && SameWord(t, i, j) ==> i == j)
    && (forall i, c :: 0 <= i < |t.kids| && c in t.kids[i] ==>
          i < t.kids[i][c] < |t.words| && t.words[t.kids[i][c]] == t.words[i] + [c])
    && (forall j :: 0 < j < |t.words| ==> HasParent(t, j))
  }

  function AddLeaf(t: Trie, i: nat, c: char): (t': Trie)
    requires i < |t.words| == |t.kids| == |t.ends|
    ensures |t'.words| == |t'.kids| == |t'.ends| == |t.words| + 1
    ensures c in t'.kids[i] && t'.kids[i][c] == |t.words|
  {
    var linked: map<char, nat> := t.kids[i][c := |t.words|];
    Trie(t.words + [t.words[i] + [c]], t.kids[i := linked] + [map[]], t.ends + [false])
  }

  /** Walk `p` down from node `i`, creating the missing nodes, and mark the last one. */
  function InsertFrom(t: Trie, i: nat, p: string): Trie
    requires i < |t.words| == |t.kids| == |t.ends|
    requires forall j, c :: 0 <= j < |t.kids| && c in t.kids[j] ==> t.kids[j][c] < |t.words|
    decreases |p|
  {
    if p == "" then t.(ends := t.ends[i := true])
    else if p[0] in t.kids[i] then InsertFrom(t, t.kids[i][p[0]], p[1..])
    else InsertFrom(AddLeaf(t, i, p[0]), |t.words|, p[1..])
  }

  function Build(patterns: seq<string>): (t: Trie)
    ensures Valid(t)
  {
    if patterns == [] then
      EMPTY
    else
      var t := Build(patterns[..|patterns| - 1]);
      InsertKeeps(t, 0, patterns[|patterns| - 1]);
      InsertFrom(t, 0, patterns[|patterns| - 1])
  }

  lemma AddLeafValid(t: Trie, i: nat, c: char)
    requires Valid(t) && i < |t.words| && c !in t.kids[i]
    ensures Valid(AddLeaf(t, i, c))
    ensures WordSet(AddLeaf(t, i, c)) == WordSet(t) + {t.words[i] + [c]}
  {
    var n, t' := |t.words|, AddLeaf(t, i, c);
    forall k | 0 <= k < n ensures t.words[k] != t.words[i] + [c] {
      if t.words[k] == t.words[i] + [c] {
        KidOfWord(t, i, k, c);
      }
    }
    forall j, k | 0 <= j < |t'.words| && 0 <= k < |t'.words| && SameWord(t', j, k) ensures j == k {
      if j < n && k < n {
        assert SameWord(t, j, k);
      }
    }
    forall j | 0 < j < |t'.words| ensures HasParent(t', j) {
      if j < n {
        assert HasParent(t, j);
        var k, d :| 0 <= k < j && d in t.kids[k] && t.kids[k][d] == j;
        assert d in t'.kids[k] && t'.kids[k][d] == j;
      } else {
        assert c in t'.kids[i] && t'.kids[i][c] == j;
      }
    }
  }

  /** A node whose word extends another's by one letter is that node's child. */
  lemma KidOfWord(t: Trie, i: nat, k: nat, c: char)
    requires Valid(t) && i < |t.words| && k < |t.words| && t.words[k] == t.words[i] + [c]
    ensures c in t.kids[i] && t.kids[i][c] == k
  {
    assert k != 0 && HasParent(t, k);
    var j, d :| 0 <= j < k && d in t.kids[j] && t.kids[j][d] == k;
    assert t.words[k] == t.words[t.kids[j][d]] == t.words[j] + [d];
    assert t.words[k][..|t.words[k]| - 1] == t.words[j] && t.words[k][|t.words[k]| - 1] == d;
    assert t.words[k][..|t.words[k]| - 1] == t.words[i] && t.words[k][|t.words[k]| - 1] == c;
    assert SameWord(t, i, j);
  }

  lemma NoKidNoWord(t: Trie, i: nat, c: char)
    requires Valid(t) && i < |t.words|
    ensures c in t.kids[i] <==> t.words[i] + [c] in WordSet(t)
  {
    if t.words[i] + [c] in WordSet(t) {
      var k :| 0 <= k < |t.words| && t.words[k] == t.words[i] + [c];
      KidOfWord(t, i, k, c);
    }
  }

  lemma WordsPrefixClosed(t: Trie)
    requires Valid(t)
    ensures PrefixClosed(WordSet(t))
  {
    var words := WordSet(t);
    assert t.words[0] in words;
    forall w | w in words && w != "" ensures w[..|w| - 1] in words {
      var j :| 0 <= j < |t.words| && t.words[j] == w;
      assert HasParent(t, j);
      var i, c :| 0 <= i < j && c in t.kids[i] && t.kids[i][c] == j;
      assert w == t.words[t.kids[i][c]] == t.words[i] + [c];
      assert w[..|w| - 1] == t.words[i];
    }
  }

  /** The words whose nodes carry an end mark. */
  function EndWords(t: Trie): set<string>
    requires |t.ends| == |t.words|
  {
    set i | 0 <= i < |t.words| && t.ends[i] :: t.words[i]
  }

  /** Inserting keeps the trie valid, and marks one more word: the one spelled by the walk. */
  lemma {:induction false} InsertKeeps(t: Trie, i: nat, p: string)
    requires Valid(t) && i < |t.words|
    ensures Valid(InsertFrom(t, i, p))
    ensures EndWords(InsertFrom(t, i, p)) == EndWords(t) + {t.words[i] + p}
    decreases |p|
  {
    if p == "" {
      assert t.words[i] + p == t.words[i];
      var t' := InsertFrom(t, i, p);
      assert forall w :: w in EndWords(t') ==> w in EndWords(t) + {t.words[i]};
      assert t'.ends[i];
      forall j, k | 0 <= j < |t'.words| && 0 <= k < |t'.words| && SameWord(t', j, k) ensures j == k {
        assert SameWord(t, j, k);
      }
      forall j | 0 < j < |t'.words| ensures HasParent(t', j) {
        assert HasParent(t, j);
      }
      forall w | w in EndWords(t) ensures w in EndWords(t') {
        var j :| 0 <= j < |t.words| && t.ends[j] && t.words[j] == w;
        assert t'.ends[j];
      }
    } else {
      assert t.words[i] + p == (t.words[i] + [p[0]]) + p[1..];
      if p[0] in t.kids[i] {
        InsertKeeps(t, t.kids[i][p[0]], p[1..]);
      } else {
        AddLeafValid(t, i, p[0]);
        AddLeafEnds(t, i, p[0]);
        InsertKeeps(AddLeaf(t, i, p[0]), |t.words|, p[1..]);
      }
    }
  }

  lemma AddLeafEnds(t: Trie, i: nat, c: char)
    requires i < |t.words| == |t.kids| == |t.ends|
    ensures EndWords(AddLeaf(t, i, c)) == EndWords(t)
  {
    var t' := AddLeaf(t, i, c);
    forall w | w in EndWords(t) ensures w in EndWords(t') {
      var j :| 0 <= j < |t.words| && t.ends[j] && t.words[j] == w;
      assert t'.ends[j];
    }
  }

  /** The trie of `patterns` marks exactly the patterns. */
  lemma {:induction false} BuildMarksPatterns(patterns: seq<string>)
    ensures EndWords(Build(patterns)) == set p | p in patterns
  {
    if patterns != [] {
      var n := |patterns| - 1;
      var t := Build(patterns[..n]);
      BuildMarksPatterns(patterns[..n]);
      InsertKeeps(t, 0, patterns[n]);
      assert t.words[0] + patterns[n] == patterns[n];
      assert patterns == patterns[..n] + [patterns[n]];
    }
  }
}

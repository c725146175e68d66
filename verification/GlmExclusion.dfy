/** The exclusion grammar builder: from forbidden strings, through trie objects, to grammar rules. */
module GlmExclusion {
  import opened Strings
  import opened TrieShape
  import opened FailureLinks
  import opened ExclusionGrammar
  import opened ExclusionTheorem
  import opened GlmTrie

  /** The objects hold the finished automaton of the trie `t`. */
  ghost predicate Automatic(nodes: seq<TrieNode>, t: Trie, marks: seq<bool>, links: map<nat, nat>)
    reads nodes
  {
    Finished(t, marks, links) && Wired(nodes, t) && Marked(nodes, marks) && Linked(nodes, links)
  }

  method BuildTrieWithFailureLinks(patterns: seq<string>)
      returns (root: TrieNode, nodes: seq<TrieNode>, ghost marks: seq<bool>, ghost links: map<nat, nat>)
    requires "" !in patterns
    ensures Automatic(nodes, Build(patterns), marks, links) && root == nodes[0]
  {
    root, nodes := BuildTrie(patterns);
    BuildMarksPatterns(patterns);
    ghost var b := LinkFailures(root, nodes, Build(patterns));
    hide Inv;
    SearchFinishes(Build(patterns), b);
    marks, links := b.marks, b.links;
  }

  /** The characters that label some edge of the trie. */
  ghost predicate EdgesWithin(t: Trie, chars: set<char>) {
    forall i, c :: 0 <= i < |t.kids| && c in t.kids[i] ==> c in chars
  }

  lemma {:induction false} OutsideGoesToRoot(t: Trie, links: map<nat, nat>, bound: nat, i: nat, c: char)
    requires |t.kids| == |t.words| && Shrinking(t, links, bound) && i < |t.words| && Len(t, i) < bound
    requires forall j :: 0 <= j < |t.kids| ==> c !in t.kids[j]
    ensures Chase(t, links, bound, i, c) == 0
    decreases Len(t, i)
  {
    if i != 0 {
      assert i in links;
      OutsideGoesToRoot(t, links, bound, links[i], c);
    }
  }

  /** The outcome of sorting the characters of `seen` by where they lead: to a dead state, or to the
      live state they are filed under. */
  ghost predicate Filed(excluded: set<char>, byTarget: map<nat, set<char>>, seen: set<char>,
                        target: (nat, char) -> nat, dead: set<nat>, state: nat) {
    && (forall c :: c in excluded ==> c in seen && target(state, c) in dead)
    && (forall j, c :: j in byTarget && c in byTarget[j] ==> c in seen && target(state, c) == j && j !in dead)
    && (forall c :: c in seen ==>
          c in excluded || (target(state, c) in byTarget && c in byTarget[target(state, c)]))
  }

  /** File one more character under where it leads. */
  method FileCharacter(excluded: set<char>, byTarget: map<nat, set<char>>, c: char, target: nat, isEnd: bool,
                       ghost seen: set<char>, ghost f: (nat, char) -> nat, ghost dead: set<nat>, ghost state: nat)
      returns (excluded': set<char>, byTarget': map<nat, set<char>>)
    requires Filed(excluded, byTarget, seen, f, dead, state)
    requires target == f(state, c) && (isEnd <==> target in dead)
    ensures Filed(excluded', byTarget', seen + {c}, f, dead, state)
  {
    excluded', byTarget' := excluded, byTarget;
    if isEnd {
      excluded' := excluded + {c};
    } else {
      if target !in byTarget {
        byTarget' := byTarget[target := {}];
      }
      byTarget' := byTarget'[target := byTarget'[target] + {c}];
    }
  }

  lemma FiledNone(target: (nat, char) -> nat, dead: set<nat>, state: nat)
    ensures Filed({}, map[], {}, target, dead, state)
  {
  }

  method FileCharacters(node: TrieNode, root: TrieNode, nodes: seq<TrieNode>, chars: set<char>, ghost t: Trie,
                        ghost marks: seq<bool>, ghost links: map<nat, nat>)
      returns (excluded: set<char>, byTarget: map<nat, set<char>>)
    requires Automatic(nodes, t, marks, links) && node in nodes && |nodes| > 0 && root == nodes[0]
    ensures Filed(excluded, byTarget, chars, Target(t, links), Dead(marks), node.id)
  {
    hide Filed, Target, Dead, Finished, Wired, Marked, Linked;
    excluded, byTarget := {}, map[];
    var todo := chars;
    ghost var f, dead, state := Target(t, links), Dead(marks), node.id;
    FiledNone(f, dead, state);
    assert chars - todo == {};
    while todo != {}
      invariant todo <= chars
      invariant Filed(excluded, byTarget, chars - todo, f, dead, state)
    {
      var c :| c in todo;
      var target := TransitionState(node, c, root, nodes, t, marks, links);
      excluded, byTarget :=
        FileCharacter(excluded, byTarget, c, target.id, target.isEnd, chars - todo, f, dead, state);
      assert chars - todo + {c} == chars - (todo - {c});
      todo := todo - {c};
    }
    assert chars - todo == chars;
  }

  method TransitionState(node: TrieNode, c: char, root: TrieNode, nodes: seq<TrieNode>, ghost t: Trie,
                         ghost marks: seq<bool>, ghost links: map<nat, nat>)
      returns (target: TrieNode)
    requires Automatic(nodes, t, marks, links) && node in nodes && |nodes| > 0 && root == nodes[0]
    ensures target.id == Target(t, links)(node.id, c) && (target.isEnd <==> target.id in Dead(marks))
  {
    assert t.words[node.id] in t.words;
    target := GetTransition(node, c, root, nodes, t, links, Bound(t.words));
  }

  /** The alternatives of the rule for one live state. */
  method StateAlternatives(node: TrieNode, root: TrieNode, nodes: seq<TrieNode>, chars: set<char>, ghost t: Trie,
                           ghost marks: seq<bool>, ghost links: map<nat, nat>)
      returns (alternatives: seq<Alternative>)
    requires Automatic(nodes, t, marks, links) && node in nodes && |nodes| > 0 && root == nodes[0]
    requires EdgesWithin(t, chars)
    ensures Faithful(alternatives, Target(t, links), Dead(marks), node.id)
  {
    RootIsLive(t, marks, links);
    forall c | c !in chars ensures Target(t, links)(node.id, c) == 0 {
      assert t.words[node.id] in t.words;
      OutsideGoesToRoot(t, links, Bound(t.words), node.id, c);
    }
    var excluded, byTarget := FileCharacters(node, root, nodes, chars, t, marks, links);
    assert root.id == 0;
    alternatives := EmitAlternatives(excluded, byTarget, chars, Target(t, links), Dead(marks), node.id);
  }

  method EmitAlternatives(excluded: set<char>, byTarget: map<nat, set<char>>, ghost chars: set<char>,
                          ghost target: (nat, char) -> nat, ghost dead: set<nat>, ghost state: nat)
      returns (alternatives: seq<Alternative>)
    requires Filed(excluded, byTarget, chars, target, dead, state)
    requires 0 !in dead && forall c :: c !in chars ==> target(state, c) == 0
    ensures Faithful(alternatives, target, dead, state)
  {
    var explicit := excluded + set j, c | j in byTarget && c in byTarget[j] :: c;
    assert explicit == chars;
    alternatives := [AnyExcept(explicit, 0)];
    var targets := byTarget.Keys;
    while targets != {}
      invariant targets <= byTarget.Keys
      invariant AnyExcept(explicit, 0) in alternatives
      invariant forall a :: a in alternatives ==> a == AnyExcept(explicit, 0) || IsFiled(a, byTarget)
      invariant forall j, c :: j in byTarget && j !in targets && c in byTarget[j] ==> Literal(c, j) in alternatives
    {
      var j :| j in targets;
      var todo := byTarget[j];
      ghost var before := alternatives;
      while todo != {}
        invariant todo <= byTarget[j] && before <= alternatives
        invariant forall a :: a in alternatives ==> a == AnyExcept(explicit, 0) || IsFiled(a, byTarget)
        invariant forall c :: c in byTarget[j] && c !in todo ==> Literal(c, j) in alternatives
      {
        var c :| c in todo;
        alternatives := alternatives + [Literal(c, j)];
        todo := todo - {c};
      }
      assert forall a :: a in before ==> a in alternatives;
      targets := targets - {j};
    }
    var literals := alternatives;
    alternatives := alternatives + [Nothing];
    forall c | target(state, c) !in dead ensures exists a :: a in alternatives && Takes(a, c) {
      if c in chars {
        assert Literal(c, target(state, c)) in literals;
        assert Takes(Literal(c, target(state, c)), c);
      } else {
        assert Takes(AnyExcept(explicit, 0), c);
      }
    }
  }

  ghost predicate IsFiled(a: Alternative, byTarget: map<nat, set<char>>) {
    a.Literal? && a.next in byTarget && a.c in byTarget[a.next]
  }

  /** One rule for every node that does not complete a forbidden word. */
  method BuildRules(root: TrieNode, nodes: seq<TrieNode>, chars: set<char>, ghost t: Trie, ghost marks: seq<bool>,
                    ghost links: map<nat, nat>)
      returns (rules: seq<Rule>)
    requires Automatic(nodes, t, marks, links) && |nodes| > 0 && root == nodes[0] && EdgesWithin(t, chars)
    ensures RulesFaithful(rules, Target(t, links), Dead(marks), |nodes|)
  {
    hide Finished, Target, Faithful, Linked, EdgesWithin;
    rules := [];
    for k := 0 to |nodes|
      invariant forall r :: r in rules ==> r.state < |nodes| && r.state !in Dead(marks)
      invariant forall r :: r in rules ==> Faithful(r.alternatives, Target(t, links), Dead(marks), r.state)
      invariant forall i: nat :: i < k && i !in Dead(marks) ==> exists r :: r in rules && r.state == i
    {
      var node := nodes[k];
      if !node.isEnd {
        var alternatives := StateAlternatives(node, root, nodes, chars, t, marks, links);
        ghost var before := rules;
        rules := rules + [Rule(node.id, alternatives)];
        assert rules[|before|].state == k;
        assert forall r :: r in before ==> r in rules;
      }
    }
  }

  function CharsOf(patterns: seq<string>): set<char> {
    set p, c | p in patterns && c in p :: c
  }

  lemma {:induction false} InsertEdges(t: Trie, i: nat, p: string, chars: set<char>)
    requires Valid(t) && i < |t.words| && EdgesWithin(t, chars) && forall c :: c in p ==> c in chars
    ensures EdgesWithin(InsertFrom(t, i, p), chars)
    decreases |p|
  {
    if p != "" {
      if p[0] in t.kids[i] {
        InsertEdges(t, t.kids[i][p[0]], p[1..], chars);
      } else {
        AddLeafValid(t, i, p[0]);
        InsertEdges(AddLeaf(t, i, p[0]), |t.words|, p[1..], chars);
      }
    }
  }

  /** The trie's edges are labelled with characters of the patterns only. */
  lemma {:induction false} BuildEdges(patterns: seq<string>, chars: set<char>)
    requires CharsOf(patterns) <= chars
    ensures EdgesWithin(Build(patterns), chars)
  {
    if patterns != [] {
      var n := |patterns| - 1;
      assert forall p :: p in patterns[..n] ==> p in patterns;
      assert patterns[n] in patterns;
      forall c | c in CharsOf(patterns[..n]) ensures c in chars {
        assert c in CharsOf(patterns);
      }
      forall c | c in patterns[n] ensures c in chars {
        assert c in CharsOf(patterns);
      }
      BuildEdges(patterns[..n], chars);
      InsertEdges(Build(patterns[..n]), 0, patterns[n], chars);
    }
  }

  /** The strings of a set in some order; the program sorts them. */
  method InSomeOrder(wanted: set<string>) returns (patterns: seq<string>)
    ensures forall p :: p in patterns <==> p in wanted
  {
    patterns := [];
    var todo := wanted;
    while todo != {}
      invariant todo <= wanted
      invariant forall p :: p in patterns <==> p in wanted && p !in todo
    {
      var p :| p in todo;
      patterns := patterns + [p];
      todo := todo - {p};
    }
  }

  /** A grammar for the strings that contain none of the forbidden ones; empty ones forbid nothing. */
  method StringExclude(negativeStrings: seq<string>) returns (g: Grammar)
    ensures forall w :: GrammarDerives(g, w) <==>
              forall p :: p in negativeStrings && p != "" ==> !Occurs(p, w)
  {
    var wanted := set s | s in negativeStrings && s != "";
    if wanted == {} {
      assert forall p :: p in negativeStrings && p != "" ==> p in wanted;
      return AnyString;
    }
    var patterns := InSomeOrder(wanted);
    g := ExcludePatterns(patterns);
    assert forall p :: p in patterns <==> p in negativeStrings && p != "";
  }

  method ExcludePatterns(patterns: seq<string>) returns (g: Grammar)
    requires "" !in patterns
    ensures forall w :: GrammarDerives(g, w) <==> forall p :: p in patterns ==> !Occurs(p, w)
  {
    ghost var t := Build(patterns);
    BuildMarksPatterns(patterns);
    BuildEdges(patterns, CharsOf(patterns));
    var root, nodes, marks, links := BuildTrieWithFailureLinks(patterns);
    var rules := BuildRules(root, nodes, CharsOf(patterns), t, marks, links);
    g := Automaton(root.id, rules);
    forall w ensures Derives(rules, 0, w) <==> forall p :: p in patterns ==> !Occurs(p, w) {
      RootDerivesPatternFree(t, marks, links, rules, w);
    }
  }
}

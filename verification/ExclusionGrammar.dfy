/** Right-linear grammars over automaton states, and when one excludes every forbidden substring. */
module ExclusionGrammar {

  /** `[^chars] next`, `"c" next`, or `""`. */
  datatype Alternative = AnyExcept(chars: set<char>, next: nat) | Literal(c: char, next: nat) | Nothing

  datatype Rule = Rule(state: nat, alternatives: seq<Alternative>)

  /** `[^]*`, or a start state and its rules; a state without a rule derives nothing. */
  datatype Grammar = AnyString | Automaton(start: nat, rules: seq<Rule>)

  predicate Takes(a: Alternative, c: char) {
    match a
    case AnyExcept(chars, _) => c !in chars
    case Literal(d, _) => c == d
    case Nothing => false
  }

  /** The nonterminal of `state` derives `w`. */
  ghost predicate Derives(rules: seq<Rule>, state: nat, w: string)
    decreases |w|, 1
  {
    exists r, a :: r in rules && r.state == state && a in r.alternatives && AlternativeDerives(rules, a, w)
  }

  ghost predicate AlternativeDerives(rules: seq<Rule>, a: Alternative, w: string)
    decreases |w|, 0
  {
    if w == "" then a.Nothing? else !a.Nothing? && Takes(a, w[0]) && Derives(rules, a.next, w[1..])
  }

  ghost predicate GrammarDerives(g: Grammar, w: string) {
    g.AnyString? || Derives(g.rules, g.start, w)
  }

  /** The alternatives of one state take exactly the characters that lead to a live state, and go there. */
  ghost predicate Faithful(
      alternatives: seq<Alternative>, target: (nat, char) -> nat, dead: set<nat>, state: nat) {
    && Nothing in alternatives
    && (forall a, c :: a in alternatives && Takes(a, c) ==> a.next == target(state, c) && target(state, c) !in dead)
    && (forall c :: target(state, c) !in dead ==> exists a :: a in alternatives && Takes(a, c))
  }

  /** Exactly the live states have a rule, one each, and the rules are faithful to the automaton. */
  ghost predicate RulesFaithful(rules: seq<Rule>, target: (nat, char) -> nat, dead: set<nat>, n: nat) {
    && (forall r :: r in rules ==> r.state < n && r.state !in dead && Faithful(r.alternatives, target, dead, r.state))
    && (forall i: nat :: i < n && i !in dead ==> exists r :: r in rules && r.state == i)
  }

  /** Reading `w` from a live state avoids the dead ones. */
  ghost predicate Lives(target: (nat, char) -> nat, dead: set<nat>, state: nat, w: string)
    decreases |w|
  {
    w == "" || (target(state, w[0]) !in dead && Lives(target, dead, target(state, w[0]), w[1..]))
  }

  /** A live state derives exactly the words along which the automaton stays alive. */
  lemma {:induction false} DerivesIsLives(
      rules: seq<Rule>, target: (nat, char) -> nat, dead: set<nat>, n: nat, state: nat, w: string)
    requires RulesFaithful(rules, target, dead, n) && state < n && state !in dead
    requires forall i: nat, c :: i < n ==> target(i, c) < n
    ensures Derives(rules, state, w) <==> Lives(target, dead, state, w)
    decreases |w|
  {
    var r :| r in rules && r.state == state;
    if w == "" {
      assert AlternativeDerives(rules, Nothing, w);
    } else {
      var next := target(state, w[0]);
      if next !in dead {
        DerivesIsLives(rules, target, dead, n, next, w[1..]);
      }
      if Lives(target, dead, state, w) {
        var a :| a in r.alternatives && Takes(a, w[0]);
        assert AlternativeDerives(rules, a, w);
      }
    }
  }
}

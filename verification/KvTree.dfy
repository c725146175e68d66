/** Radix-tree nodes that memoise their namespaced event hashes. */
module KvTree {
  import opened Strings
  import opened KvHash

  datatype RadixKey = RadixKey(tokens: seq<Token>, cacheSalt: Option<string>)

  class TreeNode {
    var key: Option<RadixKey>
    var parent: TreeNode?
    var hashValue: Option<seq<Digest>>
    var eventHashValue: Option<seq<Digest>>
    /** The distance from the top of the tree; the program never stores it. */
    ghost var depth: nat

    constructor (key: Option<RadixKey>, parent: TreeNode?)
      ensures this.key == key && this.parent == parent && hashValue == None && eventHashValue == None
    {
      this.key, this.parent := key, parent;
      hashValue, eventHashValue, depth := None, None, 0;
    }
  }

  /** Hashing: the page size, SHA-256 over tokens, and the digest a cache salt seeds a namespace with. */
  datatype Hashing = Hashing(page: nat, sha: Sha, seed: string -> Digest)

  /** The tree above a set of nodes is in the set, and has no cycles. */
  ghost predicate IsTree(tree: set<TreeNode>)
    reads tree`parent, tree`depth
  {
    forall n :: n in tree && n.parent != null ==> n.parent in tree && n.parent.depth < n.depth
  }

  /** A walk up the tree stops where there is no node, or one without tokens. */
  predicate Stops(n: TreeNode?)
    reads (if n == null then {} else {n})`key
  {
    n == null || n.key.None? || n.key.value.tokens == []
  }

  function SaltOf(n: TreeNode): (salt: Option<string>)
    reads n`key
    ensures salt.Some? <==> n.key.Some? && n.key.value.cacheSalt.Some?
    ensures salt.Some? ==> salt == n.key.value.cacheSalt
  {
    if n.key.Some? then n.key.value.cacheSalt else None
  }

  /** All nodes from `n` up to where a walk stops carry the salt. */
  ghost predicate UniformPath(tree: set<TreeNode>, n: TreeNode, salt: string)
    requires IsTree(tree) && n in tree && !Stops(n)
    reads tree`key, tree`parent, tree`depth
    decreases n.depth
  {
    SaltOf(n) == Some(salt) && (Stops(n.parent) || UniformPath(tree, n.parent, salt))
  }

  /** The digest the node's pages chain on: its parent's last, or the namespace's seed. */
  ghost function PriorOf(tree: set<TreeNode>, h: Hashing, n: TreeNode, salt: string): Digest
    requires h.page > 0 && IsTree(tree) && n in tree
    reads tree`key, tree`parent, tree`depth
    decreases n.depth, 0
  {
    if Stops(n.parent) then h.seed(salt) else Last(EventHashes(tree, h, n.parent, salt))
  }

  /** The namespaced hashes of a node, by recursion up the tree. */
  ghost function EventHashes(tree: set<TreeNode>, h: Hashing, n: TreeNode, salt: string): (hashes: seq<Digest>)
    requires h.page > 0 && IsTree(tree) && n in tree && !Stops(n)
    reads tree`key, tree`parent, tree`depth
    ensures hashes != []
    decreases n.depth, 1
  {
    Pages(h.sha, Some(PriorOf(tree, h, n, salt)), n.key.value.tokens, h.page)
  }

  function Last(hashes: seq<Digest>): Digest
    requires hashes != []
  {
    hashes[|hashes| - 1]
  }

  /** A memo is the recursive specification's value, and only there where that is defined. */
  ghost predicate MemoRight(tree: set<TreeNode>, h: Hashing, n: TreeNode)
    requires h.page > 0 && IsTree(tree) && n in tree
    reads tree
  {
    n.eventHashValue.Some? ==>
      if Stops(n) then n.eventHashValue.value == []
      else
        && SaltOf(n).Some? && UniformPath(tree, n, SaltOf(n).value)
        && n.eventHashValue.value == EventHashes(tree, h, n, SaltOf(n).value)
  }

  ghost predicate Coherent(tree: set<TreeNode>, h: Hashing)
    requires h.page > 0 && IsTree(tree)
    reads tree
  {
    forall n :: n in tree ==> MemoRight(tree, h, n)
  }

  /** The nodes from `n` up that have to be filled in: up to the nearest memo, or where the walk stops. */
  ghost function Missing(tree: set<TreeNode>, n: TreeNode?): (missing: seq<TreeNode>)
    requires IsTree(tree) && (n != null ==> n in tree)
    reads tree
    ensures forall m :: m in missing ==> m in tree && !Stops(m) && m.eventHashValue.None?
    decreases if n == null then 0 else n.depth + 1
  {
    if Stops(n) || n.eventHashValue.Some? then [] else [n] + Missing(tree, n.parent)
  }

  datatype EventResult = Values(hashes: seq<Digest>) | MismatchedSalts | AssertionFailed

  /** `compute_node_hash_values`: the pages of the node's key on its parent's last digest. */
  method ComputeNodeHashValues(h: Hashing, node: TreeNode) returns (hashes: seq<Digest>)
    requires h.page > 0 && node.key.Some?
    ensures hashes == Pages(h.sha, PlainPrior(node), node.key.value.tokens, h.page)
  {
    var parentHash := None;
    if node.parent != null && node.parent.hashValue.Some? {
      if !Stops(node.parent) && node.parent.hashValue.value != [] {
        parentHash := Some(Last(node.parent.hashValue.value));
      }
    }
    var r := GetHashStr(h.sha, node.key.value.tokens, parentHash, Some(h.page));
    return r.hashes;
  }

  function PlainPrior(node: TreeNode): Option<Digest>
    reads node, node.parent
  {
    if node.parent == null || node.parent.hashValue.None? || Stops(node.parent) then None
    else LastOr(node.parent.hashValue.value, None)
  }

  /** `compute_node_event_hash_values`. */
  method ComputeNodeEventHashValues(ghost tree: set<TreeNode>, h: Hashing, node: TreeNode) returns (r: EventResult)
    requires h.page > 0 && IsTree(tree) && node in tree && node.key.Some? && Coherent(tree, h)
    modifies tree`eventHashValue
    ensures Coherent(tree, h)
    ensures SaltOf(node).None? ==>
              r == Values(Pages(h.sha, old(PlainPrior(node)), node.key.value.tokens, h.page))
    ensures SaltOf(node).Some? && Stops(node) ==>
              r == if node.eventHashValue.Some? then Values([]) else AssertionFailed
    ensures SaltOf(node).Some? && !Stops(node) ==>
              if UniformPath(tree, node, SaltOf(node).value) then
                r == Values(EventHashes(tree, h, node, SaltOf(node).value))
              else r == MismatchedSalts
    ensures forall n :: n in tree ==>
              if SaltOf(node).Some? && r.Values? && n in old(Missing(tree, node)) then n.eventHashValue.Some?
              else n.eventHashValue == old(n.eventHashValue)
  {
    if SaltOf(node).None? {
      var hashes := ComputeNodeHashValues(h, node);
      return Values(hashes);
    }
    var salt := SaltOf(node).value;
    if node.eventHashValue.Some? {
      return Values(node.eventHashValue.value);
    }
    r := ComputeMissing(tree, h, node, salt);
  }

  /** Without a memo on the node itself: fill in the path above it, unless its salts differ. */
  method ComputeMissing(ghost tree: set<TreeNode>, h: Hashing, node: TreeNode, salt: string) returns (r: EventResult)
    requires h.page > 0 && IsTree(tree) && node in tree && Coherent(tree, h)
    requires SaltOf(node) == Some(salt) && node.eventHashValue.None?
    modifies tree`eventHashValue
    ensures Coherent(tree, h)
    ensures Stops(node) ==> r == AssertionFailed && node.eventHashValue.None?
    ensures !Stops(node) ==>
              if UniformPath(tree, node, salt) then r == Values(EventHashes(tree, h, node, salt))
                else r == MismatchedSalts
    ensures forall n :: n in tree ==>
              if r.Values? && n in old(Missing(tree, node)) then n.eventHashValue.Some?
              else n.eventHashValue == old(n.eventHashValue)
  {
    hide EventHashes, UniformPath, PriorOf;
    var uniform, missing, parentHash := CollectMissing(tree, h, node, salt);
    if !uniform {
      return MismatchedSalts;
    }
    FillIn(tree, h, missing, salt, parentHash);
    forall n | n in tree ensures MemoRight(tree, h, n) {
      if n in missing {
        assert SaltOf(n) == Some(salt);
      } else {
        assert old(MemoRight(tree, h, n));
      }
    }
    if node.eventHashValue.None? {
      return AssertionFailed;
    }
    return Values(node.eventHashValue.value);
  }

  /** Walk up from `node` to the nearest memo, and find the digest the topmost missing node chains on;
      or fail on a node of another salt. */
  method CollectMissing(ghost tree: set<TreeNode>, h: Hashing, node: TreeNode, salt: string)
      returns (uniform: bool, missing: seq<TreeNode>, parentHash: Digest)
    requires h.page > 0 && IsTree(tree) && node in tree && Coherent(tree, h)
    requires SaltOf(node) == Some(salt) && node.eventHashValue.None?
    ensures Stops(node) ==> uniform && missing == []
    ensures !Stops(node) ==> (uniform <==> UniformPath(tree, node, salt)) && (uniform ==> missing != [])
    ensures uniform ==> missing == Missing(tree, node) && IsChain(missing, node)
    ensures uniform ==> forall m :: m in missing ==>
              m in tree && !Stops(m) && SaltOf(m) == Some(salt) && UniformPath(tree, m, salt)
    ensures uniform && missing != [] ==> parentHash == PriorOf(tree, h, missing[|missing| - 1], salt)
  {
    hide EventHashes, Coherent, UniformPath, IsChain, PriorOf, Walked, Missing, SaltOf;
    missing, parentHash := [], "";
    var current: TreeNode? := node;
    WalkStart(tree, node, salt);
    while current != null && !Stops(current) && current.eventHashValue.None?
      invariant Walked(tree, node, salt, missing, current)
      invariant current != null ==> current in tree
      decreases if current == null then 0 else current.depth + 1
    {
      if SaltOf(current) != Some(salt) {
        WalkFails(tree, node, salt, missing, current);
        return false, missing, "";
      }
      WalkOn(tree, node, salt, missing, current);
      missing := missing + [current];
      current := current.parent;
    }
    uniform, parentHash := EndWalk(tree, h, node, salt, missing, current);
  }

  /** The walk is over: at a memo, of this salt or another, or at its end. */
  method EndWalk(ghost tree: set<TreeNode>, h: Hashing, ghost node: TreeNode, salt: string,
                 ghost missing: seq<TreeNode>, current: TreeNode?)
      returns (uniform: bool, parentHash: Digest)
    requires h.page > 0 && IsTree(tree) && node in tree && Coherent(tree, h) && node.eventHashValue.None?
    requires (current != null ==> current in tree) && Walked(tree, node, salt, missing, current)
    requires !Stops(current) ==> current.eventHashValue.Some?
    ensures Stops(node) ==> uniform && missing == []
    ensures !Stops(node) ==> (uniform <==> UniformPath(tree, node, salt)) && (uniform ==> missing != [])
    ensures uniform ==> missing == Missing(tree, node) && IsChain(missing, node)
    ensures uniform ==> forall m :: m in missing ==>
              m in tree && !Stops(m) && SaltOf(m) == Some(salt) && UniformPath(tree, m, salt)
    ensures uniform && missing != [] ==> parentHash == PriorOf(tree, h, missing[|missing| - 1], salt)
  {
    hide EventHashes, Coherent, UniformPath, IsChain, PriorOf, Walked, Missing, SaltOf, IsTree;
    if !Stops(current) && SaltOf(current) != Some(salt) {
      WalkFails(tree, node, salt, missing, current);
      return false, "";
    }
    uniform := true;
    parentHash := HashAbove(tree, h, current, salt);
    WalkEnds(tree, h, node, salt, missing, current);
  }

  /** The walk from `node` has put `missing` aside and stands at `current`. */
  ghost predicate Walked(tree: set<TreeNode>, node: TreeNode, salt: string, missing: seq<TreeNode>, current: TreeNode?)
    requires IsTree(tree) && node in tree
    reads tree, missing`parent
  {
    && (current != null ==> current in tree)
    && Missing(tree, node) == missing + Missing(tree, current)
    && IsChain(missing, node) && (if missing == [] then current == node else missing[|missing| - 1].parent == current)
    && forall m :: m in missing ==>
         && m in tree && !Stops(m) && SaltOf(m) == Some(salt)
         && UniformPath(tree, m, salt) == (Stops(current) || UniformPath(tree, current, salt))
  }

  lemma WalkStart(tree: set<TreeNode>, node: TreeNode, salt: string)
    requires IsTree(tree) && node in tree
    ensures Walked(tree, node, salt, [], node)
  {
    assert [] + Missing(tree, node) == Missing(tree, node);
  }

  lemma WalkOn(tree: set<TreeNode>, node: TreeNode, salt: string, missing: seq<TreeNode>, current: TreeNode)
    requires IsTree(tree) && node in tree && Walked(tree, node, salt, missing, current)
    requires !Stops(current) && current.eventHashValue.None? && SaltOf(current) == Some(salt)
    ensures Walked(tree, node, salt, missing + [current], current.parent)
  {
    hide Missing;
    MissingStep(tree, current);
    assert (missing + [current]) + Missing(tree, current.parent) ==
           missing + ([current] + Missing(tree, current.parent));
  }

  lemma MissingStep(tree: set<TreeNode>, n: TreeNode)
    requires IsTree(tree) && n in tree
    ensures Missing(tree, n) == if Stops(n) || n.eventHashValue.Some? then [] else [n] + Missing(tree, n.parent)
  {
  }

  /** A node of another salt is in the way. */
  lemma WalkFails(tree: set<TreeNode>, node: TreeNode, salt: string, missing: seq<TreeNode>, current: TreeNode)
    requires IsTree(tree) && node in tree && Walked(tree, node, salt, missing, current)
    requires !Stops(current) && SaltOf(current) != Some(salt)
    ensures !Stops(node) && !UniformPath(tree, node, salt)
  {
    hide Missing;
    assert !UniformPath(tree, current, salt);
    assert missing != [] ==> node in missing;
  }

  /** The walk has come to a memo of the salt, or to its end. */
  lemma WalkEnds(tree: set<TreeNode>, h: Hashing, node: TreeNode, salt: string, missing: seq<TreeNode>,
                 current: TreeNode?)
    requires h.page > 0 && IsTree(tree) && node in tree && Coherent(tree, h) && node.eventHashValue.None?
    requires Walked(tree, node, salt, missing, current)
    requires !Stops(current) ==> current.eventHashValue.Some? && SaltOf(current) == Some(salt)
    ensures missing == Missing(tree, node) && IsChain(missing, node)
    ensures Stops(node) ==> missing == []
    ensures !Stops(node) ==> UniformPath(tree, node, salt) && missing != []
    ensures forall m :: m in missing ==> m in tree && !Stops(m) && SaltOf(m) == Some(salt) && UniformPath(tree, m, salt)
    ensures missing != [] ==>
              PriorOf(tree, h, missing[|missing| - 1], salt) ==
              if Stops(current) then h.seed(salt) else Last(EventHashes(tree, h, current, salt))
  {
    hide EventHashes;
    if !Stops(current) {
      assert MemoRight(tree, h, current);
    }
    MissingStep(tree, node);
    assert missing + [] == missing;
    assert missing != [] ==> node in missing;
  }

  /** The digest that pages below a memo chain on, or below where the walk stops. */
  method HashAbove(ghost tree: set<TreeNode>, h: Hashing, current: TreeNode?, salt: string) returns (parentHash: Digest)
    requires h.page > 0 && IsTree(tree) && Coherent(tree, h) && (current != null ==> current in tree)
    requires !Stops(current) ==> current.eventHashValue.Some? && SaltOf(current) == Some(salt)
    ensures parentHash == if Stops(current) then h.seed(salt) else Last(EventHashes(tree, h, current, salt))
  {
    hide EventHashes;
    parentHash := h.seed(salt);
    if current != null && current.eventHashValue.Some? {
      assert MemoRight(tree, h, current);
      if current.eventHashValue.value != [] {
        parentHash := Last(current.eventHashValue.value);
      }
    }
  }

  /** `missing` leads up from `node`, parent by parent. */
  ghost predicate IsChain(missing: seq<TreeNode>, node: TreeNode)
    reads missing`parent
  {
    && (missing != [] ==> missing[0] == node)
    && (forall k :: 0 <= k < |missing| - 1 ==> missing[k].parent == missing[k + 1])
  }

  /** One step of the recursive specification: a node's pages chain on the last digest above it. */
  lemma EventHashesStep(tree: set<TreeNode>, h: Hashing, n: TreeNode, salt: string)
    requires h.page > 0 && IsTree(tree) && n in tree && !Stops(n)
    ensures EventHashes(tree, h, n, salt) == Pages(h.sha, Some(PriorOf(tree, h, n, salt)), n.key.value.tokens, h.page)
    ensures !Stops(n.parent) ==> PriorOf(tree, h, n, salt) == Last(EventHashes(tree, h, n.parent, salt))
  {
  }

  /** Fill in the memos from the top down, each chained on the last digest of the node above. */
  method FillIn(ghost tree: set<TreeNode>, h: Hashing, missing: seq<TreeNode>, ghost salt: string, prior: Digest)
    requires h.page > 0 && IsTree(tree)
    requires forall k :: 0 <= k < |missing| - 1 ==> missing[k].parent == missing[k + 1]
    requires forall m :: m in missing ==> m in tree && !Stops(m)
    requires missing != [] ==> prior == PriorOf(tree, h, missing[|missing| - 1], salt)
    modifies tree`eventHashValue
    ensures forall m :: m in missing ==> m.eventHashValue == Some(EventHashes(tree, h, m, salt))
    ensures forall n :: n in tree && n !in missing ==> n.eventHashValue == old(n.eventHashValue)
  {
    hide EventHashes, PriorOf, IsTree, Pages;
    var parentHash := prior;
    var k := |missing|;
    while k > 0
      invariant 0 <= k <= |missing|
      invariant k > 0 ==> parentHash == PriorOf(tree, h, missing[k - 1], salt)
      invariant forall j :: k <= j < |missing| ==>
                missing[j].eventHashValue == Some(EventHashes(tree, h, missing[j], salt))
      invariant forall n :: n in tree && n !in missing ==> n.eventHashValue == old(n.eventHashValue)
    {
      k := k - 1;
      var m := missing[k];
      assert m in missing;
      EventHashesStep(tree, h, m, salt);
      var r := GetHashStr(h.sha, m.key.value.tokens, Some(parentHash), Some(h.page));
      m.eventHashValue := Some(r.hashes);
      if r.hashes != [] {
        parentHash := Last(r.hashes);
      }
      if k > 0 {
        assert missing[k - 1].parent == m && missing[k - 1] in missing;
        EventHashesStep(tree, h, missing[k - 1], salt);
      }
    }
  }

  /** The keys along the path from the top of the tree down to `n`. */
  ghost function PathKeys(tree: set<TreeNode>, n: TreeNode): (keys: seq<seq<Token>>)
    requires IsTree(tree) && n in tree && !Stops(n)
    reads tree`key, tree`parent, tree`depth
    ensures keys != [] && (forall k :: k in keys ==> k != []) && keys[|keys| - 1] == n.key.value.tokens
    decreases n.depth
  {
    (if Stops(n.parent) then [] else PathKeys(tree, n.parent)) + [n.key.value.tokens]
  }

  lemma {:induction false} PathHashesAppend(sha: Sha, prior: Option<Digest>, keys: seq<seq<Token>>, key: seq<Token>,
                                            page: nat)
    requires page > 0 && forall k :: k in keys ==> k != []
    ensures var before := PathHashes(sha, prior, keys, page);
            var chain := if keys == [] then prior else LastOr(before[|before| - 1], prior);
            PathHashes(sha, prior, keys + [key], page) == before + [Pages(sha, chain, key, page)]
    decreases |keys|
  {
    if keys == [] {
      assert keys + [key] == [key];
    } else {
      assert (keys + [key])[1..] == keys[1..] + [key];
      assert keys[0] in keys && forall k :: k in keys[1..] ==> k in keys;
      PathHashesAppend(sha, LastOr(Pages(sha, prior, keys[0], page), prior), keys[1..], key, page);
      if |keys| > 1 {
        assert keys[1..][|keys| - 2] in keys;
        LastHashes(sha, LastOr(Pages(sha, prior, keys[0], page), prior), keys[1..], page);
      }
    }
  }

  lemma {:induction false} LastHashes(sha: Sha, prior: Option<Digest>, keys: seq<seq<Token>>, page: nat)
    requires page > 0 && keys != [] && forall k :: k in keys ==> k != []
    ensures var hashes := PathHashes(sha, prior, keys, page); hashes[|hashes| - 1] != []
    decreases |keys|
  {
    assert keys[0] in keys && forall k :: k in keys[1..] ==> k in keys;
    if |keys| > 1 {
      LastHashes(sha, LastOr(Pages(sha, prior, keys[0], page), prior), keys[1..], page);
    }
  }

  /** The namespaced hashes of the nodes along the path. */
  ghost function PathEventHashes(tree: set<TreeNode>, h: Hashing, n: TreeNode, salt: string): (r: seq<seq<Digest>>)
    requires h.page > 0 && IsTree(tree) && n in tree && !Stops(n)
    reads tree`key, tree`parent, tree`depth
    ensures r != [] && r[|r| - 1] == EventHashes(tree, h, n, salt)
    decreases n.depth
  {
    (if Stops(n.parent) then [] else PathEventHashes(tree, h, n.parent, salt)) + [EventHashes(tree, h, n, salt)]
  }

  /** The recursive specification over nodes is the path specification over keys; with keys of whole
      pages above it, the hashes along the path are the flat hash of the whole prefix. */
  lemma {:induction false} EventHashesArePathHashes(tree: set<TreeNode>, h: Hashing, n: TreeNode, salt: string)
    requires h.page > 0 && IsTree(tree) && n in tree && !Stops(n)
    ensures PathEventHashes(tree, h, n, salt) == PathHashes(h.sha, Some(h.seed(salt)), PathKeys(tree, n), h.page)
    ensures Aligned(PathKeys(tree, n), h.page) ==>
              Flatten(PathEventHashes(tree, h, n, salt)) ==
                Pages(h.sha, Some(h.seed(salt)), Flatten(PathKeys(tree, n)), h.page)
    decreases n.depth
  {
    hide Flatten, Pages, Aligned;
    var above := if Stops(n.parent) then [] else PathKeys(tree, n.parent);
    PathHashesAppend(h.sha, Some(h.seed(salt)), above, n.key.value.tokens, h.page);
    if !Stops(n.parent) {
      EventHashesArePathHashes(tree, h, n.parent, salt);
    }
    EventHashesStep(tree, h, n, salt);
    if Aligned(PathKeys(tree, n), h.page) {
      PathIsFlat(h.sha, Some(h.seed(salt)), PathKeys(tree, n), h.page);
    }
  }
}

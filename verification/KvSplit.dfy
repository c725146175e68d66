/** Splitting a node of the radix tree on a page boundary. */
module KvSplit {
  import opened Strings
  import opened KvHash
  import opened KvTree

  /** Which node of a tree is split, and how many of its tokens go to the node that is put above it. */
  datatype Cut = Cut(tree: set<TreeNode>, child: TreeNode, h: Hashing, length: nat)

  function FrontOf(key: RadixKey, n: nat): RadixKey
    requires n <= |key.tokens|
  {
    key.(tokens := key.tokens[..n])
  }

  function BackOf(key: RadixKey, n: nat): RadixKey
    requires n <= |key.tokens|
  {
    key.(tokens := key.tokens[n..])
  }

  /** The child has been split on a page boundary: the front of its key is now that of a new node `p`
      between its parent and itself, and its hashes have been divided between the two. */
  twostate predicate Splits(c: Cut, new p: TreeNode)
    reads c.tree, c.child, p
  {
    && c.child in c.tree && p !in c.tree && c.h.page > 0 && old(c.child.key).Some?
    && 0 < c.length < |old(c.child.key).value.tokens| && Whole(c.length, c.h.page)
    && p.key == Some(FrontOf(old(c.child.key).value, c.length)) && p.parent == old(c.child.parent)
    && c.child.key == Some(BackOf(old(c.child.key).value, c.length)) && c.child.parent == p
    && (p.hashValue, c.child.hashValue) == SplitHashes(old(c.child.hashValue), c.length, c.h.page)
    && (p.eventHashValue, c.child.eventHashValue) == SplitHashes(old(c.child.eventHashValue), c.length, c.h.page)
    && (forall n :: n in c.tree && n != c.child ==>
          && n.key == old(n.key) && n.parent == old(n.parent)
          && n.hashValue == old(n.hashValue) && n.eventHashValue == old(n.eventHashValue))
    && old(IsTree(c.tree)) && IsTree(c.tree + {p})
  }

  /** The two halves of a key have the hashes of the whole between them. */
  lemma HalvesInARow(h: Hashing, prior: Option<Digest>, tokens: seq<Token>, n: nat)
    requires h.page > 0 && 0 < n < |tokens| && Whole(n, h.page)
    ensures var first := Pages(h.sha, prior, tokens[..n], h.page);
            var rest := Pages(h.sha, LastOr(first, prior), tokens[n..], h.page);
            && first != [] && rest != []
            && Pages(h.sha, prior, tokens, h.page) == first + rest
            && LastOr(first + rest, prior) == LastOr(rest, prior)
            && SplitHashes(Some(first + rest), n, h.page) == (Some(first), Some(rest))
  {
    hide Pages, SplitHashes, Whole;
    assert tokens[..n] + tokens[n..] == tokens;
    PagesOfConcat(h.sha, prior, tokens[..n], tokens[n..], h.page);
    SplitIsRightIffAligned(h.sha, prior, tokens, n, h.page);
  }

  /** A node has its path and its hashes as before; the child's are those of the two halves in a row. */
  twostate predicate Keeps(c: Cut, new p: TreeNode, new n: TreeNode, new salt: string)
    requires Splits(c, p) && n in c.tree && !old(Stops(n))
    reads c.tree, c.child, p, n
  {
    var tree := c.tree + {p};
    && !Stops(n) && UniformPath(tree, n, salt) == old(UniformPath(c.tree, n, salt))
    && if n == c.child then
         !Stops(p)
         && SplitHashes(Some(old(EventHashes(c.tree, c.h, n, salt))), c.length, c.h.page)
            == (Some(EventHashes(tree, c.h, p, salt)), Some(EventHashes(tree, c.h, n, salt)))
         && EventHashes(tree, c.h, p, salt) + EventHashes(tree, c.h, n, salt) == old(EventHashes(c.tree, c.h, n, salt))
       else EventHashes(tree, c.h, n, salt) == old(EventHashes(c.tree, c.h, n, salt))
  }

  twostate lemma {:induction false} NodeKeeps(c: Cut, new p: TreeNode, new n: TreeNode, new salt: string)
    requires Splits(c, p) && n in c.tree && !old(Stops(n))
    ensures Keeps(c, p, n, salt)
    decreases old(n.depth)
  {
    hide Pages, SplitHashes, Whole;
    var above := old(n.parent);
    if !old(Stops(above)) {
      NodeKeeps(c, p, above, salt);
    }
    if n == c.child {
      var tree, prior := c.tree + {p}, old(PriorOf(c.tree, c.h, n, salt));
      HalvesInARow(c.h, Some(prior), old(n.key).value.tokens, c.length);
      assert PriorOf(tree, c.h, p, salt) == prior;
      var first := EventHashes(tree, c.h, p, salt);
      assert PriorOf(tree, c.h, n, salt) == Last(first);
      assert EventHashes(tree, c.h, n, salt) ==
             Pages(c.h.sha, LastOr(first, Some(prior)), n.key.value.tokens, c.h.page);
      assert UniformPath(tree, n, salt) == (SaltOf(n) == Some(salt) && UniformPath(tree, p, salt));
    } else {
      assert PriorOf(c.tree + {p}, c.h, n, salt) == old(PriorOf(c.tree, c.h, n, salt));
      assert EventHashes(c.tree + {p}, c.h, n, salt) == old(EventHashes(c.tree, c.h, n, salt));
    }
  }

  /** All memos stay right, on both halves and on every node below and beside them. */
  twostate lemma SplitKeepsCoherent(c: Cut, new p: TreeNode)
    requires Splits(c, p) && old(Coherent(c.tree, c.h))
    ensures Coherent(c.tree + {p}, c.h)
  {
    hide EventHashes, SplitHashes;
    forall n | n in c.tree + {p} ensures MemoRight(c.tree + {p}, c.h, n) {
      var m := if n == p then c.child else n;
      assert old(MemoRight(c.tree, c.h, m));
      if old(m.eventHashValue).Some? && !old(Stops(m)) {
        NodeKeeps(c, p, m, old(SaltOf(m)).value);
      }
      HalvesOfNone(c.length, c.h.page);
    }
  }

  lemma HalvesOfNone(n: nat, page: nat)
    requires page > 0
    ensures SplitHashes(None, n, page) == (None, None)
  {
  }

  lemma {:induction false} FlattenMore<T>(parts: seq<seq<T>>, part: seq<T>)
    ensures Flatten(parts + [part]) == Flatten(parts) + part
    decreases |parts|
  {
    if parts == [] {
      assert parts + [part] == [part];
      assert part + [] == part;
    } else {
      assert (parts + [part])[1..] == parts[1..] + [part];
      FlattenMore(parts[1..], part);
    }
  }

  /** The tokens from the top of the tree down to a node. */
  ghost function Prefix(tree: set<TreeNode>, n: TreeNode?): seq<Token>
    requires IsTree(tree) && (n != null ==> n in tree)
    reads tree
    decreases if n == null then 0 else n.depth + 1
  {
    if Stops(n) then [] else Prefix(tree, n.parent) + n.key.value.tokens
  }

  lemma {:induction false} PrefixIsFlat(tree: set<TreeNode>, n: TreeNode)
    requires IsTree(tree) && n in tree && !Stops(n)
    ensures Prefix(tree, n) == Flatten(PathKeys(tree, n))
    decreases n.depth
  {
    if !Stops(n.parent) {
      PrefixIsFlat(tree, n.parent);
    }
    FlattenMore(if Stops(n.parent) then [] else PathKeys(tree, n.parent), n.key.value.tokens);
  }

  /** The tokens from the top down to a node stay the same. */
  twostate lemma {:induction false} PrefixStays(c: Cut, new p: TreeNode, new n: TreeNode)
    requires Splits(c, p) && n in c.tree
    ensures Stops(n) == old(Stops(n)) && Prefix(c.tree + {p}, n) == old(Prefix(c.tree, n))
    decreases old(n.depth)
  {
    if !old(Stops(n)) {
      var above := old(n.parent);
      if above != null {
        PrefixStays(c, p, above);
      }
      if n == c.child {
        assert old(n.key).value.tokens == p.key.value.tokens + n.key.value.tokens;
        assert Prefix(c.tree + {p}, p) == old(Prefix(c.tree, n.parent)) + p.key.value.tokens;
      }
    }
  }

  /** Both kinds of hashes that a node stores. */
  datatype Kind = Plain | Event

  function Stored(n: TreeNode, kind: Kind): (hashes: Option<seq<Digest>>)
    reads n
    ensures kind == Plain ==> hashes == n.hashValue
    ensures kind == Event ==> hashes == n.eventHashValue
  {
    if kind.Plain? then n.hashValue else n.eventHashValue
  }

  /** The hashes that the nodes from the top of the tree down to `n` store, in a row. */
  ghost function Blocks(tree: set<TreeNode>, n: TreeNode?, kind: Kind): seq<Digest>
    requires IsTree(tree) && (n != null ==> n in tree)
    reads tree
    decreases if n == null then 0 else n.depth + 1
  {
    if Stops(n) then []
    else Blocks(tree, n.parent, kind) + if Stored(n, kind).Some? then Stored(n, kind).value else []
  }

  /** Every node up the path stores its hashes, and all but the lowest have keys of whole pages. */
  ghost predicate Filled(tree: set<TreeNode>, n: TreeNode?, kind: Kind, page: nat)
    requires IsTree(tree) && (n != null ==> n in tree) && page > 0
    reads tree
    decreases if n == null then 0 else n.depth + 1
  {
    Stops(n) ||
    (Stored(n, kind).Some? && (Stops(n.parent) || Whole(|n.parent.key.value.tokens|, page))
      && Filled(tree, n.parent, kind, page))
  }

  /** A stored hash is what `compute_node_hash_values` gives for the node. */
  ghost predicate PlainRight(h: Hashing, n: TreeNode)
    requires h.page > 0
    reads n, n.parent
  {
    n.hashValue.Some? && n.key.Some? ==> n.hashValue.value == Pages(h.sha, PlainPrior(n), n.key.value.tokens, h.page)
  }

  ghost predicate PlainCoherent(tree: set<TreeNode>, h: Hashing)
    requires h.page > 0 && IsTree(tree)
    reads tree
  {
    forall n :: n in tree ==> PlainRight(h, n)
  }

  lemma WholeSum(m: nat, n: nat, page: nat)
    requires page > 0 && Whole(m, page) && Whole(n, page)
    ensures Whole(m + n, page)
  {
    assert m + n == (m / page + n / page) * page;
    DivMod(m + n, m / page + n / page, 0, page);
  }

  lemma {:induction false} PrefixIsWhole(tree: set<TreeNode>, n: TreeNode?, kind: Kind, page: nat)
    requires IsTree(tree) && (n != null ==> n in tree) && page > 0 && Filled(tree, n, kind, page)
    requires Stops(n) || Whole(|n.key.value.tokens|, page)
    ensures Whole(|Prefix(tree, n)|, page)
    decreases if n == null then 0 else n.depth + 1
  {
    hide Whole;
    if Stops(n) {
      WholeZero(page);
    } else {
      PrefixIsWhole(tree, n.parent, kind, page);
      WholeSum(|Prefix(tree, n.parent)|, |n.key.value.tokens|, page);
    }
  }

  lemma WholeZero(page: nat)
    requires page > 0
    ensures Whole(0, page)
  {
    DivMod(0, 0, 0, page);
  }

  /** One node more: where the blocks above are flat, and the node's own chain on them, all are. */
  lemma BlocksStep(tree: set<TreeNode>, h: Hashing, n: TreeNode, kind: Kind, prior: Option<Digest>)
    requires h.page > 0 && IsTree(tree) && n in tree && !Stops(n) && Filled(tree, n, kind, h.page)
    requires Blocks(tree, n.parent, kind) == Pages(h.sha, prior, Prefix(tree, n.parent), h.page)
    requires Stored(n, kind).value
          == Pages(h.sha, LastOr(Blocks(tree, n.parent, kind), prior), n.key.value.tokens, h.page)
    ensures Blocks(tree, n, kind) == Pages(h.sha, prior, Prefix(tree, n), h.page)
  {
    hide Pages, Whole;
    PrefixIsWhole(tree, n.parent, kind, h.page);
    PagesOfConcat(h.sha, prior, Prefix(tree, n.parent), n.key.value.tokens, h.page);
  }

  /** The namespaced hashes that a path stores are the flat hash of its tokens. */
  lemma {:induction false} EventBlocksAreFlat(tree: set<TreeNode>, h: Hashing, n: TreeNode)
    requires h.page > 0 && IsTree(tree) && n in tree && !Stops(n) && Coherent(tree, h)
    requires Filled(tree, n, Event, h.page)
    ensures SaltOf(n).Some?
    ensures Blocks(tree, n, Event) == Pages(h.sha, Some(h.seed(SaltOf(n).value)), Prefix(tree, n), h.page)
    decreases n.depth
  {
    hide Pages, Whole;
    assert MemoRight(tree, h, n);
    var prior := Some(h.seed(SaltOf(n).value));
    EventHashesStep(tree, h, n, SaltOf(n).value);
    if !Stops(n.parent) {
      assert MemoRight(tree, h, n.parent);
      assert UniformPath(tree, n.parent, SaltOf(n).value);
      EventBlocksAreFlat(tree, h, n.parent);
      var memo := n.parent.eventHashValue.value;
      assert Blocks(tree, n.parent, Event) == Blocks(tree, n.parent.parent, Event) + memo;
      assert LastOr(Blocks(tree, n.parent, Event), prior) == Some(Last(memo));
    }
    BlocksStep(tree, h, n, Event, prior);
  }

  /** So are the hashes without a namespace. */
  lemma {:induction false} PlainBlocksAreFlat(tree: set<TreeNode>, h: Hashing, n: TreeNode)
    requires h.page > 0 && IsTree(tree) && n in tree && !Stops(n) && PlainCoherent(tree, h)
    requires Filled(tree, n, Plain, h.page)
    ensures Blocks(tree, n, Plain) == Pages(h.sha, None, Prefix(tree, n), h.page)
    decreases n.depth
  {
    hide Pages, Whole;
    assert PlainRight(h, n);
    if !Stops(n.parent) {
      assert PlainRight(h, n.parent);
      PlainBlocksAreFlat(tree, h, n.parent);
    }
    BlocksStep(tree, h, n, Plain, None);
  }

  /** A split leaves every plain hash right. */
  twostate lemma SplitKeepsPlain(c: Cut, new p: TreeNode)
    requires Splits(c, p) && old(PlainCoherent(c.tree, c.h))
    ensures PlainCoherent(c.tree + {p}, c.h)
  {
    hide Pages, SplitHashes, Whole;
    var key := old(c.child.key).value;
    assert old(PlainRight(c.h, c.child));
    HalvesInARow(c.h, old(PlainPrior(c.child)), key.tokens, c.length);
    HalvesOfNone(c.length, c.h.page);
    if old(c.child.hashValue).Some? {
      assert LastOr(c.child.hashValue.value, None) == LastOr(old(c.child.hashValue).value, None);
      assert p.hashValue.value == Pages(c.h.sha, old(PlainPrior(c.child)), p.key.value.tokens, c.h.page);
      assert c.child.hashValue.value ==
             Pages(c.h.sha, Some(Last(p.hashValue.value)), c.child.key.value.tokens, c.h.page);
    }
    forall n | n in c.tree + {p} ensures PlainRight(c.h, n) {
      if n == p {
        assert PlainPrior(p) == old(PlainPrior(c.child));
      } else {
        assert old(PlainRight(c.h, n));
        if n == c.child {
          assert PlainPrior(n) == if p.hashValue.None? then None else LastOr(p.hashValue.value, None);
        } else {
          assert PlainPrior(n) == old(PlainPrior(n));
        }
      }
    }
  }

  lemma HalvesMakeWhole(hashes: Option<seq<Digest>>, n: nat, page: nat)
    requires page > 0
    ensures var halves := SplitHashes(hashes, n, page);
            && halves.0.Some? == halves.1.Some? == hashes.Some?
            && (hashes.Some? ==> halves.0.value + halves.1.value == hashes.value)
  {
  }

  /** The hashes that a path stores, in a row, stay the same. */
  twostate lemma {:induction false} BlocksStay(c: Cut, new p: TreeNode, new n: TreeNode, new kind: Kind)
    requires Splits(c, p) && n in c.tree
    ensures Stops(n) == old(Stops(n)) && Blocks(c.tree + {p}, n, kind) == old(Blocks(c.tree, n, kind))
    decreases old(n.depth)
  {
    hide SplitHashes;
    if !old(Stops(n)) {
      var above := old(n.parent);
      if above != null {
        BlocksStay(c, p, above, kind);
      }
      if n == c.child {
        ChildBlocks(c, p, kind);
      }
    }
  }

  /** What a node adds to the row. */
  ghost function OwnBlocks(n: TreeNode, kind: Kind): seq<Digest>
    reads n
  {
    if Stored(n, kind).Some? then Stored(n, kind).value else []
  }

  lemma BlocksEnd(tree: set<TreeNode>, n: TreeNode, kind: Kind)
    requires IsTree(tree) && n in tree && !Stops(n)
    ensures Blocks(tree, n, kind) == Blocks(tree, n.parent, kind) + OwnBlocks(n, kind)
  {
  }

  twostate lemma BlocksEnded(tree: set<TreeNode>, new n: TreeNode, new kind: Kind)
    requires n in tree && old(allocated(n)) && old(IsTree(tree)) && !old(Stops(n))
    ensures old(Blocks(tree, n, kind)) == old(Blocks(tree, n.parent, kind)) + old(OwnBlocks(n, kind))
  {
  }

  twostate lemma ChildOwn(c: Cut, new p: TreeNode, new kind: Kind)
    requires Splits(c, p) && !old(Stops(c.child))
    ensures !Stops(p) && !Stops(c.child)
            && OwnBlocks(p, kind) + OwnBlocks(c.child, kind) == old(OwnBlocks(c.child, kind))
  {
    hide SplitHashes, IsTree, Whole;
    HalvesMakeWhole(old(Stored(c.child, kind)), c.length, c.h.page);
  }

  twostate lemma ChildBlocks(c: Cut, new p: TreeNode, new kind: Kind)
    requires Splits(c, p) && !old(Stops(c.child))
    requires Blocks(c.tree + {p}, p.parent, kind) == old(Blocks(c.tree, c.child.parent, kind))
    ensures Stops(c.child) == old(Stops(c.child))
            && Blocks(c.tree + {p}, c.child, kind) == old(Blocks(c.tree, c.child, kind))
  {
    hide SplitHashes, Blocks, Stops, Stored, OwnBlocks;
    ChildOwn(c, p, kind);
    BlocksEnd(c.tree + {p}, p, kind);
    BlocksEnd(c.tree + {p}, c.child, kind);
    BlocksEnded(c.tree, c.child, kind);
    Regrouped(Blocks(c.tree + {p}, p.parent, kind), OwnBlocks(p, kind), OwnBlocks(c.child, kind));
  }

  lemma Regrouped(front: seq<Digest>, first: seq<Digest>, second: seq<Digest>)
    ensures front + first + second == front + (first + second)
  {
  }

  /** Make room between the nodes of a tree. */
  ghost method Spread(tree: set<TreeNode>)
    modifies tree`depth
    ensures forall n :: n in tree ==> n.depth == 2 * old(n.depth) + 1
  {
    forall n | n in tree {
      n.depth := 2 * n.depth + 1;
    }
  }

  /** A new node between `child` and its parent, with the front of the key and of the hashes. */
  method Divide(ghost tree: set<TreeNode>, child: TreeNode, h: Hashing, length: nat) returns (p: TreeNode)
    requires h.page > 0 && IsTree(tree) && child in tree && child.key.Some?
    requires 0 < length < |child.key.value.tokens| && Whole(length, h.page)
    modifies child, tree`depth
    ensures fresh(p) && Splits(Cut(tree, child, h, length), p)
  {
    hide SplitHashes, Whole;
    var key := child.key.value;
    p := new TreeNode(Some(FrontOf(key, length)), child.parent);
    child.key, child.parent := Some(BackOf(key, length)), p;
    var halves := SplitHashes(child.hashValue, length, h.page);
    p.hashValue, child.hashValue := halves.0, halves.1;
    halves := SplitHashes(child.eventHashValue, length, h.page);
    p.eventHashValue, child.eventHashValue := halves.0, halves.1;
    p.depth := 2 * child.depth;
    Spread(tree);
    StillTree(tree, child, p);
  }

  twostate lemma StillTree(new tree: set<TreeNode>, new child: TreeNode, new p: TreeNode)
    requires child in tree && child.parent == p && p !in tree && p.depth + 1 == child.depth
    requires p.parent != null ==> p.parent in tree && p.parent.depth < p.depth
    requires forall n :: n in tree && n != child && n.parent != null ==> n.parent in tree && n.parent.depth < n.depth
    ensures IsTree(tree + {p})
  {
  }

  /** After such a split all memos and hashes that were right are right. */
  method SplitNode(ghost tree: set<TreeNode>, child: TreeNode, h: Hashing, length: nat) returns (p: TreeNode)
    requires h.page > 0 && IsTree(tree) && child in tree && child.key.Some?
    requires 0 < length < |child.key.value.tokens| && Whole(length, h.page)
    modifies child, tree`depth
    ensures fresh(p) && Splits(Cut(tree, child, h, length), p)
    ensures old(Coherent(tree, h)) ==> Coherent(tree + {p}, h)
    ensures old(PlainCoherent(tree, h)) ==> PlainCoherent(tree + {p}, h)
  {
    hide Coherent, PlainCoherent, Splits;
    p := Divide(tree, child, h, length);
    ghost var c := Cut(tree, child, h, length);
    if old(Coherent(tree, h)) {
      SplitKeepsCoherent(c, p);
    }
    if old(PlainCoherent(tree, h)) {
      SplitKeepsPlain(c, p);
    }
  }
}

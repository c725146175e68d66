/** The trie of forbidden words with failure links, as objects updated in place. */
module GlmTrie {
  import opened TrieShape
  import opened FailureLinks

  class TrieNode {
    const id: nat
    var children: map<char, TrieNode>
    var isEnd: bool
    var fail: TrieNode?

    constructor (id: nat)
      ensures this.id == id && children == map[] && !isEnd && fail == null
    {
      this.id := id;
      children, isEnd, fail := map[], false, null;
    }
  }

  /** The children dictionary holds the nodes that `kids` gives by position. */
  ghost predicate MapsTo(nodes: seq<TrieNode>, children: map<char, TrieNode>, kids: map<char, nat>) {
    && children.Keys == kids.Keys
    && forall c :: c in kids ==> kids[c] < |nodes| && children[c] == nodes[kids[c]]
  }

  /** The objects `nodes`, each at the position its id says, have the children dictionaries of `t`. */
  ghost predicate Wired(nodes: seq<TrieNode>, t: Trie)
    reads nodes
  {
    && |nodes| == |t.words| == |t.kids| == |t.ends|
    && (forall i :: 0 <= i < |nodes| ==> nodes[i].id == i && MapsTo(nodes, nodes[i].children, t.kids[i]))
  }

  ghost predicate Marked(nodes: seq<TrieNode>, marks: seq<bool>)
    reads nodes
  {
    |nodes| == |marks| && forall i :: 0 <= i < |nodes| ==> nodes[i].isEnd == marks[i]
  }

  ghost predicate Represents(nodes: seq<TrieNode>, t: Trie)
    reads nodes
  {
    Wired(nodes, t) && Marked(nodes, t.ends)
  }

  ghost predicate Unlinked(nodes: seq<TrieNode>)
    reads nodes
  {
    forall i {:trigger nodes[i].fail} :: 0 <= i < |nodes| ==> nodes[i].fail == null
  }

  /** Failure links are set where `links` says, and are null elsewhere. */
  ghost predicate Linked(nodes: seq<TrieNode>, links: map<nat, nat>)
    reads nodes
  {
    forall i {:trigger nodes[i].fail} :: 0 <= i < |nodes| ==>
      nodes[i].fail == if i in links && links[i] < |nodes| then nodes[links[i]] else null
  }

  ghost function Objects(nodes: seq<TrieNode>): set<TrieNode> {
    set n | n in nodes
  }

  method BuildTrie(patterns: seq<string>) returns (root: TrieNode, nodes: seq<TrieNode>)
    ensures Represents(nodes, Build(patterns)) && Unlinked(nodes)
    ensures forall n :: n in nodes ==> fresh(n)
    ensures root == nodes[0]
  {
    root := new TrieNode(0);
    nodes := [root];
    for k := 0 to |patterns|
      invariant |nodes| > 0 && root == nodes[0]
      invariant Represents(nodes, Build(patterns[..k])) && Unlinked(nodes)
      invariant forall n :: n in nodes ==> fresh(n)
    {
      assert patterns[..k + 1][..k] == patterns[..k];
      nodes := InsertPattern(root, nodes, patterns[k], Build(patterns[..k]));
    }
    assert patterns[..|patterns|] == patterns;
  }

  method InsertPattern(root: TrieNode, nodes: seq<TrieNode>, pattern: string, ghost t: Trie)
      returns (nodes': seq<TrieNode>)
    requires Valid(t) && Represents(nodes, t) && Unlinked(nodes) && root == nodes[0]
    modifies Objects(nodes)
    ensures Represents(nodes', InsertFrom(t, 0, pattern)) && Unlinked(nodes')
    ensures |nodes'| > 0 && nodes'[0] == root
    ensures forall n :: n in nodes' ==> n in nodes || fresh(n)
  {
    hide Wired, Marked, Unlinked, InsertFrom;
    nodes' := nodes;
    var node := root;
    ghost var u := t;
    assert pattern[0..] == pattern;
    RootAt(nodes, t);
    for k := 0 to |pattern|
      invariant |nodes'| > 0 && nodes'[0] == root
      invariant forall n :: n in nodes' ==> n in nodes || fresh(n)
      invariant Valid(u) && Represents(nodes', u) && Unlinked(nodes')
      invariant node in nodes' && node.id < |u.words|
      invariant InsertFrom(u, node.id, pattern[k..]) == InsertFrom(t, 0, pattern)
    {
      var c := pattern[k];
      assert pattern[k..][1..] == pattern[k + 1..];
      node, nodes', u := Descend(node, c, nodes', u, pattern[k..]);
    }
    assert pattern[|pattern|..] == "";
    InsertNothing(u, node.id);
    MarkEnd(node, nodes', u);
  }

  lemma RootAt(nodes: seq<TrieNode>, t: Trie)
    requires Valid(t) && Represents(nodes, t)
    ensures |nodes| > 0 && nodes[0].id == 0 < |t.words|
  {
  }

  lemma InsertNothing(t: Trie, i: nat)
    requires Valid(t) && i < |t.words|
    ensures InsertFrom(t, i, "") == t.(ends := t.ends[i := true])
  {
  }

  method MarkEnd(node: TrieNode, nodes: seq<TrieNode>, ghost t: Trie)
    requires Represents(nodes, t) && Unlinked(nodes) && node in nodes && node.id < |t.ends|
    modifies node`isEnd
    ensures Represents(nodes, t.(ends := t.ends[node.id := true])) && Unlinked(nodes)
  {
    hide MapsTo;
    node.isEnd := true;
  }

  /** Step from `node` to its `c` child, which is made first where it is missing. */
  method Descend(node: TrieNode, c: char, nodes: seq<TrieNode>, ghost t: Trie, ghost p: string)
      returns (child: TrieNode, nodes': seq<TrieNode>, ghost t': Trie)
    requires Valid(t) && Represents(nodes, t) && Unlinked(nodes) && node in nodes
    requires p != "" && p[0] == c
    modifies node`children
    ensures nodes' == nodes || (nodes' == nodes + [child] && fresh(child))
    ensures Valid(t') && Represents(nodes', t') && Unlinked(nodes') && child in nodes' && child.id < |t'.words|
    ensures node.id < |t.words| && InsertFrom(t, node.id, p) == InsertFrom(t', child.id, p[1..])
  {
    hide Represents, Unlinked, InsertFrom, AddLeaf;
    nodes', t' := nodes, t;
    ChildrenAt(nodes, t, node);
    if c !in node.children {
      AddLeafValid(t, node.id, c);
      LeafInserts(t, node.id, p);
      child := AddChild(node, c, nodes, t);
      nodes' := nodes + [child];
      t' := AddLeaf(t, node.id, c);
      ChildrenAt(nodes', t', node);
    }
    ChildInserts(t', node.id, p);
    child := node.children[c];
  }

  lemma ChildrenAt(nodes: seq<TrieNode>, t: Trie, node: TrieNode)
    requires Represents(nodes, t) && node in nodes
    ensures node.id < |t.words| == |t.kids| && node.children.Keys == t.kids[node.id].Keys
    ensures forall c :: c in node.children ==> node.children[c] in nodes && node.children[c].id == t.kids[node.id][c]
  {
  }

  lemma LeafInserts(t: Trie, i: nat, p: string)
    requires Valid(t) && i < |t.words| && p != "" && p[0] !in t.kids[i] && Valid(AddLeaf(t, i, p[0]))
    ensures i < |AddLeaf(t, i, p[0]).words| && p[0] in AddLeaf(t, i, p[0]).kids[i]
    ensures InsertFrom(t, i, p) == InsertFrom(AddLeaf(t, i, p[0]), i, p)
  {
  }

  lemma ChildInserts(t: Trie, i: nat, p: string)
    requires Valid(t) && i < |t.words| && p != "" && p[0] in t.kids[i]
    ensures t.kids[i][p[0]] < |t.words| && InsertFrom(t, i, p) == InsertFrom(t, t.kids[i][p[0]], p[1..])
  {
  }

  /** One node more: the old dictionaries are right as before, and so are an empty one and one with
      the new node in it. */
  lemma MapsToMore(nodes: seq<TrieNode>, child: TrieNode, was: map<char, TrieNode>, kids: map<char, nat>, c: char)
    requires MapsTo(nodes, was, kids)
    ensures forall children, kids :: MapsTo(nodes, children, kids) ==> MapsTo(nodes + [child], children, kids)
    ensures MapsTo(nodes + [child], was[c := child], kids[c := |nodes|])
    ensures MapsTo(nodes + [child], map[], map[])
  {
  }

  /** Hang a fresh node below `node` for the character `c`. */
  method AddChild(node: TrieNode, c: char, nodes: seq<TrieNode>, ghost t: Trie)
      returns (child: TrieNode)
    requires Represents(nodes, t) && node in nodes && c !in node.children
    modifies node`children
    ensures fresh(child) && node.children == old(node.children)[c := child]
    ensures Represents(nodes + [child], AddLeaf(t, node.id, c))
    ensures old(Unlinked(nodes)) ==> Unlinked(nodes + [child])
  {
    hide MapsTo;
    child := new TrieNode(|nodes|);
    MapsToMore(nodes, child, node.children, t.kids[node.id], c);
    node.children := node.children[c := child];
  }

  ghost predicate QueueIs(queue: seq<TrieNode>, nodes: seq<TrieNode>, q: seq<nat>) {
    |queue| == |q| && forall k :: 0 <= k < |q| ==> q[k] < |nodes| && queue[k] == nodes[q[k]]
  }

  /** The objects are in the state `b` of the breadth-first computation. */
  ghost predicate Holds(nodes: seq<TrieNode>, t: Trie, b: Bfs)
    reads nodes
  {
    Inv(t, b) && Wired(nodes, t) && Marked(nodes, b.marks) && Linked(nodes, b.links)
  }

  /** The failure node for the `c` child of `node`. */
  method FailTarget(node: TrieNode, c: char, root: TrieNode, nodes: seq<TrieNode>, ghost t: Trie,
                    ghost links: map<nat, nat>, ghost bound: nat)
      returns (target: TrieNode)
    requires Wired(nodes, t) && Linked(nodes, links) && Shrinking(t, links, bound)
    requires node in nodes && |nodes| > 0 && root == nodes[0] && c in node.children
    requires node.id != 0 && Len(t, node.id) < bound
    requires Chase(t, links, bound, links[node.id], c) != t.kids[node.id][c]
    ensures Chase(t, links, bound, links[node.id], c) < |nodes|
    ensures target == nodes[Chase(t, links, bound, links[node.id], c)]
  {
    var child := node.children[c];
    var failNode := node.fail;
    ghost var i: nat := links[node.id];
    while failNode != root && c !in failNode.children
      invariant i < |nodes| && failNode == nodes[i] && Len(t, i) < bound
      invariant Chase(t, links, bound, i, c) == Chase(t, links, bound, links[node.id], c)
      decreases Len(t, i)
    {
      assert i in links;
      i := links[i];
      failNode := failNode.fail;
    }
    if c in failNode.children && failNode.children[c] != child {
      target := failNode.children[c];
    } else {
      target := root;
    }
  }

  method GetTransition(node: TrieNode, c: char, root: TrieNode, nodes: seq<TrieNode>, ghost t: Trie,
                       ghost links: map<nat, nat>, ghost bound: nat)
      returns (target: TrieNode)
    requires Wired(nodes, t) && Linked(nodes, links) && Shrinking(t, links, bound)
    requires node in nodes && |nodes| > 0 && root == nodes[0] && Len(t, node.id) < bound
    ensures Chase(t, links, bound, node.id, c) < |nodes|
    ensures target == nodes[Chase(t, links, bound, node.id, c)]
  {
    var current := node;
    while true
      invariant current in nodes && Len(t, current.id) < bound
      invariant Chase(t, links, bound, current.id, c) == Chase(t, links, bound, node.id, c)
      decreases Len(t, current.id)
    {
      if c in current.children {
        return current.children[c];
      }
      if current == root {
        return root;
      }
      current := current.fail;
    }
  }

  /** Set every failure link, breadth first, and pass end marks along the links. */
  method LinkFailures(root: TrieNode, nodes: seq<TrieNode>, ghost t: Trie) returns (ghost b: Bfs)
    requires Valid(t) && "" !in EndWords(t)
    requires Represents(nodes, t) && Unlinked(nodes) && root == nodes[0]
    modifies Objects(nodes)
    ensures Holds(nodes, t, b) && b.queue == [] && b.todo == {}
  {
    hide Inv, Valid, EndWords, Linked, Marked, Pop, Represents, Unlinked, Start;
    var queue;
    b := LinkRoot(root, nodes, t);
    queue, b := LinkRootChildren(root, nodes, t, b);
    while queue != []
      invariant Holds(nodes, t, b) && QueueIs(queue, nodes, b.queue) && b.todo == {}
      decreases Unfinished(t, b)
    {
      InvRanged(t, b);
      PopInv(t, b);
      PopFinishes(t, b);
      var node := queue[0];
      queue := queue[1..];
      b := Pop(t, b);
      queue, b := ExpandNode(node, queue, root, nodes, t, b);
    }
  }

  /** The children of the root link to the root, and start the queue. */
  method LinkRootChildren(root: TrieNode, nodes: seq<TrieNode>, ghost t: Trie, ghost b: Bfs)
      returns (queue: seq<TrieNode>, ghost b': Bfs)
    requires Holds(nodes, t, b) && Ranged(t, b) && b.queue == [] && root == nodes[0]
    requires b.front == 0 && b.todo == t.kids[0].Keys
    modifies Objects(nodes)
    ensures Holds(nodes, t, b') && QueueIs(queue, nodes, b'.queue) && b'.todo == {}
  {
    hide Inv, Linked, Marked, LinkChild, QueueIs;
    queue, b' := [], b;
    NothingQueued(nodes);
    var todo := root.children.Keys;
    while todo != {}
      invariant Holds(nodes, t, b') && QueueIs(queue, nodes, b'.queue)
      invariant b'.front == 0 && b'.todo == todo
    {
      InvRanged(t, b');
      var c :| c in todo;
      LinkRootChild(root, c, nodes, t, b');
      QueueGrows(queue, nodes, b'.queue, t, 0, c);
      queue := queue + [root.children[c]];
      LinkChildQueues(t, b', c, 0);
      b' := LinkChild(t, b', c, 0);
      todo := todo - {c};
    }
  }

  lemma NothingQueued(nodes: seq<TrieNode>)
    ensures QueueIs([], nodes, [])
  {
  }

  method LinkRoot(root: TrieNode, nodes: seq<TrieNode>, ghost t: Trie) returns (ghost b: Bfs)
    requires Valid(t) && "" !in EndWords(t)
    requires Represents(nodes, t) && Unlinked(nodes) && root == nodes[0]
    modifies Objects(nodes)
    ensures Holds(nodes, t, b) && Ranged(t, b) && b.queue == []
    ensures b.front == 0 && b.todo == t.kids[0].Keys
  {
    b := Start(t);
    StartInv(t);
    InvRanged(t, b);
    assert Linked(nodes, map[]);
    hide Inv, Valid, EndWords, Linked, Unlinked, Marked;
    PointTo(nodes, root, root, t, b.marks, map[]);
  }

  /** Point the link of `child` at `target`. */
  method PointTo(nodes: seq<TrieNode>, child: TrieNode, target: TrieNode, ghost t: Trie, ghost marks: seq<bool>,
                 ghost links: map<nat, nat>)
    requires Wired(nodes, t) && Marked(nodes, marks) && Linked(nodes, links)
    requires child in nodes && target in nodes
    modifies child`fail
    ensures Wired(nodes, t) && Marked(nodes, marks)
    ensures child.fail == target
    ensures Linked(nodes, links[child.id := target.id])
  {
    child.fail := target;
  }

  method LinkRootChild(root: TrieNode, c: char, nodes: seq<TrieNode>, ghost t: Trie, ghost b: Bfs)
    requires Holds(nodes, t, b) && Ranged(t, b) && root == nodes[0] && b.front == 0 && c in b.todo
    modifies Objects(nodes)
    ensures Holds(nodes, t, LinkChild(t, b, c, 0))
  {
    RootChildLink(t, b, c);
    hide Inv, Linked;
    PointTo(nodes, root.children[c], root, t, b.marks, b.links);
    assert LinkChild(t, b, c, 0).marks == b.marks;
  }

  lemma QueueGrows(queue: seq<TrieNode>, nodes: seq<TrieNode>, q: seq<nat>, t: Trie, i: nat, c: char)
    requires Wired(nodes, t) && QueueIs(queue, nodes, q) && i < |nodes| && c in t.kids[i]
    ensures c in nodes[i].children && t.kids[i][c] < |nodes|
    ensures QueueIs(queue + [nodes[i].children[c]], nodes, q + [t.kids[i][c]])
  {
  }

  /** Link the children of `node` and queue them. */
  method ExpandNode(node: TrieNode, queue: seq<TrieNode>, root: TrieNode, nodes: seq<TrieNode>, ghost t: Trie,
                    ghost b: Bfs)
      returns (queue': seq<TrieNode>, ghost b': Bfs)
    requires Holds(nodes, t, b) && Ranged(t, b) && QueueIs(queue, nodes, b.queue) && root == nodes[0]
    requires node == nodes[b.front] && b.front != 0 && b.todo == t.kids[b.front].Keys
    modifies Objects(nodes)
    ensures Holds(nodes, t, b') && QueueIs(queue', nodes, b'.queue)
    ensures b'.todo == {} && b'.done == b.done && b'.front == b.front
  {
    hide Inv, Shrinking, Chase, Linked, Marked, LinkChild, QueueIs;
    queue', b' := queue, b;
    var todo := node.children.Keys;
    while todo != {}
      invariant Holds(nodes, t, b') && QueueIs(queue', nodes, b'.queue)
      invariant b'.front == b.front && b'.done == b.done && b'.todo == todo
    {
      InvRanged(t, b');
      var c :| c in todo;
      ghost var r := LinkTarget(t, b', c);
      LinkOne(node, c, root, nodes, t, b', r);
      LinkChildQueues(t, b', c, r);
      QueueGrows(queue', nodes, b'.queue, t, b.front, c);
      queue' := queue' + [node.children[c]];
      b' := LinkChild(t, b', c, r);
      todo := todo - {c};
    }
  }

  /** Point the link of `child` at `target`, and take over its end mark. */
  method SetLink(nodes: seq<TrieNode>, child: TrieNode, target: TrieNode, ghost t: Trie, ghost marks: seq<bool>,
                 ghost links: map<nat, nat>)
    requires Wired(nodes, t) && Marked(nodes, marks) && Linked(nodes, links)
    requires child in nodes && target in nodes
    modifies child`fail, child`isEnd
    ensures Wired(nodes, t)
    ensures Marked(nodes, marks[child.id := marks[child.id] || marks[target.id]])
    ensures Linked(nodes, links[child.id := target.id])
  {
    PointTo(nodes, child, target, t, marks, links);
    if child.fail.isEnd {
      child.isEnd := true;
    }
  }

  /** Link one child of the node in front. */
  method LinkOne(node: TrieNode, c: char, root: TrieNode, nodes: seq<TrieNode>, ghost t: Trie, ghost b: Bfs,
                 ghost r: nat)
    requires Wired(nodes, t) && Marked(nodes, b.marks) && Linked(nodes, b.links) && Ranged(t, b)
    requires root == nodes[0] && node == nodes[b.front] && b.front != 0 && c in b.todo && LinkedTo(t, b, c, r)
    modifies Objects(nodes)
    ensures var b' := LinkChild(t, b, c, r);
              Wired(nodes, t) && Marked(nodes, b'.marks) && Linked(nodes, b'.links)
  {
    hide Shrinking, Chase, Linked, Marked;
    assert node.id == b.front;
    var target := FailTarget(node, c, root, nodes, t, b.links, Len(t, b.front) + 1);
    SetLink(nodes, node.children[c], target, t, b.marks, b.links);
  }
}

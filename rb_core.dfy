/**
 * The red-black engine shared by the plain red-black tree and the interval
 * tree, modelled over an arena.
 *
 * A tree is a sequence of node records `nodes`; a node is named by its index
 * and a link is an index. Index 0 is the shared black sentinel that stands
 * for every missing child and for the parent of the root. Nodes are never
 * freed: a deleted node simply stops being reachable from the root.
 *
 * The proofs keep two pieces of ghost bookkeeping beside the arena:
 *   S[i]  the set of indices in the subtree rooted at i (its footprint);
 *   bh[i] the number of black nodes on any path from i down to the sentinel,
 *         i itself excluded and the sentinel included.
 * Every invariant below is a local condition on one live node; the live
 * nodes are the footprint of the root, S[root].
 */
module RbCore {

  datatype Color = Red | Black

  datatype Node<K, P> = Node(key: K, color: Color, left: nat, right: nat, parent: nat, payload: P)

  /** The index of the sentinel. */
  const Nil: nat := 0

  /** An irreflexive, transitive relation. */
  ghost predicate StrictOrder<T(!new)>(lt: (T, T) -> bool) {
    (forall a :: !lt(a, a)) &&
    (forall a, b, c :: lt(a, b) && lt(b, c) ==> lt(a, c))
  }

  /** The key order that the source's `Less` must be. */
  ghost predicate StrictTotalOrder<K(!new)>(lt: (K, K) -> bool) {
    StrictOrder(lt) && (forall a, b :: a != b ==> lt(a, b) || lt(b, a))
  }

  // ---------------------------------------------------------------------
  // Shape: parent/child links agree and footprints describe a forest.
  // ---------------------------------------------------------------------

  /** Every footprint names real, non-sentinel slots of an arena of n nodes. */
  ghost predicate Bounded(n: nat, S: seq<set<nat>>) {
    |S| == n && forall j, m :: 0 <= j < |S| && m in S[j] ==> 0 < m < n
  }

  /** Every link of every node stays inside the arena. */
  ghost predicate InArena<K, P>(nodes: seq<Node<K, P>>) {
    forall j :: 0 <= j < |nodes| ==>
      nodes[j].left < |nodes| && nodes[j].right < |nodes| && nodes[j].parent < |nodes|
  }

  /** The local shape condition at live node i. */
  ghost predicate Linked<K, P>(nodes: seq<Node<K, P>>, S: seq<set<nat>>, i: nat)
    requires |S| == |nodes| && i < |nodes|
  {
    var l, r := nodes[i].left, nodes[i].right;
    l < |nodes| && r < |nodes| &&
    S[i] == S[l] + {i} + S[r] && i !in S[l] && i !in S[r] && S[l] !! S[r] &&
    (l == Nil || (l in S[l] && nodes[l].parent == i)) &&
    (r == Nil || (r in S[r] && nodes[r].parent == i))
  }

  /** The arena holds a binary tree rooted at `root`, with consistent parent links. */
  ghost predicate Shaped<K, P>(nodes: seq<Node<K, P>>, S: seq<set<nat>>, root: nat) {
    0 < |nodes| && InArena(nodes) && Bounded(|nodes|, S) && root < |nodes| && S[Nil] == {} &&
    (root == Nil || (root in S[root] && nodes[root].parent == Nil)) &&
    forall i {:trigger Linked(nodes, S, i)} :: i in S[root] ==> Linked(nodes, S, i) && S[i] <= S[root]
  }

  // ---------------------------------------------------------------------
  // Search-tree order.
  // ---------------------------------------------------------------------

  /** Keys left of a node are smaller, keys right of it are larger. */
  ghost predicate OrderedAt<K, P>(nodes: seq<Node<K, P>>, S: seq<set<nat>>, lt: (K, K) -> bool, i: nat)
    requires Bounded(|nodes|, S) && InArena(nodes) && i < |nodes|
  {
    (forall n {:trigger n in S[nodes[i].left]} :: n in S[nodes[i].left] ==> lt(nodes[n].key, nodes[i].key)) &&
    (forall n {:trigger n in S[nodes[i].right]} :: n in S[nodes[i].right] ==> lt(nodes[i].key, nodes[n].key))
  }

  ghost predicate Ordered<K, P>(nodes: seq<Node<K, P>>, S: seq<set<nat>>, root: nat, lt: (K, K) -> bool)
    requires Shaped(nodes, S, root)
  {
    forall i {:trigger OrderedAt(nodes, S, lt, i)} :: i in S[root] ==> OrderedAt(nodes, S, lt, i)
  }

  // ---------------------------------------------------------------------
  // Colouring and black height.
  // ---------------------------------------------------------------------

  predicate IsBlack<K, P>(nodes: seq<Node<K, P>>, i: nat)
    requires i < |nodes|
  {
    nodes[i].color == Black
  }

  /** A red node has black children. */
  ghost predicate RedOk<K, P>(nodes: seq<Node<K, P>>, i: nat)
    requires InArena(nodes) && i < |nodes|
  {
    nodes[i].color == Red ==> IsBlack(nodes, nodes[i].left) && IsBlack(nodes, nodes[i].right)
  }

  /** The black height seen from above a child c: bh[c], plus one if c is black. */
  ghost function Side<K, P>(nodes: seq<Node<K, P>>, bh: seq<nat>, c: nat): nat
    requires c < |nodes| && c < |bh|
  {
    bh[c] + if nodes[c].color == Black then 1 else 0
  }

  /** Both children of i see the same black height, recorded in bh[i]. */
  ghost predicate BhOk<K, P>(nodes: seq<Node<K, P>>, bh: seq<nat>, i: nat)
    requires |bh| == |nodes| && InArena(nodes) && i < |nodes|
  {
    bh[i] == Side(nodes, bh, nodes[i].left) && bh[i] == Side(nodes, bh, nodes[i].right)
  }

  /** The red-black colour rules: sentinel and root black, no red node with a red child. */
  ghost predicate Coloured<K, P>(nodes: seq<Node<K, P>>, S: seq<set<nat>>, root: nat)
    requires Shaped(nodes, S, root)
  {
    IsBlack(nodes, Nil) && IsBlack(nodes, root) &&
    forall i {:trigger RedOk(nodes, i)} :: i in S[root] ==> RedOk(nodes, i)
  }

  /** Every path from a node down to the sentinel meets the same number of black nodes. */
  ghost predicate Balanced<K, P>(nodes: seq<Node<K, P>>, S: seq<set<nat>>, bh: seq<nat>, root: nat)
    requires Shaped(nodes, S, root)
  {
    |bh| == |nodes| && bh[Nil] == 0 &&
    forall i {:trigger BhOk(nodes, bh, i)} :: i in S[root] ==> BhOk(nodes, bh, i)
  }

  // ---------------------------------------------------------------------
  // Abstract contents.
  // ---------------------------------------------------------------------

  /** The live nodes hold exactly the entries of M, one node per key. */
  ghost predicate Abstracts<K, P>(nodes: seq<Node<K, P>>, S: seq<set<nat>>, root: nat, M: map<K, P>)
    requires Bounded(|nodes|, S) && root < |nodes|
  {
    (forall n {:trigger nodes[n]} :: n in S[root] ==> nodes[n].key in M && M[nodes[n].key] == nodes[n].payload) &&
    (forall k :: k in M ==> exists n :: n in S[root] && nodes[n].key == k)
  }

  /** All the invariants of a red-black tree between operations. */
  ghost predicate RbValid<K, P>(nodes: seq<Node<K, P>>, S: seq<set<nat>>, bh: seq<nat>, root: nat,
                                lt: (K, K) -> bool, M: map<K, P>)
  {
    Shaped(nodes, S, root) && Ordered(nodes, S, root, lt) && Coloured(nodes, S, root) &&
    Balanced(nodes, S, bh, root) && Abstracts(nodes, S, root, M)
  }

  // ---------------------------------------------------------------------
  // Facts about the shape.
  // ---------------------------------------------------------------------

  /** A child of a live node is the sentinel or live, and its footprint is inside its parent's. */
  lemma ChildLive<K, P>(nodes: seq<Node<K, P>>, S: seq<set<nat>>, root: nat, i: nat)
    requires Shaped(nodes, S, root) && i in S[root]
    ensures Linked(nodes, S, i) && S[i] <= S[root]
    ensures nodes[i].left == Nil || nodes[i].left in S[root]
    ensures nodes[i].right == Nil || nodes[i].right in S[root]
    ensures S[nodes[i].left] < S[i] && S[nodes[i].right] < S[i]
  {
    assert Linked(nodes, S, i);
  }

  /** A node strictly inside the subtree of j has its parent inside it too, and is that parent's child. */
  lemma {:induction false} ParentInside<K, P>(nodes: seq<Node<K, P>>, S: seq<set<nat>>, root: nat, j: nat, x: nat)
    requires Shaped(nodes, S, root) && j in S[root] && x in S[j] && x != j
    ensures nodes[x].parent in S[j]
    ensures nodes[nodes[x].parent].left == x || nodes[nodes[x].parent].right == x
    decreases S[j]
  {
    var l, r := nodes[j].left, nodes[j].right;
    ChildLive(nodes, S, root, j);
    if x == l || x == r {
    } else if x in S[l] {
      ParentInside(nodes, S, root, l, x);
    } else {
      ParentInside(nodes, S, root, r, x);
    }
  }

  /** Every live node other than the root hangs below a live parent. */
  lemma ParentLive<K, P>(nodes: seq<Node<K, P>>, S: seq<set<nat>>, root: nat, x: nat)
    requires Shaped(nodes, S, root) && x in S[root] && x != root
    ensures nodes[x].parent in S[root]
    ensures nodes[nodes[x].parent].left == x || nodes[nodes[x].parent].right == x
    ensures S[x] < S[nodes[x].parent]
  {
    ParentInside(nodes, S, root, root, x);
    ChildLive(nodes, S, root, nodes[x].parent);
  }

  /** Footprints nest: a node inside the subtree of j has its whole subtree inside it. */
  lemma {:induction false} SubtreeWithin<K, P>(nodes: seq<Node<K, P>>, S: seq<set<nat>>, root: nat, j: nat, x: nat)
    requires Shaped(nodes, S, root) && j in S[root] && x in S[j]
    ensures S[x] <= S[j]
    decreases S[j]
  {
    var l, r := nodes[j].left, nodes[j].right;
    ChildLive(nodes, S, root, j);
    if x == j {
    } else if x in S[l] {
      SubtreeWithin(nodes, S, root, l, x);
    } else {
      SubtreeWithin(nodes, S, root, r, x);
    }
  }

  /** Two footprints are nested or disjoint. */
  lemma {:induction false} NestedOrDisjoint<K, P>(nodes: seq<Node<K, P>>, S: seq<set<nat>>, root: nat, j: nat, a: nat, b: nat)
    requires Shaped(nodes, S, root) && j in S[root] && a in S[j] && b in S[j]
    ensures S[a] <= S[b] || S[b] <= S[a] || S[a] !! S[b]
    decreases S[j]
  {
    var l, r := nodes[j].left, nodes[j].right;
    ChildLive(nodes, S, root, j);
    SubtreeWithin(nodes, S, root, j, a);
    SubtreeWithin(nodes, S, root, j, b);
    if a == j || b == j {
    } else if a in S[l] && b in S[l] {
      NestedOrDisjoint(nodes, S, root, l, a, b);
    } else if a in S[r] && b in S[r] {
      NestedOrDisjoint(nodes, S, root, r, a, b);
    } else if a in S[l] {
      SubtreeWithin(nodes, S, root, l, a);
      SubtreeWithin(nodes, S, root, r, b);
    } else {
      SubtreeWithin(nodes, S, root, r, a);
      SubtreeWithin(nodes, S, root, l, b);
    }
  }

  /** b differs from a in colours at most. */
  ghost predicate Recoloured<K, P>(a: seq<Node<K, P>>, b: seq<Node<K, P>>) {
    |a| == |b| && forall i :: 0 <= i < |a| ==> b[i] == a[i].(color := b[i].color)
  }

  lemma RecolouredInArena<K, P>(a: seq<Node<K, P>>, b: seq<Node<K, P>>)
    requires InArena(a) && Recoloured(a, b)
    ensures InArena(b)
  {
    forall j | 0 <= j < |b| ensures b[j].left < |b| && b[j].right < |b| && b[j].parent < |b| {
      assert b[j] == a[j].(color := b[j].color);
    }
  }

  /** Painting one node changes colours only. */
  lemma PaintOnly<K, P>(a: seq<Node<K, P>>, n: nat, c: Color)
    requires InArena(a) && n < |a|
    ensures Recoloured(a, a[n := a[n].(color := c)]) && InArena(a[n := a[n].(color := c)])
  {
    RecolouredInArena(a, a[n := a[n].(color := c)]);
  }

  /** Recolouring keeps the shape. */
  lemma RecolourShaped<K, P>(a: seq<Node<K, P>>, S: seq<set<nat>>, root: nat, b: seq<Node<K, P>>)
    requires Shaped(a, S, root) && Recoloured(a, b)
    ensures Shaped(b, S, root)
  {
    assert InArena(b);
    forall i | i in S[root] ensures Linked(b, S, i) && S[i] <= S[root] {
      ChildLive(a, S, root, i);
    }
  }

  /** Recolouring keeps the order. */
  lemma RecolourOrdered<K, P>(a: seq<Node<K, P>>, S: seq<set<nat>>, root: nat, lt: (K, K) -> bool, b: seq<Node<K, P>>)
    requires Shaped(a, S, root) && Recoloured(a, b) && Ordered(a, S, root, lt)
    ensures Shaped(b, S, root) && Ordered(b, S, root, lt)
  {
    RecolourShaped(a, S, root, b);
    forall i | i in S[root] ensures OrderedAt(b, S, lt, i) {
      assert OrderedAt(a, S, lt, i);
    }
  }

  /** Recolouring keeps the contents. */
  lemma RecolourAbstracts<K, P>(a: seq<Node<K, P>>, S: seq<set<nat>>, root: nat, M: map<K, P>, b: seq<Node<K, P>>)
    requires Bounded(|a|, S) && root < |a| && Recoloured(a, b) && Abstracts(a, S, root, M)
    ensures Abstracts(b, S, root, M)
  {
    forall n | n in S[root] ensures b[n].key in M && M[b[n].key] == b[n].payload {
      assert b[n].key == a[n].key && b[n].payload == a[n].payload;
    }
    forall k | k in M ensures exists n :: n in S[root] && b[n].key == k {
      var n :| n in S[root] && a[n].key == k;
      assert b[n].key == k;
    }
  }

  /** The root is nobody's child. */
  lemma RootOrphan<K, P>(nodes: seq<Node<K, P>>, S: seq<set<nat>>, root: nat, i: nat)
    requires Shaped(nodes, S, root) && i in S[root] && root != Nil
    ensures nodes[i].left != root && nodes[i].right != root
  {
    ChildLive(nodes, S, root, i);
  }

  /** A node is the child of its parent only. */
  lemma OnlyParent<K, P>(nodes: seq<Node<K, P>>, S: seq<set<nat>>, root: nat, i: nat, c: nat)
    requires Shaped(nodes, S, root) && i in S[root] && c != Nil
    requires nodes[i].left == c || nodes[i].right == c
    ensures nodes[c].parent == i && c in S[root] && S[c] < S[i]
  {
    ChildLive(nodes, S, root, i);
  }

  /** A footprint made of two disjoint footprints and one more node counts them all. */
  lemma SplitSize(A: set<nat>, B: set<nat>, i: nat)
    requires A !! B && i !in A && i !in B
    ensures |A + {i} + B| == |A| + 1 + |B|
  {
    assert (A + {i}) !! B;
  }
}

/**
 * The read-only queries over the arena, as specification functions with
 * their meaning proved: the leftmost and rightmost node of a subtree are its
 * least and greatest key, the search descent finds a key exactly when it is
 * stored, the in-order successor is the next larger key, and the height of a
 * red-black tree is logarithmic in its size.
 */
module RbQuery {
  import opened RbCore
  import opened RbOrder

  // ---------------------------------------------------------------------
  // Leftmost and rightmost nodes.
  // ---------------------------------------------------------------------

  /** The node reached from i by following left links to the end. */
  ghost function LeftMost<K, P>(nodes: seq<Node<K, P>>, S: seq<set<nat>>, root: nat, i: nat): (m: nat)
    requires Shaped(nodes, S, root) && i in S[root]
    ensures m in S[i] && nodes[m].left == Nil
    decreases S[i]
  {
    ChildLive(nodes, S, root, i);
    if nodes[i].left == Nil then i else LeftMost(nodes, S, root, nodes[i].left)
  }

  /** The node reached from i by following right links to the end. */
  ghost function RightMost<K, P>(nodes: seq<Node<K, P>>, S: seq<set<nat>>, root: nat, i: nat): (m: nat)
    requires Shaped(nodes, S, root) && i in S[root]
    ensures m in S[i] && nodes[m].right == Nil
    decreases S[i]
  {
    ChildLive(nodes, S, root, i);
    if nodes[i].right == Nil then i else RightMost(nodes, S, root, nodes[i].right)
  }

  /**
   * The leftmost node of a subtree lies in it, has no left child, carries the
   * least key of the subtree and, unless it is i itself, is the left child
   * of a parent inside the subtree.
   */
  lemma {:induction false} LeftMostLeast<K(!new), P>(nodes: seq<Node<K, P>>, S: seq<set<nat>>, root: nat,
                                                  lt: (K, K) -> bool, i: nat)
    requires Shaped(nodes, S, root) && Ordered(nodes, S, root, lt) && StrictOrder(lt) && i in S[root]
    ensures var m := LeftMost(nodes, S, root, i);
      m in S[i] && nodes[m].left == Nil &&
      (forall n :: n in S[i] && n != m ==> lt(nodes[m].key, nodes[n].key)) &&
      (m != i ==> nodes[m].parent in S[i] && nodes[nodes[m].parent].left == m)
    decreases S[i]
  {
    ChildLive(nodes, S, root, i);
    assert OrderedAt(nodes, S, lt, i);
    var l := nodes[i].left;
    if l != Nil {
      LeftMostLeast(nodes, S, root, lt, l);
      var m := LeftMost(nodes, S, root, l);
      assert m == LeftMost(nodes, S, root, i);
      forall n | n in S[i] && n != m ensures lt(nodes[m].key, nodes[n].key) {
        if n !in S[l] {
          assert lt(nodes[m].key, nodes[i].key);
          if n != i {
            assert lt(nodes[i].key, nodes[n].key);
          }
        }
      }
      if m == l {
        assert nodes[l].parent == i;
      }
    }
  }

  /** The mirror image: the rightmost node carries the greatest key. */
  lemma {:induction false} RightMostGreatest<K(!new), P>(nodes: seq<Node<K, P>>, S: seq<set<nat>>, root: nat,
                                                      lt: (K, K) -> bool, i: nat)
    requires Shaped(nodes, S, root) && Ordered(nodes, S, root, lt) && StrictOrder(lt) && i in S[root]
    ensures var m := RightMost(nodes, S, root, i);
      m in S[i] && nodes[m].right == Nil &&
      (forall n :: n in S[i] && n != m ==> lt(nodes[n].key, nodes[m].key)) &&
      (m != i ==> nodes[m].parent in S[i] && nodes[nodes[m].parent].right == m)
    decreases S[i]
  {
    ChildLive(nodes, S, root, i);
    assert OrderedAt(nodes, S, lt, i);
    var r := nodes[i].right;
    if r != Nil {
      RightMostGreatest(nodes, S, root, lt, r);
      var m := RightMost(nodes, S, root, r);
      assert m == RightMost(nodes, S, root, i);
      forall n | n in S[i] && n != m ensures lt(nodes[n].key, nodes[m].key) {
        if n !in S[r] {
          assert lt(nodes[i].key, nodes[m].key);
          if n != i {
            assert lt(nodes[n].key, nodes[i].key);
          }
        }
      }
      if m == r {
        assert nodes[r].parent == i;
      }
    }
  }

  /** The least key of a map, for a map whose keys are strictly ordered. */
  ghost predicate IsLeastKey<K, P>(M: map<K, P>, lt: (K, K) -> bool, k: K) {
    k in M && forall k' :: k' in M && k' != k ==> lt(k, k')
  }

  ghost predicate IsGreatestKey<K, P>(M: map<K, P>, lt: (K, K) -> bool, k: K) {
    k in M && forall k' :: k' in M && k' != k ==> lt(k', k)
  }

  /** In a non-empty tree, the leftmost node holds the least stored key and the rightmost the greatest. */
  lemma ExtremesOfContents<K(!new), P>(nodes: seq<Node<K, P>>, S: seq<set<nat>>, root: nat,
                                       lt: (K, K) -> bool, M: map<K, P>)
    requires Shaped(nodes, S, root) && Ordered(nodes, S, root, lt) && StrictOrder(lt)
    requires Abstracts(nodes, S, root, M) && root != Nil
    ensures IsLeastKey(M, lt, nodes[LeftMost(nodes, S, root, root)].key)
    ensures IsGreatestKey(M, lt, nodes[RightMost(nodes, S, root, root)].key)
  {
    LeftMostLeast(nodes, S, root, lt, root);
    RightMostGreatest(nodes, S, root, lt, root);
    var lo, hi := LeftMost(nodes, S, root, root), RightMost(nodes, S, root, root);
    forall k' | k' in M && k' != nodes[lo].key ensures lt(nodes[lo].key, k') {
      var n :| n in S[root] && nodes[n].key == k';
    }
    forall k' | k' in M && k' != nodes[hi].key ensures lt(k', nodes[hi].key) {
      var n :| n in S[root] && nodes[n].key == k';
    }
  }

  // ---------------------------------------------------------------------
  // Search by key.
  // ---------------------------------------------------------------------

  /**
   * The search descent from i: stop at the sentinel or at the key, go right
   * when the node's key is less than the query, left otherwise.
   */
  ghost function Find<K, P>(nodes: seq<Node<K, P>>, S: seq<set<nat>>, root: nat, lt: (K, K) -> bool, k: K, i: nat): nat
    requires Shaped(nodes, S, root) && (i == Nil || i in S[root])
    decreases S[i]
  {
    if i == Nil || nodes[i].key == k then i
    else
      ChildLive(nodes, S, root, i);
      if lt(nodes[i].key, k) then Find(nodes, S, root, lt, k, nodes[i].right)
      else Find(nodes, S, root, lt, k, nodes[i].left)
  }

  /** The descent from i ends at the node of i's subtree with key k, or at the sentinel when there is none. */
  lemma {:induction false} FindInSubtree<K(!new), P>(nodes: seq<Node<K, P>>, S: seq<set<nat>>, root: nat,
                                                  lt: (K, K) -> bool, k: K, i: nat)
    requires Shaped(nodes, S, root) && Ordered(nodes, S, root, lt) && StrictTotalOrder(lt)
    requires i == Nil || i in S[root]
    ensures var f := Find(nodes, S, root, lt, k, i);
      (f == Nil || (f in S[i] && nodes[f].key == k)) &&
      (f == Nil <==> forall n :: n in S[i] ==> nodes[n].key != k)
    decreases S[i]
  {
    if i != Nil {
      ChildLive(nodes, S, root, i);
    }
    if i != Nil && nodes[i].key != k {
      assert OrderedAt(nodes, S, lt, i);
      var l, r := nodes[i].left, nodes[i].right;
      if lt(nodes[i].key, k) {
        FindInSubtree(nodes, S, root, lt, k, r);
        forall n | n in S[i] && n !in S[r] ensures nodes[n].key != k {
          if n != i {
            assert lt(nodes[n].key, nodes[i].key);
          }
        }
      } else {
        FindInSubtree(nodes, S, root, lt, k, l);
        assert lt(k, nodes[i].key);
        forall n | n in S[i] && n !in S[l] ensures nodes[n].key != k {
          if n != i {
            assert lt(nodes[i].key, nodes[n].key);
          }
        }
      }
    }
  }

  /** Searching from the root finds the node holding k exactly when k is stored. */
  lemma FindContents<K(!new), P>(nodes: seq<Node<K, P>>, S: seq<set<nat>>, root: nat,
                                 lt: (K, K) -> bool, M: map<K, P>, k: K)
    requires Shaped(nodes, S, root) && Ordered(nodes, S, root, lt) && StrictTotalOrder(lt)
    requires Abstracts(nodes, S, root, M)
    ensures var f := Find(nodes, S, root, lt, k, root);
      (f == Nil <==> k !in M) &&
      (f != Nil ==> f in S[root] && nodes[f].key == k && nodes[f].payload == M[k])
  {
    FindInSubtree(nodes, S, root, lt, k, root);
    if k in M {
      var n :| n in S[root] && nodes[n].key == k;
    }
  }

  // ---------------------------------------------------------------------
  // In-order successor.
  // ---------------------------------------------------------------------

  /** n holds the next key after k's: larger than k, with no live key strictly between. */
  ghost predicate NextAfter<K, P>(nodes: seq<Node<K, P>>, S: seq<set<nat>>, root: nat, lt: (K, K) -> bool, k: K, n: nat)
    requires Bounded(|nodes|, S) && root < |nodes|
  {
    n in S[root] && lt(k, nodes[n].key) &&
    forall m :: m in S[root] && lt(k, nodes[m].key) ==> m == n || lt(nodes[n].key, nodes[m].key)
  }

  /** No live key is larger than k. */
  ghost predicate NoneAfter<K, P>(nodes: seq<Node<K, P>>, S: seq<set<nat>>, root: nat, lt: (K, K) -> bool, k: K)
    requires Bounded(|nodes|, S) && root < |nodes|
  {
    forall m :: m in S[root] ==> !lt(k, nodes[m].key)
  }

  /** k' is the next stored key after k. */
  ghost predicate IsNextKey<K, P>(M: map<K, P>, lt: (K, K) -> bool, k: K, k': K) {
    k' in M && lt(k, k') && forall k'' :: k'' in M && lt(k, k'') ==> k'' == k' || lt(k', k'')
  }

  /** No stored key comes after k. */
  ghost predicate NoKeyAfter<K, P>(M: map<K, P>, lt: (K, K) -> bool, k: K) {
    forall k' :: k' in M ==> !lt(k, k')
  }

  /** The node-level successor facts speak about the stored keys. */
  lemma NextOfContents<K, P>(nodes: seq<Node<K, P>>, S: seq<set<nat>>, root: nat, lt: (K, K) -> bool,
                             M: map<K, P>, k: K, n: nat)
    requires Bounded(|nodes|, S) && root < |nodes| && Abstracts(nodes, S, root, M)
    ensures NextAfter(nodes, S, root, lt, k, n) ==>
      IsNextKey(M, lt, k, nodes[n].key) && M[nodes[n].key] == nodes[n].payload
    ensures NoneAfter(nodes, S, root, lt, k) ==> NoKeyAfter(M, lt, k)
  {
    if NextAfter(nodes, S, root, lt, k, n) {
      forall k'' | k'' in M && lt(k, k'') ensures k'' == nodes[n].key || lt(nodes[n].key, k'') {
        var m :| m in S[root] && nodes[m].key == k'';
      }
    }
    if NoneAfter(nodes, S, root, lt, k) {
      forall k' | k' in M ensures !lt(k, k') {
        var m :| m in S[root] && nodes[m].key == k';
      }
    }
  }

  /** With a right subtree, the successor of z is the leftmost node of that subtree. */
  lemma SuccessorDown<K(!new), P>(nodes: seq<Node<K, P>>, S: seq<set<nat>>, root: nat, lt: (K, K) -> bool, z: nat)
    requires Shaped(nodes, S, root) && Ordered(nodes, S, root, lt) && StrictTotalOrder(lt)
    requires z in S[root] && nodes[z].right != Nil
    ensures nodes[z].right in S[root] &&
      NextAfter(nodes, S, root, lt, nodes[z].key, LeftMost(nodes, S, root, nodes[z].right))
  {
    ChildLive(nodes, S, root, z);
    assert OrderedAt(nodes, S, lt, z);
    var r := nodes[z].right;
    LeftMostLeast(nodes, S, root, lt, r);
    var s := LeftMost(nodes, S, root, r);
    assert s in S[root];
    forall m | m in S[root] && lt(nodes[z].key, nodes[m].key) ensures m == s || lt(nodes[s].key, nodes[m].key) {
      if m !in S[z] {
        Contiguous(nodes, S, root, lt, root, z, m);
        assert z in S[z] && s in S[z];
      }
    }
  }

  /**
   * What the upward walk of the successor search keeps: z0 is the rightmost
   * node of the subtree of z.
   */
  ghost predicate Climbing<K, P>(nodes: seq<Node<K, P>>, S: seq<set<nat>>, root: nat, lt: (K, K) -> bool, z0: nat, z: nat)
    requires Shaped(nodes, S, root)
  {
    z in S[root] && z0 in S[z] && forall n :: n in S[z] && n != z0 ==> lt(nodes[n].key, nodes[z0].key)
  }

  /** A node without a right subtree starts the walk. */
  lemma ClimbStart<K(!new), P>(nodes: seq<Node<K, P>>, S: seq<set<nat>>, root: nat, lt: (K, K) -> bool, z: nat)
    requires Shaped(nodes, S, root) && Ordered(nodes, S, root, lt) && z in S[root] && nodes[z].right == Nil
    ensures Climbing(nodes, S, root, lt, z, z)
  {
    ChildLive(nodes, S, root, z);
    assert OrderedAt(nodes, S, lt, z);
  }

  /** Coming up from a right child keeps z0 the rightmost node. */
  lemma ClimbStep<K(!new), P>(nodes: seq<Node<K, P>>, S: seq<set<nat>>, root: nat, lt: (K, K) -> bool, z0: nat, z: nat)
    requires Shaped(nodes, S, root) && Ordered(nodes, S, root, lt) && StrictOrder(lt)
    requires Climbing(nodes, S, root, lt, z0, z) && nodes[z].parent != Nil && z == nodes[nodes[z].parent].right
    ensures z != root && nodes[z].parent in S[root]
    ensures Climbing(nodes, S, root, lt, z0, nodes[z].parent)
    ensures S[z] < S[nodes[z].parent]
  {
    var p := nodes[z].parent;
    if z == root {
      assert false;
    }
    ParentLive(nodes, S, root, z);
    ChildLive(nodes, S, root, p);
    assert OrderedAt(nodes, S, lt, p);
    forall n | n in S[p] && n != z0 ensures lt(nodes[n].key, nodes[z0].key) {
      if n !in S[z] {
        assert lt(nodes[p].key, nodes[z0].key);
        if n != p {
          assert lt(nodes[n].key, nodes[p].key);
        }
      }
    }
  }

  /** The walk ends at a parent reached from its left: that parent is the successor. */
  lemma ClimbEndsLeft<K(!new), P>(nodes: seq<Node<K, P>>, S: seq<set<nat>>, root: nat, lt: (K, K) -> bool, z0: nat, z: nat)
    requires Shaped(nodes, S, root) && Ordered(nodes, S, root, lt) && StrictTotalOrder(lt)
    requires Climbing(nodes, S, root, lt, z0, z) && nodes[z].parent != Nil && z != nodes[nodes[z].parent].right
    ensures NextAfter(nodes, S, root, lt, nodes[z0].key, nodes[z].parent)
  {
    var p := nodes[z].parent;
    if z == root {
      assert false;
    }
    ParentLive(nodes, S, root, z);
    ChildLive(nodes, S, root, p);
    assert OrderedAt(nodes, S, lt, p);
    assert nodes[p].left == z;
    assert lt(nodes[z0].key, nodes[p].key);
    forall m | m in S[root] && lt(nodes[z0].key, nodes[m].key) ensures m == p || lt(nodes[p].key, nodes[m].key) {
      if m !in S[p] {
        Contiguous(nodes, S, root, lt, root, p, m);
        assert z0 in S[p] && p in S[p];
      }
    }
  }

  /** The walk ends at the root: z0 holds the greatest key. */
  lemma ClimbEndsTop<K(!new), P>(nodes: seq<Node<K, P>>, S: seq<set<nat>>, root: nat, lt: (K, K) -> bool, z0: nat, z: nat)
    requires Shaped(nodes, S, root) && Ordered(nodes, S, root, lt) && StrictOrder(lt)
    requires Climbing(nodes, S, root, lt, z0, z) && nodes[z].parent == Nil
    ensures NoneAfter(nodes, S, root, lt, nodes[z0].key)
  {
    if z != root {
      ParentLive(nodes, S, root, z);
      assert false;
    }
    forall m | m in S[root] ensures !lt(nodes[z0].key, nodes[m].key) {
      if m != z0 {
        assert lt(nodes[m].key, nodes[z0].key);
      }
    }
  }

  // ---------------------------------------------------------------------
  // Height.
  // ---------------------------------------------------------------------

  function Max(a: int, b: int): int {
    if a < b then b else a
  }

  /** The height of the subtree at i: -1 at the sentinel, else one more than the taller child. */
  function Height<K, P>(nodes: seq<Node<K, P>>, ghost S: seq<set<nat>>, ghost root: nat, i: nat): int
    requires Shaped(nodes, S, root) && (i == Nil || i in S[root])
    decreases S[i]
  {
    if i == Nil then -1
    else
      ChildLive(nodes, S, root, i);
      1 + Max(Height(nodes, S, root, nodes[i].left), Height(nodes, S, root, nodes[i].right))
  }

  /** The height is at least -1 and less than the number of nodes in the subtree; a single node has height 0. */
  lemma {:induction false} HeightRange<K, P>(nodes: seq<Node<K, P>>, S: seq<set<nat>>, root: nat, i: nat)
    requires Shaped(nodes, S, root) && (i == Nil || i in S[root])
    ensures -1 <= Height(nodes, S, root, i) < |S[i]|
    ensures Height(nodes, S, root, i) == -1 <==> i == Nil
    ensures i != Nil && nodes[i].left == Nil && nodes[i].right == Nil ==> Height(nodes, S, root, i) == 0
    decreases S[i]
  {
    if i != Nil {
      ChildLive(nodes, S, root, i);
      var l, r := nodes[i].left, nodes[i].right;
      HeightRange(nodes, S, root, l);
      HeightRange(nodes, S, root, r);
      SplitSize(S[l], S[r], i);
    }
  }

  function Pow2(n: nat): nat {
    if n == 0 then 1 else 2 * Pow2(n - 1)
  }

  lemma {:induction false} Pow2Monotone(m: nat, n: nat)
    requires m <= n
    ensures Pow2(m) <= Pow2(n)
    decreases n
  {
    if m < n {
      Pow2Monotone(m, n - 1);
    }
  }

  /**
   * Below a node of a red-black tree the height is at most twice the black
   * height (less one at a red node).
   */
  lemma {:induction false} HeightBound<K, P>(nodes: seq<Node<K, P>>, S: seq<set<nat>>, bh: seq<nat>, root: nat, i: nat)
    requires Shaped(nodes, S, root) && Coloured(nodes, S, root) && Balanced(nodes, S, bh, root)
    requires i == Nil || i in S[root]
    ensures i != Nil ==> bh[i] >= 1
    ensures Height(nodes, S, root, i) + 1 <= 2 * (bh[i] as int) - (if nodes[i].color == Red then 1 else 0)
    decreases S[i]
  {
    if i != Nil {
      ChildLive(nodes, S, root, i);
      assert BhOk(nodes, bh, i) && RedOk(nodes, i);
      var l, r := nodes[i].left, nodes[i].right;
      HeightBound(nodes, S, bh, root, l);
      HeightBound(nodes, S, bh, root, r);
    }
  }

  /** The subtree below a node of a red-black tree holds at least 2^bh - 1 nodes. */
  lemma {:induction false} SizeBound<K, P>(nodes: seq<Node<K, P>>, S: seq<set<nat>>, bh: seq<nat>, root: nat, i: nat)
    requires Shaped(nodes, S, root) && IsBlack(nodes, Nil) && Balanced(nodes, S, bh, root)
    requires i == Nil || i in S[root]
    ensures i != Nil ==> bh[i] >= 1
    ensures Pow2(bh[i]) <= |S[i]| + 1
    decreases S[i]
  {
    if i != Nil {
      ChildLive(nodes, S, root, i);
      assert BhOk(nodes, bh, i);
      var l, r := nodes[i].left, nodes[i].right;
      SizeBound(nodes, S, bh, root, l);
      SizeBound(nodes, S, bh, root, r);
      SplitSize(S[l], S[r], i);
      Pow2Monotone(bh[i] - 1, bh[l]);
      Pow2Monotone(bh[i] - 1, bh[r]);
    }
  }

  /** A red-black tree of n nodes has height h with 2^((h+1)/2) <= n + 1: the height is logarithmic. */
  lemma HeightLogarithmic<K, P>(nodes: seq<Node<K, P>>, S: seq<set<nat>>, bh: seq<nat>, root: nat)
    requires Shaped(nodes, S, root) && Coloured(nodes, S, root) && Balanced(nodes, S, bh, root)
    ensures Height(nodes, S, root, root) + 1 >= 0
    ensures Pow2((Height(nodes, S, root, root) + 1) / 2) <= |S[root]| + 1
  {
    HeightRange(nodes, S, root, root);
    HeightBound(nodes, S, bh, root, root);
    SizeBound(nodes, S, bh, root, root);
    Pow2Monotone((Height(nodes, S, root, root) + 1) / 2, bh[root]);
  }
}

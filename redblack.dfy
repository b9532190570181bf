/**
 * The red-black tree of the redblack package: an ordered map from int keys
 * to payloads. The tree object owns an arena of nodes (index 0 is the black
 * sentinel) and the index of the root; each Go method becomes a method of
 * the class below, each loop a Dafny loop, each pointer assignment an
 * update of one node record.
 *
 * Ghost state: the footprints S and black heights bh of the engine, and the
 * abstract contents M, a map from key to payload.
 */
module RedBlack {
  import opened RbCore
  import opened RbOrder
  import opened RbRotate
  import opened RbInsert
  import opened RbDelete
  import opened RbQuery
  import opened RbListing

  /** The key order of the tree: `Less` on int keys. */
  function Less(a: int, b: int): bool {
    a < b
  }

  lemma LessIsTotal()
    ensures StrictTotalOrder(Less)
  {
  }

  /** A payload, or Go's nil. */
  datatype Option<T> = None | Some(value: T)

  class Tree<P> {
    var nodes: seq<Node<int, P>>
    var root: nat
    /** The payload the sentinel carries; the source gives it the string "sentinel". */
    const sentinelPayload: P
    ghost var S: seq<set<nat>>
    ghost var bh: seq<nat>
    ghost var M: map<int, P>

    /** The red-black invariants hold and the tree holds the entries of M. */
    ghost predicate Valid()
      reads this
    {
      RbValid(nodes, S, bh, root, Less, M) && nodes[Nil].payload == sentinelPayload
    }

    /** NewRedBlackTree: an empty tree, whose root is the sentinel. */
    constructor (sentinelPayload: P)
      ensures Valid() && M == map[] && root == Nil && this.sentinelPayload == sentinelPayload
    {
      nodes := [Node(0, Black, Nil, Nil, Nil, sentinelPayload)];
      root := Nil;
      this.sentinelPayload := sentinelPayload;
      S := [{}];
      bh := [0];
      M := map[];
    }

    /** The tree is empty exactly when its root is the sentinel. */
    lemma EmptyIffNoRoot()
      requires Valid()
      ensures root == Nil <==> M == map[]
      ensures root != Nil ==> nodes[root].key in M && M[nodes[root].key] == nodes[root].payload
    {
      if root != Nil {
        assert root in S[root];
      }
    }

    /** Root: nil on an empty tree, else the root's payload, which is stored under the root's key. */
    method Root() returns (r: Option<P>)
      requires Valid()
      ensures r == None <==> M == map[]
      ensures r.Some? ==> nodes[root].key in M && r.value == M[nodes[root].key] && r.value == nodes[root].payload
    {
      EmptyIffNoRoot();
      if root == Nil {
        return None;
      }
      return Some(nodes[root].payload);
    }

    /**
     * Height: -1 on an empty tree; otherwise one more than the taller
     * subtree. It is logarithmic in the number of entries.
     */
    method Height() returns (h: int)
      requires Valid()
      ensures h == RbQuery.Height(nodes, S, root, root)
      ensures h >= -1 && (h == -1 <==> M == map[])
      ensures Pow2((h + 1) / 2) <= |M| + 1
    {
      h := RbQuery.Height(nodes, S, root, root);
      HeightRange(nodes, S, root, root);
      HeightLogarithmic(nodes, S, bh, root);
      EmptyIffNoRoot();
      LessIsTotal();
      SizeOfContents(nodes, S, root, Less, M);
    }

    /** min: follow left links from z to the end; the result is z's leftmost node (the sentinel for the sentinel). */
    method MinNode(z: nat) returns (m: nat)
      requires Valid() && (z == Nil || z in S[root])
      ensures z == Nil ==> m == Nil
      ensures z != Nil ==> m == LeftMost(nodes, S, root, z)
      ensures z != Nil ==> (m in S[z] && nodes[m].left == Nil &&
                            forall n :: n in S[z] && n != m ==> Less(nodes[m].key, nodes[n].key))
      ensures z != Nil && m != z ==> nodes[m].parent in S[z] && nodes[nodes[m].parent].left == m
    {
      m := z;
      while m != Nil && nodes[m].left != Nil
        invariant m == Nil <==> z == Nil
        invariant m != Nil ==> m in S[root] && LeftMost(nodes, S, root, m) == LeftMost(nodes, S, root, z)
        decreases S[m]
      {
        ChildLive(nodes, S, root, m);
        m := nodes[m].left;
      }
      if z != Nil {
        LessIsTotal();
        LeftMostLeast(nodes, S, root, Less, z);
      }
    }

    /** max: follow right links from z to the end; the mirror image of min. */
    method MaxNode(z: nat) returns (m: nat)
      requires Valid() && (z == Nil || z in S[root])
      ensures z == Nil ==> m == Nil
      ensures z != Nil ==> m == RightMost(nodes, S, root, z)
      ensures z != Nil ==> (m in S[z] && nodes[m].right == Nil &&
                            forall n :: n in S[z] && n != m ==> Less(nodes[n].key, nodes[m].key))
    {
      m := z;
      while m != Nil && nodes[m].right != Nil
        invariant m == Nil <==> z == Nil
        invariant m != Nil ==> m in S[root] && RightMost(nodes, S, root, m) == RightMost(nodes, S, root, z)
        decreases S[m]
      {
        ChildLive(nodes, S, root, m);
        m := nodes[m].right;
      }
      if z != Nil {
        LessIsTotal();
        RightMostGreatest(nodes, S, root, Less, z);
      }
    }

    /** Min: nil on an empty tree, else the payload of the least key. */
    method Min() returns (r: Option<P>)
      requires Valid()
      ensures r == None <==> M == map[]
      ensures r.Some? ==> exists k :: IsLeastKey(M, Less, k) && r.value == M[k]
    {
      EmptyIffNoRoot();
      var n := MinNode(root);
      if n == Nil {
        return None;
      }
      LessIsTotal();
      ExtremesOfContents(nodes, S, root, Less, M);
      assert IsLeastKey(M, Less, nodes[n].key);
      return Some(nodes[n].payload);
    }

    /** Max: nil on an empty tree, else the payload of the greatest key. */
    method Max() returns (r: Option<P>)
      requires Valid()
      ensures r == None <==> M == map[]
      ensures r.Some? ==> exists k :: IsGreatestKey(M, Less, k) && r.value == M[k]
    {
      EmptyIffNoRoot();
      var n := MaxNode(root);
      if n == Nil {
        return None;
      }
      LessIsTotal();
      ExtremesOfContents(nodes, S, root, Less, M);
      assert IsGreatestKey(M, Less, nodes[n].key);
      return Some(nodes[n].payload);
    }

    /**
     * search: the descent from z, right when the node's key is less than the
     * query, left otherwise; it stops at the key or at the sentinel.
     */
    method SearchNode(z0: nat, key: int) returns (z: nat)
      requires Valid() && (z0 == Nil || z0 in S[root])
      ensures z == Find(nodes, S, root, Less, key, z0)
      ensures z == Nil || (z in S[z0] && nodes[z].key == key)
      ensures z == Nil <==> forall n :: n in S[z0] ==> nodes[n].key != key
    {
      LessIsTotal();
      FindInSubtree(nodes, S, root, Less, key, z0);
      z := z0;
      if z == Nil || nodes[z].key == key {
        return;
      }
      while z != Nil && nodes[z].key != key
        invariant z == Nil || z in S[root]
        invariant Find(nodes, S, root, Less, key, z) == Find(nodes, S, root, Less, key, z0)
        decreases S[z]
      {
        ChildLive(nodes, S, root, z);
        if Less(nodes[z].key, key) {
          z := nodes[z].right;
        } else {
          z := nodes[z].left;
        }
      }
    }

    /** Search: the payload stored under key, or nil. */
    method Search(key: int) returns (r: Option<P>)
      requires Valid()
      ensures r == if key in M then Some(M[key]) else None
    {
      var n := SearchNode(root, key);
      LessIsTotal();
      FindContents(nodes, S, root, Less, M, key);
      if n == Nil {
        return None;
      }
      return Some(nodes[n].payload);
    }

    /**
     * successor: nil for the sentinel; with a right subtree, its leftmost
     * node; otherwise the first ancestor reached from a left child, which is
     * the sentinel when z holds the greatest key.
     */
    method SuccessorNode(z0: nat) returns (n: Option<nat>)
      requires Valid() && (z0 == Nil || z0 in S[root])
      ensures n == None <==> z0 == Nil
      ensures n == Some(Nil) ==> NoneAfter(nodes, S, root, Less, nodes[z0].key)
      ensures n.Some? && n.value != Nil ==> NextAfter(nodes, S, root, Less, nodes[z0].key, n.value)
    {
      LessIsTotal();
      if z0 == Nil {
        return None;
      }
      if nodes[z0].right != Nil {
        SuccessorDown(nodes, S, root, Less, z0);
        var m := MinNode(nodes[z0].right);
        return Some(m);
      }
      var z := z0;
      var parent := nodes[z].parent;
      ClimbStart(nodes, S, root, Less, z);
      while parent != Nil && z == nodes[parent].right
        invariant Climbing(nodes, S, root, Less, z0, z) && parent == nodes[z].parent
        decreases |S[root] - S[z]|
      {
        ClimbStep(nodes, S, root, Less, z0, z);
        ChildLive(nodes, S, root, parent);
        ShrinkingRest(S[root], S[z], S[parent], parent);
        z := parent;
        parent := nodes[z].parent;
      }
      if parent == Nil {
        ClimbEndsTop(nodes, S, root, Less, z0, z);
      } else {
        ClimbEndsLeft(nodes, S, root, Less, z0, z);
      }
      return Some(parent);
    }

    /**
     * Successor as written: the payload of the node after key's node. For the
     * greatest stored key the node after it is the sentinel, which is not
     * nil, so the sentinel's payload comes back.
     */
    method Successor(key: int) returns (r: Option<P>)
      requires Valid()
      ensures key !in M ==> r == None
      ensures key in M && NoKeyAfter(M, Less, key) ==> r == Some(sentinelPayload)
      ensures key in M ==> forall k :: IsNextKey(M, Less, key, k) ==> r == Some(M[k])
    {
      var z := SearchNode(root, key);
      LessIsTotal();
      FindContents(nodes, S, root, Less, M, key);
      var n := SuccessorNode(z);
      if n == None {
        return None;
      }
      if z != Nil {
        NextOfContents(nodes, S, root, Less, M, key, n.value);
        NextUnique(M, key);
        if n.value == Nil {
          NoNextKey(M, key);
        }
      }
      return Some(nodes[n.value].payload);
    }

    /**
     * Successor with the sentinel test the source lacks: nil when the key is
     * absent or has no successor, else the payload of the next key.
     */
    method SuccessorChecked(key: int) returns (r: Option<P>)
      requires Valid()
      ensures r == None <==> key !in M || NoKeyAfter(M, Less, key)
      ensures r.Some? ==> exists k :: IsNextKey(M, Less, key, k) && r.value == M[k]
    {
      var z := SearchNode(root, key);
      LessIsTotal();
      FindContents(nodes, S, root, Less, M, key);
      var n := SuccessorNode(z);
      if n == None || n.value == Nil {
        return None;
      }
      NextOfContents(nodes, S, root, Less, M, key, n.value);
      NextExcludesLast(M, key, nodes[n.value].key);
      return Some(nodes[n.value].payload);
    }

    /** InOrder: the entries in key order (nil for an empty tree is the empty sequence). */
    method InOrder() returns (res: seq<Entry<int, P>>)
      requires Valid()
      ensures res == Listing(nodes, S, root, root)
      ensures SortedKeys(res, Less) && ListsMap(res, M) && |res| == |M|
    {
      LessIsTotal();
      ListingContents(nodes, S, root, Less, M);
      SizeOfContents(nodes, S, root, Less, M);
      if root == Nil {
        return [];
      }
      res := ResultsInOrder(nodes, S, root, root, []);
    }

    /** isLeaf: both children are the sentinel. */
    predicate IsLeaf(z: nat)
      reads this
      requires z < |nodes|
    {
      nodes[z].left == Nil && nodes[z].right == Nil
    }

    // -------------------------------------------------------------------
    // Rotations.
    // -------------------------------------------------------------------

    /**
     * rotateLeft: x's right child y takes x's place under x's parent (or as
     * the root), y's left subtree becomes x's right subtree, and x becomes
     * y's left child. Keys, payloads and colours stay where they are.
     */
    method RotateLeft(x: nat)
      requires Shaped(nodes, S, root) && x in S[root] && nodes[x].right != Nil
      modifies this
      ensures RotatedLeft(old(nodes), old(root), x, nodes, root)
      ensures S == LeftRotatedS(old(nodes), old(S), x) && bh == old(bh) && M == old(M)
      ensures Shaped(nodes, S, root) && S[root] == old(S[root]) && nodes[Nil] == old(nodes[Nil])
      ensures old(Ordered(nodes, S, root, Less)) ==> Ordered(nodes, S, root, Less)
      ensures old(Abstracts(nodes, S, root, M)) ==> Abstracts(nodes, S, root, M)
    {
      ghost var a, S0, root0 := nodes, S, root;
      nodes, root := RotationLeft(nodes, S, root, x);
      LessIsTotal();
      RotateLeftKeeps(a, S0, root0, Less, M, x, nodes, root);
      S := LeftRotatedS(a, S0, x);
    }

    /** rotateRight: the mirror image of rotateLeft. */
    method RotateRight(x: nat)
      requires Shaped(nodes, S, root) && x in S[root] && nodes[x].left != Nil
      modifies this
      ensures RotatedRight(old(nodes), old(root), x, nodes, root)
      ensures S == RightRotatedS(old(nodes), old(S), x) && bh == old(bh) && M == old(M)
      ensures Shaped(nodes, S, root) && S[root] == old(S[root]) && nodes[Nil] == old(nodes[Nil])
      ensures old(Ordered(nodes, S, root, Less)) ==> Ordered(nodes, S, root, Less)
      ensures old(Abstracts(nodes, S, root, M)) ==> Abstracts(nodes, S, root, M)
    {
      ghost var a, S0, root0 := nodes, S, root;
      nodes, root := RotationRight(nodes, S, root, x);
      LessIsTotal();
      RotateRightKeeps(a, S0, root0, Less, M, x, nodes, root);
      S := RightRotatedS(a, S0, x);
    }

    // -------------------------------------------------------------------
    // Insertion.
    // -------------------------------------------------------------------

    /**
     * newLeaf: a fresh red node holding key and payload, with sentinel
     * children, appended to the arena. It is not yet linked into the tree,
     * so the footprints, black heights and contents stay as they were.
     */
    method NewLeaf(key: int, payload: P) returns (z: nat)
      modifies this
      ensures z == |old(nodes)| && nodes == old(nodes) + [Node(key, Red, Nil, Nil, Nil, payload)]
      ensures root == old(root) && S == old(S) && bh == old(bh) && M == old(M)
      ensures IsLeaf(z)
    {
      z := |nodes|;
      nodes := nodes + [Node(key, Red, Nil, Nil, Nil, payload)];
    }

    /**
     * insert: descend from the root to the sentinel below which z's key
     * belongs, hang z there as a red leaf, and repair the colours.
     */
    method Insert(z: nat)
      requires 0 < z && z == |nodes| - 1
      requires RbValid(nodes[..z], S, bh, root, Less, M) && nodes[Nil].payload == sentinelPayload
      requires nodes[z].key !in M
      modifies this
      ensures Valid() && M == old(M)[old(nodes[z].key) := old(nodes[z].payload)]
      ensures |nodes| == old(|nodes|)
    {
      ghost var a := nodes[..z];
      var k := nodes[z].key;
      ghost var p := nodes[z].payload;
      LessIsTotal();
      var y := Nil;
      var x := root;
      if x != Nil {
        FitsAtRoot(a, S, root, Less, k);
      }
      while x != Nil
        invariant nodes == old(nodes) && root == old(root) && S == old(S) && bh == old(bh) && M == old(M)
        invariant x == Nil || x in S[root]
        invariant y == Nil ==> x == root
        invariant y != Nil ==> y in S[root] && FitsBelow(a, S, root, Less, k, y) && x == Toward(a, Less, k, y)
        invariant x != Nil ==> FitsBelow(a, S, root, Less, k, x)
        decreases S[x]
      {
        assert a[x] == nodes[x] && a[x].key != k;
        ChildLive(a, S, root, x);
        y := x;
        if Less(k, nodes[x].key) {
          x := nodes[x].left;
        } else {
          x := nodes[x].right;
        }
        if x != Nil {
          FitsStep(a, S, root, Less, k, y);
        }
      }
      assert y != Nil ==> a[y] == nodes[y];
      assert AttachPoint(a, S, root, Less, k, y);
      assert AttachSetting(a, S, bh, root, Less, M, y, k);
      nodes := nodes[z := nodes[z].(parent := y)];
      if y == Nil {
        root := z;
      } else if Less(k, nodes[y].key) {
        nodes := nodes[y := nodes[y].(left := z)];
      } else {
        nodes := nodes[y := nodes[y].(right := z)];
      }
      nodes := nodes[z := nodes[z].(left := Nil, right := Nil)];
      nodes := nodes[z := nodes[z].(color := Red)];
      AttachAsWritten(a, Less, y, k, p, old(nodes), nodes);
      AttachInv(a, S, bh, old(root), Less, M, y, k, p);
      S := AttachS(S, y);
      bh := bh + [1];
      M := M[k := p];
      FixupInsert(z);
    }

    /**
     * fixupInsert: while z's parent is red, repair one level, then colour
     * the root black.
     */
    method FixupInsert(z0: nat)
      requires InsertInv(nodes, S, bh, root, Less, M, z0) && nodes[Nil].payload == sentinelPayload
      modifies this
      ensures Valid() && M == old(M) && |nodes| == old(|nodes|)
    {
      var z := z0;
      while nodes[nodes[z].parent].color == Red
        invariant InsertInv(nodes, S, bh, root, Less, M, z) && nodes[Nil].payload == sentinelPayload
        invariant M == old(M) && |nodes| == old(|nodes|)
        decreases InsertMeasure(nodes, S, root, z)
      {
        z := InsertRepair(z);
      }
      ghost var a := nodes;
      nodes := nodes[root := nodes[root].(color := Black)];
      assert nodes[Nil].payload == sentinelPayload;
      InsertFinish(a, S, bh, root, Less, M, z, nodes);
    }

    /**
     * One turn of the fixupInsert loop: with a red uncle, recolour and move
     * z up to its grandparent (case 1); with a black uncle, rotate z's
     * parent when z is an inner child (case 2), else recolour and rotate
     * the grandparent (case 3), which ends the loop.
     */
    method InsertRepair(z0: nat) returns (z: nat)
      requires InsertInv(nodes, S, bh, root, Less, M, z0) && nodes[nodes[z0].parent].color == Red
      modifies this
      ensures InsertInv(nodes, S, bh, root, Less, M, z)
      ensures InsertMeasure(nodes, S, root, z) < old(InsertMeasure(nodes, S, root, z0))
      ensures M == old(M) && |nodes| == old(|nodes|) && nodes[Nil].payload == old(nodes[Nil].payload)
    {
      Family(nodes, S, bh, root, z0);
      var p := nodes[z0].parent;
      var g := nodes[p].parent;
      var y := if p == nodes[g].left then nodes[g].right else nodes[g].left;
      if nodes[y].color == Red {
        z := InsertRecolour(z0);
      } else if p == nodes[g].left && z0 == nodes[p].right {
        z := InsertInnerLeft(z0);
      } else if p == nodes[g].left {
        z := InsertOuterLeft(z0);
      } else if z0 == nodes[p].left {
        z := InsertInnerRight(z0);
      } else {
        z := InsertOuterRight(z0);
      }
    }

    /** Case 1 on either side: parent and uncle turn black, the grandparent red. */
    method InsertRecolour(z0: nat) returns (z: nat)
      requires InsertInv(nodes, S, bh, root, Less, M, z0) && Case1Setting(nodes, S, bh, root, z0)
      modifies this
      ensures InsertInv(nodes, S, bh, root, Less, M, z)
      ensures InsertMeasure(nodes, S, root, z) < old(InsertMeasure(nodes, S, root, z0))
      ensures M == old(M) && |nodes| == old(|nodes|) && nodes[Nil].payload == old(nodes[Nil].payload)
    {
      ghost var a, bh0 := nodes, bh;
      var p := nodes[z0].parent;
      var g := nodes[p].parent;
      var y := if p == nodes[g].left then nodes[g].right else nodes[g].left;
      nodes := nodes[p := nodes[p].(color := Black)];
      nodes := nodes[y := nodes[y].(color := Black)];
      nodes := nodes[g := nodes[g].(color := Red)];
      bh := bh[g := bh[g] + 1];
      z := g;
      assert nodes[Nil].payload == a[Nil].payload;
      InsertStep1(a, S, bh0, root, Less, M, z0, nodes, bh);
      InsertStep1Measure(a, S, bh0, root, z0, nodes);
    }

    /** Case 2, z an inner grandchild under a left child: rotate z's parent left. */
    method InsertInnerLeft(z0: nat) returns (z: nat)
      requires InsertInv(nodes, S, bh, root, Less, M, z0) && Case2LeftSetting(nodes, S, bh, root, z0)
      modifies this
      ensures InsertInv(nodes, S, bh, root, Less, M, z)
      ensures InsertMeasure(nodes, S, root, z) < old(InsertMeasure(nodes, S, root, z0))
      ensures M == old(M) && |nodes| == old(|nodes|) && nodes[Nil].payload == old(nodes[Nil].payload)
    {
      Family(nodes, S, bh, root, z0);
      ghost var a, S0, root0 := nodes, S, root;
      z := nodes[z0].parent;
      RotateLeft(z);
      InsertStep2Left(a, S0, bh, root0, Less, M, z0, nodes, S, root);
    }

    /** Case 3, z an outer grandchild under a left child: recolour, rotate the grandparent right. */
    method InsertOuterLeft(z0: nat) returns (z: nat)
      requires InsertInv(nodes, S, bh, root, Less, M, z0) && Case3LeftSetting(nodes, S, bh, root, z0)
      modifies this
      ensures InsertInv(nodes, S, bh, root, Less, M, z)
      ensures InsertMeasure(nodes, S, root, z) < old(InsertMeasure(nodes, S, root, z0))
      ensures M == old(M) && |nodes| == old(|nodes|) && nodes[Nil].payload == old(nodes[Nil].payload)
    {
      Family(nodes, S, bh, root, z0);
      ghost var a, S0, root0 := nodes, S, root;
      z := z0;
      var p := nodes[z].parent;
      var g := nodes[p].parent;
      var ns := nodes[p := nodes[p].(color := Black)];
      ns := ns[g := ns[g].(color := Red)];
      ghost var c := ns;
      assert g in S[root] && c[g].left != Nil && c[Nil] == a[Nil];
      InsertStep3Shaped(a, S, bh, root, z0, c);
      var r;
      ns, r := RotationRight(ns, S, root, g);
      ghost var S' := RightRotatedS(c, S, g);
      assert |ns| == |c| && ns[Nil] == c[Nil];
      nodes, S, root := ns, S', r;
      assert M == old(M);
      Case3LeftRotated(a, S0, bh, root0, M, z0, c, nodes, root);
    }

    /** Case 2, z an inner grandchild under a right child: rotate z's parent right. */
    method InsertInnerRight(z0: nat) returns (z: nat)
      requires InsertInv(nodes, S, bh, root, Less, M, z0) && Case2RightSetting(nodes, S, bh, root, z0)
      modifies this
      ensures InsertInv(nodes, S, bh, root, Less, M, z)
      ensures InsertMeasure(nodes, S, root, z) < old(InsertMeasure(nodes, S, root, z0))
      ensures M == old(M) && |nodes| == old(|nodes|) && nodes[Nil].payload == old(nodes[Nil].payload)
    {
      Family(nodes, S, bh, root, z0);
      ghost var a, S0, root0 := nodes, S, root;
      z := nodes[z0].parent;
      RotateRight(z);
      InsertStep2Right(a, S0, bh, root0, Less, M, z0, nodes, S, root);
    }

    /** Case 3, z an outer grandchild under a right child: recolour, rotate the grandparent left. */
    method InsertOuterRight(z0: nat) returns (z: nat)
      requires InsertInv(nodes, S, bh, root, Less, M, z0) && Case3RightSetting(nodes, S, bh, root, z0)
      modifies this
      ensures InsertInv(nodes, S, bh, root, Less, M, z)
      ensures InsertMeasure(nodes, S, root, z) < old(InsertMeasure(nodes, S, root, z0))
      ensures M == old(M) && |nodes| == old(|nodes|) && nodes[Nil].payload == old(nodes[Nil].payload)
    {
      Family(nodes, S, bh, root, z0);
      ghost var a, S0, root0 := nodes, S, root;
      z := z0;
      var p := nodes[z].parent;
      var g := nodes[p].parent;
      var ns := nodes[p := nodes[p].(color := Black)];
      ns := ns[g := ns[g].(color := Red)];
      ghost var c := ns;
      assert g in S[root] && c[g].right != Nil && c[Nil] == a[Nil];
      InsertStep3Shaped(a, S, bh, root, z0, c);
      var r;
      ns, r := RotationLeft(ns, S, root, g);
      ghost var S' := LeftRotatedS(c, S, g);
      assert |ns| == |c| && ns[Nil] == c[Nil];
      nodes, S, root := ns, S', r;
      assert M == old(M);
      Case3RightRotated(a, S0, bh, root0, M, z0, c, nodes, root);
    }

    /**
     * Upsert: overwrite the payload when the key is present, else insert a
     * new leaf for it. Either way the key then maps to the payload and every
     * other entry stays.
     */
    method Upsert(key: int, payload: P)
      requires Valid()
      modifies this
      ensures Valid() && M == old(M)[key := payload]
      ensures key in old(M) ==> root == old(root) && |nodes| == old(|nodes|) && S == old(S) && bh == old(bh)
      ensures key in old(M) ==> forall i :: 0 <= i < |nodes| ==> nodes[i] == old(nodes[i]) || nodes[i] == old(nodes[i]).(payload := payload)
      ensures key !in old(M) ==> |nodes| == old(|nodes|) + 1
    {
      var existing := SearchNode(root, key);
      if existing != Nil {
        ghost var a, M0 := nodes, M;
        nodes := nodes[existing := nodes[existing].(payload := payload)];
        M := M[key := payload];
        assert |nodes| == old(|nodes|) && root == old(root) && nodes[Nil] == a[Nil] && M == old(M)[key := payload];
        assert forall i :: 0 <= i < |nodes| ==> nodes[i] == a[i] || nodes[i] == a[i].(payload := payload);
        PayloadOverwritten(a, S, bh, root, M0, key, payload, existing, nodes);
      } else {
        KeyAbsent(nodes, S, bh, root, M, key);
        assert key !in old(M);
        var z := NewLeaf(key, payload);
        assert nodes[..z] == old(nodes) && nodes[Nil] == old(nodes[Nil]) && M == old(M);
        assert nodes[z].key == key && nodes[z].payload == payload;
        Insert(z);
      }
    }

    /**
     * Delete: when search finds the key, remove its node; every other entry
     * stays.
     */
    method Delete(key: int)
      requires Valid()
      modifies this
      ensures Valid() && M == old(M) - {key} && |nodes| == old(|nodes|)
      ensures key !in old(M) ==> nodes == old(nodes) && root == old(root) && S == old(S) && bh == old(bh)
    {
      var n := SearchNode(root, key);
      if n != Nil {
        DeleteNode(n);
      } else {
        KeyAbsent(nodes, S, bh, root, M, key);
        assert M - {key} == M;
      }
    }

    /**
     * delete: unlink z (replaced by a child, or by its successor when it has
     * two children), then repair the colours when the colour that left its
     * place was black.
     */
    method DeleteNode(z: nat)
      requires Valid() && z in S[root]
      modifies this
      ensures Valid() && M == old(M) - {old(nodes[z].key)} && |nodes| == old(|nodes|)
    {
      var x: nat;
      var yOriginalColor: Color;
      if nodes[z].left == Nil {
        x, yOriginalColor := RemoveNoLeft(z);
      } else if nodes[z].right == Nil {
        x, yOriginalColor := RemoveNoRight(z);
      } else {
        x, yOriginalColor := RemoveTwo(z);
      }
      if yOriginalColor == Black {
        FixupDelete(x);
      } else {
        RemovedRed(nodes, S, bh, root, Less, M, x);
      }
    }

    /**
     * delete when z has two children: y, the least node of z's right
     * subtree, is replaced by its right child x and takes z's place, links
     * and colour.
     */
    method RemoveTwo(z: nat) returns (x: nat, yOriginalColor: Color)
      requires Valid() && z in S[root] && nodes[z].left != Nil && nodes[z].right != Nil
      modifies this
      ensures M == old(M) - {old(nodes[z].key)} && |nodes| == old(|nodes|) && nodes[Nil].payload == sentinelPayload
      ensures DeleteInv(nodes, S, bh, root, Less, M, x, if yOriginalColor == Black then 1 else 0)
      ensures yOriginalColor == Red ==> IsBlack(nodes, x)
    {
      ChildLive(nodes, S, root, z);
      var y := MinNode(nodes[z].right);
      x, yOriginalColor := SpliceSuccessor(z, y);
    }

    /** The rest of delete when z has two children and y is the least node of z's right subtree. */
    method SpliceSuccessor(z: nat, y: nat) returns (x: nat, yOriginalColor: Color)
      requires Valid() && z in S[root] && nodes[z].left != Nil && nodes[z].right != Nil && nodes[z].right in S[root]
      requires y == LeftMost(nodes, S, root, nodes[z].right) && SpliceSetting(nodes, S, root, z, y)
      modifies this
      ensures M == old(M) - {old(nodes[z].key)} && |nodes| == old(|nodes|) && nodes[Nil].payload == sentinelPayload
      ensures DeleteInv(nodes, S, bh, root, Less, M, x, if yOriginalColor == Black then 1 else 0)
      ensures yOriginalColor == Red ==> IsBlack(nodes, x)
    {
      ghost var a, S0, bh0, root0, M0 := nodes, S, bh, root, M;
      yOriginalColor := nodes[y].color;
      x := nodes[y].right;
      nodes, root := Splicing(nodes, S, root, z, y);
      S := DeleteS(S, z, y);
      bh := TwoBh(bh, z, y);
      M := M - {a[z].key};
      ghost var d: nat := if yOriginalColor == Black then 1 else 0;
      assert 0 < |nodes| == |a| && nodes[Nil].payload == a[Nil].payload && M == old(M) - {old(nodes[z].key)};
      RemovedTwo(a, S0, bh0, root0, M0, z, y, nodes, root, S, bh, M, x, d);
    }

    /**
     * fixupDelete: while x is a black node other than the root, it stands
     * for one black node too few on its side; repair one level at a time,
     * then colour x black.
     */
    method FixupDelete(x0: nat)
      requires DeleteInv(nodes, S, bh, root, Less, M, x0, 1) && nodes[Nil].payload == sentinelPayload
      modifies this
      ensures Valid() && M == old(M) && |nodes| == old(|nodes|)
    {
      var x := x0;
      while x != root && nodes[x].color == Black
        invariant DeleteInv(nodes, S, bh, root, Less, M, x, 1) && nodes[Nil].payload == sentinelPayload
        invariant M == old(M) && |nodes| == old(|nodes|)
        decreases |S[root] - S[x]|, FarPhase(nodes, x)
      {
        x := DeleteRepair(x);
      }
      DeleteFinish(x);
    }

    /** The end of fixupDelete: x, now the root or a red node, turns black. */
    method DeleteFinish(x: nat)
      requires DeleteInv(nodes, S, bh, root, Less, M, x, 1) && nodes[Nil].payload == sentinelPayload
      requires x == root || nodes[x].color != Black
      modifies this
      ensures Valid() && M == old(M) && |nodes| == old(|nodes|)
      ensures nodes == old(nodes[x := nodes[x].(color := Black)])
    {
      ghost var a := nodes;
      nodes := nodes[x := nodes[x].(color := Black)];
      assert nodes[Nil].payload == sentinelPayload;
      DeleteDone(a, S, bh, root, Less, M, x, 1);
    }

    /** One turn of the fixupDelete loop: the cases for x a left child, or their mirror images. */
    method DeleteRepair(x0: nat) returns (x: nat)
      requires DeleteInv(nodes, S, bh, root, Less, M, x0, 1) && x0 != root && nodes[x0].color == Black
      modifies this
      ensures M == old(M) && |nodes| == old(|nodes|) && nodes[Nil].payload == old(nodes[Nil].payload)
      ensures DeleteInv(nodes, S, bh, root, Less, M, x, 1)
      ensures |S[root] - S[x]| < old(|S[root] - S[x0]|) ||
              (|S[root] - S[x]| == old(|S[root] - S[x0]|) && FarPhase(nodes, x) < old(FarPhase(nodes, x0)))
    {
      if x0 == nodes[nodes[x0].parent].left {
        x := DeleteRepairLeft(x0);
      } else {
        x := DeleteRepairRight(x0);
      }
    }

    /** Case 2 on either side: the black sibling with two black children turns red, and x moves up to its parent. */
    method DeleteRecolour(x0: nat) returns (x: nat)
      requires DeleteInv(nodes, S, bh, root, Less, M, x0, 1) && Case2Setting(nodes, S, bh, root, x0)
      modifies this
      ensures M == old(M) && S == old(S) && root == old(root) && |nodes| == old(|nodes|)
      ensures nodes[Nil].payload == old(nodes[Nil].payload)
      ensures x == old(nodes[x0].parent) && x in S[root] && |S[root] - S[x]| < old(|S[root] - S[x0]|)
      ensures DeleteInv(nodes, S, bh, root, Less, M, x, 1)
    {
      ghost var a, bh0 := nodes, bh;
      assert DeficitAt(a, bh, a[x0].parent, x0, 1);
      var w := Sibling(nodes, x0);
      nodes := nodes[w := nodes[w].(color := Red)];
      x := nodes[x0].parent;
      bh := bh[x := bh[x] - 1];
      assert 0 < |nodes| == |a| && nodes[Nil].payload == a[Nil].payload && x == a[x0].parent;
      assert M == old(M) && S == old(S) && root == old(root);
      BlackSiblingRecoloured(a, S, bh0, root, Less, M, x0, nodes, bh);
    }

    /**
     * One turn of the fixupDelete loop with x a left child: a red sibling is
     * first made black by rotating the parent left (case 1), then the cases
     * for a black sibling follow.
     */
    method DeleteRepairLeft(x0: nat) returns (x: nat)
      requires DeleteInv(nodes, S, bh, root, Less, M, x0, 1) && FixSetting(nodes, S, bh, root, x0)
      requires nodes[nodes[x0].parent].left == x0
      modifies this
      ensures M == old(M) && |nodes| == old(|nodes|) && nodes[Nil].payload == old(nodes[Nil].payload)
      ensures DeleteInv(nodes, S, bh, root, Less, M, x, 1)
      ensures |S[root] - S[x]| < old(|S[root] - S[x0]|) ||
              (|S[root] - S[x]| == old(|S[root] - S[x0]|) && FarPhase(nodes, x) < old(FarPhase(nodes, x0)))
    {
      DeleteFamily(nodes, S, bh, root, x0);
      ghost var m0, f0 := |S[root] - S[x0]|, FarPhase(nodes, x0);
      var w := nodes[nodes[x0].parent].right;
      if nodes[w].color == Red {
        DeleteRedSiblingLeft(x0);
        assert |S[root] - S[x0]| == m0 && f0 == 1;
      }
      x := DeleteBlackSiblingLeft(x0);
      assert |S[root] - S[x]| < m0 || (|S[root] - S[x]| == m0 && FarPhase(nodes, x) == 0 && f0 == 1);
    }

    /**
     * The switch of the fixupDelete loop with x a left child and a black
     * sibling w: when both of w's children are black, w turns red and x
     * moves up (case 2); when only its far child is black, w rotates right
     * (case 3); otherwise the parent rotates left and x becomes the root
     * (case 4).
     */
    method DeleteBlackSiblingLeft(x0: nat) returns (x: nat)
      requires DeleteInv(nodes, S, bh, root, Less, M, x0, 1) && x0 != root && IsBlack(nodes, x0)
      requires nodes[nodes[x0].parent].left == x0 && IsBlack(nodes, nodes[nodes[x0].parent].right)
      modifies this
      ensures |S| == |nodes| && root < |nodes| && x < |nodes|
      ensures M == old(M) && |nodes| == old(|nodes|) && nodes[Nil].payload == old(nodes[Nil].payload)
      ensures DeleteInv(nodes, S, bh, root, Less, M, x, 1)
      ensures |S[root] - S[x]| < old(|S[root] - S[x0]|) ||
              (|S[root] - S[x]| == old(|S[root] - S[x0]|) && FarPhase(nodes, x) == 0 && old(FarPhase(nodes, x0)) == 1)
    {
      DeleteFamily(nodes, S, bh, root, x0);
      x := x0;
      var w := nodes[nodes[x].parent].right;
      if nodes[nodes[w].left].color == Black && nodes[nodes[w].right].color == Black {
        x := DeleteRecolour(x);
      } else if nodes[nodes[w].right].color == Black {
        DeleteNearRedLeft(x);
      } else {
        assert DeficitAt(nodes, bh, nodes[x].parent, x, 1);
        x := DeleteFarRedLeft(x);
      }
    }

    /** Case 1, x a left child: the red sibling turns black, the parent red, and the parent rotates left. */
    method DeleteRedSiblingLeft(x: nat)
      requires DeleteInv(nodes, S, bh, root, Less, M, x, 1) && DelCase1LeftSetting(nodes, S, bh, root, x)
      modifies this
      ensures |S| == |nodes| && root < |nodes| && x < |nodes|
      ensures M == old(M) && bh == old(bh) && |nodes| == old(|nodes|) && nodes[Nil].payload == old(nodes[Nil].payload)
      ensures DeleteInv(nodes, S, bh, root, Less, M, x, 1) && x != root && IsBlack(nodes, x)
      ensures IsBlack(nodes, Sibling(nodes, x)) && nodes[nodes[x].parent].left == x
      ensures S[x] == old(S[x]) && S[root] == old(S[root]) && old(FarPhase(nodes, x)) == 1
    {
      ghost var a, S0, root0 := nodes, S, root;
      var p := nodes[x].parent;
      var w := nodes[p].right;
      var ns := nodes[w := nodes[w].(color := Black)];
      ns := ns[p := ns[p].(color := Red)];
      ghost var c := ns;
      RedSiblingLeftReady(a, S, bh, root, x, c);
      var r;
      ns, r := RotationLeft(ns, S, root, p);
      ghost var S' := LeftRotatedS(c, S, p);
      assert 0 < |ns| == |a| && ns[Nil].payload == a[Nil].payload;
      nodes, S, root := ns, S', r;
      assert M == old(M) && bh == old(bh);
      RedSiblingLeftRotated(a, S0, bh, root0, M, x, c, nodes, S, root);
    }

    /** Case 3, x a left child: the sibling's near child turns black, the sibling red, and the sibling rotates right. */
    method DeleteNearRedLeft(x: nat)
      requires DeleteInv(nodes, S, bh, root, Less, M, x, 1) && DelCase3LeftSetting(nodes, S, bh, root, x)
      modifies this
      ensures M == old(M) && bh == old(bh) && |nodes| == old(|nodes|) && nodes[Nil].payload == old(nodes[Nil].payload)
      ensures DeleteInv(nodes, S, bh, root, Less, M, x, 1)
      ensures S[x] == old(S[x]) && S[root] == old(S[root]) && FarPhase(nodes, x) == 0 && old(FarPhase(nodes, x)) == 1
    {
      ghost var a, S0, root0 := nodes, S, root;
      var w := nodes[nodes[x].parent].right;
      var ns := nodes[nodes[w].left := nodes[nodes[w].left].(color := Black)];
      ns := ns[w := ns[w].(color := Red)];
      ghost var c := ns;
      NearRedLeftReady(a, S, bh, root, x, c);
      var r;
      ns, r := RotationRight(ns, S, root, w);
      ghost var S' := RightRotatedS(c, S, w);
      assert 0 < |ns| == |a| && ns[Nil].payload == a[Nil].payload;
      nodes, S, root := ns, S', r;
      assert M == old(M) && bh == old(bh);
      NearRedLeftRotated(a, S0, bh, root0, M, x, c, nodes, S, root);
    }

    /**
     * Case 4, x a left child: the sibling takes the parent's colour, the
     * parent and the sibling's far child turn black, the parent rotates
     * left, and x becomes the root, which ends the repair.
     */
    method DeleteFarRedLeft(x0: nat) returns (x: nat)
      requires DeleteInv(nodes, S, bh, root, Less, M, x0, 1) && DelCase4LeftSetting(nodes, S, bh, root, x0)
      modifies this
      ensures M == old(M) && |nodes| == old(|nodes|) && nodes[Nil].payload == old(nodes[Nil].payload)
      ensures DeleteInv(nodes, S, bh, root, Less, M, x, 1) && x == root
      ensures |S[root] - S[x]| == 0 && old(|S[root] - S[x0]|) > 0
    {
      ghost var a, S0, bh0, root0 := nodes, S, bh, root;
      var p := nodes[x0].parent;
      var w := nodes[p].right;
      var ns := nodes[w := nodes[w].(color := nodes[p].color)];
      ns := ns[p := ns[p].(color := Black)];
      ns := ns[ns[w].right := ns[ns[w].right].(color := Black)];
      ghost var c := ns;
      FarRedLeftReady(a, S, bh, root, x0, c);
      var r;
      ns, r := RotationLeft(ns, S, root, p);
      assert |ns| == |c| && ns[Nil] == c[Nil];
      ghost var S', bh' := LeftRotatedS(c, S, p), DelCase4LeftBh(a, bh, x0);
      assert 0 < |ns| == |a| && ns[Nil].payload == a[Nil].payload && S'[r] - S'[r] == {};
      nodes, S, bh, root := ns, S', bh', r;
      x := root;
      assert M == old(M);
      FarRedLeftRotated(a, S0, bh0, root0, M, x0, c, nodes, S, bh, root);
    }

    /** delete when z has no left child: z's right child, maybe the sentinel, takes z's place. */
    method RemoveNoLeft(z: nat) returns (x: nat, yOriginalColor: Color)
      requires Valid() && z in S[root] && nodes[z].left == Nil
      modifies this
      ensures M == old(M) - {old(nodes[z].key)} && |nodes| == old(|nodes|) && nodes[Nil].payload == sentinelPayload
      ensures DeleteInv(nodes, S, bh, root, Less, M, x, if yOriginalColor == Black then 1 else 0)
      ensures yOriginalColor == Red ==> IsBlack(nodes, x)
    {
      Around(nodes, S, root, z);
      ghost var a, S0, root0, M0 := nodes, S, root, M;
      yOriginalColor := nodes[z].color;
      x := nodes[z].right;
      nodes, root := Transplanting(nodes, root, z, nodes[z].right);
      S := DeleteS(S, z, z);
      M := M - {a[z].key};
      ghost var d: nat := if yOriginalColor == Black then 1 else 0;
      assert 0 < |nodes| == |a| && nodes[Nil].payload == a[Nil].payload && M == old(M) - {old(nodes[z].key)};
      RemovedNoLeft(a, S0, bh, root0, M0, z, nodes, root, S, M, x, d);
    }

    // The mirror images: x a right child.

    /**
     * One turn of the fixupDelete loop with x a right child: a red sibling is
     * first made black by rotating the parent right (case 1), then the cases
     * for a black sibling follow.
     */
    method DeleteRepairRight(x0: nat) returns (x: nat)
      requires DeleteInv(nodes, S, bh, root, Less, M, x0, 1) && FixSetting(nodes, S, bh, root, x0)
      requires nodes[nodes[x0].parent].right == x0
      modifies this
      ensures M == old(M) && |nodes| == old(|nodes|) && nodes[Nil].payload == old(nodes[Nil].payload)
      ensures DeleteInv(nodes, S, bh, root, Less, M, x, 1)
      ensures |S[root] - S[x]| < old(|S[root] - S[x0]|) ||
              (|S[root] - S[x]| == old(|S[root] - S[x0]|) && FarPhase(nodes, x) < old(FarPhase(nodes, x0)))
    {
      DeleteFamily(nodes, S, bh, root, x0);
      ghost var m0, f0 := |S[root] - S[x0]|, FarPhase(nodes, x0);
      var w := nodes[nodes[x0].parent].left;
      if nodes[w].color == Red {
        DeleteRedSiblingRight(x0);
        assert |S[root] - S[x0]| == m0 && f0 == 1;
      }
      x := DeleteBlackSiblingRight(x0);
      assert |S[root] - S[x]| < m0 || (|S[root] - S[x]| == m0 && FarPhase(nodes, x) == 0 && f0 == 1);
    }

    /**
     * The switch of the fixupDelete loop with x a right child and a black
     * sibling w: when both of w's children are black, w turns red and x
     * moves up (case 2); when only its far child is black, w rotates left
     * (case 3); otherwise the parent rotates right and x becomes the root
     * (case 4).
     */
    method DeleteBlackSiblingRight(x0: nat) returns (x: nat)
      requires DeleteInv(nodes, S, bh, root, Less, M, x0, 1) && x0 != root && IsBlack(nodes, x0)
      requires nodes[nodes[x0].parent].right == x0 && IsBlack(nodes, nodes[nodes[x0].parent].left)
      modifies this
      ensures |S| == |nodes| && root < |nodes| && x < |nodes|
      ensures M == old(M) && |nodes| == old(|nodes|) && nodes[Nil].payload == old(nodes[Nil].payload)
      ensures DeleteInv(nodes, S, bh, root, Less, M, x, 1)
      ensures |S[root] - S[x]| < old(|S[root] - S[x0]|) ||
              (|S[root] - S[x]| == old(|S[root] - S[x0]|) && FarPhase(nodes, x) == 0 && old(FarPhase(nodes, x0)) == 1)
    {
      DeleteFamily(nodes, S, bh, root, x0);
      x := x0;
      var w := nodes[nodes[x].parent].left;
      if nodes[nodes[w].right].color == Black && nodes[nodes[w].left].color == Black {
        x := DeleteRecolour(x);
      } else if nodes[nodes[w].left].color == Black {
        DeleteNearRedRight(x);
      } else {
        assert DeficitAt(nodes, bh, nodes[x].parent, x, 1);
        x := DeleteFarRedRight(x);
      }
    }

    /** Case 1, x a right child: the red sibling turns black, the parent red, and the parent rotates right. */
    method DeleteRedSiblingRight(x: nat)
      requires DeleteInv(nodes, S, bh, root, Less, M, x, 1) && DelCase1RightSetting(nodes, S, bh, root, x)
      modifies this
      ensures |S| == |nodes| && root < |nodes| && x < |nodes|
      ensures M == old(M) && bh == old(bh) && |nodes| == old(|nodes|) && nodes[Nil].payload == old(nodes[Nil].payload)
      ensures DeleteInv(nodes, S, bh, root, Less, M, x, 1) && x != root && IsBlack(nodes, x)
      ensures IsBlack(nodes, Sibling(nodes, x)) && nodes[nodes[x].parent].right == x
      ensures S[x] == old(S[x]) && S[root] == old(S[root]) && old(FarPhase(nodes, x)) == 1
    {
      ghost var a, S0, root0 := nodes, S, root;
      var p := nodes[x].parent;
      var w := nodes[p].left;
      var ns := nodes[w := nodes[w].(color := Black)];
      ns := ns[p := ns[p].(color := Red)];
      ghost var c := ns;
      RedSiblingRightReady(a, S, bh, root, x, c);
      var r;
      ns, r := RotationRight(ns, S, root, p);
      ghost var S' := RightRotatedS(c, S, p);
      assert 0 < |ns| == |a| && ns[Nil].payload == a[Nil].payload;
      nodes, S, root := ns, S', r;
      assert M == old(M) && bh == old(bh);
      RedSiblingRightRotated(a, S0, bh, root0, M, x, c, nodes, S, root);
    }

    /** Case 3, x a right child: the sibling's near child turns black, the sibling red, and the sibling rotates left. */
    method DeleteNearRedRight(x: nat)
      requires DeleteInv(nodes, S, bh, root, Less, M, x, 1) && DelCase3RightSetting(nodes, S, bh, root, x)
      modifies this
      ensures M == old(M) && bh == old(bh) && |nodes| == old(|nodes|) && nodes[Nil].payload == old(nodes[Nil].payload)
      ensures DeleteInv(nodes, S, bh, root, Less, M, x, 1)
      ensures S[x] == old(S[x]) && S[root] == old(S[root]) && FarPhase(nodes, x) == 0 && old(FarPhase(nodes, x)) == 1
    {
      ghost var a, S0, root0 := nodes, S, root;
      var w := nodes[nodes[x].parent].left;
      var ns := nodes[nodes[w].right := nodes[nodes[w].right].(color := Black)];
      ns := ns[w := ns[w].(color := Red)];
      ghost var c := ns;
      NearRedRightReady(a, S, bh, root, x, c);
      var r;
      ns, r := RotationLeft(ns, S, root, w);
      ghost var S' := LeftRotatedS(c, S, w);
      assert 0 < |ns| == |a| && ns[Nil].payload == a[Nil].payload;
      nodes, S, root := ns, S', r;
      assert M == old(M) && bh == old(bh);
      NearRedRightRotated(a, S0, bh, root0, M, x, c, nodes, S, root);
    }

    /**
     * Case 4, x a right child: the sibling takes the parent's colour, the
     * parent and the sibling's far child turn black, the parent rotates
     * right, and x becomes the root, which ends the repair.
     */
    method DeleteFarRedRight(x0: nat) returns (x: nat)
      requires DeleteInv(nodes, S, bh, root, Less, M, x0, 1) && DelCase4RightSetting(nodes, S, bh, root, x0)
      modifies this
      ensures M == old(M) && |nodes| == old(|nodes|) && nodes[Nil].payload == old(nodes[Nil].payload)
      ensures DeleteInv(nodes, S, bh, root, Less, M, x, 1) && x == root
      ensures |S[root] - S[x]| == 0 && old(|S[root] - S[x0]|) > 0
    {
      ghost var a, S0, bh0, root0 := nodes, S, bh, root;
      var p := nodes[x0].parent;
      var w := nodes[p].left;
      var ns := nodes[w := nodes[w].(color := nodes[p].color)];
      ns := ns[p := ns[p].(color := Black)];
      ns := ns[ns[w].left := ns[ns[w].left].(color := Black)];
      ghost var c := ns;
      FarRedRightReady(a, S, bh, root, x0, c);
      var r;
      ns, r := RotationRight(ns, S, root, p);
      assert |ns| == |c| && ns[Nil] == c[Nil];
      ghost var S', bh' := RightRotatedS(c, S, p), DelCase4RightBh(a, bh, x0);
      assert 0 < |ns| == |a| && ns[Nil].payload == a[Nil].payload && S'[r] - S'[r] == {};
      nodes, S, bh, root := ns, S', bh', r;
      x := root;
      assert M == old(M);
      FarRedRightRotated(a, S0, bh0, root0, M, x0, c, nodes, S, bh, root);
    }

    /** delete when z has no right child: z's left child, maybe the sentinel, takes z's place. */
    method RemoveNoRight(z: nat) returns (x: nat, yOriginalColor: Color)
      requires Valid() && z in S[root] && nodes[z].right == Nil
      modifies this
      ensures M == old(M) - {old(nodes[z].key)} && |nodes| == old(|nodes|) && nodes[Nil].payload == sentinelPayload
      ensures DeleteInv(nodes, S, bh, root, Less, M, x, if yOriginalColor == Black then 1 else 0)
      ensures yOriginalColor == Red ==> IsBlack(nodes, x)
    {
      Around(nodes, S, root, z);
      ghost var a, S0, root0, M0 := nodes, S, root, M;
      yOriginalColor := nodes[z].color;
      x := nodes[z].left;
      nodes, root := Transplanting(nodes, root, z, nodes[z].left);
      S := DeleteS(S, z, z);
      M := M - {a[z].key};
      ghost var d: nat := if yOriginalColor == Black then 1 else 0;
      assert 0 < |nodes| == |a| && nodes[Nil].payload == a[Nil].payload && M == old(M) - {old(nodes[z].key)};
      RemovedNoRight(a, S0, bh, root0, M0, z, nodes, root, S, M, x, d);
    }
  }

  /** Upsert's overwrite: the node search found holds the key, and overwriting it keeps the tree valid. */
  lemma PayloadOverwritten<P>(nodes: seq<Node<int, P>>, S: seq<set<nat>>, bh: seq<nat>, root: nat, M: map<int, P>,
                              key: int, p: P, n: nat, b: seq<Node<int, P>>)
    requires RbValid(nodes, S, bh, root, Less, M) && n == Find(nodes, S, root, Less, key, root) && n in S[root]
    requires b == nodes[n := nodes[n].(payload := p)]
    ensures key in M && RbValid(b, S, bh, root, Less, M[key := p])
  {
    LessIsTotal();
    FindContents(nodes, S, root, Less, M, key);
    Overwritten(nodes, S, bh, root, Less, M, n, p, b, M[key := p]);
  }

  /** When search stops at the sentinel, the key is not in the tree. */
  lemma KeyAbsent<P>(nodes: seq<Node<int, P>>, S: seq<set<nat>>, bh: seq<nat>, root: nat, M: map<int, P>, key: int)
    requires RbValid(nodes, S, bh, root, Less, M) && Find(nodes, S, root, Less, key, root) == Nil
    ensures key !in M
  {
    LessIsTotal();
    FindContents(nodes, S, root, Less, M, key);
  }

  /**
   * Case 3 of fixupInsert with the parent a left child: the recolouring
   * followed by the pointer updates of rotateRight at the grandparent
   * restore every invariant but the root's colour.
   */
  lemma Case3LeftRotated<P>(a: seq<Node<int, P>>, S: seq<set<nat>>, bh: seq<nat>, root: nat, M: map<int, P>,
                            z: nat, c: seq<Node<int, P>>, b: seq<Node<int, P>>, root': nat)
    requires InsertInv(a, S, bh, root, Less, M, z) && Case3LeftSetting(a, S, bh, root, z)
    requires c == Case3Colour(a, z) && Recoloured(a, c) && Shaped(c, S, root)
    requires RotatedRight(c, root, a[a[z].parent].parent, b, root')
    ensures InsertInv(b, RightRotatedS(c, S, a[a[z].parent].parent), bh, root', Less, M, z)
    ensures IsBlack(b, b[z].parent)
  {
    Family(a, S, bh, root, z);
    var g := a[a[z].parent].parent;
    assert g in S[root] && c[g].left != Nil;
    LessIsTotal();
    RotateRightKeeps(c, S, root, Less, M, g, b, root');
    InsertCase3Left(a, S, bh, root, Less, M, z, c, b, RightRotatedS(c, S, g), root');
  }

  /** The mirror image: the parent a right child, rotateLeft at the grandparent. */
  lemma Case3RightRotated<P>(a: seq<Node<int, P>>, S: seq<set<nat>>, bh: seq<nat>, root: nat, M: map<int, P>,
                             z: nat, c: seq<Node<int, P>>, b: seq<Node<int, P>>, root': nat)
    requires InsertInv(a, S, bh, root, Less, M, z) && Case3RightSetting(a, S, bh, root, z)
    requires c == Case3Colour(a, z) && Recoloured(a, c) && Shaped(c, S, root)
    requires RotatedLeft(c, root, a[a[z].parent].parent, b, root')
    ensures InsertInv(b, LeftRotatedS(c, S, a[a[z].parent].parent), bh, root', Less, M, z)
    ensures IsBlack(b, b[z].parent)
  {
    Family(a, S, bh, root, z);
    var g := a[a[z].parent].parent;
    assert g in S[root] && c[g].right != Nil;
    LessIsTotal();
    RotateLeftKeeps(c, S, root, Less, M, g, b, root');
    InsertCase3Right(a, S, bh, root, Less, M, z, c, b, LeftRotatedS(c, S, g), root');
  }


  /** Removing z, which has two children, by splicing in y, the leftmost node of its right subtree. */
  lemma RemovedTwo<P>(a: seq<Node<int, P>>, S: seq<set<nat>>, bh: seq<nat>, root: nat, M: map<int, P>,
                      z: nat, y: nat, b: seq<Node<int, P>>, root': nat,
                      S': seq<set<nat>>, bh': seq<nat>, M': map<int, P>, x: nat, d: nat)
    requires RbValid(a, S, bh, root, Less, M) && z in S[root] && a[z].left != Nil && a[z].right != Nil
    requires a[z].right in S[root] && y == LeftMost(a, S, root, a[z].right) && Spliced(a, root, z, y, b, root')
    requires S' == DeleteS(S, z, y) && bh' == TwoBh(bh, z, y) && M' == M - {a[z].key}
    requires x == a[y].right && d == if IsBlack(a, y) then 1 else 0
    ensures d == 0 ==> IsBlack(b, x)
    ensures DeleteInv(b, S', bh', root', Less, M', x, d)
  {
    LessIsTotal();
    TwoChildren(a, S, bh, root, Less, M, z, y, b, root');
  }




  /** Case 1 with the key order of the tree: the rotation keeps x's deficit, and x now has a black sibling. */
  lemma RedSiblingLeftRotated<P>(a: seq<Node<int, P>>, S: seq<set<nat>>, bh: seq<nat>, root: nat, M: map<int, P>,
                                 x: nat, c: seq<Node<int, P>>, b: seq<Node<int, P>>, S': seq<set<nat>>, root': nat)
    requires DeleteInv(a, S, bh, root, Less, M, x, 1) && DelCase1LeftSetting(a, S, bh, root, x)
    requires c == DelCase1LeftColour(a, x) && Shaped(c, S, root)
    requires RotatedLeft(c, root, a[x].parent, b, root') && S' == LeftRotatedS(c, S, a[x].parent)
    ensures S'[x] == S[x] && S'[root'] == S[root] && InArena(b) && x < |b|
    ensures x != root' && IsBlack(b, x) && b[b[x].parent].left == x && IsBlack(b, Sibling(b, x))
    ensures DeleteInv(b, S', bh, root', Less, M, x, 1)
  {
    LessIsTotal();
    DelCase1Left(a, S, bh, root, Less, M, x, c, b, S', root');
  }


  /** Case 3 with the key order of the tree: x keeps its deficit, and the new sibling's far child is red. */
  lemma NearRedLeftRotated<P>(a: seq<Node<int, P>>, S: seq<set<nat>>, bh: seq<nat>, root: nat, M: map<int, P>,
                              x: nat, c: seq<Node<int, P>>, b: seq<Node<int, P>>, S': seq<set<nat>>, root': nat)
    requires DeleteInv(a, S, bh, root, Less, M, x, 1) && DelCase3LeftSetting(a, S, bh, root, x)
    requires c == DelCase3LeftColour(a, x) && Shaped(c, S, root)
    requires RotatedRight(c, root, a[a[x].parent].right, b, root') && S' == RightRotatedS(c, S, a[a[x].parent].right)
    ensures S'[x] == S[x] && S'[root'] == S[root]
    ensures DeleteInv(b, S', bh, root', Less, M, x, 1) && x != root' && IsBlack(b, x) && FarPhase(b, x) == 0
  {
    LessIsTotal();
    DelCase3Left(a, S, bh, root, Less, M, x, b, root');
  }


  /** Case 4 with the key order of the tree: the missing black node is restored at the new root of the subtree. */
  lemma FarRedLeftRotated<P>(a: seq<Node<int, P>>, S: seq<set<nat>>, bh: seq<nat>, root: nat, M: map<int, P>,
                             x: nat, c: seq<Node<int, P>>, b: seq<Node<int, P>>, S': seq<set<nat>>, bh': seq<nat>, root': nat)
    requires DeleteInv(a, S, bh, root, Less, M, x, 1) && DelCase4LeftSetting(a, S, bh, root, x)
    requires c == DelCase4LeftColour(a, x) && InArena(c)
    requires RotatedLeft(c, root, a[x].parent, b, root') && S' == LeftRotatedS(c, S, a[x].parent)
    requires bh' == DelCase4LeftBh(a, bh, x)
    ensures S'[root'] == S[root] && |S[root] - S[x]| > 0
    ensures DeleteInv(b, S', bh', root', Less, M, root', 1)
  {
    LessIsTotal();
    DelCase4Left(a, S, bh, root, Less, M, x, b, root');
  }

  /** Removing z, which has no left child, with the key order of the tree. */
  lemma RemovedNoLeft<P>(a: seq<Node<int, P>>, S: seq<set<nat>>, bh: seq<nat>, root: nat, M: map<int, P>,
                         z: nat, b: seq<Node<int, P>>, root': nat, S': seq<set<nat>>, M': map<int, P>, x: nat, d: nat)
    requires RbValid(a, S, bh, root, Less, M) && z in S[root] && a[z].left == Nil
    requires Transplanted(a, root, z, a[z].right, b, root')
    requires S' == DeleteS(S, z, z) && M' == M - {a[z].key} && x == a[z].right && d == if IsBlack(a, z) then 1 else 0
    ensures d == 0 ==> IsBlack(b, x)
    ensures DeleteInv(b, S', bh, root', Less, M', x, d)
  {
    LessIsTotal();
    NoLeft(a, S, bh, root, Less, M, z, b, root');
  }

  // The mirror images: x a right child.


  /** Case 1 with the key order of the tree: the rotation keeps x's deficit, and x now has a black sibling. */
  lemma RedSiblingRightRotated<P>(a: seq<Node<int, P>>, S: seq<set<nat>>, bh: seq<nat>, root: nat, M: map<int, P>,
                                 x: nat, c: seq<Node<int, P>>, b: seq<Node<int, P>>, S': seq<set<nat>>, root': nat)
    requires DeleteInv(a, S, bh, root, Less, M, x, 1) && DelCase1RightSetting(a, S, bh, root, x)
    requires c == DelCase1RightColour(a, x) && Shaped(c, S, root)
    requires RotatedRight(c, root, a[x].parent, b, root') && S' == RightRotatedS(c, S, a[x].parent)
    ensures S'[x] == S[x] && S'[root'] == S[root] && InArena(b) && x < |b|
    ensures x != root' && IsBlack(b, x) && b[b[x].parent].right == x && IsBlack(b, Sibling(b, x))
    ensures DeleteInv(b, S', bh, root', Less, M, x, 1)
  {
    LessIsTotal();
    DelCase1Right(a, S, bh, root, Less, M, x, c, b, S', root');
  }


  /** Case 3 with the key order of the tree: x keeps its deficit, and the new sibling's far child is red. */
  lemma NearRedRightRotated<P>(a: seq<Node<int, P>>, S: seq<set<nat>>, bh: seq<nat>, root: nat, M: map<int, P>,
                              x: nat, c: seq<Node<int, P>>, b: seq<Node<int, P>>, S': seq<set<nat>>, root': nat)
    requires DeleteInv(a, S, bh, root, Less, M, x, 1) && DelCase3RightSetting(a, S, bh, root, x)
    requires c == DelCase3RightColour(a, x) && Shaped(c, S, root)
    requires RotatedLeft(c, root, a[a[x].parent].left, b, root') && S' == LeftRotatedS(c, S, a[a[x].parent].left)
    ensures S'[x] == S[x] && S'[root'] == S[root]
    ensures DeleteInv(b, S', bh, root', Less, M, x, 1) && x != root' && IsBlack(b, x) && FarPhase(b, x) == 0
  {
    LessIsTotal();
    DelCase3Right(a, S, bh, root, Less, M, x, b, root');
  }


  /** Case 4 with the key order of the tree: the missing black node is restored at the new root of the subtree. */
  lemma FarRedRightRotated<P>(a: seq<Node<int, P>>, S: seq<set<nat>>, bh: seq<nat>, root: nat, M: map<int, P>,
                             x: nat, c: seq<Node<int, P>>, b: seq<Node<int, P>>, S': seq<set<nat>>, bh': seq<nat>, root': nat)
    requires DeleteInv(a, S, bh, root, Less, M, x, 1) && DelCase4RightSetting(a, S, bh, root, x)
    requires c == DelCase4RightColour(a, x) && InArena(c)
    requires RotatedRight(c, root, a[x].parent, b, root') && S' == RightRotatedS(c, S, a[x].parent)
    requires bh' == DelCase4RightBh(a, bh, x)
    ensures S'[root'] == S[root] && |S[root] - S[x]| > 0
    ensures DeleteInv(b, S', bh', root', Less, M, root', 1)
  {
    LessIsTotal();
    DelCase4Right(a, S, bh, root, Less, M, x, b, root');
  }

  /** Removing z, which has no right child, with the key order of the tree. */
  lemma RemovedNoRight<P>(a: seq<Node<int, P>>, S: seq<set<nat>>, bh: seq<nat>, root: nat, M: map<int, P>,
                         z: nat, b: seq<Node<int, P>>, root': nat, S': seq<set<nat>>, M': map<int, P>, x: nat, d: nat)
    requires RbValid(a, S, bh, root, Less, M) && z in S[root] && a[z].right == Nil
    requires Transplanted(a, root, z, a[z].left, b, root')
    requires S' == DeleteS(S, z, z) && M' == M - {a[z].key} && x == a[z].left && d == if IsBlack(a, z) then 1 else 0
    ensures d == 0 ==> IsBlack(b, x)
    ensures DeleteInv(b, S', bh, root', Less, M', x, d)
  {
    LessIsTotal();
    NoRight(a, S, bh, root, Less, M, z, b, root');
  }

  /**
   * resultsInorder: appends the subtree at z to res, left subtree first,
   * then z, then the right subtree. It reads the nodes and changes none.
   */
  method ResultsInOrder<P>(nodes: seq<Node<int, P>>, ghost S: seq<set<nat>>, ghost root: nat, z: nat,
                           res: seq<Entry<int, P>>) returns (out: seq<Entry<int, P>>)
    requires Shaped(nodes, S, root) && (z == Nil || z in S[root])
    ensures out == res + Listing(nodes, S, root, z)
    decreases S[z]
  {
    if z == Nil {
      return res;
    }
    ChildLive(nodes, S, root, z);
    ghost var l, e, r := nodes[z].left, EntryOf(nodes[z]), nodes[z].right;
    ghost var L := if l != Nil then Listing(nodes, S, root, l) else [];
    ghost var R := if r != Nil then Listing(nodes, S, root, r) else [];
    assert Listing(nodes, S, root, z) == L + [e] + R;
    out := res;
    if nodes[z].left != Nil {
      out := ResultsInOrder(nodes, S, root, nodes[z].left, out);
    }
    assert out == res + L;
    out := out + [Entry(nodes[z].key, nodes[z].payload)];
    assert out == res + L + [e];
    if nodes[z].right != Nil {
      out := ResultsInOrder(nodes, S, root, nodes[z].right, out);
    }
    assert out == res + L + [e] + R;
    AppendAssoc(res, L + [e], R);
    AppendAssoc(res, L, [e]);
  }

  /** At most one key is next after k. */
  lemma NextUnique<P>(M: map<int, P>, k: int)
    ensures forall a, b :: IsNextKey(M, Less, k, a) && IsNextKey(M, Less, k, b) ==> a == b
  {
  }

  lemma NoNextKey<P>(M: map<int, P>, k: int)
    requires NoKeyAfter(M, Less, k)
    ensures forall a :: !IsNextKey(M, Less, k, a)
  {
  }

  lemma NextExcludesLast<P>(M: map<int, P>, k: int, a: int)
    requires IsNextKey(M, Less, k, a)
    ensures !NoKeyAfter(M, Less, k)
  {
  }

  /**
   * The input that shows Successor's missing sentinel test: on a tree
   * holding only the key 5, the successor of 5 as written is the sentinel's
   * payload, where the checked version gives nil.
   */
  method GreatestKeySuccessor() returns (asWritten: Option<string>, checked: Option<string>)
    ensures asWritten == Some("sentinel")
    ensures checked == None
  {
    var t := new Tree<string>("sentinel");
    t.Upsert(5, "five");
    assert t.M == map[5 := "five"];
    asWritten := t.Successor(5);
    checked := t.SuccessorChecked(5);
  }

  /**
   * One key through the tree's life: inserted, found, overwritten, found
   * with its new payload, deleted, after which the tree is empty again.
   */
  method SingleKeyLifecycle() returns (found: Option<string>, overwritten: Option<string>, h: int, gone: Option<string>)
    ensures found == Some("a") && overwritten == Some("b")
    ensures h == -1 && gone == None
  {
    var t := new Tree<string>("");
    t.Upsert(3, "a");
    found := t.Search(3);
    t.Upsert(3, "b");
    overwritten := t.Search(3);
    t.Delete(3);
    assert t.M == map[];
    h := t.Height();
    gone := t.Root();
  }
}

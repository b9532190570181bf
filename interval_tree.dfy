/**
 * The interval tree of the interval package: the red-black engine with
 * interval keys in lexicographic order, and in every node the field max,
 * the greatest high in the node's subtree, which the overlap searches use to
 * prune. The tree object owns the arena of nodes (index 0 is the black
 * sentinel), the parallel sequence of max fields and the index of the root.
 *
 * The rotations and the refresh after a removal are modelled as corrected:
 * each rotation refreshes both nodes it moves, and the refresh after a
 * removal starts at the sentinel's parent when the node that moved up is the
 * sentinel. The module IntervalMax keeps the source's own refreshes and the
 * trees on which they leave a field out of date.
 */
module IntervalTree {
  import opened RbCore
  import opened RbOrder
  import opened RbRotate
  import opened RbInsert
  import opened RbDelete
  import opened RbQuery
  import opened RbListing
  import opened Intervals
  import opened IntervalMax
  import opened IntervalSearch

  /** The source's Result: an interval and its payload, the entry of the listing. */
  type Result<P> = Entry<Interval, P>

  /** A value, or the source's ErrNotFound with its message. */
  datatype Outcome<T> = Success(value: T) | ErrNotFound(msg: string)

  /** The message of Root and Min on an empty tree. */
  const EmptyTreeMsg := "tree is empty"

  /** The message of the overlap searches when nothing overlaps (the key is not formatted into it). */
  const NoIntervalErrMsg := "no interval found for %q"

  class Tree<P> {
    var nodes: seq<Node<Interval, P>>
    /** max[i] is the max field of node i. */
    var max: seq<int>
    var root: nat
    /** The payload the sentinel carries; the source gives it the string "sentinel". */
    const sentinelPayload: P
    ghost var S: seq<set<nat>>
    ghost var bh: seq<nat>
    ghost var M: map<Interval, P>

    /** The red-black invariants and the max augmentation hold, and the tree holds the entries of M. */
    ghost predicate Valid()
      reads this
    {
      RbValid(nodes, S, bh, root, Less, M) && MaxInv(nodes, S, root, max) && nodes[Nil].payload == sentinelPayload
    }

    /** NewIntervalTree: an empty tree, whose root is the sentinel. */
    constructor (sentinelPayload: P)
      ensures Valid() && M == map[] && root == Nil && this.sentinelPayload == sentinelPayload
    {
      nodes := [Node(Interval(0, 0), Black, Nil, Nil, Nil, sentinelPayload)];
      max := [0];
      root := Nil;
      this.sentinelPayload := sentinelPayload;
      S := [{}];
      bh := [0];
      M := map[];
    }

    /** The tree is empty exactly when its root is the sentinel. */
    lemma EmptyIffNoRoot()
      requires Valid()
      ensures root == Nil <==> M == map[]
      ensures root != Nil ==> nodes[root].key in M && M[nodes[root].key] == nodes[root].payload
    {
      if root != Nil {
        assert root in S[root];
      }
    }

    /** Root: ErrNotFound on an empty tree, else the root's interval and payload, an entry of the tree. */
    method Root() returns (r: Outcome<Result<P>>)
      requires Valid()
      ensures r.ErrNotFound? <==> M == map[]
      ensures r.ErrNotFound? ==> r.msg == EmptyTreeMsg
      ensures r.Success? ==> r.value.key == nodes[root].key && r.value.payload == nodes[root].payload
      ensures r.Success? ==> r.value.key in M && M[r.value.key] == r.value.payload
    {
      EmptyIffNoRoot();
      if root == Nil {
        return ErrNotFound(EmptyTreeMsg);
      }
      return Success(Entry(nodes[root].key, nodes[root].payload));
    }

    /**
     * Height: -1 on an empty tree; otherwise one more than the taller
     * subtree. It is logarithmic in the number of entries.
     */
    method Height() returns (h: int)
      requires Valid()
      ensures h == RbQuery.Height(nodes, S, root, root)
      ensures h >= -1 && (h == -1 <==> M == map[])
      ensures Pow2((h + 1) / 2) <= |M| + 1
    {
      h := RbQuery.Height(nodes, S, root, root);
      HeightRange(nodes, S, root, root);
      HeightLogarithmic(nodes, S, bh, root);
      EmptyIffNoRoot();
      IntervalLessTotal();
      SizeOfContents(nodes, S, root, Less, M);
    }

    /** min: follow left links from z to the end; the result is z's leftmost node (the sentinel for the sentinel). */
    method MinNode(z: nat) returns (m: nat)
      requires Valid() && (z == Nil || z in S[root])
      ensures z == Nil ==> m == Nil
      ensures z != Nil ==> m == LeftMost(nodes, S, root, z)
      ensures z != Nil ==> (m in S[z] && nodes[m].left == Nil &&
                            forall n :: n in S[z] && n != m ==> Less(nodes[m].key, nodes[n].key))
      ensures z != Nil && m != z ==> nodes[m].parent in S[z] && nodes[nodes[m].parent].left == m
    {
      m := z;
      while m != Nil && nodes[m].left != Nil
        invariant m == Nil <==> z == Nil
        invariant m != Nil ==> m in S[root] && LeftMost(nodes, S, root, m) == LeftMost(nodes, S, root, z)
        decreases S[m]
      {
        ChildLive(nodes, S, root, m);
        m := nodes[m].left;
      }
      if z != Nil {
        IntervalLessTotal();
        LeftMostLeast(nodes, S, root, Less, z);
      }
    }

    /** Min: ErrNotFound on an empty tree, else the least interval and its payload. */
    method Min() returns (r: Outcome<Result<P>>)
      requires Valid()
      ensures r.ErrNotFound? <==> M == map[]
      ensures r.ErrNotFound? ==> r.msg == EmptyTreeMsg
      ensures r.Success? ==> IsLeastKey(M, Less, r.value.key) && r.value.payload == M[r.value.key]
    {
      EmptyIffNoRoot();
      var n := MinNode(root);
      if n == Nil {
        return ErrNotFound(EmptyTreeMsg);
      }
      IntervalLessTotal();
      ExtremesOfContents(nodes, S, root, Less, M);
      assert IsLeastKey(M, Less, nodes[n].key);
      return Success(Entry(nodes[n].key, nodes[n].payload));
    }

    /** isLeaf: both children are the sentinel. */
    predicate IsLeaf(z: nat)
      reads this
      requires z < |nodes|
    {
      nodes[z].left == Nil && nodes[z].right == Nil
    }

    /**
     * updateMax: z's field becomes its own high, raised to the field of its
     * right child and then of its left child, children that are the sentinel
     * skipped. Nothing else changes.
     */
    method UpdateMax(z: nat)
      requires InArena(nodes) && |max| == |nodes| && z < |nodes|
      modifies this
      ensures nodes == old(nodes) && root == old(root) && S == old(S) && bh == old(bh) && M == old(M)
      ensures max == old(max)[z := UpdatedMax(nodes, old(max), z)]
    {
      var m := nodes[z].key.high;
      if nodes[z].right != Nil && max[nodes[z].right] > m {
        m := max[nodes[z].right];
      }
      if nodes[z].left != Nil && max[nodes[z].left] > m {
        m := max[nodes[z].left];
      }
      max := max[z := m];
    }

    /**
     * findExact: the descent from z0 by the key order; it stops at the node
     * holding key, or at the sentinel when no node does.
     */
    method FindExact(z0: nat, key: Interval) returns (z: nat)
      requires Valid() && (z0 == Nil || z0 in S[root])
      ensures z == Find(nodes, S, root, Less, key, z0)
      ensures z == Nil || (z in S[z0] && nodes[z].key == key)
      ensures z == Nil <==> forall n :: n in S[z0] ==> nodes[n].key != key
    {
      IntervalLessTotal();
      FindInSubtree(nodes, S, root, Less, key, z0);
      z := z0;
      while z != Nil && nodes[z].key != key
        invariant z == Nil || z in S[root]
        invariant Find(nodes, S, root, Less, key, z) == Find(nodes, S, root, Less, key, z0)
        decreases S[z]
      {
        ChildLive(nodes, S, root, z);
        if Less(nodes[z].key, key) {
          z := nodes[z].right;
        } else {
          z := nodes[z].left;
        }
      }
    }

    /**
     * newLeaf: a fresh node holding key and payload, with sentinel children
     * and its field set to the key's high, appended to the arena. Its parent
     * and colour are set by insert.
     */
    method NewLeaf(key: Interval, payload: P) returns (z: nat)
      modifies this
      ensures z == |old(nodes)| && nodes == old(nodes) + [Node(key, Red, Nil, Nil, Nil, payload)]
      ensures max == old(max) + [key.high]
      ensures root == old(root) && S == old(S) && bh == old(bh) && M == old(M)
      ensures IsLeaf(z)
    {
      z := |nodes|;
      nodes := nodes + [Node(key, Red, Nil, Nil, Nil, payload)];
      max := max + [key.high];
    }

    // -------------------------------------------------------------------
    // Rotations.
    // -------------------------------------------------------------------

    /**
     * rotateLeft, corrected: x's right child y takes x's place under x's
     * parent (or as the root), y's left subtree becomes x's right subtree,
     * and x becomes y's left child; then the fields of x and of y are
     * refreshed, in that order. Keys, payloads and colours stay where they are.
     */
    method RotateLeft(x: nat)
      requires Shaped(nodes, S, root) && x in S[root] && nodes[x].right != Nil && |max| == |nodes|
      modifies this
      ensures RotatedLeft(old(nodes), old(root), x, nodes, root)
      ensures S == LeftRotatedS(old(nodes), old(S), x) && bh == old(bh) && M == old(M)
      ensures Shaped(nodes, S, root) && S[root] == old(S[root]) && nodes[Nil] == old(nodes[Nil])
      ensures max == RotationRefresh(nodes, old(max), x)
      ensures old(Ordered(nodes, S, root, Less)) ==> Ordered(nodes, S, root, Less)
      ensures old(Abstracts(nodes, S, root, M)) ==> Abstracts(nodes, S, root, M)
      ensures old(MaxInv(nodes, S, root, max)) ==> MaxInv(nodes, S, root, max)
    {
      ghost var a, S0, root0, max0 := nodes, S, root, max;
      nodes, root := RotationLeft(nodes, S, root, x);
      S := LeftRotatedS(a, S0, x);
      assert InArena(nodes) by {
        RotateLeftShaped(a, S0, root0, x, nodes, root);
      }
      UpdateMax(x);
      UpdateMax(nodes[x].parent);
      RotateLeftRefreshed(a, S0, root0, M, x, nodes, root, max0);
    }

    /** rotateRight, corrected: the mirror image of rotateLeft; x's field is refreshed, then that of y, its new parent. */
    method RotateRight(x: nat)
      requires Shaped(nodes, S, root) && x in S[root] && nodes[x].left != Nil && |max| == |nodes|
      modifies this
      ensures RotatedRight(old(nodes), old(root), x, nodes, root)
      ensures S == RightRotatedS(old(nodes), old(S), x) && bh == old(bh) && M == old(M)
      ensures Shaped(nodes, S, root) && S[root] == old(S[root]) && nodes[Nil] == old(nodes[Nil])
      ensures max == RotationRefresh(nodes, old(max), x)
      ensures old(Ordered(nodes, S, root, Less)) ==> Ordered(nodes, S, root, Less)
      ensures old(Abstracts(nodes, S, root, M)) ==> Abstracts(nodes, S, root, M)
      ensures old(MaxInv(nodes, S, root, max)) ==> MaxInv(nodes, S, root, max)
    {
      ghost var a, S0, root0, max0 := nodes, S, root, max;
      nodes, root := RotationRight(nodes, S, root, x);
      S := RightRotatedS(a, S0, x);
      assert InArena(nodes) by {
        RotateRightShaped(a, S0, root0, x, nodes, root);
      }
      UpdateMax(x);
      UpdateMax(nodes[x].parent);
      RotateRightRefreshed(a, S0, root0, M, x, nodes, root, max0);
    }

    /** rotateLeft as the source writes it: the same pointer updates, then updateMax on x alone. */
    method RotateLeftAsWritten(x: nat)
      requires Shaped(nodes, S, root) && x in S[root] && nodes[x].right != Nil && |max| == |nodes|
      modifies this
      ensures RotatedLeft(old(nodes), old(root), x, nodes, root)
      ensures InArena(nodes) && |max| == |nodes| && x < |nodes|
      ensures max == LeftRefreshAsWritten(nodes, old(max), x)
      ensures S == old(S) && bh == old(bh) && M == old(M)
    {
      ghost var a := nodes;
      nodes, root := RotationLeft(nodes, S, root, x);
      assert InArena(nodes) by {
        RotateLeftShaped(a, S, old(root), x, nodes, root);
      }
      UpdateMax(x);
    }

    /** rotateRight as the source writes it: the same pointer updates, then updateMax on y, x's new parent, alone. */
    method RotateRightAsWritten(x: nat)
      requires Shaped(nodes, S, root) && x in S[root] && nodes[x].left != Nil && |max| == |nodes|
      modifies this
      ensures RotatedRight(old(nodes), old(root), x, nodes, root)
      ensures InArena(nodes) && |max| == |nodes| && x < |nodes|
      ensures max == RightRefreshAsWritten(nodes, old(max), x)
      ensures S == old(S) && bh == old(bh) && M == old(M)
    {
      ghost var a := nodes;
      nodes, root := RotationRight(nodes, S, root, x);
      assert InArena(nodes) by {
        RotateRightShaped(a, S, old(root), x, nodes, root);
      }
      UpdateMax(nodes[x].parent);
    }

    // -------------------------------------------------------------------
    // Insertion.
    // -------------------------------------------------------------------

    /**
     * insert: walk down from the root to the place of the new leaf z,
     * raising the fields on the way, hang z there as a red leaf with
     * sentinel children, then repair the colours.
     */
    method Insert(z: nat)
      requires 0 < z && z == |nodes| - 1 && |max| == |nodes|
      requires RbValid(nodes[..z], S, bh, root, Less, M) && nodes[Nil].payload == sentinelPayload
      requires MaxInv(nodes[..z], S, root, max[..z]) && max[z] == nodes[z].key.high
      requires nodes[z].key !in M
      modifies this
      ensures Valid() && M == old(M)[old(nodes[z].key) := old(nodes[z].payload)]
      ensures |nodes| == old(|nodes|)
    {
      ghost var max0 := max;
      forall n | n in S[root] ensures nodes[n].key != nodes[z].key {
        assert nodes[n] == nodes[..z][n];
      }
      var y := Descend(z);
      Hang(z, y, max0);
    }

    /**
     * The rest of insert once the descent has stopped at y: the links that
     * hang z below y (or make it the root), z red with sentinel children,
     * then the colour repair. max0 holds the fields from before the descent.
     */
    method Hang(z: nat, y: nat, ghost max0: seq<int>)
      requires 0 < z && z == |nodes| - 1 && |max0| == |nodes| && y < z
      requires RbValid(nodes[..z], S, bh, root, Less, M) && nodes[Nil].payload == sentinelPayload
      requires MaxInv(nodes[..z], S, root, max0[..z]) && max0[z] == nodes[z].key.high
      requires nodes[z].key !in M && AttachPoint(nodes[..z], S, root, Less, nodes[z].key, y)
      requires max == Raised(max0, S, root, y, nodes[z].key.high)
      modifies this
      ensures Valid() && M == old(M)[old(nodes[z].key) := old(nodes[z].payload)]
      ensures |nodes| == old(|nodes|)
    {
      ghost var a, S0, bh0, M0, root0 := nodes[..z], S, bh, M, root;
      ghost var k, p := nodes[z].key, nodes[z].payload;
      var ns, r := AttachLeaf(nodes, root, z, y);
      nodes, root, S, bh, M := ns, r, AttachS(S, y), bh + [1], M[k := p];
      assert nodes[Nil].payload == sentinelPayload && M == old(M)[k := p] && |nodes| == old(|nodes|);
      AttachKeepsMax(a, S0, bh0, root0, M0, y, k, p, nodes, S, root, max0, max);
      FixupInsert(z);
    }

    /**
     * The descent of insert: from the root by the key order of the new leaf
     * z down to the sentinel; y, the last node passed, is where z is to hang.
     * Every node passed has its field raised to z's when z's is later.
     */
    method Descend(z: nat) returns (y: nat)
      requires 0 < z && z == |nodes| - 1 && |max| == |nodes|
      requires Shaped(nodes[..z], S, root) && max[z] == nodes[z].key.high
      requires forall n {:trigger nodes[n]} :: n in S[root] ==> nodes[n].key != nodes[z].key
      modifies this
      ensures nodes == old(nodes) && root == old(root) && S == old(S) && bh == old(bh) && M == old(M)
      ensures y < z && AttachPoint(nodes[..z], S, root, Less, nodes[z].key, y)
      ensures max == Raised(old(max), S, root, y, nodes[z].key.high)
    {
      ghost var a, max0 := nodes[..z], max;
      var k := nodes[z].key;
      var h := max[z];
      IntervalLessTotal();
      y := Nil;
      var x := root;
      if x != Nil {
        FitsAtRoot(a, S, root, Less, k);
      }
      RaisedNone(max0, S, root, h);
      while x != Nil
        invariant nodes == old(nodes) && root == old(root) && S == old(S) && bh == old(bh) && M == old(M)
        invariant x == Nil || x in S[root]
        invariant y == Nil ==> x == root
        invariant y != Nil ==> y in S[root] && FitsBelow(a, S, root, Less, k, y) && x == Toward(a, Less, k, y)
        invariant x != Nil ==> FitsBelow(a, S, root, Less, k, x)
        invariant max == Raised(max0, S, root, y, h)
        decreases S[x]
      {
        assert a[x] == nodes[x] && a[x].key != k;
        ChildLive(a, S, root, x);
        RaisedStep(a, S, root, max0, y, x, h);
        y := x;
        if Less(k, nodes[x].key) {
          x := nodes[x].left;
        } else {
          x := nodes[x].right;
        }
        if h > max[y] {
          max := max[y := h];
        }
        if x != Nil {
          FitsStep(a, S, root, Less, k, y);
        }
      }
      assert y != Nil ==> a[y] == nodes[y];
    }

    /**
     * fixupInsert: while z's parent is red, repair one level, then colour
     * the root black. The fields stay up to date throughout.
     */
    method FixupInsert(z0: nat)
      requires InsertInv(nodes, S, bh, root, Less, M, z0) && MaxInv(nodes, S, root, max)
      requires nodes[Nil].payload == sentinelPayload
      modifies this
      ensures Valid() && M == old(M) && |nodes| == old(|nodes|)
    {
      var z := z0;
      while nodes[nodes[z].parent].color == Red
        invariant InsertInv(nodes, S, bh, root, Less, M, z) && MaxInv(nodes, S, root, max)
        invariant nodes[Nil].payload == sentinelPayload
        invariant M == old(M) && |nodes| == old(|nodes|)
        decreases InsertMeasure(nodes, S, root, z)
      {
        z := InsertRepair(z);
      }
      ghost var a := nodes;
      nodes := nodes[root := nodes[root].(color := Black)];
      assert nodes[Nil].payload == sentinelPayload;
      InsertFinished(a, S, bh, root, M, z, max, nodes);
    }

    /**
     * One turn of the fixupInsert loop: with a red uncle, recolour and move
     * z up to its grandparent (case 1); with a black uncle, rotate z's
     * parent when z is an inner child (case 2), else recolour and rotate
     * the grandparent (case 3), which ends the loop.
     */
    method InsertRepair(z0: nat) returns (z: nat)
      requires InsertInv(nodes, S, bh, root, Less, M, z0) && MaxInv(nodes, S, root, max)
      requires nodes[nodes[z0].parent].color == Red
      modifies this
      ensures InsertInv(nodes, S, bh, root, Less, M, z) && MaxInv(nodes, S, root, max)
      ensures InsertMeasure(nodes, S, root, z) < old(InsertMeasure(nodes, S, root, z0))
      ensures M == old(M) && |nodes| == old(|nodes|) && nodes[Nil].payload == old(nodes[Nil].payload)
    {
      Family(nodes, S, bh, root, z0);
      var p := nodes[z0].parent;
      var g := nodes[p].parent;
      var y := if p == nodes[g].left then nodes[g].right else nodes[g].left;
      if nodes[y].color == Red {
        z := InsertRecolour(z0);
      } else if p == nodes[g].left && z0 == nodes[p].right {
        z := InsertInnerLeft(z0);
      } else if p == nodes[g].left {
        z := InsertOuterLeft(z0);
      } else if z0 == nodes[p].left {
        z := InsertInnerRight(z0);
      } else {
        z := InsertOuterRight(z0);
      }
    }

    /** Case 1 on either side: parent and uncle turn black, the grandparent red. */
    method InsertRecolour(z0: nat) returns (z: nat)
      requires InsertInv(nodes, S, bh, root, Less, M, z0) && Case1Setting(nodes, S, bh, root, z0)
      requires MaxInv(nodes, S, root, max)
      modifies this
      ensures InsertInv(nodes, S, bh, root, Less, M, z) && MaxInv(nodes, S, root, max)
      ensures InsertMeasure(nodes, S, root, z) < old(InsertMeasure(nodes, S, root, z0))
      ensures M == old(M) && |nodes| == old(|nodes|) && nodes[Nil].payload == old(nodes[Nil].payload)
    {
      ghost var a, bh0 := nodes, bh;
      var p := nodes[z0].parent;
      var g := nodes[p].parent;
      var y := if p == nodes[g].left then nodes[g].right else nodes[g].left;
      nodes := nodes[p := nodes[p].(color := Black)];
      nodes := nodes[y := nodes[y].(color := Black)];
      nodes := nodes[g := nodes[g].(color := Red)];
      bh := bh[g := bh[g] + 1];
      z := g;
      assert nodes[Nil].payload == a[Nil].payload;
      Case1Recoloured(a, S, bh0, root, M, z0, nodes, bh, max);
    }

    /** Case 2, z an inner grandchild under a left child: rotate z's parent left. */
    method InsertInnerLeft(z0: nat) returns (z: nat)
      requires InsertInv(nodes, S, bh, root, Less, M, z0) && Case2LeftSetting(nodes, S, bh, root, z0)
      requires MaxInv(nodes, S, root, max)
      modifies this
      ensures InsertInv(nodes, S, bh, root, Less, M, z) && MaxInv(nodes, S, root, max)
      ensures InsertMeasure(nodes, S, root, z) < old(InsertMeasure(nodes, S, root, z0))
      ensures M == old(M) && |nodes| == old(|nodes|) && nodes[Nil].payload == old(nodes[Nil].payload)
    {
      Family(nodes, S, bh, root, z0);
      ghost var a, S0, root0 := nodes, S, root;
      z := nodes[z0].parent;
      RotateLeft(z);
      InsertStep2Left(a, S0, bh, root0, Less, M, z0, nodes, S, root);
    }

    /** Case 3, z an outer grandchild under a left child: recolour, rotate the grandparent right. */
    method InsertOuterLeft(z0: nat) returns (z: nat)
      requires InsertInv(nodes, S, bh, root, Less, M, z0) && Case3LeftSetting(nodes, S, bh, root, z0)
      requires MaxInv(nodes, S, root, max)
      modifies this
      ensures InsertInv(nodes, S, bh, root, Less, M, z) && MaxInv(nodes, S, root, max)
      ensures InsertMeasure(nodes, S, root, z) < old(InsertMeasure(nodes, S, root, z0))
      ensures M == old(M) && |nodes| == old(|nodes|) && nodes[Nil].payload == old(nodes[Nil].payload)
    {
      ghost var a, S0, root0, max0 := nodes, S, root, max;
      var ns, r, mx, g := Case3LeftTurn(nodes, S, bh, root, z0, max);
      nodes, S, root, max := ns, RightRotatedS(Case3Colour(a, z0), S0, g), r, mx;
      z := z0;
      Case3LeftRotated(a, S0, bh, root0, M, z0, g, max0, nodes, S, root, max);
    }

    /** Case 2, z an inner grandchild under a right child: rotate z's parent right. */
    method InsertInnerRight(z0: nat) returns (z: nat)
      requires InsertInv(nodes, S, bh, root, Less, M, z0) && Case2RightSetting(nodes, S, bh, root, z0)
      requires MaxInv(nodes, S, root, max)
      modifies this
      ensures InsertInv(nodes, S, bh, root, Less, M, z) && MaxInv(nodes, S, root, max)
      ensures InsertMeasure(nodes, S, root, z) < old(InsertMeasure(nodes, S, root, z0))
      ensures M == old(M) && |nodes| == old(|nodes|) && nodes[Nil].payload == old(nodes[Nil].payload)
    {
      Family(nodes, S, bh, root, z0);
      ghost var a, S0, root0 := nodes, S, root;
      z := nodes[z0].parent;
      RotateRight(z);
      InsertStep2Right(a, S0, bh, root0, Less, M, z0, nodes, S, root);
    }

    /** Case 3, z an outer grandchild under a right child: recolour, rotate the grandparent left. */
    method InsertOuterRight(z0: nat) returns (z: nat)
      requires InsertInv(nodes, S, bh, root, Less, M, z0) && Case3RightSetting(nodes, S, bh, root, z0)
      requires MaxInv(nodes, S, root, max)
      modifies this
      ensures InsertInv(nodes, S, bh, root, Less, M, z) && MaxInv(nodes, S, root, max)
      ensures InsertMeasure(nodes, S, root, z) < old(InsertMeasure(nodes, S, root, z0))
      ensures M == old(M) && |nodes| == old(|nodes|) && nodes[Nil].payload == old(nodes[Nil].payload)
    {
      ghost var a, S0, root0, max0 := nodes, S, root, max;
      var ns, r, mx, g := Case3RightTurn(nodes, S, bh, root, z0, max);
      nodes, S, root, max := ns, LeftRotatedS(Case3Colour(a, z0), S0, g), r, mx;
      z := z0;
      Case3RightRotated(a, S0, bh, root0, M, z0, g, max0, nodes, S, root, max);
    }

    /**
     * Upsert: overwrite the payload when the key is present, else insert a
     * new leaf for it. Either way the key then maps to the payload and every
     * other entry stays.
     */
    method Upsert(key: Interval, payload: P)
      requires Valid()
      modifies this
      ensures Valid() && M == old(M)[key := payload]
      ensures key in old(M) ==> root == old(root) && |nodes| == old(|nodes|) && S == old(S) && bh == old(bh) && max == old(max)
      ensures key in old(M) ==> forall i :: 0 <= i < |nodes| ==> nodes[i] == old(nodes[i]) || nodes[i] == old(nodes[i]).(payload := payload)
      ensures key !in old(M) ==> |nodes| == old(|nodes|) + 1
    {
      var existing := Nil;
      if root != Nil {
        existing := FindExact(root, key);
      }
      if existing != Nil {
        ghost var a, M0 := nodes, M;
        nodes := nodes[existing := nodes[existing].(payload := payload)];
        M := M[key := payload];
        assert |nodes| == old(|nodes|) && root == old(root) && nodes[Nil] == a[Nil] && M == old(M)[key := payload];
        assert forall i :: 0 <= i < |nodes| ==> nodes[i] == a[i] || nodes[i] == a[i].(payload := payload);
        PayloadOverwritten(a, S, bh, root, M0, max, key, payload, existing, nodes);
      } else {
        KeyAbsent(nodes, S, bh, root, M, key);
        assert key !in old(M);
        var z := NewLeaf(key, payload);
        assert nodes[..z] == old(nodes) && max[..z] == old(max) && nodes[Nil] == old(nodes[Nil]) && M == old(M);
        assert nodes[z].key == key && nodes[z].payload == payload && max[z] == key.high;
        Insert(z);
      }
    }

    // -------------------------------------------------------------------
    // Removal.
    // -------------------------------------------------------------------

    /**
     * Delete: nothing to do on an empty tree; otherwise, when findExact
     * finds the key, remove its node. Every other entry stays.
     */
    method Delete(key: Interval)
      requires Valid()
      modifies this
      ensures Valid() && M == old(M) - {key} && |nodes| == old(|nodes|)
      ensures key !in old(M) ==> nodes == old(nodes) && root == old(root) && S == old(S) && bh == old(bh) && max == old(max)
    {
      if root == Nil {
        KeyAbsent(nodes, S, bh, root, M, key);
        assert M - {key} == M;
        return;
      }
      var n := FindExact(root, key);
      if n != Nil {
        DeleteNode(n);
      } else {
        KeyAbsent(nodes, S, bh, root, M, key);
        assert M - {key} == M;
      }
    }

    /**
     * delete: unlink z (replaced by a child, or by its successor when it has
     * two children), refresh the fields from the place of the unlinking up
     * to the root, then repair the colours when the colour that left its
     * place was black.
     */
    method DeleteNode(z: nat)
      requires Valid() && z in S[root]
      modifies this
      ensures Valid() && M == old(M) - {old(nodes[z].key)} && |nodes| == old(|nodes|)
    {
      var x: nat;
      var yOriginalColor: Color;
      if nodes[z].left == Nil {
        x, yOriginalColor := RemoveNoLeft(z);
      } else if nodes[z].right == Nil {
        x, yOriginalColor := RemoveNoRight(z);
      } else {
        x, yOriginalColor := RemoveTwo(z);
      }
      RecalcMax(RecalcStart(nodes, x));
      if yOriginalColor == Black {
        FixupDelete(x);
      } else {
        RemovedRed(nodes, S, bh, root, Less, M, x);
      }
    }

    /**
     * recalcMax: refresh the field of z, then of each ancestor of z up to
     * the root; started at the sentinel it changes nothing. When every field
     * off that path is up to date beforehand, every field is afterwards.
     */
    method RecalcMax(z0: nat)
      requires Shaped(nodes, S, root) && |max| == |nodes| && (z0 == Nil || z0 in S[root])
      modifies this
      ensures nodes == old(nodes) && S == old(S) && bh == old(bh) && root == old(root) && M == old(M)
      ensures z0 == Nil ==> max == old(max)
      ensures old(MaxOkBut(nodes, S, root, max, z0)) ==> MaxInv(nodes, S, root, max)
    {
      ghost var ok := MaxOkBut(nodes, S, root, max, z0);
      var z := z0;
      while z != Nil
        invariant nodes == old(nodes) && S == old(S) && bh == old(bh) && root == old(root) && M == old(M)
        invariant |max| == |nodes| && (z == Nil || z in S[root])
        invariant z0 == Nil ==> max == old(max)
        invariant ok ==> MaxOkBut(nodes, S, root, max, z)
        decreases if z == Nil then 0 else |S[root] - S[z]| + 1
      {
        if ok {
          RecalcStep(nodes, S, root, max, z);
        }
        ParentCloser(nodes, S, root, z);
        UpdateMax(z);
        z := nodes[z].parent;
      }
      if ok {
        RecalcDone(nodes, S, root, max);
      }
    }

    /**
     * delete when z has two children: y, the least node of z's right
     * subtree, is replaced by its right child x and takes z's place, links
     * and colour.
     */
    method RemoveTwo(z: nat) returns (x: nat, yOriginalColor: Color)
      requires Valid() && z in S[root] && nodes[z].left != Nil && nodes[z].right != Nil
      modifies this
      ensures M == old(M) - {old(nodes[z].key)} && |nodes| == old(|nodes|) && nodes[Nil].payload == sentinelPayload
      ensures DeleteInv(nodes, S, bh, root, Less, M, x, if yOriginalColor == Black then 1 else 0)
      ensures yOriginalColor == Red ==> IsBlack(nodes, x)
      ensures x < |nodes| && MaxOkBut(nodes, S, root, max, RecalcStart(nodes, x))
    {
      ChildLive(nodes, S, root, z);
      var y := MinNode(nodes[z].right);
      x, yOriginalColor := SpliceSuccessor(z, y);
    }

    /** The rest of delete when z has two children and y is the least node of z's right subtree. */
    method SpliceSuccessor(z: nat, y: nat) returns (x: nat, yOriginalColor: Color)
      requires Valid() && z in S[root] && nodes[z].left != Nil && nodes[z].right != Nil && nodes[z].right in S[root]
      requires y == LeftMost(nodes, S, root, nodes[z].right) && SpliceSetting(nodes, S, root, z, y)
      modifies this
      ensures M == old(M) - {old(nodes[z].key)} && |nodes| == old(|nodes|) && nodes[Nil].payload == sentinelPayload
      ensures DeleteInv(nodes, S, bh, root, Less, M, x, if yOriginalColor == Black then 1 else 0)
      ensures yOriginalColor == Red ==> IsBlack(nodes, x)
      ensures x < |nodes| && MaxOkBut(nodes, S, root, max, RecalcStart(nodes, x))
    {
      ghost var a, S0, bh0, root0, M0 := nodes, S, bh, root, M;
      yOriginalColor := nodes[y].color;
      x := nodes[y].right;
      var ns, r := Splicing(nodes, S, root, z, y);
      nodes, root, S, bh, M := ns, r, DeleteS(S0, z, y), TwoBh(bh0, z, y), M0 - {a[z].key};
      ghost var d: nat := if yOriginalColor == Black then 1 else 0;
      assert 0 < |nodes| == |a| && nodes[Nil].payload == a[Nil].payload && M == old(M) - {old(nodes[z].key)};
      RemovedTwo(a, S0, bh0, root0, M0, z, y, nodes, root, S, bh, M, x, d, max);
    }

    /**
     * fixupDelete: while x is a black node other than the root, it stands
     * for one black node too few on its side; repair one level at a time,
     * then colour x black. The fields stay up to date throughout.
     */
    method FixupDelete(x0: nat)
      requires DeleteInv(nodes, S, bh, root, Less, M, x0, 1) && MaxInv(nodes, S, root, max)
      requires nodes[Nil].payload == sentinelPayload
      modifies this
      ensures Valid() && M == old(M) && |nodes| == old(|nodes|)
    {
      var x := x0;
      while x != root && nodes[x].color == Black
        invariant DeleteInv(nodes, S, bh, root, Less, M, x, 1) && MaxInv(nodes, S, root, max)
        invariant nodes[Nil].payload == sentinelPayload
        invariant M == old(M) && |nodes| == old(|nodes|)
        decreases |S[root] - S[x]|, FarPhase(nodes, x)
      {
        x := DeleteRepair(x);
      }
      DeleteFinish(x);
    }

    /** The end of fixupDelete: x, now the root or a red node, turns black. */
    method DeleteFinish(x: nat)
      requires DeleteInv(nodes, S, bh, root, Less, M, x, 1) && MaxInv(nodes, S, root, max)
      requires nodes[Nil].payload == sentinelPayload
      requires x == root || nodes[x].color != Black
      modifies this
      ensures Valid() && M == old(M) && |nodes| == old(|nodes|)
      ensures nodes == old(nodes[x := nodes[x].(color := Black)])
    {
      ghost var a := nodes;
      nodes := nodes[x := nodes[x].(color := Black)];
      assert nodes[Nil].payload == sentinelPayload;
      DeleteFinished(a, S, bh, root, M, x, max, nodes);
    }

    /** One turn of the fixupDelete loop: the cases for x a left child, or their mirror images. */
    method DeleteRepair(x0: nat) returns (x: nat)
      requires DeleteInv(nodes, S, bh, root, Less, M, x0, 1) && x0 != root && nodes[x0].color == Black
      requires MaxInv(nodes, S, root, max)
      modifies this
      ensures M == old(M) && |nodes| == old(|nodes|) && nodes[Nil].payload == old(nodes[Nil].payload)
      ensures DeleteInv(nodes, S, bh, root, Less, M, x, 1) && MaxInv(nodes, S, root, max)
      ensures |S[root] - S[x]| < old(|S[root] - S[x0]|) ||
              (|S[root] - S[x]| == old(|S[root] - S[x0]|) && FarPhase(nodes, x) < old(FarPhase(nodes, x0)))
    {
      if x0 == nodes[nodes[x0].parent].left {
        x := DeleteRepairLeft(x0);
      } else {
        x := DeleteRepairRight(x0);
      }
    }

    /** Case 2 on either side: the black sibling with two black children turns red, and x moves up to its parent. */
    method DeleteRecolour(x0: nat) returns (x: nat)
      requires DeleteInv(nodes, S, bh, root, Less, M, x0, 1) && Case2Setting(nodes, S, bh, root, x0)
      requires MaxInv(nodes, S, root, max)
      modifies this
      ensures M == old(M) && S == old(S) && root == old(root) && max == old(max) && |nodes| == old(|nodes|)
      ensures nodes[Nil].payload == old(nodes[Nil].payload)
      ensures x == old(nodes[x0].parent) && x in S[root] && |S[root] - S[x]| < old(|S[root] - S[x0]|)
      ensures DeleteInv(nodes, S, bh, root, Less, M, x, 1) && MaxInv(nodes, S, root, max)
    {
      ghost var a, bh0 := nodes, bh;
      assert DeficitAt(a, bh, a[x0].parent, x0, 1);
      var w := Sibling(nodes, x0);
      nodes := nodes[w := nodes[w].(color := Red)];
      x := nodes[x0].parent;
      bh := bh[x := bh[x] - 1];
      assert 0 < |nodes| == |a| && nodes[Nil].payload == a[Nil].payload && x == a[x0].parent;
      assert M == old(M) && S == old(S) && root == old(root) && max == old(max);
      BlackSiblingKeepsMax(a, S, bh0, root, M, x0, nodes, bh, max);
    }

    /**
     * One turn of the fixupDelete loop with x a left child: a red sibling is
     * first made black by rotating the parent left (case 1), then the cases
     * for a black sibling follow.
     */
    method DeleteRepairLeft(x0: nat) returns (x: nat)
      requires DeleteInv(nodes, S, bh, root, Less, M, x0, 1) && FixSetting(nodes, S, bh, root, x0)
      requires nodes[nodes[x0].parent].left == x0 && MaxInv(nodes, S, root, max)
      modifies this
      ensures M == old(M) && |nodes| == old(|nodes|) && nodes[Nil].payload == old(nodes[Nil].payload)
      ensures DeleteInv(nodes, S, bh, root, Less, M, x, 1) && MaxInv(nodes, S, root, max)
      ensures |S[root] - S[x]| < old(|S[root] - S[x0]|) ||
              (|S[root] - S[x]| == old(|S[root] - S[x0]|) && FarPhase(nodes, x) < old(FarPhase(nodes, x0)))
    {
      DeleteFamily(nodes, S, bh, root, x0);
      ghost var m0, f0 := |S[root] - S[x0]|, FarPhase(nodes, x0);
      var w := nodes[nodes[x0].parent].right;
      if nodes[w].color == Red {
        DeleteRedSiblingLeft(x0);
        assert |S[root] - S[x0]| == m0 && f0 == 1;
      }
      x := DeleteBlackSiblingLeft(x0);
      assert |S[root] - S[x]| < m0 || (|S[root] - S[x]| == m0 && FarPhase(nodes, x) == 0 && f0 == 1);
    }

    /**
     * The body of the fixupDelete loop with x a left child and a black
     * sibling w: when both of w's children are black, w turns red and x
     * moves up (case 2); otherwise, after w rotates right when only its far
     * child is black (case 3), the parent rotates left and x becomes the
     * root (case 4), within the same pass.
     */
    method DeleteBlackSiblingLeft(x0: nat) returns (x: nat)
      requires DeleteInv(nodes, S, bh, root, Less, M, x0, 1) && x0 != root && IsBlack(nodes, x0)
      requires nodes[nodes[x0].parent].left == x0 && IsBlack(nodes, nodes[nodes[x0].parent].right)
      requires MaxInv(nodes, S, root, max)
      modifies this
      ensures |S| == |nodes| && root < |nodes| && x < |nodes|
      ensures M == old(M) && |nodes| == old(|nodes|) && nodes[Nil].payload == old(nodes[Nil].payload)
      ensures DeleteInv(nodes, S, bh, root, Less, M, x, 1) && MaxInv(nodes, S, root, max)
      ensures |S[root] - S[x]| < old(|S[root] - S[x0]|) ||
              (|S[root] - S[x]| == old(|S[root] - S[x0]|) && FarPhase(nodes, x) == 0 && old(FarPhase(nodes, x0)) == 1)
    {
      DeleteFamily(nodes, S, bh, root, x0);
      x := x0;
      var w := nodes[nodes[x].parent].right;
      if nodes[nodes[w].left].color == Black && nodes[nodes[w].right].color == Black {
        x := DeleteRecolour(x);
      } else if nodes[nodes[w].right].color == Black {
        DeleteNearRedLeft(x);
        assert FixSetting(nodes, S, bh, root, x);
        DeleteFamily(nodes, S, bh, root, x);
        assert DeficitAt(nodes, bh, nodes[x].parent, x, 1);
        FixMeasurePositive(nodes, S, bh, root, x);
        x := DeleteFarRedLeft(x);
      } else {
        assert DeficitAt(nodes, bh, nodes[x].parent, x, 1);
        FixMeasurePositive(nodes, S, bh, root, x);
        x := DeleteFarRedLeft(x);
      }
    }

    /** Case 1, x a left child: the red sibling turns black, the parent red, and the parent rotates left. */
    method DeleteRedSiblingLeft(x: nat)
      requires DeleteInv(nodes, S, bh, root, Less, M, x, 1) && DelCase1LeftSetting(nodes, S, bh, root, x)
      requires MaxInv(nodes, S, root, max)
      modifies this
      ensures |S| == |nodes| && root < |nodes| && x < |nodes|
      ensures M == old(M) && bh == old(bh) && |nodes| == old(|nodes|) && nodes[Nil].payload == old(nodes[Nil].payload)
      ensures DeleteInv(nodes, S, bh, root, Less, M, x, 1) && MaxInv(nodes, S, root, max) && x != root && IsBlack(nodes, x)
      ensures IsBlack(nodes, Sibling(nodes, x)) && nodes[nodes[x].parent].left == x
      ensures S[x] == old(S[x]) && S[root] == old(S[root]) && old(FarPhase(nodes, x)) == 1
    {
      ghost var a, S0, root0, max0 := nodes, S, root, max;
      var ns, r, mx, p, S' := RedSiblingLeftTurn(nodes, S, bh, root, x, max);
      nodes, S, root, max := ns, S', r, mx;
      assert M == old(M) && bh == old(bh);
      RedSiblingLeftRotated(a, S0, bh, root0, M, x, max0, p, nodes, S, root, max);
    }

    /** Case 3, x a left child: the sibling's near child turns black, the sibling red, and the sibling rotates right. */
    method DeleteNearRedLeft(x: nat)
      requires DeleteInv(nodes, S, bh, root, Less, M, x, 1) && DelCase3LeftSetting(nodes, S, bh, root, x)
      requires MaxInv(nodes, S, root, max)
      modifies this
      ensures |S| == |nodes| && root < |nodes| && x < |nodes| && InArena(nodes)
      ensures x != root && IsBlack(nodes, x) && nodes[nodes[x].parent].left == x && IsBlack(nodes, Sibling(nodes, x))
      ensures M == old(M) && bh == old(bh) && |nodes| == old(|nodes|) && nodes[Nil].payload == old(nodes[Nil].payload)
      ensures DeleteInv(nodes, S, bh, root, Less, M, x, 1) && MaxInv(nodes, S, root, max)
      ensures S[x] == old(S[x]) && S[root] == old(S[root]) && FarPhase(nodes, x) == 0 && old(FarPhase(nodes, x)) == 1
    {
      ghost var a, S0, root0, max0 := nodes, S, root, max;
      var ns, r, mx, w, S' := NearRedLeftTurn(nodes, S, bh, root, x, max);
      DelCase3LeftSibling(nodes, S, bh, root, x, ns, r);
      nodes, S, root, max := ns, S', r, mx;
      assert M == old(M) && bh == old(bh);
      NearRedLeftRotated(a, S0, bh, root0, M, x, max0, w, nodes, S, root, max);
    }

    /**
     * Case 4, x a left child: the sibling takes the parent's colour, the
     * parent and the sibling's far child turn black, the parent rotates
     * left, and x becomes the root, which ends the repair.
     */
    method DeleteFarRedLeft(x0: nat) returns (x: nat)
      requires DeleteInv(nodes, S, bh, root, Less, M, x0, 1) && DelCase4LeftSetting(nodes, S, bh, root, x0)
      requires MaxInv(nodes, S, root, max)
      modifies this
      ensures M == old(M) && |nodes| == old(|nodes|) && nodes[Nil].payload == old(nodes[Nil].payload)
      ensures DeleteInv(nodes, S, bh, root, Less, M, x, 1) && MaxInv(nodes, S, root, max) && x == root
      ensures |S[root] - S[x]| == 0
    {
      ghost var a, S0, bh0, root0, max0 := nodes, S, bh, root, max;
      var ns, r, mx, p, S', bh' := FarRedLeftTurn(nodes, S, bh, root, x0, max);
      nodes, S, bh, root, max := ns, S', bh', r, mx;
      x := root;
      assert M == old(M);
      FarRedLeftRotated(a, S0, bh0, root0, M, x0, max0, p, nodes, S, bh, root, max);
    }

    /** delete when z has no left child: z's right child, maybe the sentinel, takes z's place. */
    method RemoveNoLeft(z: nat) returns (x: nat, yOriginalColor: Color)
      requires Valid() && z in S[root] && nodes[z].left == Nil
      modifies this
      ensures M == old(M) - {old(nodes[z].key)} && |nodes| == old(|nodes|) && nodes[Nil].payload == sentinelPayload
      ensures DeleteInv(nodes, S, bh, root, Less, M, x, if yOriginalColor == Black then 1 else 0)
      ensures yOriginalColor == Red ==> IsBlack(nodes, x)
      ensures x < |nodes| && MaxOkBut(nodes, S, root, max, RecalcStart(nodes, x))
    {
      Around(nodes, S, root, z);
      ghost var a, S0, root0, M0 := nodes, S, root, M;
      yOriginalColor := nodes[z].color;
      x := nodes[z].right;
      var ns, r := Transplanting(nodes, root, z, nodes[z].right);
      nodes, root, S, M := ns, r, DeleteS(S0, z, z), M0 - {a[z].key};
      ghost var d: nat := if yOriginalColor == Black then 1 else 0;
      assert 0 < |nodes| == |a| && nodes[Nil].payload == a[Nil].payload && M == old(M) - {old(nodes[z].key)};
      RemovedNoLeft(a, S0, bh, root0, M0, z, nodes, root, S, M, x, d, max);
    }

    // The mirror images: x a right child.

    /**
     * One turn of the fixupDelete loop with x a right child: a red sibling is
     * first made black by rotating the parent right (case 1), then the cases
     * for a black sibling follow.
     */
    method DeleteRepairRight(x0: nat) returns (x: nat)
      requires DeleteInv(nodes, S, bh, root, Less, M, x0, 1) && FixSetting(nodes, S, bh, root, x0)
      requires nodes[nodes[x0].parent].right == x0 && MaxInv(nodes, S, root, max)
      modifies this
      ensures M == old(M) && |nodes| == old(|nodes|) && nodes[Nil].payload == old(nodes[Nil].payload)
      ensures DeleteInv(nodes, S, bh, root, Less, M, x, 1) && MaxInv(nodes, S, root, max)
      ensures |S[root] - S[x]| < old(|S[root] - S[x0]|) ||
              (|S[root] - S[x]| == old(|S[root] - S[x0]|) && FarPhase(nodes, x) < old(FarPhase(nodes, x0)))
    {
      DeleteFamily(nodes, S, bh, root, x0);
      ghost var m0, f0 := |S[root] - S[x0]|, FarPhase(nodes, x0);
      var w := nodes[nodes[x0].parent].left;
      if nodes[w].color == Red {
        DeleteRedSiblingRight(x0);
        assert |S[root] - S[x0]| == m0 && f0 == 1;
      }
      x := DeleteBlackSiblingRight(x0);
      assert |S[root] - S[x]| < m0 || (|S[root] - S[x]| == m0 && FarPhase(nodes, x) == 0 && f0 == 1);
    }

    /**
     * The body of the fixupDelete loop with x a right child and a black
     * sibling w: when both of w's children are black, w turns red and x
     * moves up (case 2); otherwise, after w rotates left when only its far
     * child is black (case 3), the parent rotates right and x becomes the
     * root (case 4), within the same pass.
     */
    method DeleteBlackSiblingRight(x0: nat) returns (x: nat)
      requires DeleteInv(nodes, S, bh, root, Less, M, x0, 1) && x0 != root && IsBlack(nodes, x0)
      requires nodes[nodes[x0].parent].right == x0 && IsBlack(nodes, nodes[nodes[x0].parent].left)
      requires MaxInv(nodes, S, root, max)
      modifies this
      ensures |S| == |nodes| && root < |nodes| && x < |nodes|
      ensures M == old(M) && |nodes| == old(|nodes|) && nodes[Nil].payload == old(nodes[Nil].payload)
      ensures DeleteInv(nodes, S, bh, root, Less, M, x, 1) && MaxInv(nodes, S, root, max)
      ensures |S[root] - S[x]| < old(|S[root] - S[x0]|) ||
              (|S[root] - S[x]| == old(|S[root] - S[x0]|) && FarPhase(nodes, x) == 0 && old(FarPhase(nodes, x0)) == 1)
    {
      DeleteFamily(nodes, S, bh, root, x0);
      x := x0;
      var w := nodes[nodes[x].parent].left;
      if nodes[nodes[w].right].color == Black && nodes[nodes[w].left].color == Black {
        x := DeleteRecolour(x);
      } else if nodes[nodes[w].left].color == Black {
        DeleteNearRedRight(x);
        assert FixSetting(nodes, S, bh, root, x);
        DeleteFamily(nodes, S, bh, root, x);
        assert DeficitAt(nodes, bh, nodes[x].parent, x, 1);
        FixMeasurePositive(nodes, S, bh, root, x);
        x := DeleteFarRedRight(x);
      } else {
        assert DeficitAt(nodes, bh, nodes[x].parent, x, 1);
        FixMeasurePositive(nodes, S, bh, root, x);
        x := DeleteFarRedRight(x);
      }
    }

    /** Case 1, x a right child: the red sibling turns black, the parent red, and the parent rotates right. */
    method DeleteRedSiblingRight(x: nat)
      requires DeleteInv(nodes, S, bh, root, Less, M, x, 1) && DelCase1RightSetting(nodes, S, bh, root, x)
      requires MaxInv(nodes, S, root, max)
      modifies this
      ensures |S| == |nodes| && root < |nodes| && x < |nodes|
      ensures M == old(M) && bh == old(bh) && |nodes| == old(|nodes|) && nodes[Nil].payload == old(nodes[Nil].payload)
      ensures DeleteInv(nodes, S, bh, root, Less, M, x, 1) && MaxInv(nodes, S, root, max) && x != root && IsBlack(nodes, x)
      ensures IsBlack(nodes, Sibling(nodes, x)) && nodes[nodes[x].parent].right == x
      ensures S[x] == old(S[x]) && S[root] == old(S[root]) && old(FarPhase(nodes, x)) == 1
    {
      ghost var a, S0, root0, max0 := nodes, S, root, max;
      var ns, r, mx, p, S' := RedSiblingRightTurn(nodes, S, bh, root, x, max);
      nodes, S, root, max := ns, S', r, mx;
      assert M == old(M) && bh == old(bh);
      RedSiblingRightRotated(a, S0, bh, root0, M, x, max0, p, nodes, S, root, max);
    }

    /** Case 3, x a right child: the sibling's near child turns black, the sibling red, and the sibling rotates left. */
    method DeleteNearRedRight(x: nat)
      requires DeleteInv(nodes, S, bh, root, Less, M, x, 1) && DelCase3RightSetting(nodes, S, bh, root, x)
      requires MaxInv(nodes, S, root, max)
      modifies this
      ensures |S| == |nodes| && root < |nodes| && x < |nodes| && InArena(nodes)
      ensures x != root && IsBlack(nodes, x) && nodes[nodes[x].parent].right == x && IsBlack(nodes, Sibling(nodes, x))
      ensures M == old(M) && bh == old(bh) && |nodes| == old(|nodes|) && nodes[Nil].payload == old(nodes[Nil].payload)
      ensures DeleteInv(nodes, S, bh, root, Less, M, x, 1) && MaxInv(nodes, S, root, max)
      ensures S[x] == old(S[x]) && S[root] == old(S[root]) && FarPhase(nodes, x) == 0 && old(FarPhase(nodes, x)) == 1
    {
      ghost var a, S0, root0, max0 := nodes, S, root, max;
      var ns, r, mx, w, S' := NearRedRightTurn(nodes, S, bh, root, x, max);
      DelCase3RightSibling(nodes, S, bh, root, x, ns, r);
      nodes, S, root, max := ns, S', r, mx;
      assert M == old(M) && bh == old(bh);
      NearRedRightRotated(a, S0, bh, root0, M, x, max0, w, nodes, S, root, max);
    }

    /**
     * Case 4, x a right child: the sibling takes the parent's colour, the
     * parent and the sibling's far child turn black, the parent rotates
     * right, and x becomes the root, which ends the repair.
     */
    method DeleteFarRedRight(x0: nat) returns (x: nat)
      requires DeleteInv(nodes, S, bh, root, Less, M, x0, 1) && DelCase4RightSetting(nodes, S, bh, root, x0)
      requires MaxInv(nodes, S, root, max)
      modifies this
      ensures M == old(M) && |nodes| == old(|nodes|) && nodes[Nil].payload == old(nodes[Nil].payload)
      ensures DeleteInv(nodes, S, bh, root, Less, M, x, 1) && MaxInv(nodes, S, root, max) && x == root
      ensures |S[root] - S[x]| == 0
    {
      ghost var a, S0, bh0, root0, max0 := nodes, S, bh, root, max;
      var ns, r, mx, p, S', bh' := FarRedRightTurn(nodes, S, bh, root, x0, max);
      nodes, S, bh, root, max := ns, S', bh', r, mx;
      x := root;
      assert M == old(M);
      FarRedRightRotated(a, S0, bh0, root0, M, x0, max0, p, nodes, S, bh, root, max);
    }

    /** delete when z has no right child: z's left child, maybe the sentinel, takes z's place. */
    method RemoveNoRight(z: nat) returns (x: nat, yOriginalColor: Color)
      requires Valid() && z in S[root] && nodes[z].right == Nil
      modifies this
      ensures M == old(M) - {old(nodes[z].key)} && |nodes| == old(|nodes|) && nodes[Nil].payload == sentinelPayload
      ensures DeleteInv(nodes, S, bh, root, Less, M, x, if yOriginalColor == Black then 1 else 0)
      ensures yOriginalColor == Red ==> IsBlack(nodes, x)
      ensures x < |nodes| && MaxOkBut(nodes, S, root, max, RecalcStart(nodes, x))
    {
      Around(nodes, S, root, z);
      ghost var a, S0, root0, M0 := nodes, S, root, M;
      yOriginalColor := nodes[z].color;
      x := nodes[z].left;
      var ns, r := Transplanting(nodes, root, z, nodes[z].left);
      nodes, root, S, M := ns, r, DeleteS(S0, z, z), M0 - {a[z].key};
      ghost var d: nat := if yOriginalColor == Black then 1 else 0;
      assert 0 < |nodes| == |a| && nodes[Nil].payload == a[Nil].payload && M == old(M) - {old(nodes[z].key)};
      RemovedNoRight(a, S0, bh, root0, M0, z, nodes, root, S, M, x, d, max);
    }

    // -------------------------------------------------------------------
    // Overlap searches.
    // -------------------------------------------------------------------

    /**
     * search: the descent from x0 that stops at the first node whose
     * interval overlaps key, choosing the left child whenever its field
     * reaches the query's start; it ends at the sentinel exactly when no
     * interval below x0 overlaps key.
     */
    method Search(x0: nat, key: Interval) returns (x: nat)
      requires Valid() && (x0 == Nil || x0 in S[root])
      ensures x == Nil || (x in S[x0] && Overlaps(key, nodes[x].key))
      ensures x == Nil <==> forall n :: n in S[x0] ==> !Overlaps(key, nodes[n].key)
    {
      if x0 != Nil {
        ChildLive(nodes, S, root, x0);
      }
      x := x0;
      while x != Nil && !Overlaps(key, nodes[x].key)
        invariant x == Nil || (x in S[root] && x in S[x0])
        invariant S[x] <= S[x0]
        invariant NoneOverlaps(nodes, S[x], key) ==> NoneOverlaps(nodes, S[x0], key)
        decreases S[x]
      {
        SearchStep(nodes, S, root, max, x, key);
        if nodes[x].left != Nil && GreaterOrEqual(max[nodes[x].left], key.low) {
          x := nodes[x].left;
        } else {
          x := nodes[x].right;
        }
      }
    }

    /**
     * FindFirstOverlapping: ErrNotFound exactly when no interval of the tree
     * overlaps key; otherwise an entry of the tree whose interval overlaps it.
     */
    method FindFirstOverlapping(key: Interval) returns (r: Outcome<Result<P>>)
      requires Valid()
      ensures r.ErrNotFound? <==> forall k :: k in M ==> !Overlaps(key, k)
      ensures r.ErrNotFound? ==> r.msg == NoIntervalErrMsg
      ensures r.Success? ==> r.value.key in M && M[r.value.key] == r.value.payload && Overlaps(key, r.value.key)
    {
      EmptyIffNoRoot();
      if root == Nil {
        return ErrNotFound(NoIntervalErrMsg);
      }
      var n := Search(root, key);
      NoneOverlapsContents(nodes, S, root, M, key);
      if n == Nil {
        return ErrNotFound(NoIntervalErrMsg);
      }
      assert nodes[n].key in M && M[nodes[n].key] == nodes[n].payload;
      return Success(Entry(nodes[n].key, nodes[n].payload));
    }

    /**
     * FindAllOverlapping: ErrNotFound exactly when no interval of the tree
     * overlaps key; otherwise every entry of the tree whose interval
     * overlaps key, each once, in key order.
     */
    method FindAllOverlapping(key: Interval) returns (r: Outcome<seq<Result<P>>>)
      requires Valid()
      ensures r.ErrNotFound? <==> forall k :: k in M ==> !Overlaps(k, key)
      ensures r.ErrNotFound? ==> r.msg == NoIntervalErrMsg
      ensures r.Success? ==> r.value == Overlapping(Listing(nodes, S, root, root), key)
      ensures r.Success? ==> r.value != [] && SortedKeys(r.value, Less)
      ensures r.Success? ==> forall e :: e in r.value <==> e.key in M && M[e.key] == e.payload && Overlaps(e.key, key)
    {
      EmptyIffNoRoot();
      if root == Nil {
        return ErrNotFound(NoIntervalErrMsg);
      }
      var res := SearchInorder(nodes, S, root, max, root, key, []);
      OverlappingContents(nodes, S, root, M, key);
      if |res| == 0 {
        return ErrNotFound(NoIntervalErrMsg);
      }
      return Success(res);
    }
  }

  /** A rotation with both refreshes keeps the shape and, when they held, the order, the contents and the fields. */
  lemma RotateLeftRefreshed<P>(a: seq<Node<Interval, P>>, S: seq<set<nat>>, root: nat, M: map<Interval, P>, x: nat,
                               b: seq<Node<Interval, P>>, root': nat, max: seq<int>)
    requires Shaped(a, S, root) && x in S[root] && a[x].right != Nil && RotatedLeft(a, root, x, b, root') && |max| == |a|
    ensures Shaped(b, LeftRotatedS(a, S, x), root') && LeftRotatedS(a, S, x)[root'] == S[root]
    ensures Ordered(a, S, root, Less) ==> Ordered(b, LeftRotatedS(a, S, x), root', Less)
    ensures Abstracts(a, S, root, M) ==> Abstracts(b, LeftRotatedS(a, S, x), root', M)
    ensures MaxInv(a, S, root, max) ==> MaxInv(b, LeftRotatedS(a, S, x), root', RotationRefresh(b, max, x))
  {
    IntervalLessTotal();
    RotateLeftKeeps(a, S, root, Less, M, x, b, root');
    if MaxInv(a, S, root, max) {
      RotateLeftMax(a, S, root, x, b, root', max);
    }
  }

  /** The mirror image. */
  lemma RotateRightRefreshed<P>(a: seq<Node<Interval, P>>, S: seq<set<nat>>, root: nat, M: map<Interval, P>, x: nat,
                                b: seq<Node<Interval, P>>, root': nat, max: seq<int>)
    requires Shaped(a, S, root) && x in S[root] && a[x].left != Nil && RotatedRight(a, root, x, b, root') && |max| == |a|
    ensures Shaped(b, RightRotatedS(a, S, x), root') && RightRotatedS(a, S, x)[root'] == S[root]
    ensures Ordered(a, S, root, Less) ==> Ordered(b, RightRotatedS(a, S, x), root', Less)
    ensures Abstracts(a, S, root, M) ==> Abstracts(b, RightRotatedS(a, S, x), root', M)
    ensures MaxInv(a, S, root, max) ==> MaxInv(b, RightRotatedS(a, S, x), root', RotationRefresh(b, max, x))
  {
    IntervalLessTotal();
    RotateRightKeeps(a, S, root, Less, M, x, b, root');
    if MaxInv(a, S, root, max) {
      RotateRightMax(a, S, root, x, b, root', max);
    }
  }

  /**
   * The link updates of insert, made on the arena that already holds the
   * new node z at its end: z's parent, y's child on z's side (or the root),
   * z's children and colour.
   */
  method AttachLeaf<P>(nodes: seq<Node<Interval, P>>, root: nat, z: nat, y: nat) returns (ns: seq<Node<Interval, P>>, r: nat)
    requires 0 < z && z == |nodes| - 1 && y < z
    ensures |ns| == |nodes| && ns[Nil] == nodes[Nil]
    ensures ns == Attach(nodes[..z], Less, y, nodes[z].key, nodes[z].payload)
    ensures r == if y == Nil then z else root
  {
    ns, r := nodes, root;
    ns := ns[z := ns[z].(parent := y)];
    if y == Nil {
      r := z;
    } else if Less(nodes[z].key, ns[y].key) {
      ns := ns[y := ns[y].(left := z)];
    } else {
      ns := ns[y := ns[y].(right := z)];
    }
    ns := ns[z := ns[z].(left := Nil, right := Nil)];
    ns := ns[z := ns[z].(color := Red)];
    AttachAsWritten(nodes[..z], Less, y, nodes[z].key, nodes[z].payload, nodes, ns);
  }

  /**
   * Attaching the new leaf below the raised descent path keeps the insert
   * invariant and every field up to date; max is the arena's fields before
   * the descent, the leaf's own high last.
   */
  lemma AttachKeepsMax<P>(a: seq<Node<Interval, P>>, S: seq<set<nat>>, bh: seq<nat>, root: nat, M: map<Interval, P>,
                          y: nat, k: Interval, p: P,
                          b: seq<Node<Interval, P>>, S': seq<set<nat>>, root': nat, max: seq<int>, mx: seq<int>)
    requires RbValid(a, S, bh, root, Less, M) && k !in M && y < |a| && AttachPoint(a, S, root, Less, k, y)
    requires |max| == |a| + 1 && MaxInv(a, S, root, max[..|a|]) && max[|a|] == k.high
    requires b == Attach(a, Less, y, k, p) && S' == AttachS(S, y)
    requires root' == (if y == Nil then |a| else root) && mx == Raised(max, S, root, y, k.high)
    ensures InsertInv(b, S', bh + [1], root', Less, M[k := p], |a|) && MaxInv(b, S', root', mx)
  {
    IntervalLessTotal();
    assert MaxInv(b, S', root', mx) by {
      assert max[..|a|] + [k.high] == max;
      AttachGivesMaxSetting(a, S, bh, root, Less, M, y, k, p, max[..|a|]);
      assert b[|a|].key == k;
      AttachMax(a, S, root, y, b, S', root', max[..|a|]);
    }
    AttachInv(a, S, bh, root, Less, M, y, k, p);
  }

  /** Colouring the root black at the end of fixupInsert restores every invariant and leaves the fields alone. */
  lemma InsertFinished<P>(a: seq<Node<Interval, P>>, S: seq<set<nat>>, bh: seq<nat>, root: nat, M: map<Interval, P>,
                          z: nat, max: seq<int>, b: seq<Node<Interval, P>>)
    requires InsertInv(a, S, bh, root, Less, M, z) && IsBlack(a, a[z].parent) && MaxInv(a, S, root, max)
    requires b == a[root := a[root].(color := Black)]
    ensures RbValid(b, S, bh, root, Less, M) && MaxInv(b, S, root, max)
  {
    PaintOnly(a, root, Black);
    RecolourMax(a, S, root, max, b);
    InsertFinish(a, S, bh, root, Less, M, z, b);
  }

  /** The recolouring of case 1 leaves every field up to date. */
  lemma Case1Max<P>(a: seq<Node<Interval, P>>, S: seq<set<nat>>, bh: seq<nat>, root: nat, z: nat,
                    b: seq<Node<Interval, P>>, max: seq<int>)
    requires Case1Setting(a, S, bh, root, z) && MaxInv(a, S, root, max)
    requires var p := a[z].parent; var g := a[p].parent;
      var u := if a[g].left == p then a[g].right else a[g].left;
      var a1 := a[p := a[p].(color := Black)];
      var a2 := a1[u := a1[u].(color := Black)];
      b == a2[g := a2[g].(color := Red)]
    ensures Shaped(b, S, root) && MaxInv(b, S, root, max)
  {
    Case1AsWritten(a, S, bh, root, z, b);
    Case1ColourOnly(a, z);
    RecolourMax(a, S, root, max, b);
  }

  /** Case 1, as the source makes it: the whole invariant with z moved to its grandparent, the fields untouched and up to date. */
  lemma Case1Recoloured<P>(a: seq<Node<Interval, P>>, S: seq<set<nat>>, bh: seq<nat>, root: nat, M: map<Interval, P>,
                           z: nat, b: seq<Node<Interval, P>>, bh': seq<nat>, max: seq<int>)
    requires InsertInv(a, S, bh, root, Less, M, z) && Case1Setting(a, S, bh, root, z) && MaxInv(a, S, root, max)
    requires var p := a[z].parent; var g := a[p].parent;
      var u := if a[g].left == p then a[g].right else a[g].left;
      var a1 := a[p := a[p].(color := Black)];
      var a2 := a1[u := a1[u].(color := Black)];
      b == a2[g := a2[g].(color := Red)] && bh' == bh[g := bh[g] + 1]
    ensures InsertInv(b, S, bh', root, Less, M, a[a[z].parent].parent) && MaxInv(b, S, root, max)
    ensures InsertMeasure(b, S, root, a[a[z].parent].parent) < InsertMeasure(a, S, root, z)
  {
    Case1Max(a, S, bh, root, z, b, max);
    InsertStep1(a, S, bh, root, Less, M, z, b, bh');
    InsertStep1Measure(a, S, bh, root, z, b);
  }

  /**
   * Case 3 of fixupInsert with the parent a left child: the recolouring,
   * then rotateRight at the grandparent with both refreshes, restores every
   * invariant but the root's colour and leaves every field up to date.
   */
  lemma Case3LeftRotated<P>(a: seq<Node<Interval, P>>, S: seq<set<nat>>, bh: seq<nat>, root: nat, M: map<Interval, P>,
                            z: nat, g: nat, max: seq<int>,
                            b: seq<Node<Interval, P>>, S': seq<set<nat>>, root': nat, mx: seq<int>)
    requires InsertInv(a, S, bh, root, Less, M, z) && Case3LeftSetting(a, S, bh, root, z) && MaxInv(a, S, root, max)
    requires g == a[a[z].parent].parent && RotatedRight(Case3Colour(a, z), root, g, b, root')
    requires S' == RightRotatedS(Case3Colour(a, z), S, g) && InArena(b) && |max| == |b| && mx == RotationRefresh(b, max, g)
    ensures |b| == |a| && b[Nil] == a[Nil]
    ensures InsertInv(b, S', bh, root', Less, M, z) && IsBlack(b, b[z].parent) && MaxInv(b, S', root', mx)
    ensures InsertMeasure(b, S', root', z) < InsertMeasure(a, S, root, z)
  {
    var c := Case3Colour(a, z);
    Family(a, S, bh, root, z);
    Case3Recoloured(a, z, c);
    RecolourMax(a, S, root, max, c);
    assert g in S[root] && c[g].left != Nil;
    RotateRightRefreshed(c, S, root, M, g, b, root', max);
    InsertCase3Left(a, S, bh, root, Less, M, z, c, b, S', root');
  }

  /** The mirror image: the parent a right child, rotateLeft at the grandparent. */
  lemma Case3RightRotated<P>(a: seq<Node<Interval, P>>, S: seq<set<nat>>, bh: seq<nat>, root: nat, M: map<Interval, P>,
                             z: nat, g: nat, max: seq<int>,
                             b: seq<Node<Interval, P>>, S': seq<set<nat>>, root': nat, mx: seq<int>)
    requires InsertInv(a, S, bh, root, Less, M, z) && Case3RightSetting(a, S, bh, root, z) && MaxInv(a, S, root, max)
    requires g == a[a[z].parent].parent && RotatedLeft(Case3Colour(a, z), root, g, b, root')
    requires S' == LeftRotatedS(Case3Colour(a, z), S, g) && InArena(b) && |max| == |b| && mx == RotationRefresh(b, max, g)
    ensures |b| == |a| && b[Nil] == a[Nil]
    ensures InsertInv(b, S', bh, root', Less, M, z) && IsBlack(b, b[z].parent) && MaxInv(b, S', root', mx)
    ensures InsertMeasure(b, S', root', z) < InsertMeasure(a, S, root, z)
  {
    var c := Case3Colour(a, z);
    Family(a, S, bh, root, z);
    Case3Recoloured(a, z, c);
    RecolourMax(a, S, root, max, c);
    assert g in S[root] && c[g].right != Nil;
    RotateLeftRefreshed(c, S, root, M, g, b, root', max);
    InsertCase3Right(a, S, bh, root, Less, M, z, c, b, S', root');
  }

  /**
   * The statements of case 3 with the parent a left child: the parent
   * turns black and the grandparent red, then rotateRight at the
   * grandparent, then its fields refreshed, the demoted grandparent's first.
   */
  method Case3LeftTurn<P>(nodes: seq<Node<Interval, P>>, ghost S: seq<set<nat>>, ghost bh: seq<nat>, root: nat, z: nat,
                          max: seq<int>)
    returns (ns: seq<Node<Interval, P>>, r: nat, mx: seq<int>, g: nat)
    requires Case3LeftSetting(nodes, S, bh, root, z) && |max| == |nodes|
    ensures g == nodes[nodes[z].parent].parent && RotatedRight(Case3Colour(nodes, z), root, g, ns, r)
    ensures InArena(ns) && |max| == |ns| && mx == RotationRefresh(ns, max, g)
  {
    Family(nodes, S, bh, root, z);
    var p := nodes[z].parent;
    g := nodes[p].parent;
    ns := nodes[p := nodes[p].(color := Black)];
    ns := ns[g := ns[g].(color := Red)];
    ghost var c := ns;
    InsertStep3Shaped(nodes, S, bh, root, z, c);
    assert g in S[root] && c[g].left != Nil;
    ns, r := RotationRight(ns, S, root, g);
    RotateRightShaped(c, S, root, g, ns, r);
    mx := max[g := UpdatedMax(ns, max, g)];
    mx := mx[ns[g].parent := UpdatedMax(ns, mx, ns[g].parent)];
  }

  /** The mirror image: the parent a right child, rotateLeft at the grandparent. */
  method Case3RightTurn<P>(nodes: seq<Node<Interval, P>>, ghost S: seq<set<nat>>, ghost bh: seq<nat>, root: nat, z: nat,
                           max: seq<int>)
    returns (ns: seq<Node<Interval, P>>, r: nat, mx: seq<int>, g: nat)
    requires Case3RightSetting(nodes, S, bh, root, z) && |max| == |nodes|
    ensures g == nodes[nodes[z].parent].parent && RotatedLeft(Case3Colour(nodes, z), root, g, ns, r)
    ensures InArena(ns) && |max| == |ns| && mx == RotationRefresh(ns, max, g)
  {
    Family(nodes, S, bh, root, z);
    var p := nodes[z].parent;
    g := nodes[p].parent;
    ns := nodes[p := nodes[p].(color := Black)];
    ns := ns[g := ns[g].(color := Red)];
    ghost var c := ns;
    InsertStep3Shaped(nodes, S, bh, root, z, c);
    assert g in S[root] && c[g].right != Nil;
    ns, r := RotationLeft(ns, S, root, g);
    RotateLeftShaped(c, S, root, g, ns, r);
    mx := max[g := UpdatedMax(ns, max, g)];
    mx := mx[ns[g].parent := UpdatedMax(ns, mx, ns[g].parent)];
  }

  /** Overwriting the payload of the node search found keeps every invariant; the fields read no payload. */
  lemma PayloadOverwritten<P>(nodes: seq<Node<Interval, P>>, S: seq<set<nat>>, bh: seq<nat>, root: nat,
                              M: map<Interval, P>, max: seq<int>, key: Interval, p: P, n: nat, b: seq<Node<Interval, P>>)
    requires RbValid(nodes, S, bh, root, Less, M) && MaxInv(nodes, S, root, max)
    requires n == Find(nodes, S, root, Less, key, root) && n in S[root]
    requires b == nodes[n := nodes[n].(payload := p)]
    ensures key in M && RbValid(b, S, bh, root, Less, M[key := p]) && MaxInv(b, S, root, max)
  {
    IntervalLessTotal();
    FindContents(nodes, S, root, Less, M, key);
    Overwritten(nodes, S, bh, root, Less, M, n, p, b, M[key := p]);
    forall i | i in S[root] ensures MaxOk(b, max, i) {
      MaxKept(nodes, b, max, i);
    }
  }

  /** When search stops at the sentinel, or the tree is empty, the key is not in the tree. */
  lemma KeyAbsent<P>(nodes: seq<Node<Interval, P>>, S: seq<set<nat>>, bh: seq<nat>, root: nat, M: map<Interval, P>,
                     key: Interval)
    requires RbValid(nodes, S, bh, root, Less, M)
    requires root == Nil || Find(nodes, S, root, Less, key, root) == Nil
    ensures key !in M
  {
    IntervalLessTotal();
    FindContents(nodes, S, root, Less, M, key);
  }

  // ---------------------------------------------------------------------
  // Removal.
  // ---------------------------------------------------------------------

  /** A step from a live node to its parent ends at the sentinel above the root, or brings the walk closer to the root. */
  lemma ParentCloser<K, P>(nodes: seq<Node<K, P>>, S: seq<set<nat>>, root: nat, z: nat)
    requires Shaped(nodes, S, root) && z in S[root]
    ensures nodes[z].parent == Nil || (nodes[z].parent in S[root] && |S[root] - S[nodes[z].parent]| < |S[root] - S[z]|)
  {
    if z != root {
      var p := nodes[z].parent;
      ParentLive(nodes, S, root, z);
      ChildLive(nodes, S, root, p);
      ShrinkingRest(S[root], S[z], S[p], p);
    }
  }

  /**
   * Removing z, which has two children, by splicing in y, the leftmost node
   * of its right subtree: the removal invariant, and every field up to date
   * but those on the path up from where x now hangs.
   */
  lemma RemovedTwo<P>(a: seq<Node<Interval, P>>, S: seq<set<nat>>, bh: seq<nat>, root: nat, M: map<Interval, P>,
                      z: nat, y: nat, b: seq<Node<Interval, P>>, root': nat,
                      S': seq<set<nat>>, bh': seq<nat>, M': map<Interval, P>, x: nat, d: nat, max: seq<int>)
    requires RbValid(a, S, bh, root, Less, M) && MaxInv(a, S, root, max) && z in S[root]
    requires a[z].left != Nil && a[z].right != Nil && a[z].right in S[root]
    requires y == LeftMost(a, S, root, a[z].right) && SpliceSetting(a, S, root, z, y) && Spliced(a, root, z, y, b, root')
    requires S' == DeleteS(S, z, y) && bh' == TwoBh(bh, z, y) && M' == M - {a[z].key}
    requires x == a[y].right && d == if IsBlack(a, y) then 1 else 0
    ensures d == 0 ==> IsBlack(b, x)
    ensures DeleteInv(b, S', bh', root', Less, M', x, d)
    ensures x < |b| && MaxOkBut(b, S', root', max, RecalcStart(b, x))
  {
    IntervalLessTotal();
    TwoChildren(a, S, bh, root, Less, M, z, y, b, root');
    TwoMax(a, S, root, z, y, b, root', max);
  }

  /** Colouring x black at the end of fixupDelete restores every invariant and leaves the fields alone. */
  lemma DeleteFinished<P>(a: seq<Node<Interval, P>>, S: seq<set<nat>>, bh: seq<nat>, root: nat, M: map<Interval, P>,
                          x: nat, max: seq<int>, b: seq<Node<Interval, P>>)
    requires DeleteInv(a, S, bh, root, Less, M, x, 1) && MaxInv(a, S, root, max)
    requires x == root || !IsBlack(a, x)
    requires b == a[x := a[x].(color := Black)]
    ensures RbValid(b, S, bh, root, Less, M) && MaxInv(b, S, root, max)
  {
    PaintOnly(a, x, Black);
    RecolourMax(a, S, root, max, b);
    DeleteDone(a, S, bh, root, Less, M, x, 1);
  }

  /** Case 2 of fixupDelete moves x up to its parent, keeps the removal invariant and leaves every field up to date. */
  lemma BlackSiblingKeepsMax<P>(a: seq<Node<Interval, P>>, S: seq<set<nat>>, bh: seq<nat>, root: nat, M: map<Interval, P>,
                                x: nat, b: seq<Node<Interval, P>>, bh': seq<nat>, max: seq<int>)
    requires DeleteInv(a, S, bh, root, Less, M, x, 1) && Case2Setting(a, S, bh, root, x) && MaxInv(a, S, root, max)
    requires b == Case2Colour(a, x) && bh' == bh[a[x].parent := bh[a[x].parent] - 1]
    ensures |S[root] - S[a[x].parent]| < |S[root] - S[x]|
    ensures DeleteInv(b, S, bh', root, Less, M, a[x].parent, 1) && MaxInv(b, S, root, max)
  {
    DelCase2(a, S, bh, root, x);
    RecolourMax(a, S, root, max, b);
    BlackSiblingRecoloured(a, S, bh, root, Less, M, x, b, bh');
  }

  /** Removing z, which has no left child: the removal invariant, and every field up to date but those above z's place. */
  lemma RemovedNoLeft<P>(a: seq<Node<Interval, P>>, S: seq<set<nat>>, bh: seq<nat>, root: nat, M: map<Interval, P>,
                         z: nat, b: seq<Node<Interval, P>>, root': nat, S': seq<set<nat>>, M': map<Interval, P>,
                         x: nat, d: nat, max: seq<int>)
    requires RbValid(a, S, bh, root, Less, M) && MaxInv(a, S, root, max) && z in S[root] && a[z].left == Nil
    requires Transplanted(a, root, z, a[z].right, b, root')
    requires S' == DeleteS(S, z, z) && M' == M - {a[z].key} && x == a[z].right && d == if IsBlack(a, z) then 1 else 0
    ensures d == 0 ==> IsBlack(b, x)
    ensures DeleteInv(b, S', bh, root', Less, M', x, d)
    ensures x < |b| && MaxOkBut(b, S', root', max, RecalcStart(b, x))
  {
    IntervalLessTotal();
    NoLeft(a, S, bh, root, Less, M, z, b, root');
    NoLeftMax(a, S, root, z, b, root', max);
  }

  /** What the statements of case 1 with x a left child compute: p is x's parent, the arena after the recolouring and rotation, and the refreshed fields. */
  ghost predicate RedSiblingLeftTurned<P>(a: seq<Node<Interval, P>>, S: seq<set<nat>>, bh: seq<nat>, root: nat, x: nat,
                                  max: seq<int>, p: nat,
                                  b: seq<Node<Interval, P>>, S': seq<set<nat>>, root': nat, mx: seq<int>)
    requires DelCase1LeftSetting(a, S, bh, root, x)
  {
    p == a[x].parent && RotatedLeft(DelCase1LeftColour(a, x), root, p, b, root') &&
    S' == LeftRotatedS(DelCase1LeftColour(a, x), S, p) && InArena(b) && |max| == |b| && mx == RotationRefresh(b, max, p)
  }

  /**
   * The statements of case 1 with x a left child: the sibling turns black
   * and the parent red, then rotateLeft at the parent, then the fields
   * refreshed, the demoted parent's first.
   */
  method RedSiblingLeftTurn<P>(nodes: seq<Node<Interval, P>>, ghost S: seq<set<nat>>, ghost bh: seq<nat>, root: nat, x: nat,
                               max: seq<int>)
    returns (ns: seq<Node<Interval, P>>, r: nat, mx: seq<int>, p: nat, ghost S': seq<set<nat>>)
    requires DelCase1LeftSetting(nodes, S, bh, root, x) && |max| == |nodes|
    ensures RedSiblingLeftTurned(nodes, S, bh, root, x, max, p, ns, S', r, mx)
  {
    p := nodes[x].parent;
    var w := nodes[p].right;
    ns := nodes[w := nodes[w].(color := Black)];
    ns := ns[p := ns[p].(color := Red)];
    ghost var c := ns;
    RedSiblingLeftReady(nodes, S, bh, root, x, c);
    ns, r := RotationLeft(ns, S, root, p);
    RotateLeftShaped(c, S, root, p, ns, r);
    mx := max[p := UpdatedMax(ns, max, p)];
    mx := mx[ns[p].parent := UpdatedMax(ns, mx, ns[p].parent)];
    S' := LeftRotatedS(c, S, p);
  }

  /** Case 1 with x a left child: x keeps its deficit and now has a black sibling, and every field is up to date. */
  lemma RedSiblingLeftRotated<P>(a: seq<Node<Interval, P>>, S: seq<set<nat>>, bh: seq<nat>, root: nat, M: map<Interval, P>,
                                 x: nat, max: seq<int>, p: nat,
                                 b: seq<Node<Interval, P>>, S': seq<set<nat>>, root': nat, mx: seq<int>)
    requires DeleteInv(a, S, bh, root, Less, M, x, 1) && DelCase1LeftSetting(a, S, bh, root, x) && MaxInv(a, S, root, max)
    requires RedSiblingLeftTurned(a, S, bh, root, x, max, p, b, S', root', mx)
    ensures |b| == |a| && b[Nil] == a[Nil] && FarPhase(a, x) == 1
    ensures S'[x] == S[x] && S'[root'] == S[root] && x < |b|
    ensures x != root' && IsBlack(b, x) && b[b[x].parent].left == x && IsBlack(b, Sibling(b, x))
    ensures DeleteInv(b, S', bh, root', Less, M, x, 1) && MaxInv(b, S', root', mx)
  {
    var c := DelCase1LeftColour(a, x);
    RedSiblingLeftReady(a, S, bh, root, x, c);
    DelCase1LeftColourOnly(a, x);
    RecolourMax(a, S, root, max, c);
    RotateLeftMax(c, S, root, p, b, root', max);
    IntervalLessTotal();
    DelCase1Left(a, S, bh, root, Less, M, x, c, b, S', root');
  }

  /**
   * The statements of case 3 with x a left child: the sibling's near child
   * turns black and the sibling red, then rotateRight at the sibling, then
   * the fields refreshed, the demoted sibling's first.
   */
  method NearRedLeftTurn<P>(nodes: seq<Node<Interval, P>>, ghost S: seq<set<nat>>, ghost bh: seq<nat>, root: nat, x: nat,
                            max: seq<int>)
    returns (ns: seq<Node<Interval, P>>, r: nat, mx: seq<int>, w: nat, ghost S': seq<set<nat>>)
    requires DelCase3LeftSetting(nodes, S, bh, root, x) && |max| == |nodes|
    ensures w == nodes[nodes[x].parent].right && RotatedRight(DelCase3LeftColour(nodes, x), root, w, ns, r)
    ensures S' == RightRotatedS(DelCase3LeftColour(nodes, x), S, w)
    ensures InArena(ns) && |max| == |ns| && mx == RotationRefresh(ns, max, w)
  {
    w := nodes[nodes[x].parent].right;
    ns := nodes[nodes[w].left := nodes[nodes[w].left].(color := Black)];
    ns := ns[w := ns[w].(color := Red)];
    ghost var c := ns;
    NearRedLeftReady(nodes, S, bh, root, x, c);
    ns, r := RotationRight(ns, S, root, w);
    RotateRightShaped(c, S, root, w, ns, r);
    mx := max[w := UpdatedMax(ns, max, w)];
    mx := mx[ns[w].parent := UpdatedMax(ns, mx, ns[w].parent)];
    S' := RightRotatedS(c, S, w);
  }

  /** Case 3 with x a left child: x keeps its deficit, its new sibling's far child is red, and every field is up to date. */
  lemma NearRedLeftRotated<P>(a: seq<Node<Interval, P>>, S: seq<set<nat>>, bh: seq<nat>, root: nat, M: map<Interval, P>,
                              x: nat, max: seq<int>, w: nat,
                              b: seq<Node<Interval, P>>, S': seq<set<nat>>, root': nat, mx: seq<int>)
    requires DeleteInv(a, S, bh, root, Less, M, x, 1) && DelCase3LeftSetting(a, S, bh, root, x) && MaxInv(a, S, root, max)
    requires w == a[a[x].parent].right && RotatedRight(DelCase3LeftColour(a, x), root, w, b, root')
    requires S' == RightRotatedS(DelCase3LeftColour(a, x), S, w) && InArena(b) && |max| == |b| && mx == RotationRefresh(b, max, w)
    ensures |b| == |a| && b[Nil] == a[Nil] && FarPhase(a, x) == 1
    ensures S'[x] == S[x] && S'[root'] == S[root] && x < |b|
    ensures DeleteInv(b, S', bh, root', Less, M, x, 1) && MaxInv(b, S', root', mx) && FarPhase(b, x) == 0
  {
    var c := DelCase3LeftColour(a, x);
    NearRedLeftReady(a, S, bh, root, x, c);
    DelCase3LeftColourOnly(a, x);
    RecolourMax(a, S, root, max, c);
    RotateRightMax(c, S, root, w, b, root', max);
    IntervalLessTotal();
    DelCase3Left(a, S, bh, root, Less, M, x, b, root');
  }

  /**
   * The statements of case 4 with x a left child: the sibling takes the
   * parent's colour, the parent and the sibling's far child turn black,
   * then rotateLeft at the parent, then the fields refreshed, the demoted
   * parent's first.
   */
  method FarRedLeftTurn<P>(nodes: seq<Node<Interval, P>>, ghost S: seq<set<nat>>, ghost bh: seq<nat>, root: nat, x: nat,
                           max: seq<int>)
    returns (ns: seq<Node<Interval, P>>, r: nat, mx: seq<int>, p: nat, ghost S': seq<set<nat>>, ghost bh': seq<nat>)
    requires DelCase4LeftSetting(nodes, S, bh, root, x) && |max| == |nodes|
    ensures p == nodes[x].parent && RotatedLeft(DelCase4LeftColour(nodes, x), root, p, ns, r)
    ensures S' == LeftRotatedS(DelCase4LeftColour(nodes, x), S, p) && bh' == DelCase4LeftBh(nodes, bh, x)
    ensures InArena(ns) && |max| == |ns| && mx == RotationRefresh(ns, max, p)
  {
    p := nodes[x].parent;
    var w := nodes[p].right;
    ns := nodes[w := nodes[w].(color := nodes[p].color)];
    ns := ns[p := ns[p].(color := Black)];
    ns := ns[ns[w].right := ns[ns[w].right].(color := Black)];
    ghost var c := ns;
    FarRedLeftReady(nodes, S, bh, root, x, c);
    ns, r := RotationLeft(ns, S, root, p);
    RotateLeftShaped(c, S, root, p, ns, r);
    mx := max[p := UpdatedMax(ns, max, p)];
    mx := mx[ns[p].parent := UpdatedMax(ns, mx, ns[p].parent)];
    S', bh' := LeftRotatedS(c, S, p), DelCase4LeftBh(nodes, bh, x);
  }

  /** Case 4 with x a left child: the missing black node is restored, the repair ends at the root, and every field is up to date. */
  lemma FarRedLeftRotated<P>(a: seq<Node<Interval, P>>, S: seq<set<nat>>, bh: seq<nat>, root: nat, M: map<Interval, P>,
                             x: nat, max: seq<int>, p: nat,
                             b: seq<Node<Interval, P>>, S': seq<set<nat>>, bh': seq<nat>, root': nat, mx: seq<int>)
    requires DeleteInv(a, S, bh, root, Less, M, x, 1) && DelCase4LeftSetting(a, S, bh, root, x) && MaxInv(a, S, root, max)
    requires p == a[x].parent && RotatedLeft(DelCase4LeftColour(a, x), root, p, b, root')
    requires S' == LeftRotatedS(DelCase4LeftColour(a, x), S, p) && bh' == DelCase4LeftBh(a, bh, x)
    requires InArena(b) && |max| == |b| && mx == RotationRefresh(b, max, p)
    ensures |b| == |a| && b[Nil] == a[Nil]
    ensures S'[root'] == S[root] && |S[root] - S[x]| > 0 && |S'[root'] - S'[root']| == 0
    ensures DeleteInv(b, S', bh', root', Less, M, root', 1) && MaxInv(b, S', root', mx)
  {
    var c := DelCase4LeftColour(a, x);
    FarRedLeftReady(a, S, bh, root, x, c);
    DelCase4LeftColourOnly(a, x);
    RecolourMax(a, S, root, max, c);
    RotateLeftMax(c, S, root, p, b, root', max);
    IntervalLessTotal();
    DelCase4Left(a, S, bh, root, Less, M, x, b, root');
    assert S'[root'] - S'[root'] == {};
  }

  // The mirror images: x a right child.

  /** Removing z, which has no right child: the removal invariant, and every field up to date but those above z's place. */
  lemma RemovedNoRight<P>(a: seq<Node<Interval, P>>, S: seq<set<nat>>, bh: seq<nat>, root: nat, M: map<Interval, P>,
                         z: nat, b: seq<Node<Interval, P>>, root': nat, S': seq<set<nat>>, M': map<Interval, P>,
                         x: nat, d: nat, max: seq<int>)
    requires RbValid(a, S, bh, root, Less, M) && MaxInv(a, S, root, max) && z in S[root] && a[z].right == Nil
    requires Transplanted(a, root, z, a[z].left, b, root')
    requires S' == DeleteS(S, z, z) && M' == M - {a[z].key} && x == a[z].left && d == if IsBlack(a, z) then 1 else 0
    ensures d == 0 ==> IsBlack(b, x)
    ensures DeleteInv(b, S', bh, root', Less, M', x, d)
    ensures x < |b| && MaxOkBut(b, S', root', max, RecalcStart(b, x))
  {
    IntervalLessTotal();
    NoRight(a, S, bh, root, Less, M, z, b, root');
    NoRightMax(a, S, root, z, b, root', max);
  }

  /** What the statements of case 1 with x a right child compute: p is x's parent, the arena after the recolouring and rotation, and the refreshed fields. */
  ghost predicate RedSiblingRightTurned<P>(a: seq<Node<Interval, P>>, S: seq<set<nat>>, bh: seq<nat>, root: nat, x: nat,
                                  max: seq<int>, p: nat,
                                  b: seq<Node<Interval, P>>, S': seq<set<nat>>, root': nat, mx: seq<int>)
    requires DelCase1RightSetting(a, S, bh, root, x)
  {
    p == a[x].parent && RotatedRight(DelCase1RightColour(a, x), root, p, b, root') &&
    S' == RightRotatedS(DelCase1RightColour(a, x), S, p) && InArena(b) && |max| == |b| && mx == RotationRefresh(b, max, p)
  }

  /**
   * The statements of case 1 with x a right child: the sibling turns black
   * and the parent red, then rotateRight at the parent, then the fields
   * refreshed, the demoted parent's first.
   */
  method RedSiblingRightTurn<P>(nodes: seq<Node<Interval, P>>, ghost S: seq<set<nat>>, ghost bh: seq<nat>, root: nat, x: nat,
                               max: seq<int>)
    returns (ns: seq<Node<Interval, P>>, r: nat, mx: seq<int>, p: nat, ghost S': seq<set<nat>>)
    requires DelCase1RightSetting(nodes, S, bh, root, x) && |max| == |nodes|
    ensures RedSiblingRightTurned(nodes, S, bh, root, x, max, p, ns, S', r, mx)
  {
    p := nodes[x].parent;
    var w := nodes[p].left;
    ns := nodes[w := nodes[w].(color := Black)];
    ns := ns[p := ns[p].(color := Red)];
    ghost var c := ns;
    RedSiblingRightReady(nodes, S, bh, root, x, c);
    ns, r := RotationRight(ns, S, root, p);
    RotateRightShaped(c, S, root, p, ns, r);
    mx := max[p := UpdatedMax(ns, max, p)];
    mx := mx[ns[p].parent := UpdatedMax(ns, mx, ns[p].parent)];
    S' := RightRotatedS(c, S, p);
  }

  /** Case 1 with x a right child: x keeps its deficit and now has a black sibling, and every field is up to date. */
  lemma RedSiblingRightRotated<P>(a: seq<Node<Interval, P>>, S: seq<set<nat>>, bh: seq<nat>, root: nat, M: map<Interval, P>,
                                 x: nat, max: seq<int>, p: nat,
                                 b: seq<Node<Interval, P>>, S': seq<set<nat>>, root': nat, mx: seq<int>)
    requires DeleteInv(a, S, bh, root, Less, M, x, 1) && DelCase1RightSetting(a, S, bh, root, x) && MaxInv(a, S, root, max)
    requires RedSiblingRightTurned(a, S, bh, root, x, max, p, b, S', root', mx)
    ensures |b| == |a| && b[Nil] == a[Nil] && FarPhase(a, x) == 1
    ensures S'[x] == S[x] && S'[root'] == S[root] && x < |b|
    ensures x != root' && IsBlack(b, x) && b[b[x].parent].right == x && IsBlack(b, Sibling(b, x))
    ensures DeleteInv(b, S', bh, root', Less, M, x, 1) && MaxInv(b, S', root', mx)
  {
    var c := DelCase1RightColour(a, x);
    RedSiblingRightReady(a, S, bh, root, x, c);
    DelCase1RightColourOnly(a, x);
    RecolourMax(a, S, root, max, c);
    RotateRightMax(c, S, root, p, b, root', max);
    IntervalLessTotal();
    DelCase1Right(a, S, bh, root, Less, M, x, c, b, S', root');
  }

  /**
   * The statements of case 3 with x a right child: the sibling's near child
   * turns black and the sibling red, then rotateLeft at the sibling, then
   * the fields refreshed, the demoted sibling's first.
   */
  method NearRedRightTurn<P>(nodes: seq<Node<Interval, P>>, ghost S: seq<set<nat>>, ghost bh: seq<nat>, root: nat, x: nat,
                            max: seq<int>)
    returns (ns: seq<Node<Interval, P>>, r: nat, mx: seq<int>, w: nat, ghost S': seq<set<nat>>)
    requires DelCase3RightSetting(nodes, S, bh, root, x) && |max| == |nodes|
    ensures w == nodes[nodes[x].parent].left && RotatedLeft(DelCase3RightColour(nodes, x), root, w, ns, r)
    ensures S' == LeftRotatedS(DelCase3RightColour(nodes, x), S, w)
    ensures InArena(ns) && |max| == |ns| && mx == RotationRefresh(ns, max, w)
  {
    w := nodes[nodes[x].parent].left;
    ns := nodes[nodes[w].right := nodes[nodes[w].right].(color := Black)];
    ns := ns[w := ns[w].(color := Red)];
    ghost var c := ns;
    NearRedRightReady(nodes, S, bh, root, x, c);
    ns, r := RotationLeft(ns, S, root, w);
    RotateLeftShaped(c, S, root, w, ns, r);
    mx := max[w := UpdatedMax(ns, max, w)];
    mx := mx[ns[w].parent := UpdatedMax(ns, mx, ns[w].parent)];
    S' := LeftRotatedS(c, S, w);
  }

  /** Case 3 with x a right child: x keeps its deficit, its new sibling's far child is red, and every field is up to date. */
  lemma NearRedRightRotated<P>(a: seq<Node<Interval, P>>, S: seq<set<nat>>, bh: seq<nat>, root: nat, M: map<Interval, P>,
                              x: nat, max: seq<int>, w: nat,
                              b: seq<Node<Interval, P>>, S': seq<set<nat>>, root': nat, mx: seq<int>)
    requires DeleteInv(a, S, bh, root, Less, M, x, 1) && DelCase3RightSetting(a, S, bh, root, x) && MaxInv(a, S, root, max)
    requires w == a[a[x].parent].left && RotatedLeft(DelCase3RightColour(a, x), root, w, b, root')
    requires S' == LeftRotatedS(DelCase3RightColour(a, x), S, w) && InArena(b) && |max| == |b| && mx == RotationRefresh(b, max, w)
    ensures |b| == |a| && b[Nil] == a[Nil] && FarPhase(a, x) == 1
    ensures S'[x] == S[x] && S'[root'] == S[root] && x < |b|
    ensures DeleteInv(b, S', bh, root', Less, M, x, 1) && MaxInv(b, S', root', mx) && FarPhase(b, x) == 0
  {
    var c := DelCase3RightColour(a, x);
    NearRedRightReady(a, S, bh, root, x, c);
    DelCase3RightColourOnly(a, x);
    RecolourMax(a, S, root, max, c);
    RotateLeftMax(c, S, root, w, b, root', max);
    IntervalLessTotal();
    DelCase3Right(a, S, bh, root, Less, M, x, b, root');
  }

  /**
   * The statements of case 4 with x a right child: the sibling takes the
   * parent's colour, the parent and the sibling's far child turn black,
   * then rotateRight at the parent, then the fields refreshed, the demoted
   * parent's first.
   */
  method FarRedRightTurn<P>(nodes: seq<Node<Interval, P>>, ghost S: seq<set<nat>>, ghost bh: seq<nat>, root: nat, x: nat,
                           max: seq<int>)
    returns (ns: seq<Node<Interval, P>>, r: nat, mx: seq<int>, p: nat, ghost S': seq<set<nat>>, ghost bh': seq<nat>)
    requires DelCase4RightSetting(nodes, S, bh, root, x) && |max| == |nodes|
    ensures p == nodes[x].parent && RotatedRight(DelCase4RightColour(nodes, x), root, p, ns, r)
    ensures S' == RightRotatedS(DelCase4RightColour(nodes, x), S, p) && bh' == DelCase4RightBh(nodes, bh, x)
    ensures InArena(ns) && |max| == |ns| && mx == RotationRefresh(ns, max, p)
  {
    p := nodes[x].parent;
    var w := nodes[p].left;
    ns := nodes[w := nodes[w].(color := nodes[p].color)];
    ns := ns[p := ns[p].(color := Black)];
    ns := ns[ns[w].left := ns[ns[w].left].(color := Black)];
    ghost var c := ns;
    FarRedRightReady(nodes, S, bh, root, x, c);
    ns, r := RotationRight(ns, S, root, p);
    RotateRightShaped(c, S, root, p, ns, r);
    mx := max[p := UpdatedMax(ns, max, p)];
    mx := mx[ns[p].parent := UpdatedMax(ns, mx, ns[p].parent)];
    S', bh' := RightRotatedS(c, S, p), DelCase4RightBh(nodes, bh, x);
  }

  /** Case 4 with x a right child: the missing black node is restored, the repair ends at the root, and every field is up to date. */
  lemma FarRedRightRotated<P>(a: seq<Node<Interval, P>>, S: seq<set<nat>>, bh: seq<nat>, root: nat, M: map<Interval, P>,
                             x: nat, max: seq<int>, p: nat,
                             b: seq<Node<Interval, P>>, S': seq<set<nat>>, bh': seq<nat>, root': nat, mx: seq<int>)
    requires DeleteInv(a, S, bh, root, Less, M, x, 1) && DelCase4RightSetting(a, S, bh, root, x) && MaxInv(a, S, root, max)
    requires p == a[x].parent && RotatedRight(DelCase4RightColour(a, x), root, p, b, root')
    requires S' == RightRotatedS(DelCase4RightColour(a, x), S, p) && bh' == DelCase4RightBh(a, bh, x)
    requires InArena(b) && |max| == |b| && mx == RotationRefresh(b, max, p)
    ensures |b| == |a| && b[Nil] == a[Nil]
    ensures S'[root'] == S[root] && |S[root] - S[x]| > 0 && |S'[root'] - S'[root']| == 0
    ensures DeleteInv(b, S', bh', root', Less, M, root', 1) && MaxInv(b, S', root', mx)
  {
    var c := DelCase4RightColour(a, x);
    FarRedRightReady(a, S, bh, root, x, c);
    DelCase4RightColourOnly(a, x);
    RecolourMax(a, S, root, max, c);
    RotateRightMax(c, S, root, p, b, root', max);
    IntervalLessTotal();
    DelCase4Right(a, S, bh, root, Less, M, x, b, root');
    assert S'[root'] - S'[root'] == {};
  }

  /**
   * A tree holding only [1, 5]: it is the root, with the field 5, [4, 6] finds it, [6, 7]
   * finds nothing, and after deleting it the tree is empty.
   */
  method SingleIntervalLifecycle() returns (top: Outcome<Result<string>>, hit: Outcome<Result<string>>,
                                           miss: Outcome<seq<Result<string>>>, rootMax: int, h: int)
    ensures top == Success(Entry(Interval(1, 5), "a")) && rootMax == 5
    ensures hit == Success(Entry(Interval(1, 5), "a"))
    ensures miss == ErrNotFound(NoIntervalErrMsg)
    ensures h == -1
  {
    var t := new Tree<string>("");
    t.Upsert(Interval(1, 5), "a");
    assert t.M == map[Interval(1, 5) := "a"];
    top := t.Root();
    MaxIsGreatestHigh(t.nodes, t.S, t.root, t.max, t.root);
    rootMax := t.max[t.root];
    hit := t.FindFirstOverlapping(Interval(4, 6));
    assert !Overlaps(Interval(1, 5), Interval(6, 7));
    miss := t.FindAllOverlapping(Interval(6, 7));
    t.Delete(Interval(1, 5));
    assert t.M == map[];
    h := t.Height();
  }

  /**
   * The arena left by deleting [7,100] from below the black root [5,6]:
   * the sentinel stands in [7,100]'s place with [5,6] as its parent, and
   * every field still reflects [7,100]. recalcMax started at the sentinel,
   * as delete starts it, leaves the root's field at 100 although its
   * subtree holds only [5,6]; started at the sentinel's parent, as the
   * model's delete starts it, it brings the field down to 6.
   */
  method SentinelRecalcScenario() returns (high: int, stale: int, refreshed: int, childless: bool)
    ensures high == 6 && stale == 100 && refreshed == 6 && childless
  {
    var t := new Tree<string>("");
    t.nodes := [Node(Interval(0, 0), Black, 0, 0, 1, ""), Node(Interval(5, 6), Black, 0, 0, 0, ""),
                Node(Interval(7, 100), Red, 0, 0, 1, "")];
    t.S := [{}, {1}, {}];
    t.root := 1;
    t.max := [0, 100, 100];
    assert Linked(t.nodes, t.S, 1);
    t.RecalcMax(Nil);
    high := t.nodes[t.root].key.high;
    stale := t.max[t.root];
    childless := t.nodes[t.root].left == Nil && t.nodes[t.root].right == Nil;
    t.RecalcMax(RecalcStart(t.nodes, Nil));
    assert MaxOk(t.nodes, t.max, 1);
    refreshed := t.max[t.root];
  }
}

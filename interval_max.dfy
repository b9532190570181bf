/**
 * The max augmentation of the interval tree, over the same arena as the
 * red-black engine. The source keeps a `max` field in every node; the model
 * keeps those fields in a sequence `max` parallel to the arena, so that
 * max[i] is the field of node i.
 *
 * The invariant is local, as updateMax computes it: at every live node,
 * max is the latest of the node's own high and the max of each child that
 * is not the sentinel. From it follows the meaning of the field: max[i] is
 * the greatest high in the subtree of i.
 */
module IntervalMax {
  import opened RbCore
  import opened RbRotate
  import opened RbInsert
  import opened RbDelete
  import opened Intervals

  /** The source's `if t.After(m) { m = t }`: the later of m and t. */
  function Later(m: int, t: int): (r: int)
    ensures r >= m && r >= t && (r == m || r == t)
  {
    if t > m then t else m
  }

  /**
   * updateMax at z: z's own high, raised to the max of its right child and
   * then to the max of its left child, skipping a child that is the sentinel.
   * The result is the greatest of those values.
   */
  function UpdatedMax<P>(nodes: seq<Node<Interval, P>>, max: seq<int>, z: nat): (m: int)
    requires z < |nodes| && |max| == |nodes| && nodes[z].left < |nodes| && nodes[z].right < |nodes|
    ensures m >= nodes[z].key.high
    ensures nodes[z].left != Nil ==> m >= max[nodes[z].left]
    ensures nodes[z].right != Nil ==> m >= max[nodes[z].right]
    ensures m == nodes[z].key.high || (nodes[z].left != Nil && m == max[nodes[z].left]) ||
            (nodes[z].right != Nil && m == max[nodes[z].right])
  {
    var l, r := nodes[z].left, nodes[z].right;
    var m1 := if r != Nil then Later(nodes[z].key.high, max[r]) else nodes[z].key.high;
    if l != Nil then Later(m1, max[l]) else m1
  }

  /** The field of node i is what updateMax would store there. */
  ghost predicate MaxOk<P>(nodes: seq<Node<Interval, P>>, max: seq<int>, i: nat)
    requires InArena(nodes) && |max| == |nodes| && i < |nodes|
  {
    max[i] == UpdatedMax(nodes, max, i)
  }

  /** The augmentation invariant: every live node's field is up to date. */
  ghost predicate MaxInv<P>(nodes: seq<Node<Interval, P>>, S: seq<set<nat>>, root: nat, max: seq<int>)
    requires Shaped(nodes, S, root)
  {
    |max| == |nodes| && forall i {:trigger MaxOk(nodes, max, i)} :: i in S[root] ==> MaxOk(nodes, max, i)
  }

  /**
   * The invariant with a hole above z: a field may be out of date only at z
   * and its ancestors, the nodes whose subtree contains z.
   */
  ghost predicate MaxOkBut<P>(nodes: seq<Node<Interval, P>>, S: seq<set<nat>>, root: nat, max: seq<int>, z: nat)
    requires Shaped(nodes, S, root)
  {
    |max| == |nodes| && (z == Nil || z in S[root]) &&
    forall i {:trigger MaxOk(nodes, max, i)} :: i in S[root] ==> MaxOk(nodes, max, i) || z in S[i]
  }

  // ---------------------------------------------------------------------
  // What the field means.
  // ---------------------------------------------------------------------

  /** m is the greatest high of the intervals held in the nodes of T. */
  ghost predicate GreatestHigh<P>(nodes: seq<Node<Interval, P>>, T: set<nat>, m: int)
    requires forall j :: j in T ==> j < |nodes|
  {
    (forall j :: j in T ==> nodes[j].key.high <= m) && (exists j :: j in T && nodes[j].key.high == m)
  }

  /** Under the invariant, max[i] is the greatest high in the subtree of i. */
  lemma {:induction false} MaxIsGreatestHigh<P>(nodes: seq<Node<Interval, P>>, S: seq<set<nat>>, root: nat,
                                                max: seq<int>, i: nat)
    requires Shaped(nodes, S, root) && MaxInv(nodes, S, root, max) && i in S[root]
    ensures i < |nodes| && GreatestHigh(nodes, S[i], max[i])
    decreases S[i]
  {
    ChildLive(nodes, S, root, i);
    var l, r := nodes[i].left, nodes[i].right;
    assert MaxOk(nodes, max, i);
    if l != Nil {
      MaxIsGreatestHigh(nodes, S, root, max, l);
    }
    if r != Nil {
      MaxIsGreatestHigh(nodes, S, root, max, r);
    }
    assert i in S[i];
    if max[i] == nodes[i].key.high {
    } else if l != Nil && max[i] == max[l] {
      var j :| j in S[l] && nodes[j].key.high == max[l];
      assert j in S[i];
    } else {
      var j :| j in S[r] && nodes[j].key.high == max[r];
      assert j in S[i];
    }
  }

  // ---------------------------------------------------------------------
  // Recolouring and rotations.
  // ---------------------------------------------------------------------

  /** Recolouring changes no key and no link, so no field goes out of date. */
  lemma RecolourMax<P>(a: seq<Node<Interval, P>>, S: seq<set<nat>>, root: nat, max: seq<int>, b: seq<Node<Interval, P>>)
    requires Shaped(a, S, root) && Recoloured(a, b) && MaxInv(a, S, root, max)
    ensures Shaped(b, S, root) && MaxInv(b, S, root, max)
  {
    RecolourShaped(a, S, root, b);
    forall i | i in S[root] ensures MaxOk(b, max, i) {
      assert MaxOk(a, max, i);
      assert b[i] == a[i].(color := b[i].color);
    }
  }

  /**
   * The refresh a rotation needs: updateMax on the demoted node x, then on
   * its new parent, the promoted node. (The source refreshes only one of
   * the two; see RotateLeftAsWrittenStale and RotateRightAsWrittenStale.)
   */
  function RotationRefresh<P>(b: seq<Node<Interval, P>>, max: seq<int>, x: nat): (mx: seq<int>)
    requires InArena(b) && |max| == |b| && x < |b|
    ensures |mx| == |b|
  {
    var m1 := max[x := UpdatedMax(b, max, x)];
    m1[b[x].parent := UpdatedMax(b, m1, b[x].parent)]
  }

  /** The promoted node gets the field the demoted node had: the subtree of the rotation is the same. */
  lemma LeftMaxAtY<P>(a: seq<Node<Interval, P>>, S: seq<set<nat>>, root: nat, x: nat,
                      b: seq<Node<Interval, P>>, root': nat, max: seq<int>)
    requires LeftSetting(a, S, root, x, b, root') && MaxInv(a, S, root, max)
    ensures InArena(b) && |max| == |b|
    ensures RotationRefresh(b, max, x)[a[x].right] == max[x]
    ensures MaxOk(b, RotationRefresh(b, max, x), x) && MaxOk(b, RotationRefresh(b, max, x), a[x].right)
  {
    var y, alpha := a[x].right, a[x].left;
    var beta, gamma := a[y].left, a[y].right;
    RotationNeighbours(a, S, root, x, y);
    ChildLive(a, S, root, x);
    ChildLive(a, S, root, y);
    LeftArena(a, S, root, x, b, root');
    assert MaxOk(a, max, x) && MaxOk(a, max, y);
    assert alpha != y && beta != y && gamma != y && alpha != x && beta != x && gamma != x;
    var m1 := max[x := UpdatedMax(b, max, x)];
    assert UpdatedMax(b, max, x) == UpdatedMax(b, m1, x);
  }

  /** The mirror image of LeftMaxAtY. */
  lemma RightMaxAtY<P>(a: seq<Node<Interval, P>>, S: seq<set<nat>>, root: nat, x: nat,
                       b: seq<Node<Interval, P>>, root': nat, max: seq<int>)
    requires RightSetting(a, S, root, x, b, root') && MaxInv(a, S, root, max)
    ensures InArena(b) && |max| == |b|
    ensures RotationRefresh(b, max, x)[a[x].left] == max[x]
    ensures MaxOk(b, RotationRefresh(b, max, x), x) && MaxOk(b, RotationRefresh(b, max, x), a[x].left)
  {
    var y, alpha := a[x].left, a[x].right;
    var beta, gamma := a[y].right, a[y].left;
    RotationNeighbours(a, S, root, x, y);
    ChildLive(a, S, root, x);
    ChildLive(a, S, root, y);
    RightArena(a, S, root, x, b, root');
    assert MaxOk(a, max, x) && MaxOk(a, max, y);
    assert alpha != y && beta != y && gamma != y && alpha != x && beta != x && gamma != x;
    var m1 := max[x := UpdatedMax(b, max, x)];
    assert UpdatedMax(b, max, x) == UpdatedMax(b, m1, x);
  }

  /** Above the rotation: x's old parent now has y where it had x, and y's field is x's old one. */
  lemma LeftMaxAtParent<P>(a: seq<Node<Interval, P>>, S: seq<set<nat>>, root: nat, x: nat,
                           b: seq<Node<Interval, P>>, root': nat, max: seq<int>)
    requires LeftSetting(a, S, root, x, b, root') && MaxInv(a, S, root, max) && a[x].parent != Nil
    ensures InArena(b) && |max| == |b| && a[x].parent < |b| && MaxOk(b, RotationRefresh(b, max, x), a[x].parent)
  {
    var y, p := a[x].right, a[x].parent;
    LeftMaxAtY(a, S, root, x, b, root', max);
    RotationNeighbours(a, S, root, x, y);
    ChildLive(a, S, root, p);
    assert MaxOk(a, max, p);
    var l, r := a[p].left, a[p].right;
    assert l != y && r != y && p != y && p != x;
    assert b[p].key == a[p].key;
  }

  /** Beside and below the rotation no key, child or child's field changes. */
  lemma LeftMaxElsewhere<P>(a: seq<Node<Interval, P>>, S: seq<set<nat>>, root: nat, x: nat,
                            b: seq<Node<Interval, P>>, root': nat, max: seq<int>, i: nat)
    requires LeftSetting(a, S, root, x, b, root') && MaxInv(a, S, root, max)
    requires i in S[root] && i != x && i != a[x].right && i != a[x].parent
    ensures InArena(b) && |max| == |b| && MaxOk(b, RotationRefresh(b, max, x), i)
  {
    var y, p := a[x].right, a[x].parent;
    LeftArena(a, S, root, x, b, root');
    RotationNeighbours(a, S, root, x, y);
    ChildLive(a, S, root, x);
    ChildLive(a, S, root, i);
    assert MaxOk(a, max, i);
    var l, r := a[i].left, a[i].right;
    assert l != y && r != y && l != x && r != x;
    LeftLinksKept(a, root, x, b, root', i);
  }

  /** A left rotation leaves the key and children of every node but x, y and x's parent. */
  lemma LeftLinksKept<K, P>(a: seq<Node<K, P>>, root: nat, x: nat, b: seq<Node<K, P>>, root': nat, i: nat)
    requires InArena(a) && x < |a| && RotatedLeft(a, root, x, b, root') && 0 < i < |a|
    requires i != x && i != a[x].right && i != a[x].parent
    ensures b[i].key == a[i].key && b[i].left == a[i].left && b[i].right == a[i].right
  {
  }

  /** Above the rotation: x's old parent now has y where it had x, and y's field is x's old one. */
  lemma RightMaxAtParent<P>(a: seq<Node<Interval, P>>, S: seq<set<nat>>, root: nat, x: nat,
                           b: seq<Node<Interval, P>>, root': nat, max: seq<int>)
    requires RightSetting(a, S, root, x, b, root') && MaxInv(a, S, root, max) && a[x].parent != Nil
    ensures InArena(b) && |max| == |b| && a[x].parent < |b| && MaxOk(b, RotationRefresh(b, max, x), a[x].parent)
  {
    var y, p := a[x].left, a[x].parent;
    RightMaxAtY(a, S, root, x, b, root', max);
    RotationNeighbours(a, S, root, x, y);
    ChildLive(a, S, root, p);
    assert MaxOk(a, max, p);
    var l, r := a[p].right, a[p].left;
    assert l != y && r != y && p != y && p != x;
    assert b[p].key == a[p].key;
  }

  /** Beside and below the rotation no key, child or child's field changes. */
  lemma RightMaxElsewhere<P>(a: seq<Node<Interval, P>>, S: seq<set<nat>>, root: nat, x: nat,
                            b: seq<Node<Interval, P>>, root': nat, max: seq<int>, i: nat)
    requires RightSetting(a, S, root, x, b, root') && MaxInv(a, S, root, max)
    requires i in S[root] && i != x && i != a[x].left && i != a[x].parent
    ensures InArena(b) && |max| == |b| && MaxOk(b, RotationRefresh(b, max, x), i)
  {
    var y, p := a[x].left, a[x].parent;
    RightArena(a, S, root, x, b, root');
    RotationNeighbours(a, S, root, x, y);
    ChildLive(a, S, root, x);
    ChildLive(a, S, root, i);
    assert MaxOk(a, max, i);
    var l, r := a[i].right, a[i].left;
    assert l != y && r != y && l != x && r != x;
    RightLinksKept(a, root, x, b, root', i);
  }

  /** A right rotation leaves the key and children of every node but x, y and x's parent. */
  lemma RightLinksKept<K, P>(a: seq<Node<K, P>>, root: nat, x: nat, b: seq<Node<K, P>>, root': nat, i: nat)
    requires InArena(a) && x < |a| && RotatedRight(a, root, x, b, root') && 0 < i < |a|
    requires i != x && i != a[x].left && i != a[x].parent
    ensures b[i].key == a[i].key && b[i].left == a[i].left && b[i].right == a[i].right
  {
  }

  /** A left rotation followed by the refresh of both rotated nodes keeps the invariant. */
  lemma RotateLeftMax<P>(a: seq<Node<Interval, P>>, S: seq<set<nat>>, root: nat, x: nat,
                         b: seq<Node<Interval, P>>, root': nat, max: seq<int>)
    requires Shaped(a, S, root) && x in S[root] && a[x].right != Nil && RotatedLeft(a, root, x, b, root')
    requires MaxInv(a, S, root, max)
    ensures Shaped(b, LeftRotatedS(a, S, x), root') && MaxInv(b, LeftRotatedS(a, S, x), root', RotationRefresh(b, max, x))
  {
    RotateLeftShaped(a, S, root, x, b, root');
    LeftMaxAtY(a, S, root, x, b, root', max);
    forall i | i in LeftRotatedS(a, S, x)[root'] ensures MaxOk(b, RotationRefresh(b, max, x), i) {
      if i == a[x].parent {
        LeftMaxAtParent(a, S, root, x, b, root', max);
      } else if i != x && i != a[x].right {
        LeftMaxElsewhere(a, S, root, x, b, root', max, i);
      }
    }
  }

  /** A right rotation followed by the refresh of both rotated nodes keeps the invariant. */
  lemma RotateRightMax<P>(a: seq<Node<Interval, P>>, S: seq<set<nat>>, root: nat, x: nat,
                          b: seq<Node<Interval, P>>, root': nat, max: seq<int>)
    requires Shaped(a, S, root) && x in S[root] && a[x].left != Nil && RotatedRight(a, root, x, b, root')
    requires MaxInv(a, S, root, max)
    ensures Shaped(b, RightRotatedS(a, S, x), root') && MaxInv(b, RightRotatedS(a, S, x), root', RotationRefresh(b, max, x))
  {
    RotateRightShaped(a, S, root, x, b, root');
    RightMaxAtY(a, S, root, x, b, root', max);
    forall i | i in RightRotatedS(a, S, x)[root'] ensures MaxOk(b, RotationRefresh(b, max, x), i) {
      if i == a[x].parent {
        RightMaxAtParent(a, S, root, x, b, root', max);
      } else if i != x && i != a[x].left {
        RightMaxElsewhere(a, S, root, x, b, root', max, i);
      }
    }
  }

  // ---------------------------------------------------------------------
  // The insert descent and the attachment of the new leaf.
  // ---------------------------------------------------------------------

  /**
   * The fields once the insert descent has passed y: every live node whose
   * subtree holds y (y and its ancestors) is raised to h when h is later.
   */
  ghost function Raised(max: seq<int>, S: seq<set<nat>>, root: nat, y: nat, h: int): (mx: seq<int>)
    requires root < |S|
    ensures |mx| == |max|
  {
    seq(|max|, j requires 0 <= j < |max| => if j < |S| && j in S[root] && y in S[j] then Later(max[j], h) else max[j])
  }

  /** Nothing is raised before the descent starts. */
  lemma RaisedNone(max: seq<int>, S: seq<set<nat>>, root: nat, h: int)
    requires root < |S| && Bounded(|S|, S)
    ensures Raised(max, S, root, Nil, h) == max
  {
  }

  /** One step of the descent, from y down to its child x (from nothing to the root at first), raises x. */
  lemma RaisedStep<K, P>(nodes: seq<Node<K, P>>, S: seq<set<nat>>, root: nat, max: seq<int>, y: nat, x: nat, h: int)
    requires Shaped(nodes, S, root) && x in S[root] && |max| >= |nodes|
    requires (y == Nil && x == root) || (y in S[root] && (nodes[y].left == x || nodes[y].right == x))
    ensures x < |max| && Raised(max, S, root, x, h) ==
            Raised(max, S, root, y, h)[x := Later(Raised(max, S, root, y, h)[x], h)]
  {
    var A, B := Raised(max, S, root, y, h), Raised(max, S, root, x, h);
    ChildLive(nodes, S, root, x);
    if y != Nil {
      ChildLive(nodes, S, root, y);
    }
    assert y !in S[x];
    forall j | 0 <= j < |max| ensures B[j] == A[x := Later(A[x], h)][j] {
      if j != x && j < |S| && j in S[root] {
        if x in S[j] {
          ParentInside(nodes, S, root, j, x);
        }
        if y in S[j] {
          SubtreeWithin(nodes, S, root, j, y);
        }
      }
    }
  }

  /** The descent ends at y, whose free child slot on the new key's side takes the new leaf n. */
  ghost predicate AttachMaxSetting<P>(a: seq<Node<Interval, P>>, S: seq<set<nat>>, root: nat, y: nat,
                                      b: seq<Node<Interval, P>>, S': seq<set<nat>>, root': nat, max: seq<int>)
  {
    Shaped(a, S, root) && MaxInv(a, S, root, max) && (y == Nil || y in S[root]) &&
    Shaped(b, S', root') && |b| == |a| + 1 && S'[root'] == S[root] + {|a|} &&
    b[|a|].left == Nil && b[|a|].right == Nil &&
    (y == Nil ==> root == Nil) &&
    (forall i :: 0 <= i < |a| && i != y ==> b[i] == a[i]) &&
    (y != Nil ==>
       b[y].key == a[y].key &&
       ((b[y].left == |a| && a[y].left == Nil && b[y].right == a[y].right) ||
        (b[y].right == |a| && a[y].right == Nil && b[y].left == a[y].left)))
  }

  /** The fields the tree has after attaching the leaf: the raised ones, and the leaf's own high. */
  ghost function AttachedMax<P>(a: seq<Node<Interval, P>>, S: seq<set<nat>>, root: nat, y: nat,
                                b: seq<Node<Interval, P>>, max: seq<int>): (mx: seq<int>)
    requires |b| == |a| + 1 && root < |S|
  {
    Raised(max + [b[|a|].key.high], S, root, y, b[|a|].key.high)
  }

  /** A node off the descent path: neither it nor its children hold y, so nothing it reads changed. */
  lemma AttachMaxOther<P>(a: seq<Node<Interval, P>>, S: seq<set<nat>>, root: nat, y: nat,
                          b: seq<Node<Interval, P>>, S': seq<set<nat>>, root': nat, max: seq<int>, i: nat)
    requires AttachMaxSetting(a, S, root, y, b, S', root', max) && i in S[root] && y !in S[i]
    ensures i < |b| && MaxOk(b, AttachedMax(a, S, root, y, b, max), i)
  {
    var mx := AttachedMax(a, S, root, y, b, max);
    ChildLive(a, S, root, i);
    assert MaxOk(a, max, i);
    var l, r := a[i].left, a[i].right;
    assert i != y && b[i] == a[i];
    assert l != Nil ==> y !in S[l] && mx[l] == max[l];
    assert r != Nil ==> y !in S[r] && mx[r] == max[r];
  }

  /** The node the leaf hangs from: its field is raised to the leaf's high. */
  lemma AttachMaxAtY<P>(a: seq<Node<Interval, P>>, S: seq<set<nat>>, root: nat, y: nat,
                        b: seq<Node<Interval, P>>, S': seq<set<nat>>, root': nat, max: seq<int>)
    requires AttachMaxSetting(a, S, root, y, b, S', root', max) && y != Nil
    ensures y < |b| && MaxOk(b, AttachedMax(a, S, root, y, b, max), y)
  {
    var mx := AttachedMax(a, S, root, y, b, max);
    ChildLive(a, S, root, y);
    assert MaxOk(a, max, y);
    var l, r := a[y].left, a[y].right;
    assert y in S[y] && mx[y] == Later(max[y], b[|a|].key.high);
    assert mx[|a|] == b[|a|].key.high;
    assert l != Nil ==> y !in S[l] && mx[l] == max[l];
    assert r != Nil ==> y !in S[r] && mx[r] == max[r];
  }

  /** A proper ancestor of y: exactly one child is on the path, and its raise carries up. */
  lemma AttachMaxAbove<P>(a: seq<Node<Interval, P>>, S: seq<set<nat>>, root: nat, y: nat,
                          b: seq<Node<Interval, P>>, S': seq<set<nat>>, root': nat, max: seq<int>, i: nat)
    requires AttachMaxSetting(a, S, root, y, b, S', root', max) && i in S[root] && y in S[i] && i != y
    ensures i < |b| && MaxOk(b, AttachedMax(a, S, root, y, b, max), i)
  {
    var mx := AttachedMax(a, S, root, y, b, max);
    ChildLive(a, S, root, i);
    assert MaxOk(a, max, i);
    var l, r := a[i].left, a[i].right;
    assert b[i] == a[i] && mx[i] == Later(max[i], b[|a|].key.high);
    if y in S[l] {
      assert l != Nil && mx[l] == Later(max[l], b[|a|].key.high);
      assert r != Nil ==> y !in S[r] && mx[r] == max[r];
    } else {
      assert r != Nil && mx[r] == Later(max[r], b[|a|].key.high);
      assert l != Nil ==> y !in S[l] && mx[l] == max[l];
    }
  }

  /** Attaching the leaf below the raised path gives a tree whose every field is up to date. */
  lemma AttachMax<P>(a: seq<Node<Interval, P>>, S: seq<set<nat>>, root: nat, y: nat,
                     b: seq<Node<Interval, P>>, S': seq<set<nat>>, root': nat, max: seq<int>)
    requires AttachMaxSetting(a, S, root, y, b, S', root', max)
    ensures MaxInv(b, S', root', AttachedMax(a, S, root, y, b, max))
  {
    var mx := AttachedMax(a, S, root, y, b, max);
    forall i | i in S'[root'] ensures MaxOk(b, mx, i) {
      if i == |a| {
        assert mx[i] == b[i].key.high;
      } else if i == y {
        AttachMaxAtY(a, S, root, y, b, S', root', max);
      } else if y in S[i] {
        AttachMaxAbove(a, S, root, y, b, S', root', max, i);
      } else {
        AttachMaxOther(a, S, root, y, b, S', root', max, i);
      }
    }
  }

  // ---------------------------------------------------------------------
  // recalcMax: refreshing from z up to the root.
  // ---------------------------------------------------------------------

  /** Refreshing z closes the hole at z; only z's parent reads z's field, so the hole moves up to it. */
  lemma RecalcStep<P>(nodes: seq<Node<Interval, P>>, S: seq<set<nat>>, root: nat, max: seq<int>, z: nat)
    requires Shaped(nodes, S, root) && MaxOkBut(nodes, S, root, max, z) && z != Nil
    ensures z < |max| && MaxOkBut(nodes, S, root, max[z := UpdatedMax(nodes, max, z)], nodes[z].parent)
  {
    var mz := max[z := UpdatedMax(nodes, max, z)];
    var p := nodes[z].parent;
    ChildLive(nodes, S, root, z);
    if z != root {
      ParentLive(nodes, S, root, z);
    }
    forall i | i in S[root] ensures MaxOk(nodes, mz, i) || p in S[i] {
      ChildLive(nodes, S, root, i);
      if i == z {
      } else if nodes[i].left == z || nodes[i].right == z {
        assert p == i;
      } else if !MaxOk(nodes, max, i) {
        ParentInside(nodes, S, root, i, z);
      }
    }
  }

  /** With the hole at the sentinel, nothing is out of date. */
  lemma RecalcDone<P>(nodes: seq<Node<Interval, P>>, S: seq<set<nat>>, root: nat, max: seq<int>)
    requires Shaped(nodes, S, root) && MaxOkBut(nodes, S, root, max, Nil)
    ensures MaxInv(nodes, S, root, max)
  {
    forall i | i in S[root] ensures MaxOk(nodes, max, i) {
      assert Nil !in S[i];
    }
  }

  /** The red-black engine's attachment of the new leaf is an attachment in the sense above. */
  lemma AttachGivesMaxSetting<P>(a: seq<Node<Interval, P>>, S: seq<set<nat>>, bh: seq<nat>, root: nat,
                                 lt: (Interval, Interval) -> bool, M: map<Interval, P>, y: nat, k: Interval, p: P,
                                 max: seq<int>)
    requires AttachSetting(a, S, bh, root, lt, M, y, k) && MaxInv(a, S, root, max)
    ensures AttachMaxSetting(a, S, root, y, Attach(a, lt, y, k, p), AttachS(S, y), if y == Nil then |a| else root, max)
  {
    AttachShaped(a, S, bh, root, lt, M, y, k, p);
  }

  // ---------------------------------------------------------------------
  // The removal step of delete: only the ancestors of the place where a node
  // left or moved lose their field, and the refresh starts just below them.
  // ---------------------------------------------------------------------

  /**
   * Where the corrected delete starts its refresh: x, the node that moved
   * into the removed place, or x's parent when x is the sentinel (transplant
   * sets the sentinel's parent pointer too).
   */
  function RecalcStart<P>(nodes: seq<Node<Interval, P>>, x: nat): nat
    requires InArena(nodes) && x < |nodes|
  {
    if x != Nil then x else nodes[Nil].parent
  }

  /** A node whose key and children stay has an up-to-date field in the new arena exactly when it had one in the old. */
  lemma MaxKept<P>(a: seq<Node<Interval, P>>, b: seq<Node<Interval, P>>, max: seq<int>, i: nat)
    requires InArena(a) && InArena(b) && |a| == |b| && |max| == |a| && i < |a|
    requires b[i].key == a[i].key && b[i].left == a[i].left && b[i].right == a[i].right
    ensures MaxOk(b, max, i) == MaxOk(a, max, i)
  {
  }

  /** Removal of z without a left child: only z's parent is stale, and it is an ancestor of the refresh start. */
  lemma NoLeftMax<P>(a: seq<Node<Interval, P>>, S: seq<set<nat>>, root: nat, z: nat,
                     b: seq<Node<Interval, P>>, root': nat, max: seq<int>)
    requires NoLeftSetting(a, S, root, z, b, root') && MaxInv(a, S, root, max)
    ensures Shaped(b, DeleteS(S, z, z), root')
    ensures MaxOkBut(b, DeleteS(S, z, z), root', max, RecalcStart(b, a[z].right))
  {
    var S' := DeleteS(S, z, z);
    var v, zp := a[z].right, a[z].parent;
    NoLeftFamily(a, S, root, z, b, root');
    NoLeftShaped(a, S, root, z, b, root');
    var s := RecalcStart(b, v);
    if zp != Nil {
      ChildLive(a, S, root, zp);
    }
    assert s == Nil || s in S'[root'];
    forall i | i in S'[root'] ensures MaxOk(b, max, i) || s in S'[i] {
      if i != zp {
        assert MaxOk(a, max, i);
        MaxKept(a, b, max, i);
      }
    }
  }

  /** Removal of z without a right child, the mirror image. */
  lemma NoRightMax<P>(a: seq<Node<Interval, P>>, S: seq<set<nat>>, root: nat, z: nat,
                      b: seq<Node<Interval, P>>, root': nat, max: seq<int>)
    requires NoRightSetting(a, S, root, z, b, root') && MaxInv(a, S, root, max)
    ensures Shaped(b, DeleteS(S, z, z), root')
    ensures MaxOkBut(b, DeleteS(S, z, z), root', max, RecalcStart(b, a[z].left))
  {
    var S' := DeleteS(S, z, z);
    var v, zp := a[z].left, a[z].parent;
    NoRightFamily(a, S, root, z, b, root');
    NoRightShaped(a, S, root, z, b, root');
    var s := RecalcStart(b, v);
    if zp != Nil {
      ChildLive(a, S, root, zp);
    }
    assert s == Nil || s in S'[root'];
    forall i | i in S'[root'] ensures MaxOk(b, max, i) || s in S'[i] {
      if i != zp {
        assert MaxOk(a, max, i);
        MaxKept(a, b, max, i);
      }
    }
  }

  /**
   * Removal of z with two children by its successor y: stale are y, y's old
   * parent and z's parent, all ancestors of the refresh start, which lies
   * where y's right child x now hangs.
   */
  lemma TwoMax<P>(a: seq<Node<Interval, P>>, S: seq<set<nat>>, root: nat, z: nat, y: nat,
                  b: seq<Node<Interval, P>>, root': nat, max: seq<int>)
    requires TwoSetting(a, S, root, z, y, b, root') && MaxInv(a, S, root, max)
    ensures Shaped(b, DeleteS(S, z, y), root')
    ensures MaxOkBut(b, DeleteS(S, z, y), root', max, RecalcStart(b, a[y].right))
  {
    var S' := DeleteS(S, z, y);
    var zp := a[z].parent;
    var x, yp := a[y].right, a[y].parent;
    TwoFamily(a, S, root, z, y, b, root');
    TwoShaped(a, S, root, z, y, b, root');
    var s := RecalcStart(b, x);
    assert s == (if x != Nil then x else if yp == z then y else yp);
    assert s in S[z] - {z};
    ChildLive(a, S, root, z);
    if zp != Nil {
      ChildLive(a, S, root, zp);
    }
    if yp != z {
      SubtreeWithin(a, S, root, yp, y);
      ChildLive(a, S, root, yp);
      assert s in S[yp];
    }
    forall i | i in S'[root'] ensures MaxOk(b, max, i) || s in S'[i] {
      if i == y {
        assert s in S'[y];
      } else if i == zp {
        assert z in S[zp] && s in S[zp];
      } else if yp != z && i == yp {
        assert z !in S[yp] && s in S[yp];
      } else {
        TwoKept(a, S, root, z, y, b, root', i);
        assert MaxOk(a, max, i);
        MaxKept(a, b, max, i);
      }
    }
  }

  lemma TwoKept<P>(a: seq<Node<Interval, P>>, S: seq<set<nat>>, root: nat, z: nat, y: nat,
                   b: seq<Node<Interval, P>>, root': nat, i: nat)
    requires TwoSetting(a, S, root, z, y, b, root') && i in S[root] && i != z && i != y && i != a[z].parent
    requires a[y].parent == z || i != a[y].parent
    ensures InArena(b) && |b| == |a| && b[i].key == a[i].key && b[i].left == a[i].left && b[i].right == a[i].right
  {
    TwoFamily(a, S, root, z, y, b, root');
  }

  // ---------------------------------------------------------------------
  // The refreshes as the source writes them.
  // ---------------------------------------------------------------------

  /** rotateLeft as written: updateMax on the demoted x only. */
  function LeftRefreshAsWritten<P>(b: seq<Node<Interval, P>>, max: seq<int>, x: nat): (mx: seq<int>)
    requires InArena(b) && |max| == |b| && x < |b|
    ensures |mx| == |b| && mx[x] == UpdatedMax(b, max, x)
    ensures forall i :: 0 <= i < |b| && i != x ==> mx[i] == max[i]
  {
    max[x := UpdatedMax(b, max, x)]
  }

  /** rotateRight as written: updateMax on the promoted y, x's new parent, only. */
  function RightRefreshAsWritten<P>(b: seq<Node<Interval, P>>, max: seq<int>, x: nat): (mx: seq<int>)
    requires InArena(b) && |max| == |b| && x < |b|
    ensures |mx| == |b| && mx[b[x].parent] == UpdatedMax(b, max, b[x].parent)
    ensures forall i :: 0 <= i < |b| && i != b[x].parent ==> mx[i] == max[i]
  {
    max[b[x].parent := UpdatedMax(b, max, b[x].parent)]
  }

  /**
   * Upserting [1,100], [2,3] and [3,4] reaches case 3 of fixupInsert with
   * the arena a below (after its recolouring), every field up to date. The
   * rotation at [1,100] promotes [2,3], and with only [1,100] refreshed the
   * new root keeps the field 4 while [1,100] lies below it.
   */
  lemma RotateLeftAsWrittenStale<P>(pl: P, a: seq<Node<Interval, P>>, b: seq<Node<Interval, P>>, root': nat)
    requires a == [Node(Interval(0, 0), Black, 0, 0, 0, pl), Node(Interval(1, 100), Red, 0, 2, 0, pl),
                   Node(Interval(2, 3), Black, 0, 3, 1, pl), Node(Interval(3, 4), Red, 0, 0, 2, pl)]
    requires RotatedLeft(a, 1, 1, b, root')
    ensures Shaped(a, [{}, {1, 2, 3}, {2, 3}, {3}], 1) && MaxInv(a, [{}, {1, 2, 3}, {2, 3}, {3}], 1, [0, 100, 4, 4])
    ensures root' == 2 && InArena(b) && b[2].left == 1 && b[2].right == 3
    ensures LeftRefreshAsWritten(b, [0, 100, 4, 4], 1)[2] == 4 && !MaxOk(b, LeftRefreshAsWritten(b, [0, 100, 4, 4], 1), 2)
    ensures MaxOk(b, RotationRefresh(b, [0, 100, 4, 4], 1), 2)
  {
    var S: seq<set<nat>> := [{}, {1, 2, 3}, {2, 3}, {3}];
    assert Linked(a, S, 1) && Linked(a, S, 2) && Linked(a, S, 3);
    assert MaxOk(a, [0, 100, 4, 4], 1) && MaxOk(a, [0, 100, 4, 4], 2) && MaxOk(a, [0, 100, 4, 4], 3);
    assert b[1] == a[1].(right := 0, parent := 2) && b[2] == a[2].(left := 1, parent := 0);
  }

  /**
   * Upserting [3,4], [2,100] and [1,2] reaches case 3 of fixupInsert on the
   * other side. The rotation at [3,4] demotes it below [2,100], and with
   * only [2,100] refreshed [3,4] keeps the field 100 though its subtree holds
   * only [3,4].
   */
  lemma RotateRightAsWrittenStale<P>(pl: P, a: seq<Node<Interval, P>>, b: seq<Node<Interval, P>>, root': nat)
    requires a == [Node(Interval(0, 0), Black, 0, 0, 0, pl), Node(Interval(3, 4), Red, 2, 0, 0, pl),
                   Node(Interval(2, 100), Black, 3, 0, 1, pl), Node(Interval(1, 2), Red, 0, 0, 2, pl)]
    requires RotatedRight(a, 1, 1, b, root')
    ensures Shaped(a, [{}, {1, 2, 3}, {2, 3}, {3}], 1) && MaxInv(a, [{}, {1, 2, 3}, {2, 3}, {3}], 1, [0, 100, 100, 2])
    ensures root' == 2 && InArena(b) && b[2].right == 1 && b[1].left == Nil && b[1].right == Nil
    ensures RightRefreshAsWritten(b, [0, 100, 100, 2], 1)[1] == 100 && !MaxOk(b, RightRefreshAsWritten(b, [0, 100, 100, 2], 1), 1)
    ensures MaxOk(b, RotationRefresh(b, [0, 100, 100, 2], 1), 1)
  {
    var S: seq<set<nat>> := [{}, {1, 2, 3}, {2, 3}, {3}];
    assert Linked(a, S, 1) && Linked(a, S, 2) && Linked(a, S, 3);
    assert MaxOk(a, [0, 100, 100, 2], 1) && MaxOk(a, [0, 100, 100, 2], 2) && MaxOk(a, [0, 100, 100, 2], 3);
    assert b[1] == a[1].(left := 0, parent := 2) && b[2] == a[2].(right := 1, parent := 0);
  }

  /**
   * A black root [5,6] with the red right child [7,100]: deleting [7,100]
   * transplants the sentinel into its place, so delete calls recalcMax on
   * the sentinel, which changes nothing, and the root keeps the field 100.
   */
  lemma RecalcFromSentinelStale<P>(pl: P, a: seq<Node<Interval, P>>, b: seq<Node<Interval, P>>, root': nat)
    requires a == [Node(Interval(0, 0), Black, 0, 0, 0, pl), Node(Interval(5, 6), Black, 0, 2, 0, pl),
                   Node(Interval(7, 100), Red, 0, 0, 1, pl)]
    requires Transplanted(a, 1, 2, a[2].right, b, root')
    ensures Shaped(a, [{}, {1, 2}, {2}], 1) && MaxInv(a, [{}, {1, 2}, {2}], 1, [0, 100, 100])
    ensures a[2].right == Nil && root' == 1 && InArena(b) && b[1].left == Nil && b[1].right == Nil
    ensures !MaxOk(b, [0, 100, 100], 1) && b[Nil].parent == 1
  {
    var S: seq<set<nat>> := [{}, {1, 2}, {2}];
    assert Linked(a, S, 1) && Linked(a, S, 2);
    assert MaxOk(a, [0, 100, 100], 1) && MaxOk(a, [0, 100, 100], 2);
    assert b[1] == a[1].(right := 0);
  }
}

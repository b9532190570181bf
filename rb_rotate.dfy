/**
 * Left and right rotations over the arena: what they do to each node, and
 * that they keep the tree shape, the search-tree order and the entries.
 */
module RbRotate {
  import opened RbCore

  /** Rotations and recolourings never touch keys or payloads. */
  ghost predicate SameEntries<K, P>(a: seq<Node<K, P>>, b: seq<Node<K, P>>) {
    |a| == |b| && forall i :: 0 <= i < |a| ==> b[i].key == a[i].key && b[i].payload == a[i].payload
  }

  /**
   * A left rotation at x with y = x.right: y takes x's place under x's parent
   * (or becomes the root), x becomes y's left child, and y's old left subtree
   * becomes x's right subtree. No other node changes.
   */
  ghost predicate RotatedLeft<K, P>(a: seq<Node<K, P>>, root: nat, x: nat, b: seq<Node<K, P>>, root': nat)
    requires InArena(a) && x < |a|
  {
    var y := a[x].right;
    var beta := a[y].left;
    var p := a[x].parent;
    |b| == |a| &&
    b[x] == a[x].(right := beta, parent := y) &&
    b[y] == a[y].(left := x, parent := p) &&
    (beta != Nil ==> b[beta] == a[beta].(parent := x)) &&
    (p != Nil ==> b[p] == if a[p].left == x then a[p].(left := y) else a[p].(right := y)) &&
    (forall i :: 0 <= i < |a| && i != x && i != y && (i == Nil || (i != beta && i != p)) ==> b[i] == a[i]) &&
    root' == if p == Nil then y else root
  }

  /** The mirror image: y = x.left takes x's place and x becomes y's right child. */
  ghost predicate RotatedRight<K, P>(a: seq<Node<K, P>>, root: nat, x: nat, b: seq<Node<K, P>>, root': nat)
    requires InArena(a) && x < |a|
  {
    var y := a[x].left;
    var beta := a[y].right;
    var p := a[x].parent;
    |b| == |a| &&
    b[x] == a[x].(left := beta, parent := y) &&
    b[y] == a[y].(right := x, parent := p) &&
    (beta != Nil ==> b[beta] == a[beta].(parent := x)) &&
    (p != Nil ==> b[p] == if a[p].left == x then a[p].(left := y) else a[p].(right := y)) &&
    (forall i :: 0 <= i < |a| && i != x && i != y && (i == Nil || (i != beta && i != p)) ==> b[i] == a[i]) &&
    root' == if p == Nil then y else root
  }

  /** Footprints after a left rotation: only x and y change. */
  ghost function LeftRotatedS<K, P>(a: seq<Node<K, P>>, S: seq<set<nat>>, x: nat): seq<set<nat>>
    requires InArena(a) && x < |a| && |S| == |a|
  {
    var y := a[x].right;
    S[x := S[a[x].left] + {x} + S[a[y].left]][y := S[x]]
  }

  ghost function RightRotatedS<K, P>(a: seq<Node<K, P>>, S: seq<set<nat>>, x: nat): seq<set<nat>>
    requires InArena(a) && x < |a| && |S| == |a|
  {
    var y := a[x].left;
    S[x := S[a[y].right] + {x} + S[a[x].right]][y := S[x]]
  }

  /** The nodes a rotation at x touches are pairwise distinct where they must be. */
  lemma RotationNeighbours<K, P>(a: seq<Node<K, P>>, S: seq<set<nat>>, root: nat, x: nat, y: nat)
    requires Shaped(a, S, root) && x in S[root] && y != Nil && (y == a[x].left || y == a[x].right)
    ensures y in S[root] && y in S[x] && x !in S[y] && x != y
    ensures a[x].parent != Nil ==>
      a[x].parent in S[root] && a[x].parent !in S[x] &&
      (a[a[x].parent].left == x || a[a[x].parent].right == x) &&
      a[a[x].parent].left != a[a[x].parent].right
    ensures a[x].parent == Nil <==> x == root
  {
    ChildLive(a, S, root, x);
    ChildLive(a, S, root, y);
    if x != root {
      ParentLive(a, S, root, x);
      ChildLive(a, S, root, a[x].parent);
    }
  }

  /** The grandchild beta a rotation hands over is none of x, y and x's parent. */
  lemma RotationDistinct<K, P>(a: seq<Node<K, P>>, S: seq<set<nat>>, root: nat, x: nat, y: nat, beta: nat)
    requires Shaped(a, S, root) && x in S[root] && y != Nil && (y == a[x].left || y == a[x].right)
    requires beta == a[y].left || beta == a[y].right
    ensures x != Nil && x != y
    ensures beta != Nil ==> beta != x && beta != y && beta != a[x].parent
    ensures a[x].parent != Nil ==> a[x].parent != x && a[x].parent != y
  {
    RotationNeighbours(a, S, root, x, y);
    ChildLive(a, S, root, x);
    ChildLive(a, S, root, y);
  }

  /** Contents carry over to a rewired arena with the same entries and the same live nodes. */
  lemma AbstractsTransfer<K, P>(a: seq<Node<K, P>>, S: seq<set<nat>>, root: nat, M: map<K, P>,
                                b: seq<Node<K, P>>, S': seq<set<nat>>, root': nat)
    requires Bounded(|a|, S) && root < |a| && Bounded(|b|, S') && root' < |b|
    requires SameEntries(a, b) && S'[root'] == S[root] && Abstracts(a, S, root, M)
    ensures Abstracts(b, S', root', M)
  {
    forall k | k in M ensures exists n :: n in S'[root'] && b[n].key == k {
      var n :| n in S[root] && a[n].key == k;
      assert b[n].key == k;
    }
  }

  /** The facts about a left rotation that every step of its proof uses. */
  ghost predicate LeftSetting<K, P>(a: seq<Node<K, P>>, S: seq<set<nat>>, root: nat, x: nat, b: seq<Node<K, P>>, root': nat)
  {
    Shaped(a, S, root) && x in S[root] && a[x].right != Nil && RotatedLeft(a, root, x, b, root')
  }

  lemma LeftAtX<K, P>(a: seq<Node<K, P>>, S: seq<set<nat>>, root: nat, x: nat, b: seq<Node<K, P>>, root': nat)
    requires LeftSetting(a, S, root, x, b, root')
    ensures InArena(b)
    ensures Linked(b, LeftRotatedS(a, S, x), x)
  {
    var y, alpha := a[x].right, a[x].left;
    var beta := a[y].left;
    RotationNeighbours(a, S, root, x, y);
    ChildLive(a, S, root, x);
    ChildLive(a, S, root, y);
    var S' := LeftRotatedS(a, S, x);
    assert S'[x] == S[alpha] + {x} + S[beta];
    assert alpha != x && alpha != y && beta != x && beta != y;
    assert S'[alpha] == S[alpha] && S'[beta] == S[beta];
    assert alpha != Nil ==> alpha != a[x].parent && b[alpha] == a[alpha];
  }

  lemma LeftAtY<K, P>(a: seq<Node<K, P>>, S: seq<set<nat>>, root: nat, x: nat, b: seq<Node<K, P>>, root': nat)
    requires LeftSetting(a, S, root, x, b, root')
    ensures Linked(b, LeftRotatedS(a, S, x), a[x].right)
  {
    var y, alpha := a[x].right, a[x].left;
    var beta, gamma := a[y].left, a[y].right;
    RotationNeighbours(a, S, root, x, y);
    ChildLive(a, S, root, x);
    ChildLive(a, S, root, y);
    var S' := LeftRotatedS(a, S, x);
    assert S'[y] == S[x] == S[alpha] + {x} + S[beta] + {y} + S[gamma];
    assert gamma != x && gamma != y;
    assert S'[gamma] == S[gamma];
    assert gamma != Nil ==> gamma != beta && gamma != a[x].parent && b[gamma] == a[gamma];
  }

  lemma LeftAtParent<K, P>(a: seq<Node<K, P>>, S: seq<set<nat>>, root: nat, x: nat, b: seq<Node<K, P>>, root': nat)
    requires LeftSetting(a, S, root, x, b, root') && a[x].parent != Nil
    ensures Linked(b, LeftRotatedS(a, S, x), a[x].parent)
  {
    var y, p := a[x].right, a[x].parent;
    RotationNeighbours(a, S, root, x, y);
    ChildLive(a, S, root, p);
    ChildLive(a, S, root, x);
    ChildLive(a, S, root, y);
    var S' := LeftRotatedS(a, S, x);
    var other := if a[p].left == x then a[p].right else a[p].left;
    assert other != x && other != p;
    assert other !in S[x];
    assert other != y && S'[other] == S[other];
    assert other != Nil ==> other != a[y].left && b[other] == a[other];
  }

  lemma LeftAtBeta<K, P>(a: seq<Node<K, P>>, S: seq<set<nat>>, root: nat, x: nat, b: seq<Node<K, P>>, root': nat)
    requires LeftSetting(a, S, root, x, b, root') && a[a[x].right].left != Nil
    ensures Linked(b, LeftRotatedS(a, S, x), a[a[x].right].left)
  {
    var y, p := a[x].right, a[x].parent;
    var beta := a[y].left;
    RotationNeighbours(a, S, root, x, y);
    ChildLive(a, S, root, x);
    ChildLive(a, S, root, y);
    ChildLive(a, S, root, beta);
    var S' := LeftRotatedS(a, S, x);
    var l, r := a[beta].left, a[beta].right;
    assert S[beta] <= S[y] && S[y] <= S[x];
    assert l != x && l != y && r != x && r != y && l != beta && r != beta;
    assert p != Nil ==> p !in S[beta] && l != p && r != p;
    assert l != Nil ==> b[l] == a[l];
    assert r != Nil ==> b[r] == a[r];
  }

  lemma LeftElsewhere<K, P>(a: seq<Node<K, P>>, S: seq<set<nat>>, root: nat, x: nat, b: seq<Node<K, P>>, root': nat, i: nat)
    requires LeftSetting(a, S, root, x, b, root') && i in S[root]
    requires i != x && i != a[x].right && i != a[x].parent && i != a[a[x].right].left
    ensures Linked(b, LeftRotatedS(a, S, x), i)
  {
    var y, p := a[x].right, a[x].parent;
    var beta := a[y].left;
    RotationNeighbours(a, S, root, x, y);
    ChildLive(a, S, root, i);
    ChildLive(a, S, root, x);
    ChildLive(a, S, root, y);
    var S' := LeftRotatedS(a, S, x);
    var l, r := a[i].left, a[i].right;
    assert b[i] == a[i];
    assert l != Nil ==> a[l].parent == i;
    assert r != Nil ==> a[r].parent == i;
    assert l != x && l != y && r != x && r != y;
    assert l != Nil && l != p ==> l != beta && b[l] == a[l];
    assert r != Nil && r != p ==> r != beta && b[r] == a[r];
  }

  lemma LeftLinkedAt<K, P>(a: seq<Node<K, P>>, S: seq<set<nat>>, root: nat, x: nat, b: seq<Node<K, P>>, root': nat, i: nat)
    requires LeftSetting(a, S, root, x, b, root') && i in S[root]
    ensures Linked(b, LeftRotatedS(a, S, x), i)
  {
    var y, p := a[x].right, a[x].parent;
    if i == x {
      LeftAtX(a, S, root, x, b, root');
    } else if i == y {
      LeftAtY(a, S, root, x, b, root');
    } else if i == p {
      LeftAtParent(a, S, root, x, b, root');
    } else if i == a[y].left {
      LeftAtBeta(a, S, root, x, b, root');
    } else {
      LeftElsewhere(a, S, root, x, b, root', i);
    }
  }

  /** The parts of the new shape that are not about one node's links. */
  lemma LeftFrame<K, P>(a: seq<Node<K, P>>, S: seq<set<nat>>, root: nat, x: nat, b: seq<Node<K, P>>, root': nat)
    requires LeftSetting(a, S, root, x, b, root')
    ensures InArena(b) && Bounded(|b|, LeftRotatedS(a, S, x)) && LeftRotatedS(a, S, x)[Nil] == {}
    ensures LeftRotatedS(a, S, x)[root'] == S[root]
    ensures root' == Nil || (root' in S[root] && b[root'].parent == Nil)
  {
    var y, p := a[x].right, a[x].parent;
    var S' := LeftRotatedS(a, S, x);
    RotationNeighbours(a, S, root, x, y);
    ChildLive(a, S, root, x);
    ChildLive(a, S, root, y);
    LeftAtX(a, S, root, x, b, root');
    if p != Nil {
      assert root != y && root != x;
      assert root != a[y].left;
    }
  }

  /** A left rotation keeps every link inside the arena. */
  lemma LeftArena<K, P>(a: seq<Node<K, P>>, S: seq<set<nat>>, root: nat, x: nat, b: seq<Node<K, P>>, root': nat)
    requires LeftSetting(a, S, root, x, b, root')
    ensures InArena(b)
  {
    LeftFrame(a, S, root, x, b, root');
  }

  /** A rotation moves links only: every colour stays. */
  lemma LeftKeepsColour<K, P>(a: seq<Node<K, P>>, root: nat, x: nat, b: seq<Node<K, P>>, root': nat, n: nat)
    requires InArena(a) && x < |a| && RotatedLeft(a, root, x, b, root') && n < |a|
    ensures b[n].color == a[n].color
  {
  }

  lemma LeftEntries<K, P>(a: seq<Node<K, P>>, S: seq<set<nat>>, root: nat, x: nat, b: seq<Node<K, P>>, root': nat)
    requires LeftSetting(a, S, root, x, b, root')
    ensures SameEntries(a, b)
    ensures forall i :: 0 <= i < |a| ==> b[i].color == a[i].color
  {
  }

  lemma RotateLeftShaped<K, P>(a: seq<Node<K, P>>, S: seq<set<nat>>, root: nat, x: nat, b: seq<Node<K, P>>, root': nat)
    requires Shaped(a, S, root) && x in S[root] && a[x].right != Nil
    requires RotatedLeft(a, root, x, b, root')
    ensures Shaped(b, LeftRotatedS(a, S, x), root')
    ensures LeftRotatedS(a, S, x)[root'] == S[root]
    ensures SameEntries(a, b)
    ensures forall i :: 0 <= i < |a| ==> b[i].color == a[i].color
  {
    var y := a[x].right;
    var S' := LeftRotatedS(a, S, x);
    LeftFrame(a, S, root, x, b, root');
    LeftEntries(a, S, root, x, b, root');
    forall i | i in S'[root'] ensures Linked(b, S', i) && S'[i] <= S'[root'] {
      LeftLinkedAt(a, S, root, x, b, root', i);
      LeftWithin(a, S, root, x, b, root', i);
    }
  }

  lemma LeftWithin<K, P>(a: seq<Node<K, P>>, S: seq<set<nat>>, root: nat, x: nat, b: seq<Node<K, P>>, root': nat, i: nat)
    requires LeftSetting(a, S, root, x, b, root') && i in S[root]
    ensures LeftRotatedS(a, S, x)[i] <= S[root]
  {
    var y := a[x].right;
    RotationNeighbours(a, S, root, x, y);
    ChildLive(a, S, root, x);
    ChildLive(a, S, root, y);
    ChildLive(a, S, root, i);
  }

  /** After a left rotation the promoted node y is in order with its new subtree. */
  lemma LeftOrderedAtY<K(!new), P>(a: seq<Node<K, P>>, S: seq<set<nat>>, root: nat, lt: (K, K) -> bool,
                                   x: nat, b: seq<Node<K, P>>, root': nat)
    requires LeftSetting(a, S, root, x, b, root') && Ordered(a, S, root, lt) && StrictTotalOrder(lt)
    ensures InArena(b) && Bounded(|b|, LeftRotatedS(a, S, x))
    ensures OrderedAt(b, LeftRotatedS(a, S, x), lt, a[x].right)
  {
    var y, p := a[x].right, a[x].parent;
    var alpha, beta := a[x].left, a[y].left;
    var S' := LeftRotatedS(a, S, x);
    LeftFrame(a, S, root, x, b, root');
    LeftEntries(a, S, root, x, b, root');
    RotationNeighbours(a, S, root, x, y);
    ChildLive(a, S, root, x);
    ChildLive(a, S, root, y);
    assert OrderedAt(a, S, lt, x) && OrderedAt(a, S, lt, y);
    assert lt(a[x].key, a[y].key);
    forall n | n in S'[x] ensures lt(b[n].key, b[y].key) {
      if n in S[alpha] {
        assert lt(a[n].key, a[x].key);
      }
    }
  }

  /** Away from x and y a left rotation keeps each node's order with its subtrees. */
  lemma LeftOrderedElsewhere<K(!new), P>(a: seq<Node<K, P>>, S: seq<set<nat>>, root: nat, lt: (K, K) -> bool,
                                         x: nat, b: seq<Node<K, P>>, root': nat, i: nat)
    requires LeftSetting(a, S, root, x, b, root') && Ordered(a, S, root, lt)
    requires i in S[root] && i != x && i != a[x].right
    ensures InArena(b) && Bounded(|b|, LeftRotatedS(a, S, x))
    ensures OrderedAt(b, LeftRotatedS(a, S, x), lt, i)
  {
    var y, p := a[x].right, a[x].parent;
    LeftFrame(a, S, root, x, b, root');
    LeftEntries(a, S, root, x, b, root');
    RotationNeighbours(a, S, root, x, y);
    assert OrderedAt(a, S, lt, i);
    ChildLive(a, S, root, i);
    var l, r := a[i].left, a[i].right;
    assert l != Nil ==> a[l].parent == i;
    assert r != Nil ==> a[r].parent == i;
    if i != p {
      ChildLive(a, S, root, x);
      ChildLive(a, S, root, y);
      assert b[i].left == l && b[i].right == r;
      assert l != x && l != y && r != x && r != y;
    }
  }

  lemma LeftOrderedAt<K(!new), P>(a: seq<Node<K, P>>, S: seq<set<nat>>, root: nat, lt: (K, K) -> bool,
                                  x: nat, b: seq<Node<K, P>>, root': nat, i: nat)
    requires LeftSetting(a, S, root, x, b, root') && Ordered(a, S, root, lt) && StrictTotalOrder(lt)
    requires i in S[root]
    ensures InArena(b) && Bounded(|b|, LeftRotatedS(a, S, x))
    ensures OrderedAt(b, LeftRotatedS(a, S, x), lt, i)
  {
    LeftFrame(a, S, root, x, b, root');
    if i == x {
      LeftEntries(a, S, root, x, b, root');
      RotationNeighbours(a, S, root, x, a[x].right);
      ChildLive(a, S, root, x);
      ChildLive(a, S, root, a[x].right);
      assert OrderedAt(a, S, lt, x) && OrderedAt(a, S, lt, a[x].right);
    } else if i == a[x].right {
      LeftOrderedAtY(a, S, root, lt, x, b, root');
    } else {
      LeftOrderedElsewhere(a, S, root, lt, x, b, root', i);
    }
  }

  /** A left rotation keeps the search-tree order. */
  lemma RotateLeftOrdered<K(!new), P>(a: seq<Node<K, P>>, S: seq<set<nat>>, root: nat, lt: (K, K) -> bool,
                                      x: nat, b: seq<Node<K, P>>, root': nat)
    requires Shaped(a, S, root) && Ordered(a, S, root, lt) && StrictTotalOrder(lt)
    requires x in S[root] && a[x].right != Nil && RotatedLeft(a, root, x, b, root')
    ensures Shaped(b, LeftRotatedS(a, S, x), root')
    ensures Ordered(b, LeftRotatedS(a, S, x), root', lt)
  {
    RotateLeftShaped(a, S, root, x, b, root');
    var S' := LeftRotatedS(a, S, x);
    forall i | i in S'[root'] ensures OrderedAt(b, S', lt, i) {
      LeftOrderedAt(a, S, root, lt, x, b, root', i);
    }
  }

  /** A node a left rotation does not rewire keeps its children, and neither of them moved. */
  lemma LeftUntouched<K, P>(a: seq<Node<K, P>>, S: seq<set<nat>>, root: nat, x: nat, b: seq<Node<K, P>>, root': nat, i: nat)
    requires LeftSetting(a, S, root, x, b, root') && i in S[root]
    requires i != x && i != a[x].right && i != a[x].parent
    ensures b[i].left == a[i].left && b[i].right == a[i].right && b[i].color == a[i].color
    ensures a[i].left != x && a[i].right != x && a[i].left != a[x].right && a[i].right != a[x].right
  {
    var y := a[x].right;
    RotationNeighbours(a, S, root, x, y);
    ChildLive(a, S, root, i);
    ChildLive(a, S, root, x);
    var l, r := a[i].left, a[i].right;
    assert l != Nil ==> a[l].parent == i;
    assert r != Nil ==> a[r].parent == i;
  }

  // The mirror images: the same facts for the right rotation.

  /** The facts about a right rotation that every step of its proof uses. */
  ghost predicate RightSetting<K, P>(a: seq<Node<K, P>>, S: seq<set<nat>>, root: nat, x: nat, b: seq<Node<K, P>>, root': nat)
  {
    Shaped(a, S, root) && x in S[root] && a[x].left != Nil && RotatedRight(a, root, x, b, root')
  }

  lemma RightAtX<K, P>(a: seq<Node<K, P>>, S: seq<set<nat>>, root: nat, x: nat, b: seq<Node<K, P>>, root': nat)
    requires RightSetting(a, S, root, x, b, root')
    ensures InArena(b)
    ensures Linked(b, RightRotatedS(a, S, x), x)
  {
    var y, alpha := a[x].left, a[x].right;
    var beta := a[y].right;
    RotationNeighbours(a, S, root, x, y);
    ChildLive(a, S, root, x);
    ChildLive(a, S, root, y);
    var S' := RightRotatedS(a, S, x);
    assert S'[x] == S[alpha] + {x} + S[beta];
    assert alpha != x && alpha != y && beta != x && beta != y;
    assert S'[alpha] == S[alpha] && S'[beta] == S[beta];
    assert alpha != Nil ==> alpha != a[x].parent && b[alpha] == a[alpha];
  }

  lemma RightAtY<K, P>(a: seq<Node<K, P>>, S: seq<set<nat>>, root: nat, x: nat, b: seq<Node<K, P>>, root': nat)
    requires RightSetting(a, S, root, x, b, root')
    ensures Linked(b, RightRotatedS(a, S, x), a[x].left)
  {
    var y, alpha := a[x].left, a[x].right;
    var beta, gamma := a[y].right, a[y].left;
    RotationNeighbours(a, S, root, x, y);
    ChildLive(a, S, root, x);
    ChildLive(a, S, root, y);
    var S' := RightRotatedS(a, S, x);
    assert S'[y] == S[x] == S[alpha] + {x} + S[beta] + {y} + S[gamma];
    assert gamma != x && gamma != y;
    assert S'[gamma] == S[gamma];
    assert gamma != Nil ==> gamma != beta && gamma != a[x].parent && b[gamma] == a[gamma];
  }

  lemma RightAtParent<K, P>(a: seq<Node<K, P>>, S: seq<set<nat>>, root: nat, x: nat, b: seq<Node<K, P>>, root': nat)
    requires RightSetting(a, S, root, x, b, root') && a[x].parent != Nil
    ensures Linked(b, RightRotatedS(a, S, x), a[x].parent)
  {
    var y, p := a[x].left, a[x].parent;
    RotationNeighbours(a, S, root, x, y);
    ChildLive(a, S, root, p);
    ChildLive(a, S, root, x);
    ChildLive(a, S, root, y);
    var S' := RightRotatedS(a, S, x);
    var other := if a[p].right == x then a[p].left else a[p].right;
    assert other != x && other != p;
    assert other !in S[x];
    assert other != y && S'[other] == S[other];
    assert other != Nil ==> other != a[y].right && b[other] == a[other];
  }

  lemma RightAtBeta<K, P>(a: seq<Node<K, P>>, S: seq<set<nat>>, root: nat, x: nat, b: seq<Node<K, P>>, root': nat)
    requires RightSetting(a, S, root, x, b, root') && a[a[x].left].right != Nil
    ensures Linked(b, RightRotatedS(a, S, x), a[a[x].left].right)
  {
    var y, p := a[x].left, a[x].parent;
    var beta := a[y].right;
    RotationNeighbours(a, S, root, x, y);
    ChildLive(a, S, root, x);
    ChildLive(a, S, root, y);
    ChildLive(a, S, root, beta);
    var S' := RightRotatedS(a, S, x);
    var l, r := a[beta].right, a[beta].left;
    assert S[beta] <= S[y] && S[y] <= S[x];
    assert l != x && l != y && r != x && r != y && l != beta && r != beta;
    assert p != Nil ==> p !in S[beta] && l != p && r != p;
    assert l != Nil ==> b[l] == a[l];
    assert r != Nil ==> b[r] == a[r];
  }

  lemma RightElsewhere<K, P>(a: seq<Node<K, P>>, S: seq<set<nat>>, root: nat, x: nat, b: seq<Node<K, P>>, root': nat, i: nat)
    requires RightSetting(a, S, root, x, b, root') && i in S[root]
    requires i != x && i != a[x].left && i != a[x].parent && i != a[a[x].left].right
    ensures Linked(b, RightRotatedS(a, S, x), i)
  {
    var y, p := a[x].left, a[x].parent;
    var beta := a[y].right;
    RotationNeighbours(a, S, root, x, y);
    ChildLive(a, S, root, i);
    ChildLive(a, S, root, x);
    ChildLive(a, S, root, y);
    var S' := RightRotatedS(a, S, x);
    var l, r := a[i].right, a[i].left;
    assert b[i] == a[i];
    assert l != Nil ==> a[l].parent == i;
    assert r != Nil ==> a[r].parent == i;
    assert l != x && l != y && r != x && r != y;
    assert l != Nil && l != p ==> l != beta && b[l] == a[l];
    assert r != Nil && r != p ==> r != beta && b[r] == a[r];
  }

  lemma RightLinkedAt<K, P>(a: seq<Node<K, P>>, S: seq<set<nat>>, root: nat, x: nat, b: seq<Node<K, P>>, root': nat, i: nat)
    requires RightSetting(a, S, root, x, b, root') && i in S[root]
    ensures Linked(b, RightRotatedS(a, S, x), i)
  {
    var y, p := a[x].left, a[x].parent;
    if i == x {
      RightAtX(a, S, root, x, b, root');
    } else if i == y {
      RightAtY(a, S, root, x, b, root');
    } else if i == p {
      RightAtParent(a, S, root, x, b, root');
    } else if i == a[y].right {
      RightAtBeta(a, S, root, x, b, root');
    } else {
      RightElsewhere(a, S, root, x, b, root', i);
    }
  }

  /** The parts of the new shape that are not about one node's links. */
  lemma RightFrame<K, P>(a: seq<Node<K, P>>, S: seq<set<nat>>, root: nat, x: nat, b: seq<Node<K, P>>, root': nat)
    requires RightSetting(a, S, root, x, b, root')
    ensures InArena(b) && Bounded(|b|, RightRotatedS(a, S, x)) && RightRotatedS(a, S, x)[Nil] == {}
    ensures RightRotatedS(a, S, x)[root'] == S[root]
    ensures root' == Nil || (root' in S[root] && b[root'].parent == Nil)
  {
    var y, p := a[x].left, a[x].parent;
    var S' := RightRotatedS(a, S, x);
    RotationNeighbours(a, S, root, x, y);
    ChildLive(a, S, root, x);
    ChildLive(a, S, root, y);
    RightAtX(a, S, root, x, b, root');
    if p != Nil {
      assert root != y && root != x;
      assert root != a[y].right;
    }
  }

  /** A right rotation keeps every link inside the arena. */
  lemma RightArena<K, P>(a: seq<Node<K, P>>, S: seq<set<nat>>, root: nat, x: nat, b: seq<Node<K, P>>, root': nat)
    requires RightSetting(a, S, root, x, b, root')
    ensures InArena(b)
  {
    RightFrame(a, S, root, x, b, root');
  }

  /** A rotation moves links only: every colour stays. */
  lemma RightKeepsColour<K, P>(a: seq<Node<K, P>>, root: nat, x: nat, b: seq<Node<K, P>>, root': nat, n: nat)
    requires InArena(a) && x < |a| && RotatedRight(a, root, x, b, root') && n < |a|
    ensures b[n].color == a[n].color
  {
  }

  lemma RightEntries<K, P>(a: seq<Node<K, P>>, S: seq<set<nat>>, root: nat, x: nat, b: seq<Node<K, P>>, root': nat)
    requires RightSetting(a, S, root, x, b, root')
    ensures SameEntries(a, b)
    ensures forall i :: 0 <= i < |a| ==> b[i].color == a[i].color
  {
  }

  lemma RotateRightShaped<K, P>(a: seq<Node<K, P>>, S: seq<set<nat>>, root: nat, x: nat, b: seq<Node<K, P>>, root': nat)
    requires Shaped(a, S, root) && x in S[root] && a[x].left != Nil
    requires RotatedRight(a, root, x, b, root')
    ensures Shaped(b, RightRotatedS(a, S, x), root')
    ensures RightRotatedS(a, S, x)[root'] == S[root]
    ensures SameEntries(a, b)
    ensures forall i :: 0 <= i < |a| ==> b[i].color == a[i].color
  {
    var y := a[x].left;
    var S' := RightRotatedS(a, S, x);
    RightFrame(a, S, root, x, b, root');
    RightEntries(a, S, root, x, b, root');
    forall i | i in S'[root'] ensures Linked(b, S', i) && S'[i] <= S'[root'] {
      RightLinkedAt(a, S, root, x, b, root', i);
      RightWithin(a, S, root, x, b, root', i);
    }
  }

  lemma RightWithin<K, P>(a: seq<Node<K, P>>, S: seq<set<nat>>, root: nat, x: nat, b: seq<Node<K, P>>, root': nat, i: nat)
    requires RightSetting(a, S, root, x, b, root') && i in S[root]
    ensures RightRotatedS(a, S, x)[i] <= S[root]
  {
    var y := a[x].left;
    RotationNeighbours(a, S, root, x, y);
    ChildLive(a, S, root, x);
    ChildLive(a, S, root, y);
    ChildLive(a, S, root, i);
  }

  /** After a right rotation the promoted node y is in order with its new subtree. */
  lemma RightOrderedAtY<K(!new), P>(a: seq<Node<K, P>>, S: seq<set<nat>>, root: nat, lt: (K, K) -> bool,
                                   x: nat, b: seq<Node<K, P>>, root': nat)
    requires RightSetting(a, S, root, x, b, root') && Ordered(a, S, root, lt) && StrictTotalOrder(lt)
    ensures InArena(b) && Bounded(|b|, RightRotatedS(a, S, x))
    ensures OrderedAt(b, RightRotatedS(a, S, x), lt, a[x].left)
  {
    var y, p := a[x].left, a[x].parent;
    var alpha, beta := a[x].right, a[y].right;
    var S' := RightRotatedS(a, S, x);
    RightFrame(a, S, root, x, b, root');
    RightEntries(a, S, root, x, b, root');
    RotationNeighbours(a, S, root, x, y);
    ChildLive(a, S, root, x);
    ChildLive(a, S, root, y);
    assert OrderedAt(a, S, lt, x) && OrderedAt(a, S, lt, y);
    assert lt(a[y].key, a[x].key);
    forall n | n in S'[x] ensures lt(b[y].key, b[n].key) {
      if n in S[alpha] {
        assert lt(a[x].key, a[n].key);
      }
    }
  }

  /** Away from x and y a right rotation keeps each node's order with its subtrees. */
  lemma RightOrderedElsewhere<K(!new), P>(a: seq<Node<K, P>>, S: seq<set<nat>>, root: nat, lt: (K, K) -> bool,
                                         x: nat, b: seq<Node<K, P>>, root': nat, i: nat)
    requires RightSetting(a, S, root, x, b, root') && Ordered(a, S, root, lt)
    requires i in S[root] && i != x && i != a[x].left
    ensures InArena(b) && Bounded(|b|, RightRotatedS(a, S, x))
    ensures OrderedAt(b, RightRotatedS(a, S, x), lt, i)
  {
    var y, p := a[x].left, a[x].parent;
    RightFrame(a, S, root, x, b, root');
    RightEntries(a, S, root, x, b, root');
    RotationNeighbours(a, S, root, x, y);
    assert OrderedAt(a, S, lt, i);
    ChildLive(a, S, root, i);
    var l, r := a[i].right, a[i].left;
    assert l != Nil ==> a[l].parent == i;
    assert r != Nil ==> a[r].parent == i;
    if i != p {
      ChildLive(a, S, root, x);
      ChildLive(a, S, root, y);
      assert b[i].right == l && b[i].left == r;
      assert l != x && l != y && r != x && r != y;
    }
  }

  lemma RightOrderedAt<K(!new), P>(a: seq<Node<K, P>>, S: seq<set<nat>>, root: nat, lt: (K, K) -> bool,
                                  x: nat, b: seq<Node<K, P>>, root': nat, i: nat)
    requires RightSetting(a, S, root, x, b, root') && Ordered(a, S, root, lt) && StrictTotalOrder(lt)
    requires i in S[root]
    ensures InArena(b) && Bounded(|b|, RightRotatedS(a, S, x))
    ensures OrderedAt(b, RightRotatedS(a, S, x), lt, i)
  {
    RightFrame(a, S, root, x, b, root');
    if i == x {
      RightEntries(a, S, root, x, b, root');
      RotationNeighbours(a, S, root, x, a[x].left);
      ChildLive(a, S, root, x);
      ChildLive(a, S, root, a[x].left);
      assert OrderedAt(a, S, lt, x) && OrderedAt(a, S, lt, a[x].left);
    } else if i == a[x].left {
      RightOrderedAtY(a, S, root, lt, x, b, root');
    } else {
      RightOrderedElsewhere(a, S, root, lt, x, b, root', i);
    }
  }

  /** A right rotation keeps the search-tree order. */
  lemma RotateRightOrdered<K(!new), P>(a: seq<Node<K, P>>, S: seq<set<nat>>, root: nat, lt: (K, K) -> bool,
                                      x: nat, b: seq<Node<K, P>>, root': nat)
    requires Shaped(a, S, root) && Ordered(a, S, root, lt) && StrictTotalOrder(lt)
    requires x in S[root] && a[x].left != Nil && RotatedRight(a, root, x, b, root')
    ensures Shaped(b, RightRotatedS(a, S, x), root')
    ensures Ordered(b, RightRotatedS(a, S, x), root', lt)
  {
    RotateRightShaped(a, S, root, x, b, root');
    var S' := RightRotatedS(a, S, x);
    forall i | i in S'[root'] ensures OrderedAt(b, S', lt, i) {
      RightOrderedAt(a, S, root, lt, x, b, root', i);
    }
  }

  /** A node a right rotation does not rewire keeps its children, and neither of them moved. */
  lemma RightUntouched<K, P>(a: seq<Node<K, P>>, S: seq<set<nat>>, root: nat, x: nat, b: seq<Node<K, P>>, root': nat, i: nat)
    requires RightSetting(a, S, root, x, b, root') && i in S[root]
    requires i != x && i != a[x].left && i != a[x].parent
    ensures b[i].right == a[i].right && b[i].left == a[i].left && b[i].color == a[i].color
    ensures a[i].right != x && a[i].left != x && a[i].right != a[x].left && a[i].left != a[x].left
  {
    var y := a[x].left;
    RotationNeighbours(a, S, root, x, y);
    ChildLive(a, S, root, i);
    ChildLive(a, S, root, x);
    var l, r := a[i].right, a[i].left;
    assert l != Nil ==> a[l].parent == i;
    assert r != Nil ==> a[r].parent == i;
  }

  /** What a left rotation keeps: shape, live set, entries and colours, and order and contents when present. */
  lemma RotateLeftKeeps<K(!new), P>(a: seq<Node<K, P>>, S: seq<set<nat>>, root: nat, lt: (K, K) -> bool, M: map<K, P>,
                                    x: nat, b: seq<Node<K, P>>, root': nat)
    requires Shaped(a, S, root) && x in S[root] && a[x].right != Nil && RotatedLeft(a, root, x, b, root')
    requires StrictTotalOrder(lt)
    ensures Shaped(b, LeftRotatedS(a, S, x), root') && LeftRotatedS(a, S, x)[root'] == S[root]
    ensures SameEntries(a, b) && forall i :: 0 <= i < |a| ==> b[i].color == a[i].color
    ensures Ordered(a, S, root, lt) ==> Ordered(b, LeftRotatedS(a, S, x), root', lt)
    ensures Abstracts(a, S, root, M) ==> Abstracts(b, LeftRotatedS(a, S, x), root', M)
  {
    RotateLeftShaped(a, S, root, x, b, root');
    if Ordered(a, S, root, lt) {
      RotateLeftOrdered(a, S, root, lt, x, b, root');
    }
    if Abstracts(a, S, root, M) {
      AbstractsTransfer(a, S, root, M, b, LeftRotatedS(a, S, x), root');
    }
  }

  /** What a right rotation keeps. */
  lemma RotateRightKeeps<K(!new), P>(a: seq<Node<K, P>>, S: seq<set<nat>>, root: nat, lt: (K, K) -> bool, M: map<K, P>,
                                     x: nat, b: seq<Node<K, P>>, root': nat)
    requires Shaped(a, S, root) && x in S[root] && a[x].left != Nil && RotatedRight(a, root, x, b, root')
    requires StrictTotalOrder(lt)
    ensures Shaped(b, RightRotatedS(a, S, x), root') && RightRotatedS(a, S, x)[root'] == S[root]
    ensures SameEntries(a, b) && forall i :: 0 <= i < |a| ==> b[i].color == a[i].color
    ensures Ordered(a, S, root, lt) ==> Ordered(b, RightRotatedS(a, S, x), root', lt)
    ensures Abstracts(a, S, root, M) ==> Abstracts(b, RightRotatedS(a, S, x), root', M)
  {
    RotateRightShaped(a, S, root, x, b, root');
    if Ordered(a, S, root, lt) {
      RotateRightOrdered(a, S, root, lt, x, b, root');
    }
    if Abstracts(a, S, root, M) {
      AbstractsTransfer(a, S, root, M, b, RightRotatedS(a, S, x), root');
    }
  }

  /**
   * The pointer updates of rotateLeft, in the order the source makes them,
   * on the arena and root of a tree.
   */
  method RotationLeft<K, P>(nodes: seq<Node<K, P>>, ghost S: seq<set<nat>>, root: nat, x: nat)
    returns (ns: seq<Node<K, P>>, r: nat)
    requires Shaped(nodes, S, root) && x in S[root] && nodes[x].right != Nil
    ensures RotatedLeft(nodes, root, x, ns, r)
  {
    ns, r := nodes, root;
    var y := ns[x].right;
    var beta := ns[y].left;
    RotationDistinct(nodes, S, root, x, y, beta);
    ns := ns[x := ns[x].(right := beta)];
    if beta != Nil {
      ns := ns[beta := ns[beta].(parent := x)];
    }
    var p := ns[x].parent;
    ns := ns[y := ns[y].(parent := p)];
    if p == Nil {
      r := y;
    } else if ns[p].left == x {
      ns := ns[p := ns[p].(left := y)];
    } else {
      ns := ns[p := ns[p].(right := y)];
    }
    ns := ns[y := ns[y].(left := x)];
    ns := ns[x := ns[x].(parent := y)];
  }

  /**
   * The pointer updates of rotateRight, in the order the source makes them,
   * on the arena and root of a tree.
   */
  method RotationRight<K, P>(nodes: seq<Node<K, P>>, ghost S: seq<set<nat>>, root: nat, x: nat)
    returns (ns: seq<Node<K, P>>, r: nat)
    requires Shaped(nodes, S, root) && x in S[root] && nodes[x].left != Nil
    ensures RotatedRight(nodes, root, x, ns, r)
  {
    ns, r := nodes, root;
    var y := ns[x].left;
    var beta := ns[y].right;
    RotationDistinct(nodes, S, root, x, y, beta);
    ns := ns[x := ns[x].(left := beta)];
    if beta != Nil {
      ns := ns[beta := ns[beta].(parent := x)];
    }
    var p := ns[x].parent;
    ns := ns[y := ns[y].(parent := p)];
    if p == Nil {
      r := y;
    } else if ns[p].left == x {
      ns := ns[p := ns[p].(left := y)];
    } else {
      ns := ns[p := ns[p].(right := y)];
    }
    ns := ns[y := ns[y].(right := x)];
    ns := ns[x := ns[x].(parent := y)];
  }
}

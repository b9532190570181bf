/**
 * Deletion from the red-black engine: transplant, the removal step (a node
 * with at most one child is replaced by that child; a node with two children
 * by the least node of its right subtree, which takes its colour), and the
 * four cases of the colour repair, each proved to keep the repair's loop
 * invariant. The invariant tracks the one place where a black node went
 * missing: the subtree at x sees one black node fewer than its sibling.
 */
module RbDelete {
  import opened RbCore
  import opened RbOrder
  import opened RbQuery
  import opened RbRotate
  import opened RbInsert

  // ---------------------------------------------------------------------
  // Transplant and the footprints after a removal.
  // ---------------------------------------------------------------------

  /**
   * transplant(u, v): v takes u's place under u's parent, or becomes the
   * root; v's parent becomes u's parent, even when v is the sentinel.
   */
  ghost predicate Transplanted<K, P>(a: seq<Node<K, P>>, root: nat, u: nat, v: nat, b: seq<Node<K, P>>, root': nat)
    requires InArena(a) && u < |a| && v < |a|
  {
    var up := a[u].parent;
    |b| == |a| &&
    b[v] == a[v].(parent := up) &&
    (up != Nil ==> b[up] == if a[up].left == u then a[up].(left := v) else a[up].(right := v)) &&
    (forall i :: 0 <= i < |a| && i != v && (i == Nil || i != up) ==> b[i] == a[i]) &&
    root' == if up == Nil then v else root
  }

  /**
   * Footprints once z is gone and y (z itself, or z's successor) has taken
   * its place: y now spans z's old subtree, z's ancestors lose z and the
   * nodes between z and y lose y.
   */
  ghost function DeleteS(S: seq<set<nat>>, z: nat, y: nat): seq<set<nat>>
    requires z < |S|
  {
    seq(|S|, j requires 0 <= j < |S| => if j == y then S[z] - {z} else if z in S[j] then S[j] - {z} else S[j] - {y})
  }

  lemma DeleteSBounded(S: seq<set<nat>>, z: nat, y: nat, n: nat)
    requires Bounded(n, S) && z < |S| && y != Nil
    ensures Bounded(n, DeleteS(S, z, y)) && DeleteS(S, z, y)[Nil] <= S[Nil]
  {
  }

  // ---------------------------------------------------------------------
  // The invariant of the colour repair.
  // ---------------------------------------------------------------------

  /** Below p, the child x sees d black nodes fewer than p records (and than its sibling sees). */
  ghost predicate DeficitAt<K, P>(nodes: seq<Node<K, P>>, bh: seq<nat>, p: nat, x: nat, d: nat)
    requires |bh| == |nodes| && InArena(nodes) && p < |nodes| && x < |nodes|
  {
    var l, r := nodes[p].left, nodes[p].right;
    (x == l && Side(nodes, bh, x) + d == bh[p] && bh[p] == Side(nodes, bh, r)) ||
    (x == r && Side(nodes, bh, l) == bh[p] && bh[p] == Side(nodes, bh, x) + d)
  }

  /**
   * The colouring while the repair runs: x is the sentinel or live and, unless
   * it is the root, hangs below a live parent p where black heights are short
   * by d on x's side. Everywhere else black heights agree, and the only red
   * rule that may fail is at x and on the edge from p to x. The root is black
   * unless it is x.
   */
  ghost predicate DeleteColours<K, P>(nodes: seq<Node<K, P>>, S: seq<set<nat>>, bh: seq<nat>, root: nat, x: nat, d: nat)
    requires Shaped(nodes, S, root)
  {
    |bh| == |nodes| && bh[Nil] == 0 && IsBlack(nodes, Nil) && d <= 1 &&
    x < |nodes| && (x == Nil || x in S[root]) && (IsBlack(nodes, root) || x == root) &&
    (x != root ==>
      nodes[x].parent in S[root] &&
      (nodes[nodes[x].parent].left == x || nodes[nodes[x].parent].right == x) &&
      DeficitAt(nodes, bh, nodes[x].parent, x, d) && RedOkBut(nodes, x, nodes[x].parent)) &&
    (forall i {:trigger BhOk(nodes, bh, i)} :: i in S[root] && (x == root || i != nodes[x].parent) ==> BhOk(nodes, bh, i)) &&
    (forall i {:trigger RedOk(nodes, i)} :: i in S[root] && i != x && (x == root || i != nodes[x].parent) ==> RedOk(nodes, i))
  }

  /** The whole invariant of the repair loop. */
  ghost predicate DeleteInv<K, P>(nodes: seq<Node<K, P>>, S: seq<set<nat>>, bh: seq<nat>, root: nat,
                                  lt: (K, K) -> bool, M: map<K, P>, x: nat, d: nat)
  {
    Shaped(nodes, S, root) && Ordered(nodes, S, root, lt) && Abstracts(nodes, S, root, M) &&
    DeleteColours(nodes, S, bh, root, x, d)
  }

  /** x's sibling: the other child of x's parent. */
  function Sibling<K, P>(nodes: seq<Node<K, P>>, x: nat): nat
    requires InArena(nodes) && x < |nodes|
  {
    var p := nodes[x].parent;
    if nodes[p].left == x then nodes[p].right else nodes[p].left
  }

  /**
   * The second part of the repair's measure: 0 once the sibling's child away
   * from x is red (the next turn ends the repair), 1 before.
   */
  ghost function FarPhase<K, P>(nodes: seq<Node<K, P>>, x: nat): nat
    requires InArena(nodes) && x < |nodes|
  {
    var p := nodes[x].parent;
    var w := Sibling(nodes, x);
    var far := if nodes[p].left == x then nodes[w].right else nodes[w].left;
    if IsBlack(nodes, far) then 1 else 0
  }

  /** The repair runs while x is a black non-root: then x's parent p and sibling w are as follows. */
  ghost predicate FixSetting<K, P>(a: seq<Node<K, P>>, S: seq<set<nat>>, bh: seq<nat>, root: nat, x: nat)
  {
    Shaped(a, S, root) && DeleteColours(a, S, bh, root, x, 1) && x != root && IsBlack(a, x)
  }

  lemma DeleteFamily<K, P>(a: seq<Node<K, P>>, S: seq<set<nat>>, bh: seq<nat>, root: nat, x: nat)
    requires FixSetting(a, S, bh, root, x)
    ensures var p := a[x].parent; var w := Sibling(a, x);
      p != Nil && p in S[root] && x != p && w != Nil && w in S[root] && w != x && w != p &&
      a[w].parent == p && (a[p].left == x || a[p].right == x) && (a[p].left == w || a[p].right == w) &&
      (a[p].left == x ==> a[p].right == w) && (a[p].left != x ==> a[p].right == x && a[p].left == w) &&
      S[x] < S[p] && S[w] < S[p] && S[x] !! S[w] && S[p] <= S[root] && p !in S[x] && p !in S[w] &&
      (x == Nil || x in S[p]) && w in S[p] &&
      Side(a, bh, x) + 1 == bh[p] && bh[p] == Side(a, bh, w) && Side(a, bh, w) >= 2 &&
      (a[w].left == Nil || a[a[w].left].parent == w) && (a[w].right == Nil || a[a[w].right].parent == w)
  {
    var p := a[x].parent;
    ChildLive(a, S, root, p);
    var w := Sibling(a, x);
    assert DeficitAt(a, bh, p, x, 1);
    assert Side(a, bh, Nil) == 1;
    assert w != Nil;
    ChildLive(a, S, root, w);
  }

  /** While the repair runs, some live node lies outside x's subtree. */
  lemma FixMeasurePositive<K, P>(a: seq<Node<K, P>>, S: seq<set<nat>>, bh: seq<nat>, root: nat, x: nat)
    requires FixSetting(a, S, bh, root, x)
    ensures |S[root] - S[x]| > 0
  {
    DeleteFamily(a, S, bh, root, x);
    assert a[x].parent in S[root] - S[x];
  }

  // ---------------------------------------------------------------------
  // The end of the repair, and removals that need none.
  // ---------------------------------------------------------------------

  lemma DeleteDoneAt<K, P>(a: seq<Node<K, P>>, S: seq<set<nat>>, bh: seq<nat>, root: nat, x: nat, d: nat, i: nat)
    requires Shaped(a, S, root) && DeleteColours(a, S, bh, root, x, d) && i in S[root]
    requires x == root || (d == 1 && !IsBlack(a, x)) || (d == 0 && IsBlack(a, x))
    ensures InArena(a[x := a[x].(color := Black)])
    ensures RedOk(a[x := a[x].(color := Black)], i) && BhOk(a[x := a[x].(color := Black)], bh, i)
  {
    var b := a[x := a[x].(color := Black)];
    PaintOnly(a, x, Black);
    ChildLive(a, S, root, i);
    var l, r := a[i].left, a[i].right;
    if IsBlack(a, x) {
      assert b == a;
      if x == root {
        assert BhOk(a, bh, i);
        assert i != x ==> RedOk(a, i);
      } else if i == a[x].parent {
        assert DeficitAt(a, bh, i, x, d) && RedOkBut(a, x, i);
      } else {
        assert BhOk(a, bh, i);
        assert i != x ==> RedOk(a, i);
      }
    } else if x == root {
      assert BhOk(a, bh, i);
      if i != x {
        assert RedOk(a, i);
        RootOrphan(a, S, root, i);
      }
    } else if i == a[x].parent {
      assert DeficitAt(a, bh, i, x, d) && RedOkBut(a, x, i);
    } else {
      assert BhOk(a, bh, i);
      assert i != x ==> RedOk(a, i);
      assert l != x && r != x;
    }
  }

  lemma DeleteDoneColours<K, P>(a: seq<Node<K, P>>, S: seq<set<nat>>, bh: seq<nat>, root: nat, x: nat, d: nat)
    requires Shaped(a, S, root) && DeleteColours(a, S, bh, root, x, d)
    requires x == root || (d == 1 && !IsBlack(a, x)) || (d == 0 && IsBlack(a, x))
    ensures Shaped(a[x := a[x].(color := Black)], S, root)
    ensures Coloured(a[x := a[x].(color := Black)], S, root)
    ensures Balanced(a[x := a[x].(color := Black)], S, bh, root)
  {
    var b := a[x := a[x].(color := Black)];
    PaintOnly(a, x, Black);
    RecolourShaped(a, S, root, b);
    forall i | i in S[root] ensures RedOk(b, i) && BhOk(b, bh, i) {
      DeleteDoneAt(a, S, bh, root, x, d, i);
    }
  }

  /**
   * The repair ends when x is the root or red, and colouring x black then
   * restores every invariant; the same holds when no black node went missing
   * and x is already black.
   */
  lemma DeleteDone<K, P>(a: seq<Node<K, P>>, S: seq<set<nat>>, bh: seq<nat>, root: nat,
                         lt: (K, K) -> bool, M: map<K, P>, x: nat, d: nat)
    requires DeleteInv(a, S, bh, root, lt, M, x, d)
    requires x == root || (d == 1 && !IsBlack(a, x)) || (d == 0 && IsBlack(a, x))
    ensures RbValid(a[x := a[x].(color := Black)], S, bh, root, lt, M)
  {
    var b := a[x := a[x].(color := Black)];
    PaintOnly(a, x, Black);
    RecolourOrdered(a, S, root, lt, b);
    RecolourAbstracts(a, S, root, M, b);
    DeleteDoneColours(a, S, bh, root, x, d);
  }

  // ---------------------------------------------------------------------
  // Case 2 of the repair (the same on both sides): the sibling and both its
  // children are black. Colour the sibling red and move x up to its parent.
  // ---------------------------------------------------------------------

  ghost predicate Case2Setting<K, P>(a: seq<Node<K, P>>, S: seq<set<nat>>, bh: seq<nat>, root: nat, x: nat)
  {
    FixSetting(a, S, bh, root, x) &&
    var w := Sibling(a, x); IsBlack(a, w) && IsBlack(a, a[w].left) && IsBlack(a, a[w].right)
  }

  /** The recolouring of case 2: the sibling turns red. */
  ghost function Case2Colour<K, P>(a: seq<Node<K, P>>, x: nat): seq<Node<K, P>>
    requires InArena(a) && x < |a|
  {
    var w := Sibling(a, x);
    a[w := a[w].(color := Red)]
  }

  lemma DelCase2At<K, P>(a: seq<Node<K, P>>, S: seq<set<nat>>, bh: seq<nat>, root: nat, x: nat,
                         b: seq<Node<K, P>>, bh': seq<nat>, i: nat)
    requires Case2Setting(a, S, bh, root, x) && i in S[root]
    requires b == Case2Colour(a, x) && bh' == bh[a[x].parent := bh[a[x].parent] - 1]
    ensures var p := a[x].parent;
      InArena(b) && |bh'| == |b| &&
      (i != a[p].parent || p == root ==> BhOk(b, bh', i)) &&
      (i != p && (p == root || i != a[p].parent) ==> RedOk(b, i))
  {
    var p, w := a[x].parent, Sibling(a, x);
    DeleteFamily(a, S, bh, root, x);
    assert InArena(b);
    ChildLive(a, S, root, i);
    var l, r := a[i].left, a[i].right;
    if i == p {
    } else if i == w {
      assert BhOk(a, bh, w);
    } else {
      assert i != x ==> RedOk(a, i);
      assert l != w && r != w;
      if i == a[p].parent && p != root {
      } else {
        assert BhOk(a, bh, i);
        assert l != p && r != p by {
          if l == p || r == p {
            OnlyParent(a, S, root, i, p);
          }
        }
      }
    }
  }

  lemma DelCase2Top<K, P>(a: seq<Node<K, P>>, S: seq<set<nat>>, bh: seq<nat>, root: nat, x: nat)
    requires Case2Setting(a, S, bh, root, x)
    ensures var p := a[x].parent; var b, bh' := Case2Colour(a, x), bh[p := bh[p] - 1];
      Recoloured(a, b) && InArena(b) && |bh'| == |b| && bh'[Nil] == 0 && IsBlack(b, Nil) && (IsBlack(b, root) || p == root) &&
      p in S[root] &&
      (p != root ==>
        b[p].parent in S[root] && (b[b[p].parent].left == p || b[b[p].parent].right == p) &&
        DeficitAt(b, bh', b[p].parent, p, 1) && RedOkBut(b, p, b[p].parent))
  {
    var p, w := a[x].parent, Sibling(a, x);
    DeleteFamily(a, S, bh, root, x);
    var b, bh' := Case2Colour(a, x), bh[p := bh[p] - 1];
    PaintOnly(a, w, Red);
    if p != root {
      ParentLive(a, S, root, p);
      var g := a[p].parent;
      ChildLive(a, S, root, g);
      assert g != w && g != x && g != p;
      assert BhOk(a, bh, g);
      assert g != x ==> RedOk(a, g);
      assert a[g].left != w && a[g].right != w;
      RootOrphan(a, S, root, p);
      assert root != w;
    }
  }

  lemma DelCase2Bh<K, P>(a: seq<Node<K, P>>, S: seq<set<nat>>, bh: seq<nat>, root: nat, x: nat,
                         b: seq<Node<K, P>>, bh': seq<nat>)
    requires Case2Setting(a, S, bh, root, x)
    requires b == Case2Colour(a, x) && bh' == bh[a[x].parent := bh[a[x].parent] - 1]
    ensures InArena(b) && |bh'| == |b| && a[x].parent < |b|
    ensures forall i {:trigger BhOk(b, bh', i)} :: i in S[root] && (a[x].parent == root || i != b[a[x].parent].parent) ==> BhOk(b, bh', i)
  {
    var p := a[x].parent;
    DelCase2Top(a, S, bh, root, x);
    forall i | i in S[root] && (p == root || i != b[p].parent) ensures BhOk(b, bh', i) {
      DelCase2At(a, S, bh, root, x, b, bh', i);
    }
  }

  lemma DelCase2Red<K, P>(a: seq<Node<K, P>>, S: seq<set<nat>>, bh: seq<nat>, root: nat, x: nat,
                          b: seq<Node<K, P>>, bh': seq<nat>)
    requires Case2Setting(a, S, bh, root, x)
    requires b == Case2Colour(a, x) && bh' == bh[a[x].parent := bh[a[x].parent] - 1]
    ensures InArena(b) && a[x].parent < |b|
    ensures forall i {:trigger RedOk(b, i)} :: i in S[root] && i != a[x].parent && (a[x].parent == root || i != b[a[x].parent].parent) ==> RedOk(b, i)
  {
    var p := a[x].parent;
    DelCase2Top(a, S, bh, root, x);
    forall i | i in S[root] && i != p && (p == root || i != b[p].parent) ensures RedOk(b, i) {
      DelCase2At(a, S, bh, root, x, b, bh', i);
    }
  }

  lemma DelCase2Colours<K, P>(a: seq<Node<K, P>>, S: seq<set<nat>>, bh: seq<nat>, root: nat, x: nat)
    requires Case2Setting(a, S, bh, root, x)
    ensures var p := a[x].parent;
      Shaped(Case2Colour(a, x), S, root) && DeleteColours(Case2Colour(a, x), S, bh[p := bh[p] - 1], root, p, 1)
  {
    var b := Case2Colour(a, x);
    DelCase2Top(a, S, bh, root, x);
    RecolourShaped(a, S, root, b);
    var p := a[x].parent;
    DelCase2Bh(a, S, bh, root, x, b, bh[p := bh[p] - 1]);
    DelCase2Red(a, S, bh, root, x, b, bh[p := bh[p] - 1]);
  }

  /** Case 2 keeps the invariant with x moved to its parent, one black node higher up; x climbs. */
  lemma DelCase2<K, P>(a: seq<Node<K, P>>, S: seq<set<nat>>, bh: seq<nat>, root: nat, x: nat)
    requires Case2Setting(a, S, bh, root, x)
    ensures var p := a[x].parent;
      Recoloured(a, Case2Colour(a, x)) && Shaped(Case2Colour(a, x), S, root) && p in S[root] &&
      DeleteColours(Case2Colour(a, x), S, bh[p := bh[p] - 1], root, p, 1) &&
      |S[root] - S[p]| < |S[root] - S[x]|
  {
    var p := a[x].parent;
    DeleteFamily(a, S, bh, root, x);
    DelCase2Top(a, S, bh, root, x);
    DelCase2Colours(a, S, bh, root, x);
    ChildLive(a, S, root, p);
    ShrinkingRest(S[root], S[x], S[p], p);
  }

  // ---------------------------------------------------------------------
  // A recolouring followed by a rotation keeps shape, order and contents.
  // ---------------------------------------------------------------------

  lemma RecolourRotateLeft<K, P>(a: seq<Node<K, P>>, S: seq<set<nat>>, root: nat, M: map<K, P>,
                                  c: seq<Node<K, P>>, x: nat, b: seq<Node<K, P>>, root': nat)
    requires Shaped(a, S, root) && Abstracts(a, S, root, M)
    requires Recoloured(a, c) && x in S[root] && a[x].right != Nil
    requires InArena(c) && RotatedLeft(c, root, x, b, root')
    ensures Shaped(c, S, root)
    ensures Shaped(b, LeftRotatedS(c, S, x), root') && LeftRotatedS(c, S, x)[root'] == S[root]
    ensures Abstracts(b, LeftRotatedS(c, S, x), root', M)
  {
    assert c[x].right == a[x].right;
    RecolourShaped(a, S, root, c);
    RecolourAbstracts(a, S, root, M, c);
    RotateLeftShaped(c, S, root, x, b, root');
    AbstractsTransfer(c, S, root, M, b, LeftRotatedS(c, S, x), root');
  }

  lemma RecolourRotateLeftOrdered<K(!new), P>(a: seq<Node<K, P>>, S: seq<set<nat>>, root: nat, lt: (K, K) -> bool,
                                            c: seq<Node<K, P>>, x: nat, b: seq<Node<K, P>>, root': nat)
    requires Shaped(a, S, root) && Ordered(a, S, root, lt) && StrictTotalOrder(lt)
    requires Recoloured(a, c) && x in S[root] && a[x].right != Nil
    requires InArena(c) && RotatedLeft(c, root, x, b, root')
    ensures Shaped(b, LeftRotatedS(c, S, x), root') && Ordered(b, LeftRotatedS(c, S, x), root', lt)
  {
    assert c[x].right == a[x].right;
    RecolourOrdered(a, S, root, lt, c);
    RotateLeftOrdered(c, S, root, lt, x, b, root');
  }

  lemma RecolourRotateRight<K, P>(a: seq<Node<K, P>>, S: seq<set<nat>>, root: nat, M: map<K, P>,
                                  c: seq<Node<K, P>>, x: nat, b: seq<Node<K, P>>, root': nat)
    requires Shaped(a, S, root) && Abstracts(a, S, root, M)
    requires Recoloured(a, c) && x in S[root] && a[x].left != Nil
    requires InArena(c) && RotatedRight(c, root, x, b, root')
    ensures Shaped(c, S, root)
    ensures Shaped(b, RightRotatedS(c, S, x), root') && RightRotatedS(c, S, x)[root'] == S[root]
    ensures Abstracts(b, RightRotatedS(c, S, x), root', M)
  {
    assert c[x].left == a[x].left;
    RecolourShaped(a, S, root, c);
    RecolourAbstracts(a, S, root, M, c);
    RotateRightShaped(c, S, root, x, b, root');
    AbstractsTransfer(c, S, root, M, b, RightRotatedS(c, S, x), root');
  }

  lemma RecolourRotateRightOrdered<K(!new), P>(a: seq<Node<K, P>>, S: seq<set<nat>>, root: nat, lt: (K, K) -> bool,
                                            c: seq<Node<K, P>>, x: nat, b: seq<Node<K, P>>, root': nat)
    requires Shaped(a, S, root) && Ordered(a, S, root, lt) && StrictTotalOrder(lt)
    requires Recoloured(a, c) && x in S[root] && a[x].left != Nil
    requires InArena(c) && RotatedRight(c, root, x, b, root')
    ensures Shaped(b, RightRotatedS(c, S, x), root') && Ordered(b, RightRotatedS(c, S, x), root', lt)
  {
    assert c[x].left == a[x].left;
    RecolourOrdered(a, S, root, lt, c);
    RotateRightOrdered(c, S, root, lt, x, b, root');
  }

  // ---------------------------------------------------------------------
  // Contents after a removal.
  // ---------------------------------------------------------------------

  /** In an ordered tree no other live node carries z's key. */
  lemma KeyUnique<K(!new), P>(a: seq<Node<K, P>>, S: seq<set<nat>>, root: nat, lt: (K, K) -> bool, z: nat)
    requires Shaped(a, S, root) && Ordered(a, S, root, lt) && StrictTotalOrder(lt) && z in S[root]
    ensures forall n :: n in S[root] && n != z ==> a[n].key != a[z].key
  {
    forall n | n in S[root] && n != z ensures a[n].key != a[z].key {
      if a[n].key == a[z].key {
        KeysDistinct(a, S, root, lt, n, z);
      }
    }
  }

  /** Unlinking z, whose key no other live node carries, removes exactly z's key from the contents. */
  lemma AbstractsRemove<K, P>(a: seq<Node<K, P>>, S: seq<set<nat>>, root: nat, M: map<K, P>, z: nat,
                              b: seq<Node<K, P>>, S': seq<set<nat>>, root': nat)
    requires Bounded(|a|, S) && root < |a| && Bounded(|b|, S') && root' < |b| && |b| == |a|
    requires Abstracts(a, S, root, M) && z in S[root]
    requires forall n :: n in S[root] && n != z ==> a[n].key != a[z].key
    requires S'[root'] == S[root] - {z}
    requires forall n :: n in S'[root'] ==> b[n].key == a[n].key && b[n].payload == a[n].payload
    ensures Abstracts(b, S', root', M - {a[z].key})
  {
    forall k | k in M - {a[z].key} ensures exists n :: n in S'[root'] && b[n].key == k {
      var n :| n in S[root] && a[n].key == k;
      assert n in S'[root'];
    }
  }

  // ---------------------------------------------------------------------
  // Removal of a node with two children: its successor y, the least node of
  // its right subtree, is unlinked from its place (y's right child x takes
  // it) and then takes z's place, links and colour.
  // ---------------------------------------------------------------------

  /** The arena after the two-children removal of z with successor y. */
  ghost predicate Spliced<K, P>(a: seq<Node<K, P>>, root: nat, z: nat, y: nat, b: seq<Node<K, P>>, root': nat)
    requires InArena(a) && z < |a| && y < |a|
  {
    var zl, zr, zp := a[z].left, a[z].right, a[z].parent;
    var x, yp := a[y].right, a[y].parent;
    |b| == |a| &&
    b[y] == a[y].(left := zl, right := if yp == z then x else zr, parent := zp, color := a[z].color) &&
    b[zl] == a[zl].(parent := y) &&
    (yp == z ==> b[x] == a[x].(parent := y)) &&
    (yp != z ==>
      b[x] == a[x].(parent := yp) &&
      b[zr] == a[zr].(left := if yp == zr then x else a[zr].left, parent := y) &&
      (yp != zr ==> b[yp] == a[yp].(left := x))) &&
    (zp != Nil ==> b[zp] == if a[zp].left == z then a[zp].(left := y) else a[zp].(right := y)) &&
    (forall i :: 0 <= i < |a| && i != y && i != zl && i != zr && i != x && (yp == z || i != yp) && (i == Nil || i != zp) ==> b[i] == a[i]) &&
    root' == if zp == Nil then y else root
  }

  /** z has two children and y is a node of z's right subtree without a left child, on its leftmost path. */
  ghost predicate SpliceSetting<K, P>(a: seq<Node<K, P>>, S: seq<set<nat>>, root: nat, z: nat, y: nat)
  {
    Shaped(a, S, root) && z in S[root] && a[z].left != Nil && a[z].right != Nil &&
    y in S[a[z].right] && a[y].left == Nil &&
    (y == a[z].right || (a[y].parent in S[a[z].right] && a[a[y].parent].left == y))
  }

  /** ... and b is the arena after y has taken z's place. */
  ghost predicate TwoSetting<K, P>(a: seq<Node<K, P>>, S: seq<set<nat>>, root: nat, z: nat, y: nat, b: seq<Node<K, P>>, root': nat)
  {
    SpliceSetting(a, S, root, z, y) && Spliced(a, root, z, y, b, root')
  }

  /** The nodes around z and y, and how their footprints nest. */
  lemma SpliceFamily<K, P>(a: seq<Node<K, P>>, S: seq<set<nat>>, root: nat, z: nat, y: nat)
    requires SpliceSetting(a, S, root, z, y)
    ensures var zl, zr, zp := a[z].left, a[z].right, a[z].parent;
      var x, yp := a[y].right, a[y].parent;
      zl in S[root] && zr in S[root] && a[zl].parent == z && a[zr].parent == z && zl != zr &&
      S[z] == S[zl] + {z} + S[zr] && S[zl] !! S[zr] && z !in S[zl] && z !in S[zr] && zl in S[zl] && zr in S[zr] &&
      y in S[root] && y != z && y != zl && y !in S[zl] && y in S[z] && S[y] <= S[zr] && S[y] == {y} + S[x] && y !in S[x] &&
      (x == Nil || (x in S[root] && x in S[x] && a[x].parent == y && x != zr && x != zl && x != z)) &&
      (yp == z <==> y == zr) &&
      (yp != z ==> yp in S[zr] && yp in S[root] && a[yp].left == y && yp != y && yp != zl && yp != x && y in S[yp] && S[yp] <= S[zr]) &&
      (zp == Nil <==> z == root) &&
      (zp != Nil ==> zp in S[root] && zp !in S[z] && (a[zp].left == z || a[zp].right == z) && a[zp].left != a[zp].right) &&
      S[root] - {z} == (if zp == Nil then S[zl] + S[zr] else S[root] - {z})
  {
    var zl, zr, zp := a[z].left, a[z].right, a[z].parent;
    var x, yp := a[y].right, a[y].parent;
    ChildLive(a, S, root, z);
    SubtreeWithin(a, S, root, zr, y);
    ChildLive(a, S, root, y);
    if yp != z && y != zr {
      SubtreeWithin(a, S, root, zr, yp);
      ChildLive(a, S, root, yp);
    }
    if y == zr {
      assert yp == z;
    }
    if z != root {
      ParentLive(a, S, root, z);
      ChildLive(a, S, root, zp);
    }
  }

  lemma TwoFamily<K, P>(a: seq<Node<K, P>>, S: seq<set<nat>>, root: nat, z: nat, y: nat, b: seq<Node<K, P>>, root': nat)
    requires TwoSetting(a, S, root, z, y, b, root')
    ensures var zl, zr, zp := a[z].left, a[z].right, a[z].parent;
      var x, yp := a[y].right, a[y].parent;
      |b| == |a| && InArena(b) &&
      zl in S[root] && zr in S[root] && a[zl].parent == z && a[zr].parent == z && zl != zr &&
      S[z] == S[zl] + {z} + S[zr] && S[zl] !! S[zr] && z !in S[zl] && z !in S[zr] && zl in S[zl] && zr in S[zr] &&
      y in S[root] && y != z && y != zl && y !in S[zl] && y in S[z] && S[y] <= S[zr] && S[y] == {y} + S[x] && y !in S[x] &&
      (x == Nil || (x in S[root] && x in S[x] && a[x].parent == y && x != zr && x != zl && x != z)) &&
      (yp == z <==> y == zr) &&
      (yp != z ==> yp in S[zr] && yp in S[root] && a[yp].left == y && yp != y && yp != zl && yp != x && y in S[yp] && S[yp] <= S[zr]) &&
      (zp == Nil <==> z == root) &&
      (zp != Nil ==> zp in S[root] && zp !in S[z] && (a[zp].left == z || a[zp].right == z) && a[zp].left != a[zp].right) &&
      S[root] - {z} == (if zp == Nil then S[zl] + S[zr] else S[root] - {z})
  {
    SpliceFamily(a, S, root, z, y);
    assert InArena(b);
  }

  /** Footprints after the removal split like the old ones at every unchanged node. */
  lemma DeleteSSplit(S: seq<set<nat>>, z: nat, y: nat, i: nat, l: nat, r: nat)
    requires i < |S| && l < |S| && r < |S| && z < |S|
    requires S[i] == S[l] + {i} + S[r] && S[l] !! S[r] && i != z && i != y && l != y && r != y
    requires (z in S[l] ==> y in S[l]) && (z in S[r] ==> y in S[r])
    ensures DeleteS(S, z, y)[i] == DeleteS(S, z, y)[l] + {i} + DeleteS(S, z, y)[r]
  {
  }

  lemma TwoLinkedY<K, P>(a: seq<Node<K, P>>, S: seq<set<nat>>, root: nat, z: nat, y: nat, b: seq<Node<K, P>>, root': nat)
    requires TwoSetting(a, S, root, z, y, b, root')
    ensures |DeleteS(S, z, y)| == |b| && y < |b| && Linked(b, DeleteS(S, z, y), y)
  {
    var S' := DeleteS(S, z, y);
    TwoFamily(a, S, root, z, y, b, root');
  }

  lemma TwoLinkedAbove<K, P>(a: seq<Node<K, P>>, S: seq<set<nat>>, root: nat, z: nat, y: nat, b: seq<Node<K, P>>, root': nat)
    requires TwoSetting(a, S, root, z, y, b, root') && a[z].parent != Nil
    ensures |DeleteS(S, z, y)| == |b| && a[z].parent < |b| && Linked(b, DeleteS(S, z, y), a[z].parent)
  {
    var S' := DeleteS(S, z, y);
    var zp := a[z].parent;
    TwoFamily(a, S, root, z, y, b, root');
    ChildLive(a, S, root, zp);
    var o := if a[zp].left == z then a[zp].right else a[zp].left;
    assert z !in S[o] && y !in S[o];
    assert o != Nil ==> o != y && o != a[z].left && o != a[z].right && o != a[y].right && o != a[y].parent && o != zp;
  }


  /** y's old parent, where x now hangs and x's side may be one black node short. */
  lemma TwoLinkedYp<K, P>(a: seq<Node<K, P>>, S: seq<set<nat>>, root: nat, z: nat, y: nat, b: seq<Node<K, P>>, root': nat)
    requires TwoSetting(a, S, root, z, y, b, root') && a[y].parent != z
    ensures |DeleteS(S, z, y)| == |b| && a[y].parent < |b| && Linked(b, DeleteS(S, z, y), a[y].parent)
  {
    var S' := DeleteS(S, z, y);
    var yp := a[y].parent;
    TwoFamily(a, S, root, z, y, b, root');
    ChildLive(a, S, root, yp);
    ChildLive(a, S, root, y);
    var r := a[yp].right;
    assert y !in S[r] && z !in S[r] && z !in S[yp];
  }

  /** Every other live node keeps its children; only its own parent link may change. */
  lemma TwoLinkedOther<K, P>(a: seq<Node<K, P>>, S: seq<set<nat>>, root: nat, z: nat, y: nat, b: seq<Node<K, P>>, root': nat, i: nat)
    requires TwoSetting(a, S, root, z, y, b, root') && i in S[root]
    requires i != z && i != y && i != a[z].parent && i != a[y].parent
    ensures |DeleteS(S, z, y)| == |b| && i < |b| && Linked(b, DeleteS(S, z, y), i)
  {
    TwoOtherSplit(a, S, root, z, y, i);
    TwoOtherLinks(a, S, root, z, y, b, root', i);
  }

  /** ... where the footprints split as before ... */
  lemma TwoOtherSplit<K, P>(a: seq<Node<K, P>>, S: seq<set<nat>>, root: nat, z: nat, y: nat, i: nat)
    requires SpliceSetting(a, S, root, z, y) && i in S[root]
    requires i != z && i != y && i != a[z].parent && i != a[y].parent
    ensures var S', l, r := DeleteS(S, z, y), a[i].left, a[i].right;
      |S'| == |a| && l < |a| && r < |a| &&
      S'[i] == S'[l] + {i} + S'[r] && i !in S'[l] && i !in S'[r] && S'[l] !! S'[r] &&
      (l != Nil ==> l in S'[l]) && (r != Nil ==> r in S'[r])
  {
    SpliceFamily(a, S, root, z, y);
    ChildLive(a, S, root, i);
    var l, r := a[i].left, a[i].right;
    assert l != z && r != z && l != y && r != y;
    if l != Nil {
      ChildLive(a, S, root, l);
      if z in S[l] {
        SubtreeWithin(a, S, root, l, z);
      }
    }
    if r != Nil {
      ChildLive(a, S, root, r);
      if z in S[r] {
        SubtreeWithin(a, S, root, r, z);
      }
    }
    DeleteSSplit(S, z, y, i, l, r);
  }

  /** ... and the links to and from the children are unchanged. */
  lemma TwoOtherLinks<K, P>(a: seq<Node<K, P>>, S: seq<set<nat>>, root: nat, z: nat, y: nat, b: seq<Node<K, P>>, root': nat, i: nat)
    requires TwoSetting(a, S, root, z, y, b, root') && i in S[root]
    requires i != z && i != y && i != a[z].parent && i != a[y].parent
    ensures var l, r := a[i].left, a[i].right;
      |b| == |a| && i < |b| && b[i].left == l && b[i].right == r &&
      (l != Nil ==> b[l].parent == i) && (r != Nil ==> b[r].parent == i)
  {
    TwoFamily(a, S, root, z, y, b, root');
    ChildLive(a, S, root, i);
    var l, r := a[i].left, a[i].right;
    assert l != z && r != z && l != y && r != y;
    assert l != Nil ==> l != a[y].right && l != a[z].left && l != a[z].right;
    assert r != Nil ==> r != a[y].right && r != a[z].left && r != a[z].right;
  }

  /** The live nodes after the removal: the old ones but z, below the new root. */
  lemma TwoRoot<K, P>(a: seq<Node<K, P>>, S: seq<set<nat>>, root: nat, z: nat, y: nat, b: seq<Node<K, P>>, root': nat)
    requires TwoSetting(a, S, root, z, y, b, root')
    ensures root' < |b| && |DeleteS(S, z, y)| == |b| && DeleteS(S, z, y)[root'] == S[root] - {z}
    ensures root' in DeleteS(S, z, y)[root'] && b[root'].parent == Nil && b[root'].color == a[root].color
  {
    var zp := a[z].parent;
    TwoFamily(a, S, root, z, y, b, root');
    if zp != Nil {
      ParentLive(a, S, root, z);
      SubtreeWithin(a, S, root, zp, z);
      if root in S[z] {
        SubtreeWithin(a, S, root, z, root);
      }
      assert root !in S[z];
      RootOrphan(a, S, root, z);
    }
  }

  lemma TwoShaped<K, P>(a: seq<Node<K, P>>, S: seq<set<nat>>, root: nat, z: nat, y: nat, b: seq<Node<K, P>>, root': nat)
    requires TwoSetting(a, S, root, z, y, b, root')
    ensures Shaped(b, DeleteS(S, z, y), root') && DeleteS(S, z, y)[root'] == S[root] - {z}
  {
    var S' := DeleteS(S, z, y);
    TwoFamily(a, S, root, z, y, b, root');
    DeleteSBounded(S, z, y, |a|);
    TwoRoot(a, S, root, z, y, b, root');
    ChildLive(a, S, root, z);
    forall i | i in S'[root'] ensures Linked(b, S', i) && S'[i] <= S'[root'] {
      ChildLive(a, S, root, i);
      assert S'[i] <= S[root] - {z};
      if i == y {
        TwoLinkedY(a, S, root, z, y, b, root');
      } else if i == a[z].parent {
        TwoLinkedAbove(a, S, root, z, y, b, root');
      } else if i == a[y].parent {
        TwoLinkedYp(a, S, root, z, y, b, root');
      } else {
        TwoLinkedOther(a, S, root, z, y, b, root', i);
      }
    }
  }

  /** Below every node but y, the new subtrees hold only nodes of the old ones. */
  lemma TwoWithinAt<K, P>(a: seq<Node<K, P>>, S: seq<set<nat>>, root: nat, z: nat, y: nat, b: seq<Node<K, P>>, root': nat, i: nat)
    requires TwoSetting(a, S, root, z, y, b, root') && i in S[root] && i != z && i != y
    ensures |DeleteS(S, z, y)| == |b| && i < |b| && InArena(b)
    ensures DeleteS(S, z, y)[b[i].left] <= S[a[i].left] && DeleteS(S, z, y)[b[i].right] <= S[a[i].right]
    ensures b[i].key == a[i].key
  {
    if i == a[y].parent {
      TwoWithinAbove(a, S, root, z, y, b, root');
    } else {
      TwoWithinOther(a, S, root, z, y, b, root', i);
    }
  }

  /** y's old parent. */
  lemma TwoWithinAbove<K, P>(a: seq<Node<K, P>>, S: seq<set<nat>>, root: nat, z: nat, y: nat, b: seq<Node<K, P>>, root': nat)
    requires TwoSetting(a, S, root, z, y, b, root') && a[y].parent != z
    ensures var i := a[y].parent; |DeleteS(S, z, y)| == |b| && i < |b| && InArena(b)
    ensures var i := a[y].parent; DeleteS(S, z, y)[b[i].left] <= S[a[i].left] && DeleteS(S, z, y)[b[i].right] <= S[a[i].right]
    ensures var i := a[y].parent; b[i].key == a[i].key
  {
    TwoFamily(a, S, root, z, y, b, root');
    ChildLive(a, S, root, a[y].parent);
    ChildLive(a, S, root, y);
  }

  /** Every other node. */
  lemma TwoWithinOther<K, P>(a: seq<Node<K, P>>, S: seq<set<nat>>, root: nat, z: nat, y: nat, b: seq<Node<K, P>>, root': nat, i: nat)
    requires TwoSetting(a, S, root, z, y, b, root') && i in S[root] && i != z && i != y && i != a[y].parent
    ensures |DeleteS(S, z, y)| == |b| && i < |b| && InArena(b)
    ensures DeleteS(S, z, y)[b[i].left] <= S[a[i].left] && DeleteS(S, z, y)[b[i].right] <= S[a[i].right]
    ensures b[i].key == a[i].key
  {
    TwoFamily(a, S, root, z, y, b, root');
    ChildLive(a, S, root, i);
  }

  /** y, the least key right of z, fits in z's place. */
  lemma TwoOrderedY<K(!new), P>(a: seq<Node<K, P>>, S: seq<set<nat>>, root: nat, lt: (K, K) -> bool, z: nat, y: nat,
                                b: seq<Node<K, P>>, root': nat)
    requires TwoSetting(a, S, root, z, y, b, root') && Ordered(a, S, root, lt) && StrictOrder(lt)
    requires forall n :: n in S[a[z].right] && n != y ==> lt(a[y].key, a[n].key)
    ensures |DeleteS(S, z, y)| == |b| && y < |b| && InArena(b) && Bounded(|b|, DeleteS(S, z, y))
    ensures OrderedAt(b, DeleteS(S, z, y), lt, y)
  {
    var S' := DeleteS(S, z, y);
    TwoFamily(a, S, root, z, y, b, root');
    DeleteSBounded(S, z, y, |a|);
    assert OrderedAt(a, S, lt, z);
    var kz, ky := a[z].key, a[y].key;
    assert lt(kz, ky);
    forall n | n in S'[b[y].left] ensures lt(b[n].key, b[y].key) {
      assert n in S[a[z].left];
      assert lt(a[n].key, kz);
    }
    forall n | n in S'[b[y].right] ensures lt(b[y].key, b[n].key) {
      assert n in S[a[z].right] && n != y;
    }
  }

  lemma TwoOrdered<K(!new), P>(a: seq<Node<K, P>>, S: seq<set<nat>>, root: nat, lt: (K, K) -> bool, z: nat, y: nat,
                               b: seq<Node<K, P>>, root': nat)
    requires TwoSetting(a, S, root, z, y, b, root') && Ordered(a, S, root, lt) && StrictOrder(lt)
    requires forall n :: n in S[a[z].right] && n != y ==> lt(a[y].key, a[n].key)
    ensures Shaped(b, DeleteS(S, z, y), root') && Ordered(b, DeleteS(S, z, y), root', lt)
  {
    var S' := DeleteS(S, z, y);
    TwoShaped(a, S, root, z, y, b, root');
    TwoOrderedY(a, S, root, lt, z, y, b, root');
    forall i | i in S'[root'] ensures OrderedAt(b, S', lt, i) {
      if i != y {
        assert OrderedAt(a, S, lt, i);
        TwoWithinAt(a, S, root, z, y, b, root', i);
      }
    }
  }

  /** The black heights after the removal: y records what z recorded. */
  ghost function TwoBh(bh: seq<nat>, z: nat, y: nat): seq<nat>
    requires z < |bh| && y < |bh|
  {
    bh[y := bh[z]]
  }

  /** Where x now hangs: below y if y was z's right child, else below y's old parent. */
  function TwoParent<K, P>(a: seq<Node<K, P>>, z: nat, y: nat): nat
    requires y < |a|
  {
    if a[y].parent == z then y else a[y].parent
  }

  /** The colour rules below the new parent of x, and the one black node x's side may lack. */
  lemma TwoColoursTop<K, P>(a: seq<Node<K, P>>, S: seq<set<nat>>, bh: seq<nat>, root: nat, z: nat, y: nat,
                            b: seq<Node<K, P>>, root': nat)
    requires TwoSetting(a, S, root, z, y, b, root') && Coloured(a, S, root) && Balanced(a, S, bh, root)
    ensures InArena(b) && |bh| == |b| && TwoParent(a, z, y) < |b| && a[y].right < |b|
    ensures TwoParent(a, z, y) in DeleteS(S, z, y)[root'] && b[a[y].right].parent == TwoParent(a, z, y)
    ensures b[TwoParent(a, z, y)].left == a[y].right || b[TwoParent(a, z, y)].right == a[y].right
    ensures DeficitAt(b, TwoBh(bh, z, y), TwoParent(a, z, y), a[y].right, if IsBlack(a, y) then 1 else 0)
    ensures RedOkBut(b, a[y].right, TwoParent(a, z, y))
    ensures !IsBlack(a, y) ==> IsBlack(b, a[y].right)
  {
    var bh' := TwoBh(bh, z, y);
    var x, yp := a[y].right, a[y].parent;
    TwoFamily(a, S, root, z, y, b, root');
    TwoRoot(a, S, root, z, y, b, root');
    assert BhOk(a, bh, z) && RedOk(a, z) && BhOk(a, bh, y) && RedOk(a, y);
    assert Side(a, bh, Nil) == 1;
    TwoColourOf(a, S, root, z, y, b, root', x);
    if yp != z {
      assert BhOk(a, bh, yp) && RedOk(a, yp);
      ChildLive(a, S, root, yp);
      TwoColourOf(a, S, root, z, y, b, root', a[yp].right);
      TwoColourOf(a, S, root, z, y, b, root', yp);
    }
  }

  /** Only y changes colour, and it takes z's. */
  lemma TwoColourOf<K, P>(a: seq<Node<K, P>>, S: seq<set<nat>>, root: nat, z: nat, y: nat, b: seq<Node<K, P>>, root': nat, c: nat)
    requires TwoSetting(a, S, root, z, y, b, root') && c < |a| && c != y
    ensures |b| == |a| && b[c].color == a[c].color
  {
  }

  /** The colour rules at y, when x hangs further down. */
  lemma TwoColoursAtY<K, P>(a: seq<Node<K, P>>, S: seq<set<nat>>, bh: seq<nat>, root: nat, z: nat, y: nat,
                            b: seq<Node<K, P>>, root': nat)
    requires TwoSetting(a, S, root, z, y, b, root') && Coloured(a, S, root) && Balanced(a, S, bh, root)
    requires y != TwoParent(a, z, y)
    ensures InArena(b) && |bh| == |b|
    ensures BhOk(b, TwoBh(bh, z, y), y) && RedOk(b, y)
  {
    TwoFamily(a, S, root, z, y, b, root');
    assert BhOk(a, bh, z) && RedOk(a, z);
    TwoColourOf(a, S, root, z, y, b, root', a[z].left);
    TwoColourOf(a, S, root, z, y, b, root', a[z].right);
  }

  /** The colour rules at z's old parent, which now holds y in z's place. */
  lemma TwoColoursAbove<K, P>(a: seq<Node<K, P>>, S: seq<set<nat>>, bh: seq<nat>, root: nat, z: nat, y: nat,
                              b: seq<Node<K, P>>, root': nat)
    requires TwoSetting(a, S, root, z, y, b, root') && Coloured(a, S, root) && Balanced(a, S, bh, root)
    requires a[z].parent != Nil
    ensures InArena(b) && |bh| == |b|
    ensures BhOk(b, TwoBh(bh, z, y), a[z].parent) && RedOk(b, a[z].parent)
  {
    var zp := a[z].parent;
    TwoFamily(a, S, root, z, y, b, root');
    assert BhOk(a, bh, zp) && RedOk(a, zp);
    var o := if a[zp].left == z then a[zp].right else a[zp].left;
    ChildLive(a, S, root, zp);
    assert o != y;
    TwoColourOf(a, S, root, z, y, b, root', o);
    TwoColourOf(a, S, root, z, y, b, root', zp);
  }

  /** The colour rules at the other nodes, whose children keep their colours. */
  lemma TwoColoursOther<K, P>(a: seq<Node<K, P>>, S: seq<set<nat>>, bh: seq<nat>, root: nat, z: nat, y: nat,
                              b: seq<Node<K, P>>, root': nat, i: nat)
    requires TwoSetting(a, S, root, z, y, b, root') && Coloured(a, S, root) && Balanced(a, S, bh, root)
    requires i in S[root] && i != z && i != y && i != a[z].parent && i != TwoParent(a, z, y)
    ensures InArena(b) && |bh| == |b|
    ensures BhOk(b, TwoBh(bh, z, y), i) && (i != a[y].right ==> RedOk(b, i))
  {
    TwoFamily(a, S, root, z, y, b, root');
    ChildLive(a, S, root, i);
    assert BhOk(a, bh, i) && RedOk(a, i);
    var l, r := a[i].left, a[i].right;
    assert l != y && r != y && l != z && r != z && i != a[y].parent;
    assert b[i].left == l && b[i].right == r;
    TwoColourOf(a, S, root, z, y, b, root', l);
    TwoColourOf(a, S, root, z, y, b, root', r);
    TwoColourOf(a, S, root, z, y, b, root', i);
  }

  /** The colour rules away from x's new parent. */
  lemma TwoColoursAt<K, P>(a: seq<Node<K, P>>, S: seq<set<nat>>, bh: seq<nat>, root: nat, z: nat, y: nat,
                           b: seq<Node<K, P>>, root': nat, i: nat)
    requires TwoSetting(a, S, root, z, y, b, root') && Coloured(a, S, root) && Balanced(a, S, bh, root)
    requires i in S[root] && i != z && i != TwoParent(a, z, y)
    ensures InArena(b) && |bh| == |b|
    ensures BhOk(b, TwoBh(bh, z, y), i)
    ensures i != a[y].right ==> RedOk(b, i)
  {
    if i == y {
      TwoColoursAtY(a, S, bh, root, z, y, b, root');
    } else if i == a[z].parent {
      TwoColoursAbove(a, S, bh, root, z, y, b, root');
    } else {
      TwoColoursOther(a, S, bh, root, z, y, b, root', i);
    }
  }

  lemma TwoColours<K, P>(a: seq<Node<K, P>>, S: seq<set<nat>>, bh: seq<nat>, root: nat, z: nat, y: nat,
                         b: seq<Node<K, P>>, root': nat)
    requires TwoSetting(a, S, root, z, y, b, root') && Coloured(a, S, root) && Balanced(a, S, bh, root)
    ensures Shaped(b, DeleteS(S, z, y), root')
    ensures DeleteColours(b, DeleteS(S, z, y), TwoBh(bh, z, y), root', a[y].right, if IsBlack(a, y) then 1 else 0)
    ensures !IsBlack(a, y) ==> IsBlack(b, a[y].right) && IsBlack(b, root')
  {
    var S' := DeleteS(S, z, y);
    var bh' := TwoBh(bh, z, y);
    var x, p' := a[y].right, TwoParent(a, z, y);
    TwoFamily(a, S, root, z, y, b, root');
    TwoShaped(a, S, root, z, y, b, root');
    TwoRoot(a, S, root, z, y, b, root');
    TwoColoursTop(a, S, bh, root, z, y, b, root');
    assert x != root';
    forall i | i in S'[root'] && i != p' ensures BhOk(b, bh', i) {
      TwoColoursAt(a, S, bh, root, z, y, b, root', i);
    }
    forall i | i in S'[root'] && i != x && i != p' ensures RedOk(b, i) {
      TwoColoursAt(a, S, bh, root, z, y, b, root', i);
    }
  }

  /**
   * Removing a node z with two children by splicing in its successor y keeps
   * shape and order, removes exactly z's key, and leaves the repair's
   * invariant with x y's old right child; x is short of a black node exactly
   * when y was black.
   */
  lemma TwoChildren<K(!new), P>(a: seq<Node<K, P>>, S: seq<set<nat>>, bh: seq<nat>, root: nat,
                                lt: (K, K) -> bool, M: map<K, P>, z: nat, y: nat, b: seq<Node<K, P>>, root': nat)
    requires RbValid(a, S, bh, root, lt, M) && StrictTotalOrder(lt)
    requires z in S[root] && a[z].left != Nil && a[z].right != Nil && a[z].right in S[root]
    requires y == LeftMost(a, S, root, a[z].right) && Spliced(a, root, z, y, b, root')
    ensures DeleteInv(b, DeleteS(S, z, y), TwoBh(bh, z, y), root', lt, M - {a[z].key}, a[y].right,
                      if IsBlack(a, y) then 1 else 0)
    ensures !IsBlack(a, y) ==> IsBlack(b, a[y].right) && IsBlack(b, root')
  {
    LeftMostLeast(a, S, root, lt, a[z].right);
    assert TwoSetting(a, S, root, z, y, b, root');
    TwoFamily(a, S, root, z, y, b, root');
    TwoOrdered(a, S, root, lt, z, y, b, root');
    TwoColours(a, S, bh, root, z, y, b, root');
    KeyUnique(a, S, root, lt, z);
    TwoRoot(a, S, root, z, y, b, root');
    AbstractsRemove(a, S, root, M, z, b, DeleteS(S, z, y), root');
  }

  // ---------------------------------------------------------------------
  // Removal of a node without a left child, and cases 1, 3 and 4 of the
  // repair with x a left child.
  // ---------------------------------------------------------------------

  /** Removal when z has no left child: z's right child (maybe the sentinel) takes z's place. */
  ghost predicate NoLeftSetting<K, P>(a: seq<Node<K, P>>, S: seq<set<nat>>, root: nat, z: nat, b: seq<Node<K, P>>, root': nat)
  {
    Shaped(a, S, root) && z in S[root] && a[z].left == Nil && Transplanted(a, root, z, a[z].right, b, root')
  }

  lemma NoLeftFamily<K, P>(a: seq<Node<K, P>>, S: seq<set<nat>>, root: nat, z: nat, b: seq<Node<K, P>>, root': nat)
    requires NoLeftSetting(a, S, root, z, b, root')
    ensures var v, zp := a[z].right, a[z].parent;
      S[z] == {z} + S[v] && z !in S[v] && (v == Nil || (v in S[root] && v in S[v] && a[v].parent == z)) &&
      (zp == Nil <==> z == root) &&
      (zp != Nil ==> zp in S[root] && zp !in S[z] && (a[zp].left == z || a[zp].right == z) && a[zp].left != a[zp].right) &&
      S[root] - {z} == (if zp == Nil then S[v] else S[root] - {z}) &&
      |b| == |a| && InArena(b) && b[v].parent == zp
  {
    var v, zp := a[z].right, a[z].parent;
    ChildLive(a, S, root, z);
    if z != root {
      ParentLive(a, S, root, z);
      ChildLive(a, S, root, zp);
    }
    assert InArena(b);
  }

  lemma NoLeftLinkedAt<K, P>(a: seq<Node<K, P>>, S: seq<set<nat>>, root: nat, z: nat, b: seq<Node<K, P>>, root': nat, i: nat)
    requires NoLeftSetting(a, S, root, z, b, root') && i in S[root] && i != z
    ensures |DeleteS(S, z, z)| == |b| && i < |b|
    ensures Linked(b, DeleteS(S, z, z), i)
  {
    NoLeftFamily(a, S, root, z, b, root');
    if i == a[z].parent {
      NoLeftLinkedParent(a, S, root, z, b, root', i);
    } else if i == a[z].right {
      NoLeftLinkedChild(a, S, root, z, b, root', i);
    } else {
      NoLeftLinkedOther(a, S, root, z, b, root', i);
    }
  }

  lemma NoLeftLinkedParent<K, P>(a: seq<Node<K, P>>, S: seq<set<nat>>, root: nat, z: nat, b: seq<Node<K, P>>, root': nat, i: nat)
    requires NoLeftSetting(a, S, root, z, b, root') && i in S[root] && i != z && i == a[z].parent
    ensures |DeleteS(S, z, z)| == |b| && i < |b|
    ensures Linked(b, DeleteS(S, z, z), i)
  {
    var S' := DeleteS(S, z, z);
    NoLeftFamily(a, S, root, z, b, root');
    ChildLive(a, S, root, i);
    var l, r := a[i].left, a[i].right;
    assert z == l || z == r;
    assert S'[i] == S'[b[i].left] + {i} + S'[b[i].right];
  }

  lemma NoLeftLinkedChild<K, P>(a: seq<Node<K, P>>, S: seq<set<nat>>, root: nat, z: nat, b: seq<Node<K, P>>, root': nat, i: nat)
    requires NoLeftSetting(a, S, root, z, b, root') && i in S[root] && i != z && i != a[z].parent && i == a[z].right
    ensures |DeleteS(S, z, z)| == |b| && i < |b|
    ensures Linked(b, DeleteS(S, z, z), i)
  {
    var v, zp := a[z].right, a[z].parent;
    NoLeftFamily(a, S, root, z, b, root');
    ChildLive(a, S, root, i);
    var l, r := a[i].left, a[i].right;
    ChildLive(a, S, root, v);
    assert z !in S[l] && z !in S[r];
    assert (l != Nil ==> l != zp) && (r != Nil ==> r != zp);
  }

  lemma NoLeftLinkedOther<K, P>(a: seq<Node<K, P>>, S: seq<set<nat>>, root: nat, z: nat, b: seq<Node<K, P>>, root': nat, i: nat)
    requires NoLeftSetting(a, S, root, z, b, root') && i in S[root] && i != z && i != a[z].parent && i != a[z].right
    ensures |DeleteS(S, z, z)| == |b| && i < |b|
    ensures Linked(b, DeleteS(S, z, z), i)
  {
    var v := a[z].right;
    NoLeftFamily(a, S, root, z, b, root');
    ChildLive(a, S, root, i);
    var l, r := a[i].left, a[i].right;
    assert l != z && r != z;
    assert (l != Nil ==> l != v) && (r != Nil ==> r != v);
  }

  lemma NoLeftShaped<K, P>(a: seq<Node<K, P>>, S: seq<set<nat>>, root: nat, z: nat, b: seq<Node<K, P>>, root': nat)
    requires NoLeftSetting(a, S, root, z, b, root')
    ensures Shaped(b, DeleteS(S, z, z), root') && DeleteS(S, z, z)[root'] == S[root] - {z}
  {
    var S' := DeleteS(S, z, z);
    NoLeftFamily(a, S, root, z, b, root');
    DeleteSBounded(S, z, z, |a|);
    NoLeftRoot(a, S, root, z, b, root');
    forall i | i in S'[root'] ensures Linked(b, S', i) && S'[i] <= S'[root'] {
      NoLeftLinkedAt(a, S, root, z, b, root', i);
      ChildLive(a, S, root, i);
    }
  }

  lemma NoLeftRoot<K, P>(a: seq<Node<K, P>>, S: seq<set<nat>>, root: nat, z: nat, b: seq<Node<K, P>>, root': nat)
    requires NoLeftSetting(a, S, root, z, b, root')
    ensures root' < |b| && |DeleteS(S, z, z)| == |b| && DeleteS(S, z, z)[root'] == S[root] - {z}
    ensures root' == Nil || (root' in DeleteS(S, z, z)[root'] && b[root'].parent == Nil)
  {
    var zp := a[z].parent;
    NoLeftFamily(a, S, root, z, b, root');
    if zp != Nil {
      RootOrphan(a, S, root, z);
    }
  }

  lemma NoLeftOrdered<K, P>(a: seq<Node<K, P>>, S: seq<set<nat>>, root: nat, lt: (K, K) -> bool, z: nat,
                            b: seq<Node<K, P>>, root': nat)
    requires NoLeftSetting(a, S, root, z, b, root') && Ordered(a, S, root, lt)
    ensures Shaped(b, DeleteS(S, z, z), root') && Ordered(b, DeleteS(S, z, z), root', lt)
  {
    var S' := DeleteS(S, z, z);
    var v, zp := a[z].right, a[z].parent;
    NoLeftFamily(a, S, root, z, b, root');
    NoLeftShaped(a, S, root, z, b, root');
    forall i | i in S'[root'] ensures OrderedAt(b, S', lt, i) {
      assert OrderedAt(a, S, lt, i);
      ChildLive(a, S, root, i);
    }
  }

  lemma NoLeftColoursAt<K, P>(a: seq<Node<K, P>>, S: seq<set<nat>>, bh: seq<nat>, root: nat, z: nat,
                              b: seq<Node<K, P>>, root': nat, i: nat)
    requires NoLeftSetting(a, S, root, z, b, root') && Coloured(a, S, root) && Balanced(a, S, bh, root)
    requires i in S[root] && i != z
    ensures InArena(b) && |bh| == |b|
    ensures i != a[z].parent ==> BhOk(b, bh, i)
    ensures i != a[z].parent && i != a[z].right ==> RedOk(b, i)
  {
    var v, zp := a[z].right, a[z].parent;
    NoLeftFamily(a, S, root, z, b, root');
    ChildLive(a, S, root, i);
    assert BhOk(a, bh, i) && RedOk(a, i);
    var l, r := a[i].left, a[i].right;
    if i != zp {
      assert l != z && r != z;
    }
  }

  lemma NoLeftColours<K, P>(a: seq<Node<K, P>>, S: seq<set<nat>>, bh: seq<nat>, root: nat, z: nat,
                            b: seq<Node<K, P>>, root': nat)
    requires NoLeftSetting(a, S, root, z, b, root') && Coloured(a, S, root) && Balanced(a, S, bh, root)
    ensures Shaped(b, DeleteS(S, z, z), root')
    ensures DeleteColours(b, DeleteS(S, z, z), bh, root', a[z].right, if IsBlack(a, z) then 1 else 0)
    ensures !IsBlack(a, z) ==> IsBlack(b, a[z].right) && IsBlack(b, root')
  {
    var S' := DeleteS(S, z, z);
    var v, zp := a[z].right, a[z].parent;
    NoLeftFamily(a, S, root, z, b, root');
    NoLeftShaped(a, S, root, z, b, root');
    assert BhOk(a, bh, z) && RedOk(a, z);
    forall i | i in S'[root'] && (v == root' || i != b[v].parent) ensures BhOk(b, bh, i) {
      NoLeftColoursAt(a, S, bh, root, z, b, root', i);
    }
    forall i | i in S'[root'] && i != v && (v == root' || i != b[v].parent) ensures RedOk(b, i) {
      NoLeftColoursAt(a, S, bh, root, z, b, root', i);
    }
    if zp != Nil {
      assert BhOk(a, bh, zp) && RedOk(a, zp);
      RootOrphan(a, S, root, z);
      assert root != v && root != zp ==> b[root] == a[root];
    }
  }

  /**
   * Removing a node with no left child keeps shape and order, removes exactly
   * its key, and leaves the repair's invariant with x its right child; x is
   * short of a black node exactly when the removed node was black.
   */
  lemma NoLeft<K(!new), P>(a: seq<Node<K, P>>, S: seq<set<nat>>, bh: seq<nat>, root: nat,
                           lt: (K, K) -> bool, M: map<K, P>, z: nat, b: seq<Node<K, P>>, root': nat)
    requires RbValid(a, S, bh, root, lt, M) && StrictTotalOrder(lt)
    requires z in S[root] && a[z].left == Nil && Transplanted(a, root, z, a[z].right, b, root')
    ensures DeleteInv(b, DeleteS(S, z, z), bh, root', lt, M - {a[z].key}, a[z].right, if IsBlack(a, z) then 1 else 0)
    ensures !IsBlack(a, z) ==> IsBlack(b, a[z].right) && IsBlack(b, root')
  {
    NoLeftFamily(a, S, root, z, b, root');
    NoLeftOrdered(a, S, root, lt, z, b, root');
    NoLeftColours(a, S, bh, root, z, b, root');
    KeyUnique(a, S, root, lt, z);
    AbstractsRemove(a, S, root, M, z, b, DeleteS(S, z, z), root');
  }


  /** Case 1: the sibling is red. */
  ghost predicate DelCase1LeftSetting<K, P>(a: seq<Node<K, P>>, S: seq<set<nat>>, bh: seq<nat>, root: nat, x: nat)
  {
    FixSetting(a, S, bh, root, x) && a[a[x].parent].left == x && !IsBlack(a, a[a[x].parent].right)
  }

  /** The recolouring of case 1: the sibling turns black and the parent red. */
  ghost function DelCase1LeftColour<K, P>(a: seq<Node<K, P>>, x: nat): seq<Node<K, P>>
    requires InArena(a) && x < |a|
  {
    var p := a[x].parent; var w := a[p].right;
    a[w := a[w].(color := Black)][p := a[p].(color := Red)]
  }

  /** The recolouring changes colours only. */
  lemma DelCase1LeftColourOnly<K, P>(a: seq<Node<K, P>>, x: nat)
    requires InArena(a) && x < |a|
    ensures Recoloured(a, DelCase1LeftColour(a, x)) && InArena(DelCase1LeftColour(a, x))
  {
    RecolouredInArena(a, DelCase1LeftColour(a, x));
  }

  lemma DelCase1LeftFamily<K, P>(a: seq<Node<K, P>>, S: seq<set<nat>>, bh: seq<nat>, root: nat, x: nat)
    requires DelCase1LeftSetting(a, S, bh, root, x)
    ensures var p := a[x].parent; var w := a[p].right; var wl, wr := a[w].left, a[w].right;
      Sibling(a, x) == w && a[p].right == w && IsBlack(a, p) && bh[w] == bh[p] &&
      wl != Nil && wr != Nil && IsBlack(a, wl) && IsBlack(a, wr) && Side(a, bh, wl) == bh[w] && Side(a, bh, wr) == bh[w] &&
      wl in S[root] && wr in S[root] && a[wl].parent == w && a[wr].parent == w && wl != wr &&
      wl != p && wr != p && wl != x && wr != x
  {
    var p := a[x].parent;
    DeleteFamily(a, S, bh, root, x);
    var w := a[p].right;
    ChildLive(a, S, root, w);
    assert RedOk(a, w) && BhOk(a, bh, w) && RedOkBut(a, x, p);
    assert Side(a, bh, Nil) == 1;
  }

  lemma DelCase1LeftAt<K, P>(a: seq<Node<K, P>>, S: seq<set<nat>>, bh: seq<nat>, root: nat, x: nat,
                             c: seq<Node<K, P>>, b: seq<Node<K, P>>, root': nat, i: nat)
    requires DelCase1LeftSetting(a, S, bh, root, x) && c == DelCase1LeftColour(a, x) && i in S[root]
    requires InArena(c) && RotatedLeft(c, root, a[x].parent, b, root')
    ensures InArena(b) && |bh| == |b|
    ensures i != a[x].parent ==> BhOk(b, bh, i)
    ensures i != x && i != a[x].parent ==> RedOk(b, i)
  {
    var p := a[x].parent;
    if i == a[p].right {
      DelCase1LeftSib(a, S, bh, root, x, c, b, root', i);
    } else if i == a[p].parent {
      DelCase1LeftAbove(a, S, bh, root, x, c, b, root', i);
    } else if i != p {
      DelCase1LeftElsewhere(a, S, bh, root, x, c, b, root', i);
    } else {
      DelCase1LeftPrep(a, S, bh, root, x, c);
      RecolourShaped(a, S, root, c);
      LeftArena(c, S, root, p, b, root');
    }
  }

  /** The sibling, now black and on top. */
  lemma DelCase1LeftSib<K, P>(a: seq<Node<K, P>>, S: seq<set<nat>>, bh: seq<nat>, root: nat, x: nat,
                             c: seq<Node<K, P>>, b: seq<Node<K, P>>, root': nat, i: nat)
    requires DelCase1LeftSetting(a, S, bh, root, x) && c == DelCase1LeftColour(a, x) && i in S[root]
    requires InArena(c) && RotatedLeft(c, root, a[x].parent, b, root')
    requires i == a[a[x].parent].right
    ensures InArena(b) && |bh| == |b| && BhOk(b, bh, i) && RedOk(b, i)
  {
    var p := a[x].parent;
    var w := a[p].right;
    DeleteFamily(a, S, bh, root, x);
    DelCase1LeftFamily(a, S, bh, root, x);
    DelCase1LeftColourOnly(a, x);
    RecolourShaped(a, S, root, c);
    RotationNeighbours(c, S, root, p, w);
    LeftFrame(c, S, root, p, b, root');
    LeftEntries(c, S, root, p, b, root');
    ChildLive(a, S, root, i);
  }

  /** The grandparent, whose child is now the sibling. */
  lemma DelCase1LeftAbove<K, P>(a: seq<Node<K, P>>, S: seq<set<nat>>, bh: seq<nat>, root: nat, x: nat,
                             c: seq<Node<K, P>>, b: seq<Node<K, P>>, root': nat, i: nat)
    requires DelCase1LeftSetting(a, S, bh, root, x) && c == DelCase1LeftColour(a, x) && i in S[root]
    requires InArena(c) && RotatedLeft(c, root, a[x].parent, b, root')
    requires i == a[a[x].parent].parent
    ensures InArena(b) && |bh| == |b| && BhOk(b, bh, i) && RedOk(b, i)
  {
    var p := a[x].parent;
    var w := a[p].right;
    DeleteFamily(a, S, bh, root, x);
    DelCase1LeftFamily(a, S, bh, root, x);
    DelCase1LeftColourOnly(a, x);
    RecolourShaped(a, S, root, c);
    RotationNeighbours(c, S, root, p, w);
    LeftFrame(c, S, root, p, b, root');
    LeftEntries(c, S, root, p, b, root');
    ChildLive(a, S, root, i);
    ChildLive(a, S, root, p);
    assert BhOk(a, bh, i) && RedOk(a, i);
  }

  /** Every node away from the rotation keeps its colour and children. */
  lemma DelCase1LeftElsewhere<K, P>(a: seq<Node<K, P>>, S: seq<set<nat>>, bh: seq<nat>, root: nat, x: nat,
                             c: seq<Node<K, P>>, b: seq<Node<K, P>>, root': nat, i: nat)
    requires DelCase1LeftSetting(a, S, bh, root, x) && c == DelCase1LeftColour(a, x) && i in S[root]
    requires InArena(c) && RotatedLeft(c, root, a[x].parent, b, root')
    requires var p := a[x].parent; i != p && i != a[p].right && i != a[p].parent
    ensures InArena(b) && |bh| == |b| && BhOk(b, bh, i) && (i != x ==> RedOk(b, i))
  {
    var p := a[x].parent;
    var w := a[p].right;
    DeleteFamily(a, S, bh, root, x);
    DelCase1LeftFamily(a, S, bh, root, x);
    DelCase1LeftColourOnly(a, x);
    RecolourShaped(a, S, root, c);
    RotationNeighbours(c, S, root, p, w);
    LeftFrame(c, S, root, p, b, root');
    LeftEntries(c, S, root, p, b, root');
    ChildLive(a, S, root, i);
    assert BhOk(a, bh, i);
    assert i != x ==> RedOk(a, i);
    LeftUntouched(c, S, root, p, b, root', i);
  }

  lemma DelCase1LeftTop<K, P>(a: seq<Node<K, P>>, S: seq<set<nat>>, bh: seq<nat>, root: nat, x: nat,
                              c: seq<Node<K, P>>, b: seq<Node<K, P>>, root': nat)
    requires DelCase1LeftSetting(a, S, bh, root, x) && c == DelCase1LeftColour(a, x)
    requires InArena(c) && RotatedLeft(c, root, a[x].parent, b, root')
    ensures var p := a[x].parent;
      InArena(b) && |bh| == |b| && b[x].parent == p && b[x].color == a[x].color && b[p].left == x &&
      IsBlack(b, Nil) && IsBlack(b, root') && p in S[root] && x != root' &&
      DeficitAt(b, bh, p, x, 1) && RedOkBut(b, x, p) && IsBlack(b, b[p].right) &&
      LeftRotatedS(c, S, p)[x] == S[x]
  {
    var p := a[x].parent;
    var w := a[p].right;
    DeleteFamily(a, S, bh, root, x);
    DelCase1LeftFamily(a, S, bh, root, x);
    DelCase1LeftColourOnly(a, x);
    RecolourShaped(a, S, root, c);
    RotationNeighbours(c, S, root, p, w);
    LeftFrame(c, S, root, p, b, root');
    LeftEntries(c, S, root, p, b, root');
    if a[p].parent != Nil {
      RootOrphan(a, S, root, p);
      ParentLive(a, S, root, p);
      assert root != w && root != p;
    }
  }

  lemma DelCase1LeftColours<K, P>(a: seq<Node<K, P>>, S: seq<set<nat>>, bh: seq<nat>, root: nat, x: nat,
                                  c: seq<Node<K, P>>, b: seq<Node<K, P>>, root': nat)
    requires DelCase1LeftSetting(a, S, bh, root, x) && c == DelCase1LeftColour(a, x)
    requires InArena(c) && RotatedLeft(c, root, a[x].parent, b, root')
    requires Shaped(b, LeftRotatedS(c, S, a[x].parent), root') && LeftRotatedS(c, S, a[x].parent)[root'] == S[root]
    ensures DeleteColours(b, LeftRotatedS(c, S, a[x].parent), bh, root', x, 1)
  {
    var p := a[x].parent;
    var S' := LeftRotatedS(c, S, p);
    DelCase1LeftTop(a, S, bh, root, x, c, b, root');
    forall i | i in S'[root'] && i != p ensures BhOk(b, bh, i) {
      DelCase1LeftAt(a, S, bh, root, x, c, b, root', i);
    }
    forall i | i in S'[root'] && i != x && i != p ensures RedOk(b, i) {
      DelCase1LeftAt(a, S, bh, root, x, c, b, root', i);
    }
  }

  lemma DelCase1LeftShape<K, P>(a: seq<Node<K, P>>, S: seq<set<nat>>, bh: seq<nat>, root: nat, M: map<K, P>,
                                x: nat, c: seq<Node<K, P>>, b: seq<Node<K, P>>, S': seq<set<nat>>, root': nat)
    requires DelCase1LeftSetting(a, S, bh, root, x) && Abstracts(a, S, root, M) && c == DelCase1LeftColour(a, x)
    requires InArena(c) && RotatedLeft(c, root, a[x].parent, b, root') && S' == LeftRotatedS(c, S, a[x].parent)
    ensures Shaped(b, S', root')
    ensures x != root' && IsBlack(b, x) && IsBlack(b, Sibling(b, x)) &&
      b[b[x].parent].left == x && S'[x] == S[x] && S'[root'] == S[root]
    ensures Abstracts(b, S', root', M) && DeleteColours(b, S', bh, root', x, 1)
  {
    var p := a[x].parent;
    DelCase1LeftFamily(a, S, bh, root, x);
    DelCase1LeftColourOnly(a, x);
    RecolourRotateLeft(a, S, root, M, c, p, b, root');
    DelCase1LeftTop(a, S, bh, root, x, c, b, root');
    DelCase1LeftColours(a, S, bh, root, x, c, b, root');
  }

  /** Case 1's recolouring only changes colours, and the parent can rotate left. */
  lemma DelCase1LeftPrep<K, P>(a: seq<Node<K, P>>, S: seq<set<nat>>, bh: seq<nat>, root: nat, x: nat, c: seq<Node<K, P>>)
    requires DelCase1LeftSetting(a, S, bh, root, x) && c == DelCase1LeftColour(a, x)
    ensures Recoloured(a, c) && InArena(c) && Shaped(a, S, root)
    ensures a[x].parent in S[root] && a[a[x].parent].right != Nil
  {
    DelCase1LeftFamily(a, S, bh, root, x);
    DelCase1LeftColourOnly(a, x);
    RecolouredInArena(a, c);
  }

  /**
   * Case 1 recolours sibling and parent and rotates the parent left: x keeps
   * its place and its deficit, and now has a black sibling.
   */
  lemma DelCase1Left<K(!new), P>(a: seq<Node<K, P>>, S: seq<set<nat>>, bh: seq<nat>, root: nat, lt: (K, K) -> bool,
                                 M: map<K, P>, x: nat, c: seq<Node<K, P>>, b: seq<Node<K, P>>, S': seq<set<nat>>, root': nat)
    requires DeleteInv(a, S, bh, root, lt, M, x, 1) && StrictTotalOrder(lt) && DelCase1LeftSetting(a, S, bh, root, x)
    requires c == DelCase1LeftColour(a, x)
    requires RotatedLeft(c, root, a[x].parent, b, root') && S' == LeftRotatedS(c, S, a[x].parent)
    ensures S'[x] == S[x] && S'[root'] == S[root] && InArena(b) && x < |b|
    ensures x != root' && IsBlack(b, x) && b[b[x].parent].left == x && IsBlack(b, Sibling(b, x))
    ensures DeleteInv(b, S', bh, root', lt, M, x, 1)
  {
    DelCase1LeftPrep(a, S, bh, root, x, c);
    DelCase1LeftShape(a, S, bh, root, M, x, c, b, S', root');
    RecolourRotateLeftOrdered(a, S, root, lt, c, a[x].parent, b, root');
  }

  /** Case 3: the sibling is black, its near child red and its far child black. */
  ghost predicate DelCase3LeftSetting<K, P>(a: seq<Node<K, P>>, S: seq<set<nat>>, bh: seq<nat>, root: nat, x: nat)
  {
    FixSetting(a, S, bh, root, x) && a[a[x].parent].left == x &&
    var w := a[a[x].parent].right; IsBlack(a, w) && !IsBlack(a, a[w].left) && IsBlack(a, a[w].right)
  }

  /** The recolouring of case 3: the near child turns black and the sibling red. */
  ghost function DelCase3LeftColour<K, P>(a: seq<Node<K, P>>, x: nat): seq<Node<K, P>>
    requires InArena(a) && x < |a|
  {
    var w := a[a[x].parent].right; var wl := a[w].left;
    a[wl := a[wl].(color := Black)][w := a[w].(color := Red)]
  }

  /** The recolouring changes colours only. */
  lemma DelCase3LeftColourOnly<K, P>(a: seq<Node<K, P>>, x: nat)
    requires InArena(a) && x < |a|
    ensures Recoloured(a, DelCase3LeftColour(a, x)) && InArena(DelCase3LeftColour(a, x))
  {
    RecolouredInArena(a, DelCase3LeftColour(a, x));
  }

  /** After case 3 the new sibling of x is the sibling's former near child, now black. */
  lemma DelCase3LeftSibling<K, P>(a: seq<Node<K, P>>, S: seq<set<nat>>, bh: seq<nat>, root: nat, x: nat,
                                  b: seq<Node<K, P>>, root': nat)
    requires DelCase3LeftSetting(a, S, bh, root, x)
    requires RotatedRight(DelCase3LeftColour(a, x), root, a[a[x].parent].right, b, root') && InArena(b)
    ensures root' == root && IsBlack(b, x) && b[x].parent == a[x].parent && b[b[x].parent].left == x
    ensures Sibling(b, x) == a[a[a[x].parent].right].left && IsBlack(b, Sibling(b, x))
  {
    DeleteFamily(a, S, bh, root, x);
    DelCase3LeftFamily(a, S, bh, root, x);
    DelCase3LeftColourOnly(a, x);
  }

  lemma DelCase3LeftFamily<K, P>(a: seq<Node<K, P>>, S: seq<set<nat>>, bh: seq<nat>, root: nat, x: nat)
    requires DelCase3LeftSetting(a, S, bh, root, x)
    ensures var p := a[x].parent; var w := a[p].right; var wl := a[w].left;
      Sibling(a, x) == w && wl != Nil && wl in S[root] && a[wl].parent == w && wl != p && wl != x && wl != a[w].right &&
      bh[w] == bh[wl] && Side(a, bh, a[w].right) == bh[w] &&
      IsBlack(a, a[wl].left) && IsBlack(a, a[wl].right) && Side(a, bh, a[wl].left) == bh[wl] && Side(a, bh, a[wl].right) == bh[wl] &&
      (a[wl].right == Nil || a[wl].right != x)
  {
    var p := a[x].parent;
    DeleteFamily(a, S, bh, root, x);
    var w := a[p].right;
    ChildLive(a, S, root, w);
    var wl := a[w].left;
    ChildLive(a, S, root, wl);
    assert BhOk(a, bh, w) && RedOk(a, wl) && BhOk(a, bh, wl);
    ChildLive(a, S, root, p);
    if a[wl].right != Nil {
      assert a[wl].right in S[w];
    }
  }

  lemma DelCase3LeftAt<K, P>(a: seq<Node<K, P>>, S: seq<set<nat>>, bh: seq<nat>, root: nat, x: nat,
                             c: seq<Node<K, P>>, b: seq<Node<K, P>>, root': nat, i: nat)
    requires DelCase3LeftSetting(a, S, bh, root, x) && c == DelCase3LeftColour(a, x) && i in S[root]
    requires InArena(c) && RotatedRight(c, root, a[a[x].parent].right, b, root')
    ensures InArena(b) && |bh| == |b|
    ensures i != a[x].parent ==> BhOk(b, bh, i)
    ensures i != x && i != a[x].parent ==> RedOk(b, i)
  {
    var w := a[a[x].parent].right;
    if i == w || i == c[w].left {
      DelCase3LeftPair(a, S, bh, root, x, c, b, root', i);
    } else if i != a[x].parent {
      DelCase3LeftElsewhere(a, S, bh, root, x, c, b, root', i);
    } else {
      DelCase3LeftColourOnly(a, x);
      DeleteFamily(a, S, bh, root, x);
      RecolourShaped(a, S, root, c);
      RightFrame(c, S, root, w, b, root');
    }
  }

  /** The rotated pair: the sibling, now red below its old left child, now black. */
  lemma DelCase3LeftPair<K, P>(a: seq<Node<K, P>>, S: seq<set<nat>>, bh: seq<nat>, root: nat, x: nat,
                               c: seq<Node<K, P>>, b: seq<Node<K, P>>, root': nat, i: nat)
    requires DelCase3LeftSetting(a, S, bh, root, x) && c == DelCase3LeftColour(a, x) && i in S[root]
    requires InArena(c) && RotatedRight(c, root, a[a[x].parent].right, b, root')
    requires var w := a[a[x].parent].right; i == w || i == c[w].left
    ensures InArena(b) && |bh| == |b|
    ensures BhOk(b, bh, i) && RedOk(b, i)
  {
    var p := a[x].parent;
    var w := a[p].right;
    var wl := a[w].left;
    DeleteFamily(a, S, bh, root, x);
    DelCase3LeftFamily(a, S, bh, root, x);
    DelCase3LeftColourOnly(a, x);
    RecolourShaped(a, S, root, c);
    RotationNeighbours(c, S, root, w, wl);
    RightFrame(c, S, root, w, b, root');
    RightEntries(c, S, root, w, b, root');
  }

  /** Away from the rotated pair, nodes keep their colours, children and black heights. */
  lemma DelCase3LeftElsewhere<K, P>(a: seq<Node<K, P>>, S: seq<set<nat>>, bh: seq<nat>, root: nat, x: nat,
                                    c: seq<Node<K, P>>, b: seq<Node<K, P>>, root': nat, i: nat)
    requires DelCase3LeftSetting(a, S, bh, root, x) && c == DelCase3LeftColour(a, x) && i in S[root]
    requires InArena(c) && RotatedRight(c, root, a[a[x].parent].right, b, root')
    requires var w := a[a[x].parent].right; i != w && i != c[w].left && i != a[x].parent
    ensures InArena(b) && |bh| == |b|
    ensures BhOk(b, bh, i) && (i != x ==> RedOk(b, i))
  {
    var p := a[x].parent;
    var w := a[p].right;
    var wl := a[w].left;
    DeleteFamily(a, S, bh, root, x);
    DelCase3LeftFamily(a, S, bh, root, x);
    DelCase3LeftColourOnly(a, x);
    RecolourShaped(a, S, root, c);
    RotationNeighbours(c, S, root, w, wl);
    RightFrame(c, S, root, w, b, root');
    RightEntries(c, S, root, w, b, root');
    ChildLive(a, S, root, i);
    assert BhOk(a, bh, i);
    assert i != x ==> RedOk(a, i);
    RightUntouched(c, S, root, w, b, root', i);
  }

  lemma DelCase3LeftTop<K, P>(a: seq<Node<K, P>>, S: seq<set<nat>>, bh: seq<nat>, root: nat, x: nat,
                              c: seq<Node<K, P>>, b: seq<Node<K, P>>, root': nat)
    requires DelCase3LeftSetting(a, S, bh, root, x) && c == DelCase3LeftColour(a, x)
    requires InArena(c) && RotatedRight(c, root, a[a[x].parent].right, b, root')
    ensures var p := a[x].parent;
      InArena(b) && |bh| == |b| && b[x].parent == p && b[x].color == a[x].color && b[p].left == x &&
      IsBlack(b, Nil) && root' == root && IsBlack(b, root) && p in S[root] &&
      DeficitAt(b, bh, p, x, 1) && RedOkBut(b, x, p) && IsBlack(b, b[p].right) && !IsBlack(b, b[b[p].right].right) &&
      RightRotatedS(c, S, a[p].right)[x] == S[x]
  {
    var p := a[x].parent;
    var w := a[p].right;
    var wl := a[w].left;
    DeleteFamily(a, S, bh, root, x);
    DelCase3LeftFamily(a, S, bh, root, x);
    DelCase3LeftColourOnly(a, x);
    RecolourShaped(a, S, root, c);
    RotationNeighbours(c, S, root, w, wl);
    RightFrame(c, S, root, w, b, root');
    RightEntries(c, S, root, w, b, root');
    RootOrphan(a, S, root, p);
    RootOrphan(a, S, root, w);
  }

  lemma DelCase3LeftColours<K, P>(a: seq<Node<K, P>>, S: seq<set<nat>>, bh: seq<nat>, root: nat, x: nat,
                                  c: seq<Node<K, P>>, b: seq<Node<K, P>>, root': nat)
    requires DelCase3LeftSetting(a, S, bh, root, x) && c == DelCase3LeftColour(a, x)
    requires InArena(c) && RotatedRight(c, root, a[a[x].parent].right, b, root')
    requires Shaped(b, RightRotatedS(c, S, a[a[x].parent].right), root') && RightRotatedS(c, S, a[a[x].parent].right)[root'] == S[root]
    ensures DeleteColours(b, RightRotatedS(c, S, a[a[x].parent].right), bh, root', x, 1)
  {
    var p := a[x].parent;
    var S' := RightRotatedS(c, S, a[p].right);
    DelCase3LeftTop(a, S, bh, root, x, c, b, root');
    forall i | i in S'[root'] && i != p ensures BhOk(b, bh, i) {
      DelCase3LeftAt(a, S, bh, root, x, c, b, root', i);
    }
    forall i | i in S'[root'] && i != x && i != p ensures RedOk(b, i) {
      DelCase3LeftAt(a, S, bh, root, x, c, b, root', i);
    }
  }

  lemma DelCase3LeftShape<K, P>(a: seq<Node<K, P>>, S: seq<set<nat>>, bh: seq<nat>, root: nat,
                                M: map<K, P>, x: nat, c: seq<Node<K, P>>, b: seq<Node<K, P>>, root': nat)
    requires DelCase3LeftSetting(a, S, bh, root, x) && Abstracts(a, S, root, M) && c == DelCase3LeftColour(a, x)
    requires InArena(c) && RotatedRight(c, root, a[a[x].parent].right, b, root')
    ensures var S' := RightRotatedS(c, S, a[a[x].parent].right);
      Shaped(b, S', root') && Abstracts(b, S', root', M) && DeleteColours(b, S', bh, root', x, 1) &&
      x != root' && IsBlack(b, x) && b[b[x].parent].left == x && FarPhase(b, x) == 0 &&
      S'[x] == S[x] && S'[root'] == S[root]
  {
    var p := a[x].parent;
    DeleteFamily(a, S, bh, root, x);
    DelCase3LeftFamily(a, S, bh, root, x);
    DelCase3LeftColourOnly(a, x);
    RotationNeighbours(a, S, root, p, a[p].right);
    RecolourRotateRight(a, S, root, M, c, a[p].right, b, root');
    DelCase3LeftTop(a, S, bh, root, x, c, b, root');
    DelCase3LeftColours(a, S, bh, root, x, c, b, root');
  }

  /**
   * Case 3 recolours the sibling and its near child and rotates the sibling
   * right: x keeps its place and its deficit, and the new sibling's far child
   * is red, so case 4 follows.
   */
  lemma DelCase3Left<K(!new), P>(a: seq<Node<K, P>>, S: seq<set<nat>>, bh: seq<nat>, root: nat,
                                 lt: (K, K) -> bool, M: map<K, P>, x: nat, b: seq<Node<K, P>>, root': nat)
    requires DeleteInv(a, S, bh, root, lt, M, x, 1) && StrictTotalOrder(lt) && DelCase3LeftSetting(a, S, bh, root, x)
    requires RotatedRight(DelCase3LeftColour(a, x), root, a[a[x].parent].right, b, root')
    ensures var S' := RightRotatedS(DelCase3LeftColour(a, x), S, a[a[x].parent].right);
      DeleteInv(b, S', bh, root', lt, M, x, 1) && x != root' && IsBlack(b, x) &&
      b[b[x].parent].left == x && FarPhase(b, x) == 0 && S'[x] == S[x] && S'[root'] == S[root]
  {
    var p := a[x].parent;
    var c := DelCase3LeftColour(a, x);
    DeleteFamily(a, S, bh, root, x);
    DelCase3LeftFamily(a, S, bh, root, x);
    DelCase3LeftColourOnly(a, x);
    RotationNeighbours(a, S, root, p, a[p].right);
    DelCase3LeftShape(a, S, bh, root, M, x, c, b, root');
    RecolourRotateRightOrdered(a, S, root, lt, c, a[p].right, b, root');
  }

  /** Case 4: the sibling is black and its far child red. */
  ghost predicate DelCase4LeftSetting<K, P>(a: seq<Node<K, P>>, S: seq<set<nat>>, bh: seq<nat>, root: nat, x: nat)
  {
    FixSetting(a, S, bh, root, x) && a[a[x].parent].left == x && bh[a[x].parent] > 0 &&
    var w := a[a[x].parent].right; IsBlack(a, w) && !IsBlack(a, a[w].right)
  }

  /** The recolouring of case 4: the sibling takes the parent's colour; parent and far child turn black. */
  ghost function DelCase4LeftColour<K, P>(a: seq<Node<K, P>>, x: nat): seq<Node<K, P>>
    requires InArena(a) && x < |a|
  {
    var p := a[x].parent; var w := a[p].right; var wr := a[w].right;
    a[w := a[w].(color := a[p].color)][p := a[p].(color := Black)][wr := a[wr].(color := Black)]
  }

  /** The recolouring changes colours only. */
  lemma DelCase4LeftColourOnly<K, P>(a: seq<Node<K, P>>, x: nat)
    requires InArena(a) && x < |a|
    ensures Recoloured(a, DelCase4LeftColour(a, x)) && InArena(DelCase4LeftColour(a, x))
  {
    RecolouredInArena(a, DelCase4LeftColour(a, x));
  }

  /** Black heights after case 4: the parent, now below the sibling, loses one; the sibling takes the parent's. */
  ghost function DelCase4LeftBh<K, P>(a: seq<Node<K, P>>, bh: seq<nat>, x: nat): seq<nat>
    requires InArena(a) && x < |a| && |bh| == |a| && bh[a[x].parent] > 0
  {
    var p := a[x].parent; var w := a[p].right;
    bh[p := bh[p] - 1][w := bh[p]]
  }

  lemma DelCase4LeftFamily<K, P>(a: seq<Node<K, P>>, S: seq<set<nat>>, bh: seq<nat>, root: nat, x: nat)
    requires DelCase4LeftSetting(a, S, bh, root, x)
    ensures var p := a[x].parent; var w := a[p].right; var wl, wr := a[w].left, a[w].right;
      Sibling(a, x) == w && wr != Nil && wr in S[root] && a[wr].parent == w && wr != p && wr != x && wr != wl &&
      bh[w] + 1 == bh[p] && bh[wr] == bh[w] && Side(a, bh, wl) == bh[w] &&
      (wl == Nil || (wl in S[root] && a[wl].parent == w && wl != p && wl != x)) &&
      (p == root || (a[p].parent in S[root] && a[p].parent != x && a[p].parent != w && a[p].parent != wr && a[p].parent != wl))
  {
    var p := a[x].parent;
    DeleteFamily(a, S, bh, root, x);
    var w := a[p].right;
    ChildLive(a, S, root, w);
    assert BhOk(a, bh, w);
    if p != root {
      ParentLive(a, S, root, p);
      ChildLive(a, S, root, a[p].parent);
    }
  }

  lemma DelCase4LeftTop<K, P>(a: seq<Node<K, P>>, S: seq<set<nat>>, bh: seq<nat>, root: nat, x: nat,
                             c: seq<Node<K, P>>, bh': seq<nat>, b: seq<Node<K, P>>, root': nat, i: nat)
    requires DelCase4LeftSetting(a, S, bh, root, x) && c == DelCase4LeftColour(a, x) && i in S[root]
    requires bh' == DelCase4LeftBh(a, bh, x)
    requires InArena(c) && RotatedLeft(c, root, a[x].parent, b, root')
    requires i == a[x].parent || i == a[a[x].parent].right
    ensures InArena(b) && |bh'| == |b|
    ensures BhOk(b, bh', i) && RedOk(b, i)
  {
    var p := a[x].parent;
    var w := a[p].right;
    DeleteFamily(a, S, bh, root, x);
    DelCase4LeftFamily(a, S, bh, root, x);
    DelCase4LeftColourOnly(a, x);
    RecolourShaped(a, S, root, c);
    RotationNeighbours(c, S, root, p, w);
    LeftFrame(c, S, root, p, b, root');
    LeftEntries(c, S, root, p, b, root');
  }

  lemma DelCase4LeftAbove<K, P>(a: seq<Node<K, P>>, S: seq<set<nat>>, bh: seq<nat>, root: nat, x: nat,
                             c: seq<Node<K, P>>, bh': seq<nat>, b: seq<Node<K, P>>, root': nat, i: nat)
    requires DelCase4LeftSetting(a, S, bh, root, x) && c == DelCase4LeftColour(a, x) && i in S[root]
    requires bh' == DelCase4LeftBh(a, bh, x)
    requires InArena(c) && RotatedLeft(c, root, a[x].parent, b, root')
    requires i == a[a[x].parent].parent
    ensures InArena(b) && |bh'| == |b|
    ensures BhOk(b, bh', i) && RedOk(b, i)
  {
    var p := a[x].parent;
    var w := a[p].right;
    DeleteFamily(a, S, bh, root, x);
    DelCase4LeftFamily(a, S, bh, root, x);
    DelCase4LeftColourOnly(a, x);
    RecolourShaped(a, S, root, c);
    RotationNeighbours(c, S, root, p, w);
    LeftFrame(c, S, root, p, b, root');
    LeftEntries(c, S, root, p, b, root');
    ChildLive(a, S, root, i);
    ChildLive(a, S, root, p);
    assert BhOk(a, bh, i) && RedOk(a, i);
  }

  /** Away from the rotated nodes, case 4 keeps a node's children, their colours and their black heights. */
  lemma DelCase4LeftFarKids<K, P>(a: seq<Node<K, P>>, S: seq<set<nat>>, bh: seq<nat>, root: nat, x: nat,
                                  c: seq<Node<K, P>>, bh': seq<nat>, b: seq<Node<K, P>>, root': nat, i: nat)
    requires DelCase4LeftSetting(a, S, bh, root, x) && c == DelCase4LeftColour(a, x) && i in S[root]
    requires bh' == DelCase4LeftBh(a, bh, x)
    requires InArena(c) && RotatedLeft(c, root, a[x].parent, b, root')
    requires i != a[x].parent && i != a[a[x].parent].right && i != a[a[x].parent].parent
    ensures InArena(a) && InArena(b) && |bh'| == |b| == |a| == |bh| && i < |a|
    ensures b[i].left == a[i].left && b[i].right == a[i].right
    ensures b[a[i].left].color == a[a[i].left].color && b[a[i].right].color == a[a[i].right].color
    ensures bh'[i] == bh[i] && bh'[a[i].left] == bh[a[i].left] && bh'[a[i].right] == bh[a[i].right]
    ensures BhOk(a, bh, i) && (b[i].color == Red ==> a[i].color == Red && RedOk(a, i))
  {
    var p := a[x].parent;
    var w := a[p].right;
    DeleteFamily(a, S, bh, root, x);
    DelCase4LeftFamily(a, S, bh, root, x);
    DelCase4LeftColourOnly(a, x);
    RecolourShaped(a, S, root, c);
    RotationNeighbours(c, S, root, p, w);
    LeftArena(c, S, root, p, b, root');
    ChildLive(a, S, root, i);
    assert BhOk(a, bh, i);
    assert i != x ==> RedOk(a, i);
    LeftUntouched(c, S, root, p, b, root', i);
    var l, r := a[i].left, a[i].right;
    assert l != Nil ==> a[l].parent == i;
    assert r != Nil ==> a[r].parent == i;
    DelCase4LeftKeeps(a, bh, x, i);
    DelCase4LeftKeeps(a, bh, x, l);
    DelCase4LeftKeeps(a, bh, x, r);
    LeftKeepsColour(c, root, p, b, root', l);
    LeftKeepsColour(c, root, p, b, root', r);
  }

  /** Case 4 recolours and rebalances the parent, the sibling and its far child only. */
  lemma DelCase4LeftKeeps<K, P>(a: seq<Node<K, P>>, bh: seq<nat>, x: nat, n: nat)
    requires InArena(a) && |bh| == |a| && x < |a| && bh[a[x].parent] > 0 && n < |a|
    requires var p := a[x].parent; n != p && n != a[p].right
    ensures |DelCase4LeftColour(a, x)| == |a| && |DelCase4LeftBh(a, bh, x)| == |a| && DelCase4LeftBh(a, bh, x)[n] == bh[n]
    ensures n != a[a[a[x].parent].right].right ==> DelCase4LeftColour(a, x)[n] == a[n]
  {
  }

  lemma DelCase4LeftFar<K, P>(a: seq<Node<K, P>>, S: seq<set<nat>>, bh: seq<nat>, root: nat, x: nat,
                             c: seq<Node<K, P>>, bh': seq<nat>, b: seq<Node<K, P>>, root': nat, i: nat)
    requires DelCase4LeftSetting(a, S, bh, root, x) && c == DelCase4LeftColour(a, x) && i in S[root]
    requires bh' == DelCase4LeftBh(a, bh, x)
    requires InArena(c) && RotatedLeft(c, root, a[x].parent, b, root')
    requires i != a[x].parent && i != a[a[x].parent].right && i != a[a[x].parent].parent
    ensures InArena(b) && |bh'| == |b|
    ensures BhOk(b, bh', i) && RedOk(b, i)
  {
    DelCase4LeftFarKids(a, S, bh, root, x, c, bh', b, root', i);
  }

  lemma DelCase4LeftAt<K, P>(a: seq<Node<K, P>>, S: seq<set<nat>>, bh: seq<nat>, root: nat, x: nat,
                             c: seq<Node<K, P>>, bh': seq<nat>, b: seq<Node<K, P>>, root': nat, i: nat)
    requires DelCase4LeftSetting(a, S, bh, root, x) && c == DelCase4LeftColour(a, x) && i in S[root]
    requires bh' == DelCase4LeftBh(a, bh, x)
    requires InArena(c) && RotatedLeft(c, root, a[x].parent, b, root')
    ensures InArena(b) && |bh'| == |b|
    ensures BhOk(b, bh', i) && RedOk(b, i)
  {
    var p := a[x].parent;
    if i == p || i == a[p].right {
      DelCase4LeftTop(a, S, bh, root, x, c, bh', b, root', i);
    } else if i == a[p].parent {
      DelCase4LeftAbove(a, S, bh, root, x, c, bh', b, root', i);
    } else {
      DelCase4LeftFar(a, S, bh, root, x, c, bh', b, root', i);
    }
  }

  lemma DelCase4LeftColours<K, P>(a: seq<Node<K, P>>, S: seq<set<nat>>, bh: seq<nat>, root: nat, x: nat,
                                  c: seq<Node<K, P>>, bh': seq<nat>, b: seq<Node<K, P>>, root': nat)
    requires DelCase4LeftSetting(a, S, bh, root, x) && c == DelCase4LeftColour(a, x)
    requires bh' == DelCase4LeftBh(a, bh, x)
    requires InArena(c) && RotatedLeft(c, root, a[x].parent, b, root')
    requires Shaped(b, LeftRotatedS(c, S, a[x].parent), root') && LeftRotatedS(c, S, a[x].parent)[root'] == S[root]
    ensures DeleteColours(b, LeftRotatedS(c, S, a[x].parent), bh', root', root', 1)
  {
    var p := a[x].parent;
    var S' := LeftRotatedS(c, S, p);
    DeleteFamily(a, S, bh, root, x);
    DelCase4LeftColourOnly(a, x);
    forall i | i in S'[root'] ensures BhOk(b, bh', i) && RedOk(b, i) {
      DelCase4LeftAt(a, S, bh, root, x, c, bh', b, root', i);
    }
    assert root' in S[root];
  }

  lemma DelCase4LeftShape<K, P>(a: seq<Node<K, P>>, S: seq<set<nat>>, bh: seq<nat>, root: nat,
                                M: map<K, P>, x: nat, c: seq<Node<K, P>>, bh': seq<nat>, b: seq<Node<K, P>>, root': nat)
    requires DelCase4LeftSetting(a, S, bh, root, x) && Abstracts(a, S, root, M) && c == DelCase4LeftColour(a, x)
    requires bh' == DelCase4LeftBh(a, bh, x)
    requires InArena(c) && RotatedLeft(c, root, a[x].parent, b, root')
    ensures var S' := LeftRotatedS(c, S, a[x].parent);
      Shaped(b, S', root') && Abstracts(b, S', root', M) &&
      DeleteColours(b, S', bh', root', root', 1) && S'[root'] == S[root]
  {
    var p := a[x].parent;
    DeleteFamily(a, S, bh, root, x);
    DelCase4LeftColourOnly(a, x);
    RecolourRotateLeft(a, S, root, M, c, p, b, root');
    DelCase4LeftColours(a, S, bh, root, x, c, bh', b, root');
  }

  /**
   * Case 4 gives the sibling the parent's colour, blackens parent and far
   * child and rotates the parent left: the missing black node is restored and
   * the repair ends at the root.
   */
  lemma DelCase4Left<K(!new), P>(a: seq<Node<K, P>>, S: seq<set<nat>>, bh: seq<nat>, root: nat,
                                 lt: (K, K) -> bool, M: map<K, P>, x: nat, b: seq<Node<K, P>>, root': nat)
    requires DeleteInv(a, S, bh, root, lt, M, x, 1) && StrictTotalOrder(lt) && DelCase4LeftSetting(a, S, bh, root, x)
    requires RotatedLeft(DelCase4LeftColour(a, x), root, a[x].parent, b, root')
    ensures var S' := LeftRotatedS(DelCase4LeftColour(a, x), S, a[x].parent);
      DeleteInv(b, S', DelCase4LeftBh(a, bh, x), root', lt, M, root', 1) &&
      S'[root'] == S[root] && |S[root] - S[x]| > 0
  {
    var p := a[x].parent;
    var c := DelCase4LeftColour(a, x);
    DeleteFamily(a, S, bh, root, x);
    DelCase4LeftColourOnly(a, x);
    DelCase4LeftShape(a, S, bh, root, M, x, c, DelCase4LeftBh(a, bh, x), b, root');
    RecolourRotateLeftOrdered(a, S, root, lt, c, p, b, root');
    FixMeasurePositive(a, S, bh, root, x);
  }

  // ---------------------------------------------------------------------
  // Removal of a node without a right child, and cases 1, 3 and 4 of the
  // repair with x a right child.
  // ---------------------------------------------------------------------

  /** Removal when z has no right child: z's left child (maybe the sentinel) takes z's place. */
  ghost predicate NoRightSetting<K, P>(a: seq<Node<K, P>>, S: seq<set<nat>>, root: nat, z: nat, b: seq<Node<K, P>>, root': nat)
  {
    Shaped(a, S, root) && z in S[root] && a[z].right == Nil && Transplanted(a, root, z, a[z].left, b, root')
  }

  lemma NoRightFamily<K, P>(a: seq<Node<K, P>>, S: seq<set<nat>>, root: nat, z: nat, b: seq<Node<K, P>>, root': nat)
    requires NoRightSetting(a, S, root, z, b, root')
    ensures var v, zp := a[z].left, a[z].parent;
      S[z] == {z} + S[v] && z !in S[v] && (v == Nil || (v in S[root] && v in S[v] && a[v].parent == z)) &&
      (zp == Nil <==> z == root) &&
      (zp != Nil ==> zp in S[root] && zp !in S[z] && (a[zp].right == z || a[zp].left == z) && a[zp].right != a[zp].left) &&
      S[root] - {z} == (if zp == Nil then S[v] else S[root] - {z}) &&
      |b| == |a| && InArena(b) && b[v].parent == zp
  {
    var v, zp := a[z].left, a[z].parent;
    ChildLive(a, S, root, z);
    if z != root {
      ParentLive(a, S, root, z);
      ChildLive(a, S, root, zp);
    }
    assert InArena(b);
  }

  lemma NoRightLinkedAt<K, P>(a: seq<Node<K, P>>, S: seq<set<nat>>, root: nat, z: nat, b: seq<Node<K, P>>, root': nat, i: nat)
    requires NoRightSetting(a, S, root, z, b, root') && i in S[root] && i != z
    ensures |DeleteS(S, z, z)| == |b| && i < |b|
    ensures Linked(b, DeleteS(S, z, z), i)
  {
    NoRightFamily(a, S, root, z, b, root');
    if i == a[z].parent {
      NoRightLinkedParent(a, S, root, z, b, root', i);
    } else if i == a[z].left {
      NoRightLinkedChild(a, S, root, z, b, root', i);
    } else {
      NoRightLinkedOther(a, S, root, z, b, root', i);
    }
  }

  lemma NoRightLinkedParent<K, P>(a: seq<Node<K, P>>, S: seq<set<nat>>, root: nat, z: nat, b: seq<Node<K, P>>, root': nat, i: nat)
    requires NoRightSetting(a, S, root, z, b, root') && i in S[root] && i != z && i == a[z].parent
    ensures |DeleteS(S, z, z)| == |b| && i < |b|
    ensures Linked(b, DeleteS(S, z, z), i)
  {
    var S' := DeleteS(S, z, z);
    NoRightFamily(a, S, root, z, b, root');
    ChildLive(a, S, root, i);
    var l, r := a[i].right, a[i].left;
    assert z == l || z == r;
    assert S'[i] == S'[b[i].right] + {i} + S'[b[i].left];
  }

  lemma NoRightLinkedChild<K, P>(a: seq<Node<K, P>>, S: seq<set<nat>>, root: nat, z: nat, b: seq<Node<K, P>>, root': nat, i: nat)
    requires NoRightSetting(a, S, root, z, b, root') && i in S[root] && i != z && i != a[z].parent && i == a[z].left
    ensures |DeleteS(S, z, z)| == |b| && i < |b|
    ensures Linked(b, DeleteS(S, z, z), i)
  {
    var v, zp := a[z].left, a[z].parent;
    NoRightFamily(a, S, root, z, b, root');
    ChildLive(a, S, root, i);
    var l, r := a[i].right, a[i].left;
    ChildLive(a, S, root, v);
    assert z !in S[l] && z !in S[r];
    assert (l != Nil ==> l != zp) && (r != Nil ==> r != zp);
  }

  lemma NoRightLinkedOther<K, P>(a: seq<Node<K, P>>, S: seq<set<nat>>, root: nat, z: nat, b: seq<Node<K, P>>, root': nat, i: nat)
    requires NoRightSetting(a, S, root, z, b, root') && i in S[root] && i != z && i != a[z].parent && i != a[z].left
    ensures |DeleteS(S, z, z)| == |b| && i < |b|
    ensures Linked(b, DeleteS(S, z, z), i)
  {
    var v := a[z].left;
    NoRightFamily(a, S, root, z, b, root');
    ChildLive(a, S, root, i);
    var l, r := a[i].right, a[i].left;
    assert l != z && r != z;
    assert (l != Nil ==> l != v) && (r != Nil ==> r != v);
  }

  lemma NoRightShaped<K, P>(a: seq<Node<K, P>>, S: seq<set<nat>>, root: nat, z: nat, b: seq<Node<K, P>>, root': nat)
    requires NoRightSetting(a, S, root, z, b, root')
    ensures Shaped(b, DeleteS(S, z, z), root') && DeleteS(S, z, z)[root'] == S[root] - {z}
  {
    var S' := DeleteS(S, z, z);
    NoRightFamily(a, S, root, z, b, root');
    DeleteSBounded(S, z, z, |a|);
    NoRightRoot(a, S, root, z, b, root');
    forall i | i in S'[root'] ensures Linked(b, S', i) && S'[i] <= S'[root'] {
      NoRightLinkedAt(a, S, root, z, b, root', i);
      ChildLive(a, S, root, i);
    }
  }

  lemma NoRightRoot<K, P>(a: seq<Node<K, P>>, S: seq<set<nat>>, root: nat, z: nat, b: seq<Node<K, P>>, root': nat)
    requires NoRightSetting(a, S, root, z, b, root')
    ensures root' < |b| && |DeleteS(S, z, z)| == |b| && DeleteS(S, z, z)[root'] == S[root] - {z}
    ensures root' == Nil || (root' in DeleteS(S, z, z)[root'] && b[root'].parent == Nil)
  {
    var zp := a[z].parent;
    NoRightFamily(a, S, root, z, b, root');
    if zp != Nil {
      RootOrphan(a, S, root, z);
    }
  }

  lemma NoRightOrdered<K, P>(a: seq<Node<K, P>>, S: seq<set<nat>>, root: nat, lt: (K, K) -> bool, z: nat,
                            b: seq<Node<K, P>>, root': nat)
    requires NoRightSetting(a, S, root, z, b, root') && Ordered(a, S, root, lt)
    ensures Shaped(b, DeleteS(S, z, z), root') && Ordered(b, DeleteS(S, z, z), root', lt)
  {
    var S' := DeleteS(S, z, z);
    var v, zp := a[z].left, a[z].parent;
    NoRightFamily(a, S, root, z, b, root');
    NoRightShaped(a, S, root, z, b, root');
    forall i | i in S'[root'] ensures OrderedAt(b, S', lt, i) {
      assert OrderedAt(a, S, lt, i);
      ChildLive(a, S, root, i);
    }
  }

  lemma NoRightColoursAt<K, P>(a: seq<Node<K, P>>, S: seq<set<nat>>, bh: seq<nat>, root: nat, z: nat,
                              b: seq<Node<K, P>>, root': nat, i: nat)
    requires NoRightSetting(a, S, root, z, b, root') && Coloured(a, S, root) && Balanced(a, S, bh, root)
    requires i in S[root] && i != z
    ensures InArena(b) && |bh| == |b|
    ensures i != a[z].parent ==> BhOk(b, bh, i)
    ensures i != a[z].parent && i != a[z].left ==> RedOk(b, i)
  {
    var v, zp := a[z].left, a[z].parent;
    NoRightFamily(a, S, root, z, b, root');
    ChildLive(a, S, root, i);
    assert BhOk(a, bh, i) && RedOk(a, i);
    var l, r := a[i].right, a[i].left;
    if i != zp {
      assert l != z && r != z;
    }
  }

  lemma NoRightColours<K, P>(a: seq<Node<K, P>>, S: seq<set<nat>>, bh: seq<nat>, root: nat, z: nat,
                            b: seq<Node<K, P>>, root': nat)
    requires NoRightSetting(a, S, root, z, b, root') && Coloured(a, S, root) && Balanced(a, S, bh, root)
    ensures Shaped(b, DeleteS(S, z, z), root')
    ensures DeleteColours(b, DeleteS(S, z, z), bh, root', a[z].left, if IsBlack(a, z) then 1 else 0)
    ensures !IsBlack(a, z) ==> IsBlack(b, a[z].left) && IsBlack(b, root')
  {
    var S' := DeleteS(S, z, z);
    var v, zp := a[z].left, a[z].parent;
    NoRightFamily(a, S, root, z, b, root');
    NoRightShaped(a, S, root, z, b, root');
    assert BhOk(a, bh, z) && RedOk(a, z);
    forall i | i in S'[root'] && (v == root' || i != b[v].parent) ensures BhOk(b, bh, i) {
      NoRightColoursAt(a, S, bh, root, z, b, root', i);
    }
    forall i | i in S'[root'] && i != v && (v == root' || i != b[v].parent) ensures RedOk(b, i) {
      NoRightColoursAt(a, S, bh, root, z, b, root', i);
    }
    if zp != Nil {
      assert BhOk(a, bh, zp) && RedOk(a, zp);
      RootOrphan(a, S, root, z);
      assert root != v && root != zp ==> b[root] == a[root];
    }
  }

  /**
   * Removing a node with no right child keeps shape and order, removes exactly
   * its key, and leaves the repair's invariant with x its left child; x is
   * short of a black node exactly when the removed node was black.
   */
  lemma NoRight<K(!new), P>(a: seq<Node<K, P>>, S: seq<set<nat>>, bh: seq<nat>, root: nat,
                           lt: (K, K) -> bool, M: map<K, P>, z: nat, b: seq<Node<K, P>>, root': nat)
    requires RbValid(a, S, bh, root, lt, M) && StrictTotalOrder(lt)
    requires z in S[root] && a[z].right == Nil && Transplanted(a, root, z, a[z].left, b, root')
    ensures DeleteInv(b, DeleteS(S, z, z), bh, root', lt, M - {a[z].key}, a[z].left, if IsBlack(a, z) then 1 else 0)
    ensures !IsBlack(a, z) ==> IsBlack(b, a[z].left) && IsBlack(b, root')
  {
    NoRightFamily(a, S, root, z, b, root');
    NoRightOrdered(a, S, root, lt, z, b, root');
    NoRightColours(a, S, bh, root, z, b, root');
    KeyUnique(a, S, root, lt, z);
    AbstractsRemove(a, S, root, M, z, b, DeleteS(S, z, z), root');
  }


  /** Case 1: the sibling is red. */
  ghost predicate DelCase1RightSetting<K, P>(a: seq<Node<K, P>>, S: seq<set<nat>>, bh: seq<nat>, root: nat, x: nat)
  {
    FixSetting(a, S, bh, root, x) && a[a[x].parent].right == x && !IsBlack(a, a[a[x].parent].left)
  }

  /** The recolouring of case 1: the sibling turns black and the parent red. */
  ghost function DelCase1RightColour<K, P>(a: seq<Node<K, P>>, x: nat): seq<Node<K, P>>
    requires InArena(a) && x < |a|
  {
    var p := a[x].parent; var w := a[p].left;
    a[w := a[w].(color := Black)][p := a[p].(color := Red)]
  }

  /** The recolouring changes colours only. */
  lemma DelCase1RightColourOnly<K, P>(a: seq<Node<K, P>>, x: nat)
    requires InArena(a) && x < |a|
    ensures Recoloured(a, DelCase1RightColour(a, x)) && InArena(DelCase1RightColour(a, x))
  {
    RecolouredInArena(a, DelCase1RightColour(a, x));
  }

  lemma DelCase1RightFamily<K, P>(a: seq<Node<K, P>>, S: seq<set<nat>>, bh: seq<nat>, root: nat, x: nat)
    requires DelCase1RightSetting(a, S, bh, root, x)
    ensures var p := a[x].parent; var w := a[p].left; var wl, wr := a[w].right, a[w].left;
      Sibling(a, x) == w && a[p].left == w && IsBlack(a, p) && bh[w] == bh[p] &&
      wl != Nil && wr != Nil && IsBlack(a, wl) && IsBlack(a, wr) && Side(a, bh, wl) == bh[w] && Side(a, bh, wr) == bh[w] &&
      wl in S[root] && wr in S[root] && a[wl].parent == w && a[wr].parent == w && wl != wr &&
      wl != p && wr != p && wl != x && wr != x
  {
    var p := a[x].parent;
    DeleteFamily(a, S, bh, root, x);
    var w := a[p].left;
    ChildLive(a, S, root, w);
    assert RedOk(a, w) && BhOk(a, bh, w) && RedOkBut(a, x, p);
    assert Side(a, bh, Nil) == 1;
  }

  lemma DelCase1RightAt<K, P>(a: seq<Node<K, P>>, S: seq<set<nat>>, bh: seq<nat>, root: nat, x: nat,
                             c: seq<Node<K, P>>, b: seq<Node<K, P>>, root': nat, i: nat)
    requires DelCase1RightSetting(a, S, bh, root, x) && c == DelCase1RightColour(a, x) && i in S[root]
    requires InArena(c) && RotatedRight(c, root, a[x].parent, b, root')
    ensures InArena(b) && |bh| == |b|
    ensures i != a[x].parent ==> BhOk(b, bh, i)
    ensures i != x && i != a[x].parent ==> RedOk(b, i)
  {
    var p := a[x].parent;
    if i == a[p].left {
      DelCase1RightSib(a, S, bh, root, x, c, b, root', i);
    } else if i == a[p].parent {
      DelCase1RightAbove(a, S, bh, root, x, c, b, root', i);
    } else if i != p {
      DelCase1RightElsewhere(a, S, bh, root, x, c, b, root', i);
    } else {
      DelCase1RightPrep(a, S, bh, root, x, c);
      RecolourShaped(a, S, root, c);
      RightArena(c, S, root, p, b, root');
    }
  }

  /** The sibling, now black and on top. */
  lemma DelCase1RightSib<K, P>(a: seq<Node<K, P>>, S: seq<set<nat>>, bh: seq<nat>, root: nat, x: nat,
                             c: seq<Node<K, P>>, b: seq<Node<K, P>>, root': nat, i: nat)
    requires DelCase1RightSetting(a, S, bh, root, x) && c == DelCase1RightColour(a, x) && i in S[root]
    requires InArena(c) && RotatedRight(c, root, a[x].parent, b, root')
    requires i == a[a[x].parent].left
    ensures InArena(b) && |bh| == |b| && BhOk(b, bh, i) && RedOk(b, i)
  {
    var p := a[x].parent;
    var w := a[p].left;
    DeleteFamily(a, S, bh, root, x);
    DelCase1RightFamily(a, S, bh, root, x);
    DelCase1RightColourOnly(a, x);
    RecolourShaped(a, S, root, c);
    RotationNeighbours(c, S, root, p, w);
    RightFrame(c, S, root, p, b, root');
    RightEntries(c, S, root, p, b, root');
    ChildLive(a, S, root, i);
  }

  /** The grandparent, whose child is now the sibling. */
  lemma DelCase1RightAbove<K, P>(a: seq<Node<K, P>>, S: seq<set<nat>>, bh: seq<nat>, root: nat, x: nat,
                             c: seq<Node<K, P>>, b: seq<Node<K, P>>, root': nat, i: nat)
    requires DelCase1RightSetting(a, S, bh, root, x) && c == DelCase1RightColour(a, x) && i in S[root]
    requires InArena(c) && RotatedRight(c, root, a[x].parent, b, root')
    requires i == a[a[x].parent].parent
    ensures InArena(b) && |bh| == |b| && BhOk(b, bh, i) && RedOk(b, i)
  {
    var p := a[x].parent;
    var w := a[p].left;
    DeleteFamily(a, S, bh, root, x);
    DelCase1RightFamily(a, S, bh, root, x);
    DelCase1RightColourOnly(a, x);
    RecolourShaped(a, S, root, c);
    RotationNeighbours(c, S, root, p, w);
    RightFrame(c, S, root, p, b, root');
    RightEntries(c, S, root, p, b, root');
    ChildLive(a, S, root, i);
    ChildLive(a, S, root, p);
    assert BhOk(a, bh, i) && RedOk(a, i);
  }

  /** Every node away from the rotation keeps its colour and children. */
  lemma DelCase1RightElsewhere<K, P>(a: seq<Node<K, P>>, S: seq<set<nat>>, bh: seq<nat>, root: nat, x: nat,
                             c: seq<Node<K, P>>, b: seq<Node<K, P>>, root': nat, i: nat)
    requires DelCase1RightSetting(a, S, bh, root, x) && c == DelCase1RightColour(a, x) && i in S[root]
    requires InArena(c) && RotatedRight(c, root, a[x].parent, b, root')
    requires var p := a[x].parent; i != p && i != a[p].left && i != a[p].parent
    ensures InArena(b) && |bh| == |b| && BhOk(b, bh, i) && (i != x ==> RedOk(b, i))
  {
    var p := a[x].parent;
    var w := a[p].left;
    DeleteFamily(a, S, bh, root, x);
    DelCase1RightFamily(a, S, bh, root, x);
    DelCase1RightColourOnly(a, x);
    RecolourShaped(a, S, root, c);
    RotationNeighbours(c, S, root, p, w);
    RightFrame(c, S, root, p, b, root');
    RightEntries(c, S, root, p, b, root');
    ChildLive(a, S, root, i);
    assert BhOk(a, bh, i);
    assert i != x ==> RedOk(a, i);
    RightUntouched(c, S, root, p, b, root', i);
  }

  lemma DelCase1RightTop<K, P>(a: seq<Node<K, P>>, S: seq<set<nat>>, bh: seq<nat>, root: nat, x: nat,
                              c: seq<Node<K, P>>, b: seq<Node<K, P>>, root': nat)
    requires DelCase1RightSetting(a, S, bh, root, x) && c == DelCase1RightColour(a, x)
    requires InArena(c) && RotatedRight(c, root, a[x].parent, b, root')
    ensures var p := a[x].parent;
      InArena(b) && |bh| == |b| && b[x].parent == p && b[x].color == a[x].color && b[p].right == x &&
      IsBlack(b, Nil) && IsBlack(b, root') && p in S[root] && x != root' &&
      DeficitAt(b, bh, p, x, 1) && RedOkBut(b, x, p) && IsBlack(b, b[p].left) &&
      RightRotatedS(c, S, p)[x] == S[x]
  {
    var p := a[x].parent;
    var w := a[p].left;
    DeleteFamily(a, S, bh, root, x);
    DelCase1RightFamily(a, S, bh, root, x);
    DelCase1RightColourOnly(a, x);
    RecolourShaped(a, S, root, c);
    RotationNeighbours(c, S, root, p, w);
    RightFrame(c, S, root, p, b, root');
    RightEntries(c, S, root, p, b, root');
    if a[p].parent != Nil {
      RootOrphan(a, S, root, p);
      ParentLive(a, S, root, p);
      assert root != w && root != p;
    }
  }

  lemma DelCase1RightColours<K, P>(a: seq<Node<K, P>>, S: seq<set<nat>>, bh: seq<nat>, root: nat, x: nat,
                                  c: seq<Node<K, P>>, b: seq<Node<K, P>>, root': nat)
    requires DelCase1RightSetting(a, S, bh, root, x) && c == DelCase1RightColour(a, x)
    requires InArena(c) && RotatedRight(c, root, a[x].parent, b, root')
    requires Shaped(b, RightRotatedS(c, S, a[x].parent), root') && RightRotatedS(c, S, a[x].parent)[root'] == S[root]
    ensures DeleteColours(b, RightRotatedS(c, S, a[x].parent), bh, root', x, 1)
  {
    var p := a[x].parent;
    var S' := RightRotatedS(c, S, p);
    DelCase1RightTop(a, S, bh, root, x, c, b, root');
    forall i | i in S'[root'] && i != p ensures BhOk(b, bh, i) {
      DelCase1RightAt(a, S, bh, root, x, c, b, root', i);
    }
    forall i | i in S'[root'] && i != x && i != p ensures RedOk(b, i) {
      DelCase1RightAt(a, S, bh, root, x, c, b, root', i);
    }
  }

  lemma DelCase1RightShape<K, P>(a: seq<Node<K, P>>, S: seq<set<nat>>, bh: seq<nat>, root: nat, M: map<K, P>,
                                x: nat, c: seq<Node<K, P>>, b: seq<Node<K, P>>, S': seq<set<nat>>, root': nat)
    requires DelCase1RightSetting(a, S, bh, root, x) && Abstracts(a, S, root, M) && c == DelCase1RightColour(a, x)
    requires InArena(c) && RotatedRight(c, root, a[x].parent, b, root') && S' == RightRotatedS(c, S, a[x].parent)
    ensures Shaped(b, S', root')
    ensures x != root' && IsBlack(b, x) && IsBlack(b, Sibling(b, x)) &&
      b[b[x].parent].right == x && S'[x] == S[x] && S'[root'] == S[root]
    ensures Abstracts(b, S', root', M) && DeleteColours(b, S', bh, root', x, 1)
  {
    var p := a[x].parent;
    DelCase1RightFamily(a, S, bh, root, x);
    DelCase1RightColourOnly(a, x);
    RecolourRotateRight(a, S, root, M, c, p, b, root');
    DelCase1RightTop(a, S, bh, root, x, c, b, root');
    DelCase1RightColours(a, S, bh, root, x, c, b, root');
  }

  /** Case 1's recolouring only changes colours, and the parent can rotate right. */
  lemma DelCase1RightPrep<K, P>(a: seq<Node<K, P>>, S: seq<set<nat>>, bh: seq<nat>, root: nat, x: nat, c: seq<Node<K, P>>)
    requires DelCase1RightSetting(a, S, bh, root, x) && c == DelCase1RightColour(a, x)
    ensures Recoloured(a, c) && InArena(c) && Shaped(a, S, root)
    ensures a[x].parent in S[root] && a[a[x].parent].left != Nil
  {
    DelCase1RightFamily(a, S, bh, root, x);
    DelCase1RightColourOnly(a, x);
    RecolouredInArena(a, c);
  }

  /**
   * Case 1 recolours sibling and parent and rotates the parent right: x keeps
   * its place and its deficit, and now has a black sibling.
   */
  lemma DelCase1Right<K(!new), P>(a: seq<Node<K, P>>, S: seq<set<nat>>, bh: seq<nat>, root: nat, lt: (K, K) -> bool,
                                 M: map<K, P>, x: nat, c: seq<Node<K, P>>, b: seq<Node<K, P>>, S': seq<set<nat>>, root': nat)
    requires DeleteInv(a, S, bh, root, lt, M, x, 1) && StrictTotalOrder(lt) && DelCase1RightSetting(a, S, bh, root, x)
    requires c == DelCase1RightColour(a, x)
    requires RotatedRight(c, root, a[x].parent, b, root') && S' == RightRotatedS(c, S, a[x].parent)
    ensures S'[x] == S[x] && S'[root'] == S[root] && InArena(b) && x < |b|
    ensures x != root' && IsBlack(b, x) && b[b[x].parent].right == x && IsBlack(b, Sibling(b, x))
    ensures DeleteInv(b, S', bh, root', lt, M, x, 1)
  {
    DelCase1RightPrep(a, S, bh, root, x, c);
    DelCase1RightShape(a, S, bh, root, M, x, c, b, S', root');
    RecolourRotateRightOrdered(a, S, root, lt, c, a[x].parent, b, root');
  }

  /** Case 3: the sibling is black, its near child red and its far child black. */
  ghost predicate DelCase3RightSetting<K, P>(a: seq<Node<K, P>>, S: seq<set<nat>>, bh: seq<nat>, root: nat, x: nat)
  {
    FixSetting(a, S, bh, root, x) && a[a[x].parent].right == x &&
    var w := a[a[x].parent].left; IsBlack(a, w) && !IsBlack(a, a[w].right) && IsBlack(a, a[w].left)
  }

  /** The recolouring of case 3: the near child turns black and the sibling red. */
  ghost function DelCase3RightColour<K, P>(a: seq<Node<K, P>>, x: nat): seq<Node<K, P>>
    requires InArena(a) && x < |a|
  {
    var w := a[a[x].parent].left; var wl := a[w].right;
    a[wl := a[wl].(color := Black)][w := a[w].(color := Red)]
  }

  /** The recolouring changes colours only. */
  lemma DelCase3RightColourOnly<K, P>(a: seq<Node<K, P>>, x: nat)
    requires InArena(a) && x < |a|
    ensures Recoloured(a, DelCase3RightColour(a, x)) && InArena(DelCase3RightColour(a, x))
  {
    RecolouredInArena(a, DelCase3RightColour(a, x));
  }

  /** After case 3 the new sibling of x is the sibling's former near child, now black. */
  lemma DelCase3RightSibling<K, P>(a: seq<Node<K, P>>, S: seq<set<nat>>, bh: seq<nat>, root: nat, x: nat,
                                  b: seq<Node<K, P>>, root': nat)
    requires DelCase3RightSetting(a, S, bh, root, x)
    requires RotatedLeft(DelCase3RightColour(a, x), root, a[a[x].parent].left, b, root') && InArena(b)
    ensures root' == root && IsBlack(b, x) && b[x].parent == a[x].parent && b[b[x].parent].right == x
    ensures Sibling(b, x) == a[a[a[x].parent].left].right && IsBlack(b, Sibling(b, x))
  {
    DeleteFamily(a, S, bh, root, x);
    DelCase3RightFamily(a, S, bh, root, x);
    DelCase3RightColourOnly(a, x);
  }

  lemma DelCase3RightFamily<K, P>(a: seq<Node<K, P>>, S: seq<set<nat>>, bh: seq<nat>, root: nat, x: nat)
    requires DelCase3RightSetting(a, S, bh, root, x)
    ensures var p := a[x].parent; var w := a[p].left; var wl := a[w].right;
      Sibling(a, x) == w && wl != Nil && wl in S[root] && a[wl].parent == w && wl != p && wl != x && wl != a[w].left &&
      bh[w] == bh[wl] && Side(a, bh, a[w].left) == bh[w] &&
      IsBlack(a, a[wl].right) && IsBlack(a, a[wl].left) && Side(a, bh, a[wl].right) == bh[wl] && Side(a, bh, a[wl].left) == bh[wl] &&
      (a[wl].left == Nil || a[wl].left != x)
  {
    var p := a[x].parent;
    DeleteFamily(a, S, bh, root, x);
    var w := a[p].left;
    ChildLive(a, S, root, w);
    var wl := a[w].right;
    ChildLive(a, S, root, wl);
    assert BhOk(a, bh, w) && RedOk(a, wl) && BhOk(a, bh, wl);
    ChildLive(a, S, root, p);
    if a[wl].left != Nil {
      assert a[wl].left in S[w];
    }
  }

  lemma DelCase3RightAt<K, P>(a: seq<Node<K, P>>, S: seq<set<nat>>, bh: seq<nat>, root: nat, x: nat,
                             c: seq<Node<K, P>>, b: seq<Node<K, P>>, root': nat, i: nat)
    requires DelCase3RightSetting(a, S, bh, root, x) && c == DelCase3RightColour(a, x) && i in S[root]
    requires InArena(c) && RotatedLeft(c, root, a[a[x].parent].left, b, root')
    ensures InArena(b) && |bh| == |b|
    ensures i != a[x].parent ==> BhOk(b, bh, i)
    ensures i != x && i != a[x].parent ==> RedOk(b, i)
  {
    var w := a[a[x].parent].left;
    if i == w || i == c[w].right {
      DelCase3RightPair(a, S, bh, root, x, c, b, root', i);
    } else if i != a[x].parent {
      DelCase3RightElsewhere(a, S, bh, root, x, c, b, root', i);
    } else {
      DelCase3RightColourOnly(a, x);
      DeleteFamily(a, S, bh, root, x);
      RecolourShaped(a, S, root, c);
      LeftFrame(c, S, root, w, b, root');
    }
  }

  /** The rotated pair: the sibling, now red below its old right child, now black. */
  lemma DelCase3RightPair<K, P>(a: seq<Node<K, P>>, S: seq<set<nat>>, bh: seq<nat>, root: nat, x: nat,
                               c: seq<Node<K, P>>, b: seq<Node<K, P>>, root': nat, i: nat)
    requires DelCase3RightSetting(a, S, bh, root, x) && c == DelCase3RightColour(a, x) && i in S[root]
    requires InArena(c) && RotatedLeft(c, root, a[a[x].parent].left, b, root')
    requires var w := a[a[x].parent].left; i == w || i == c[w].right
    ensures InArena(b) && |bh| == |b|
    ensures BhOk(b, bh, i) && RedOk(b, i)
  {
    var p := a[x].parent;
    var w := a[p].left;
    var wl := a[w].right;
    DeleteFamily(a, S, bh, root, x);
    DelCase3RightFamily(a, S, bh, root, x);
    DelCase3RightColourOnly(a, x);
    RecolourShaped(a, S, root, c);
    RotationNeighbours(c, S, root, w, wl);
    LeftFrame(c, S, root, w, b, root');
    LeftEntries(c, S, root, w, b, root');
  }

  /** Away from the rotated pair, nodes keep their colours, children and black heights. */
  lemma DelCase3RightElsewhere<K, P>(a: seq<Node<K, P>>, S: seq<set<nat>>, bh: seq<nat>, root: nat, x: nat,
                                    c: seq<Node<K, P>>, b: seq<Node<K, P>>, root': nat, i: nat)
    requires DelCase3RightSetting(a, S, bh, root, x) && c == DelCase3RightColour(a, x) && i in S[root]
    requires InArena(c) && RotatedLeft(c, root, a[a[x].parent].left, b, root')
    requires var w := a[a[x].parent].left; i != w && i != c[w].right && i != a[x].parent
    ensures InArena(b) && |bh| == |b|
    ensures BhOk(b, bh, i) && (i != x ==> RedOk(b, i))
  {
    var p := a[x].parent;
    var w := a[p].left;
    var wl := a[w].right;
    DeleteFamily(a, S, bh, root, x);
    DelCase3RightFamily(a, S, bh, root, x);
    DelCase3RightColourOnly(a, x);
    RecolourShaped(a, S, root, c);
    RotationNeighbours(c, S, root, w, wl);
    LeftFrame(c, S, root, w, b, root');
    LeftEntries(c, S, root, w, b, root');
    ChildLive(a, S, root, i);
    assert BhOk(a, bh, i);
    assert i != x ==> RedOk(a, i);
    LeftUntouched(c, S, root, w, b, root', i);
  }

  lemma DelCase3RightTop<K, P>(a: seq<Node<K, P>>, S: seq<set<nat>>, bh: seq<nat>, root: nat, x: nat,
                              c: seq<Node<K, P>>, b: seq<Node<K, P>>, root': nat)
    requires DelCase3RightSetting(a, S, bh, root, x) && c == DelCase3RightColour(a, x)
    requires InArena(c) && RotatedLeft(c, root, a[a[x].parent].left, b, root')
    ensures var p := a[x].parent;
      InArena(b) && |bh| == |b| && b[x].parent == p && b[x].color == a[x].color && b[p].right == x &&
      IsBlack(b, Nil) && root' == root && IsBlack(b, root) && p in S[root] &&
      DeficitAt(b, bh, p, x, 1) && RedOkBut(b, x, p) && IsBlack(b, b[p].left) && !IsBlack(b, b[b[p].left].left) &&
      LeftRotatedS(c, S, a[p].left)[x] == S[x]
  {
    var p := a[x].parent;
    var w := a[p].left;
    var wl := a[w].right;
    DeleteFamily(a, S, bh, root, x);
    DelCase3RightFamily(a, S, bh, root, x);
    DelCase3RightColourOnly(a, x);
    RecolourShaped(a, S, root, c);
    RotationNeighbours(c, S, root, w, wl);
    LeftFrame(c, S, root, w, b, root');
    LeftEntries(c, S, root, w, b, root');
    RootOrphan(a, S, root, p);
    RootOrphan(a, S, root, w);
  }

  lemma DelCase3RightColours<K, P>(a: seq<Node<K, P>>, S: seq<set<nat>>, bh: seq<nat>, root: nat, x: nat,
                                  c: seq<Node<K, P>>, b: seq<Node<K, P>>, root': nat)
    requires DelCase3RightSetting(a, S, bh, root, x) && c == DelCase3RightColour(a, x)
    requires InArena(c) && RotatedLeft(c, root, a[a[x].parent].left, b, root')
    requires Shaped(b, LeftRotatedS(c, S, a[a[x].parent].left), root') && LeftRotatedS(c, S, a[a[x].parent].left)[root'] == S[root]
    ensures DeleteColours(b, LeftRotatedS(c, S, a[a[x].parent].left), bh, root', x, 1)
  {
    var p := a[x].parent;
    var S' := LeftRotatedS(c, S, a[p].left);
    DelCase3RightTop(a, S, bh, root, x, c, b, root');
    forall i | i in S'[root'] && i != p ensures BhOk(b, bh, i) {
      DelCase3RightAt(a, S, bh, root, x, c, b, root', i);
    }
    forall i | i in S'[root'] && i != x && i != p ensures RedOk(b, i) {
      DelCase3RightAt(a, S, bh, root, x, c, b, root', i);
    }
  }

  lemma DelCase3RightShape<K, P>(a: seq<Node<K, P>>, S: seq<set<nat>>, bh: seq<nat>, root: nat,
                                M: map<K, P>, x: nat, c: seq<Node<K, P>>, b: seq<Node<K, P>>, root': nat)
    requires DelCase3RightSetting(a, S, bh, root, x) && Abstracts(a, S, root, M) && c == DelCase3RightColour(a, x)
    requires InArena(c) && RotatedLeft(c, root, a[a[x].parent].left, b, root')
    ensures var S' := LeftRotatedS(c, S, a[a[x].parent].left);
      Shaped(b, S', root') && Abstracts(b, S', root', M) && DeleteColours(b, S', bh, root', x, 1) &&
      x != root' && IsBlack(b, x) && b[b[x].parent].right == x && FarPhase(b, x) == 0 &&
      S'[x] == S[x] && S'[root'] == S[root]
  {
    var p := a[x].parent;
    DeleteFamily(a, S, bh, root, x);
    DelCase3RightFamily(a, S, bh, root, x);
    DelCase3RightColourOnly(a, x);
    RotationNeighbours(a, S, root, p, a[p].left);
    RecolourRotateLeft(a, S, root, M, c, a[p].left, b, root');
    DelCase3RightTop(a, S, bh, root, x, c, b, root');
    DelCase3RightColours(a, S, bh, root, x, c, b, root');
  }

  /**
   * Case 3 recolours the sibling and its near child and rotates the sibling
   * left: x keeps its place and its deficit, and the new sibling's far child
   * is red, so case 4 follows.
   */
  lemma DelCase3Right<K(!new), P>(a: seq<Node<K, P>>, S: seq<set<nat>>, bh: seq<nat>, root: nat,
                                 lt: (K, K) -> bool, M: map<K, P>, x: nat, b: seq<Node<K, P>>, root': nat)
    requires DeleteInv(a, S, bh, root, lt, M, x, 1) && StrictTotalOrder(lt) && DelCase3RightSetting(a, S, bh, root, x)
    requires RotatedLeft(DelCase3RightColour(a, x), root, a[a[x].parent].left, b, root')
    ensures var S' := LeftRotatedS(DelCase3RightColour(a, x), S, a[a[x].parent].left);
      DeleteInv(b, S', bh, root', lt, M, x, 1) && x != root' && IsBlack(b, x) &&
      b[b[x].parent].right == x && FarPhase(b, x) == 0 && S'[x] == S[x] && S'[root'] == S[root]
  {
    var p := a[x].parent;
    var c := DelCase3RightColour(a, x);
    DeleteFamily(a, S, bh, root, x);
    DelCase3RightFamily(a, S, bh, root, x);
    DelCase3RightColourOnly(a, x);
    RotationNeighbours(a, S, root, p, a[p].left);
    DelCase3RightShape(a, S, bh, root, M, x, c, b, root');
    RecolourRotateLeftOrdered(a, S, root, lt, c, a[p].left, b, root');
  }

  /** Case 4: the sibling is black and its far child red. */
  ghost predicate DelCase4RightSetting<K, P>(a: seq<Node<K, P>>, S: seq<set<nat>>, bh: seq<nat>, root: nat, x: nat)
  {
    FixSetting(a, S, bh, root, x) && a[a[x].parent].right == x && bh[a[x].parent] > 0 &&
    var w := a[a[x].parent].left; IsBlack(a, w) && !IsBlack(a, a[w].left)
  }

  /** The recolouring of case 4: the sibling takes the parent's colour; parent and far child turn black. */
  ghost function DelCase4RightColour<K, P>(a: seq<Node<K, P>>, x: nat): seq<Node<K, P>>
    requires InArena(a) && x < |a|
  {
    var p := a[x].parent; var w := a[p].left; var wr := a[w].left;
    a[w := a[w].(color := a[p].color)][p := a[p].(color := Black)][wr := a[wr].(color := Black)]
  }

  /** The recolouring changes colours only. */
  lemma DelCase4RightColourOnly<K, P>(a: seq<Node<K, P>>, x: nat)
    requires InArena(a) && x < |a|
    ensures Recoloured(a, DelCase4RightColour(a, x)) && InArena(DelCase4RightColour(a, x))
  {
    RecolouredInArena(a, DelCase4RightColour(a, x));
  }

  /** Black heights after case 4: the parent, now below the sibling, loses one; the sibling takes the parent's. */
  ghost function DelCase4RightBh<K, P>(a: seq<Node<K, P>>, bh: seq<nat>, x: nat): seq<nat>
    requires InArena(a) && x < |a| && |bh| == |a| && bh[a[x].parent] > 0
  {
    var p := a[x].parent; var w := a[p].left;
    bh[p := bh[p] - 1][w := bh[p]]
  }

  lemma DelCase4RightFamily<K, P>(a: seq<Node<K, P>>, S: seq<set<nat>>, bh: seq<nat>, root: nat, x: nat)
    requires DelCase4RightSetting(a, S, bh, root, x)
    ensures var p := a[x].parent; var w := a[p].left; var wl, wr := a[w].right, a[w].left;
      Sibling(a, x) == w && wr != Nil && wr in S[root] && a[wr].parent == w && wr != p && wr != x && wr != wl &&
      bh[w] + 1 == bh[p] && bh[wr] == bh[w] && Side(a, bh, wl) == bh[w] &&
      (wl == Nil || (wl in S[root] && a[wl].parent == w && wl != p && wl != x)) &&
      (p == root || (a[p].parent in S[root] && a[p].parent != x && a[p].parent != w && a[p].parent != wr && a[p].parent != wl))
  {
    var p := a[x].parent;
    DeleteFamily(a, S, bh, root, x);
    var w := a[p].left;
    ChildLive(a, S, root, w);
    assert BhOk(a, bh, w);
    if p != root {
      ParentLive(a, S, root, p);
      ChildLive(a, S, root, a[p].parent);
    }
  }

  lemma DelCase4RightTop<K, P>(a: seq<Node<K, P>>, S: seq<set<nat>>, bh: seq<nat>, root: nat, x: nat,
                             c: seq<Node<K, P>>, bh': seq<nat>, b: seq<Node<K, P>>, root': nat, i: nat)
    requires DelCase4RightSetting(a, S, bh, root, x) && c == DelCase4RightColour(a, x) && i in S[root]
    requires bh' == DelCase4RightBh(a, bh, x)
    requires InArena(c) && RotatedRight(c, root, a[x].parent, b, root')
    requires i == a[x].parent || i == a[a[x].parent].left
    ensures InArena(b) && |bh'| == |b|
    ensures BhOk(b, bh', i) && RedOk(b, i)
  {
    var p := a[x].parent;
    var w := a[p].left;
    DeleteFamily(a, S, bh, root, x);
    DelCase4RightFamily(a, S, bh, root, x);
    DelCase4RightColourOnly(a, x);
    RecolourShaped(a, S, root, c);
    RotationNeighbours(c, S, root, p, w);
    RightFrame(c, S, root, p, b, root');
    RightEntries(c, S, root, p, b, root');
  }

  lemma DelCase4RightAbove<K, P>(a: seq<Node<K, P>>, S: seq<set<nat>>, bh: seq<nat>, root: nat, x: nat,
                             c: seq<Node<K, P>>, bh': seq<nat>, b: seq<Node<K, P>>, root': nat, i: nat)
    requires DelCase4RightSetting(a, S, bh, root, x) && c == DelCase4RightColour(a, x) && i in S[root]
    requires bh' == DelCase4RightBh(a, bh, x)
    requires InArena(c) && RotatedRight(c, root, a[x].parent, b, root')
    requires i == a[a[x].parent].parent
    ensures InArena(b) && |bh'| == |b|
    ensures BhOk(b, bh', i) && RedOk(b, i)
  {
    var p := a[x].parent;
    var w := a[p].left;
    DeleteFamily(a, S, bh, root, x);
    DelCase4RightFamily(a, S, bh, root, x);
    DelCase4RightColourOnly(a, x);
    RecolourShaped(a, S, root, c);
    RotationNeighbours(c, S, root, p, w);
    RightFrame(c, S, root, p, b, root');
    RightEntries(c, S, root, p, b, root');
    ChildLive(a, S, root, i);
    ChildLive(a, S, root, p);
    assert BhOk(a, bh, i) && RedOk(a, i);
  }

  /** Away from the rotated nodes, case 4 keeps a node's children, their colours and their black heights. */
  lemma DelCase4RightFarKids<K, P>(a: seq<Node<K, P>>, S: seq<set<nat>>, bh: seq<nat>, root: nat, x: nat,
                                  c: seq<Node<K, P>>, bh': seq<nat>, b: seq<Node<K, P>>, root': nat, i: nat)
    requires DelCase4RightSetting(a, S, bh, root, x) && c == DelCase4RightColour(a, x) && i in S[root]
    requires bh' == DelCase4RightBh(a, bh, x)
    requires InArena(c) && RotatedRight(c, root, a[x].parent, b, root')
    requires i != a[x].parent && i != a[a[x].parent].left && i != a[a[x].parent].parent
    ensures InArena(a) && InArena(b) && |bh'| == |b| == |a| == |bh| && i < |a|
    ensures b[i].right == a[i].right && b[i].left == a[i].left
    ensures b[a[i].right].color == a[a[i].right].color && b[a[i].left].color == a[a[i].left].color
    ensures bh'[i] == bh[i] && bh'[a[i].right] == bh[a[i].right] && bh'[a[i].left] == bh[a[i].left]
    ensures BhOk(a, bh, i) && (b[i].color == Red ==> a[i].color == Red && RedOk(a, i))
  {
    var p := a[x].parent;
    var w := a[p].left;
    DeleteFamily(a, S, bh, root, x);
    DelCase4RightFamily(a, S, bh, root, x);
    DelCase4RightColourOnly(a, x);
    RecolourShaped(a, S, root, c);
    RotationNeighbours(c, S, root, p, w);
    RightArena(c, S, root, p, b, root');
    ChildLive(a, S, root, i);
    assert BhOk(a, bh, i);
    assert i != x ==> RedOk(a, i);
    RightUntouched(c, S, root, p, b, root', i);
    var l, r := a[i].right, a[i].left;
    assert l != Nil ==> a[l].parent == i;
    assert r != Nil ==> a[r].parent == i;
    DelCase4RightKeeps(a, bh, x, i);
    DelCase4RightKeeps(a, bh, x, l);
    DelCase4RightKeeps(a, bh, x, r);
    RightKeepsColour(c, root, p, b, root', l);
    RightKeepsColour(c, root, p, b, root', r);
  }

  /** Case 4 recolours and rebalances the parent, the sibling and its far child only. */
  lemma DelCase4RightKeeps<K, P>(a: seq<Node<K, P>>, bh: seq<nat>, x: nat, n: nat)
    requires InArena(a) && |bh| == |a| && x < |a| && bh[a[x].parent] > 0 && n < |a|
    requires var p := a[x].parent; n != p && n != a[p].left
    ensures |DelCase4RightColour(a, x)| == |a| && |DelCase4RightBh(a, bh, x)| == |a| && DelCase4RightBh(a, bh, x)[n] == bh[n]
    ensures n != a[a[a[x].parent].left].left ==> DelCase4RightColour(a, x)[n] == a[n]
  {
  }

  lemma DelCase4RightFar<K, P>(a: seq<Node<K, P>>, S: seq<set<nat>>, bh: seq<nat>, root: nat, x: nat,
                             c: seq<Node<K, P>>, bh': seq<nat>, b: seq<Node<K, P>>, root': nat, i: nat)
    requires DelCase4RightSetting(a, S, bh, root, x) && c == DelCase4RightColour(a, x) && i in S[root]
    requires bh' == DelCase4RightBh(a, bh, x)
    requires InArena(c) && RotatedRight(c, root, a[x].parent, b, root')
    requires i != a[x].parent && i != a[a[x].parent].left && i != a[a[x].parent].parent
    ensures InArena(b) && |bh'| == |b|
    ensures BhOk(b, bh', i) && RedOk(b, i)
  {
    DelCase4RightFarKids(a, S, bh, root, x, c, bh', b, root', i);
  }

  lemma DelCase4RightAt<K, P>(a: seq<Node<K, P>>, S: seq<set<nat>>, bh: seq<nat>, root: nat, x: nat,
                             c: seq<Node<K, P>>, bh': seq<nat>, b: seq<Node<K, P>>, root': nat, i: nat)
    requires DelCase4RightSetting(a, S, bh, root, x) && c == DelCase4RightColour(a, x) && i in S[root]
    requires bh' == DelCase4RightBh(a, bh, x)
    requires InArena(c) && RotatedRight(c, root, a[x].parent, b, root')
    ensures InArena(b) && |bh'| == |b|
    ensures BhOk(b, bh', i) && RedOk(b, i)
  {
    var p := a[x].parent;
    if i == p || i == a[p].left {
      DelCase4RightTop(a, S, bh, root, x, c, bh', b, root', i);
    } else if i == a[p].parent {
      DelCase4RightAbove(a, S, bh, root, x, c, bh', b, root', i);
    } else {
      DelCase4RightFar(a, S, bh, root, x, c, bh', b, root', i);
    }
  }

  lemma DelCase4RightColours<K, P>(a: seq<Node<K, P>>, S: seq<set<nat>>, bh: seq<nat>, root: nat, x: nat,
                                  c: seq<Node<K, P>>, bh': seq<nat>, b: seq<Node<K, P>>, root': nat)
    requires DelCase4RightSetting(a, S, bh, root, x) && c == DelCase4RightColour(a, x)
    requires bh' == DelCase4RightBh(a, bh, x)
    requires InArena(c) && RotatedRight(c, root, a[x].parent, b, root')
    requires Shaped(b, RightRotatedS(c, S, a[x].parent), root') && RightRotatedS(c, S, a[x].parent)[root'] == S[root]
    ensures DeleteColours(b, RightRotatedS(c, S, a[x].parent), bh', root', root', 1)
  {
    var p := a[x].parent;
    var S' := RightRotatedS(c, S, p);
    DeleteFamily(a, S, bh, root, x);
    DelCase4RightColourOnly(a, x);
    forall i | i in S'[root'] ensures BhOk(b, bh', i) && RedOk(b, i) {
      DelCase4RightAt(a, S, bh, root, x, c, bh', b, root', i);
    }
    assert root' in S[root];
  }

  lemma DelCase4RightShape<K, P>(a: seq<Node<K, P>>, S: seq<set<nat>>, bh: seq<nat>, root: nat,
                                M: map<K, P>, x: nat, c: seq<Node<K, P>>, bh': seq<nat>, b: seq<Node<K, P>>, root': nat)
    requires DelCase4RightSetting(a, S, bh, root, x) && Abstracts(a, S, root, M) && c == DelCase4RightColour(a, x)
    requires bh' == DelCase4RightBh(a, bh, x)
    requires InArena(c) && RotatedRight(c, root, a[x].parent, b, root')
    ensures var S' := RightRotatedS(c, S, a[x].parent);
      Shaped(b, S', root') && Abstracts(b, S', root', M) &&
      DeleteColours(b, S', bh', root', root', 1) && S'[root'] == S[root]
  {
    var p := a[x].parent;
    DeleteFamily(a, S, bh, root, x);
    DelCase4RightColourOnly(a, x);
    RecolourRotateRight(a, S, root, M, c, p, b, root');
    DelCase4RightColours(a, S, bh, root, x, c, bh', b, root');
  }

  /**
   * Case 4 gives the sibling the parent's colour, blackens parent and far
   * child and rotates the parent right: the missing black node is restored and
   * the repair ends at the root.
   */
  lemma DelCase4Right<K(!new), P>(a: seq<Node<K, P>>, S: seq<set<nat>>, bh: seq<nat>, root: nat,
                                 lt: (K, K) -> bool, M: map<K, P>, x: nat, b: seq<Node<K, P>>, root': nat)
    requires DeleteInv(a, S, bh, root, lt, M, x, 1) && StrictTotalOrder(lt) && DelCase4RightSetting(a, S, bh, root, x)
    requires RotatedRight(DelCase4RightColour(a, x), root, a[x].parent, b, root')
    ensures var S' := RightRotatedS(DelCase4RightColour(a, x), S, a[x].parent);
      DeleteInv(b, S', DelCase4RightBh(a, bh, x), root', lt, M, root', 1) &&
      S'[root'] == S[root] && |S[root] - S[x]| > 0
  {
    var p := a[x].parent;
    var c := DelCase4RightColour(a, x);
    DeleteFamily(a, S, bh, root, x);
    DelCase4RightColourOnly(a, x);
    DelCase4RightShape(a, S, bh, root, M, x, c, DelCase4RightBh(a, bh, x), b, root');
    RecolourRotateRightOrdered(a, S, root, lt, c, p, b, root');
    FixMeasurePositive(a, S, bh, root, x);
  }

  // ---------------------------------------------------------------------

  /**
   * The pointer updates of transplant(u, v) on the arena and root of a
   * tree: v takes u's place below u's parent, or becomes the root, and v's
   * parent becomes u's parent (the sentinel's too, when v is the sentinel).
   */
  method Transplanting<K, P>(nodes: seq<Node<K, P>>, root: nat, u: nat, v: nat) returns (ns: seq<Node<K, P>>, r: nat)
    requires InArena(nodes) && u < |nodes| && v < |nodes| && (nodes[u].parent == Nil || nodes[u].parent != v)
    ensures Transplanted(nodes, root, u, v, ns, r)
  {
    ns, r := nodes, root;
    var up := ns[u].parent;
    if up == Nil {
      r := v;
    } else if u == ns[up].left {
      ns := ns[up := ns[up].(left := v)];
    } else {
      ns := ns[up := ns[up].(right := v)];
    }
    ns := ns[v := ns[v].(parent := up)];
  }

  /**
   * The pointer updates of delete when z has two children, in the order the
   * source makes them: y, the leftmost node of z's right subtree, is
   * replaced by its right child x, takes over z's right subtree (unless it
   * is z's right child), then z's place, z's left subtree and z's colour.
   */
  method Splicing<K, P>(nodes: seq<Node<K, P>>, ghost S: seq<set<nat>>, root: nat, z: nat, y: nat)
    returns (ns: seq<Node<K, P>>, r: nat)
    requires SpliceSetting(nodes, S, root, z, y)
    ensures Spliced(nodes, root, z, y, ns, r)
  {
    if nodes[y].parent == z {
      ns, r := SplicingNear(nodes, S, root, z, y);
    } else {
      ns, r := SplicingDeep(nodes, S, root, z, y);
    }
  }

  /** Splicing when y is z's right child: y keeps its right subtree. */
  method SplicingNear<K, P>(nodes: seq<Node<K, P>>, ghost S: seq<set<nat>>, root: nat, z: nat, y: nat)
    returns (ns: seq<Node<K, P>>, r: nat)
    requires SpliceSetting(nodes, S, root, z, y) && nodes[y].parent == z
    ensures Spliced(nodes, root, z, y, ns, r)
  {
    SpliceFamily(nodes, S, root, z, y);
    ns, r := nodes, root;
    var x := ns[y].right;
    ns := ns[x := ns[x].(parent := y)];
    ns, r := SplicingTop(ns, r, z, y);
  }

  /** Splicing when y lies deeper: x takes y's place first, and y takes over z's right subtree. */
  method SplicingDeep<K, P>(nodes: seq<Node<K, P>>, ghost S: seq<set<nat>>, root: nat, z: nat, y: nat)
    returns (ns: seq<Node<K, P>>, r: nat)
    requires SpliceSetting(nodes, S, root, z, y) && nodes[y].parent != z
    ensures Spliced(nodes, root, z, y, ns, r)
  {
    SpliceFamily(nodes, S, root, z, y);
    ns, r := Transplanting(nodes, root, y, nodes[y].right);
    ns := ns[y := ns[y].(right := ns[z].right)];
    ns := ns[ns[y].right := ns[ns[y].right].(parent := y)];
    ns, r := SplicingTop(ns, r, z, y);
  }

  /** The second half of Splicing: y takes z's place, z's left subtree and z's colour. */
  method SplicingTop<K, P>(nodes: seq<Node<K, P>>, root: nat, z: nat, y: nat) returns (ns: seq<Node<K, P>>, r: nat)
    requires InArena(nodes) && z < |nodes| && y < |nodes|
    requires var zl, zp := nodes[z].left, nodes[z].parent;
      y != zl && y != z && z != zl && (zp == Nil || (zp != y && zp != zl && zp != z))
    ensures var zl, zp := nodes[z].left, nodes[z].parent;
      |ns| == |nodes| &&
      ns[y] == nodes[y].(left := zl, parent := zp, color := nodes[z].color) &&
      ns[zl] == nodes[zl].(parent := y) &&
      (zp != Nil ==> ns[zp] == if nodes[zp].left == z then nodes[zp].(left := y) else nodes[zp].(right := y)) &&
      (forall i :: 0 <= i < |nodes| && i != y && i != zl && (i == Nil || i != zp) ==> ns[i] == nodes[i]) &&
      r == if zp == Nil then y else root
  {
    ns, r := Transplanting(nodes, root, z, y);
    ns := ns[y := ns[y].(left := ns[z].left)];
    ns := ns[ns[y].left := ns[ns[y].left].(parent := y)];
    ns := ns[y := ns[y].(color := ns[z].color)];
  }

  // ---------------------------------------------------------------------
  // The steps of the repair as the source orders its statements.
  // ---------------------------------------------------------------------

  /** A live node's links stay in the arena, and its parent is neither of its children. */
  lemma Around<K, P>(a: seq<Node<K, P>>, S: seq<set<nat>>, root: nat, z: nat)
    requires Shaped(a, S, root) && z in S[root]
    ensures z < |a| && a[z].left < |a| && a[z].right < |a|
    ensures a[z].parent == Nil || (a[z].parent != a[z].left && a[z].parent != a[z].right)
  {
    ChildLive(a, S, root, z);
    if z != root {
      ParentLive(a, S, root, z);
    }
  }

  /** When the colour that left its place was red, nothing is missing and x is black: the tree is valid as it is. */
  lemma RemovedRed<K, P>(a: seq<Node<K, P>>, S: seq<set<nat>>, bh: seq<nat>, root: nat,
                         lt: (K, K) -> bool, M: map<K, P>, x: nat)
    requires DeleteInv(a, S, bh, root, lt, M, x, 0) && IsBlack(a, x)
    ensures RbValid(a, S, bh, root, lt, M)
  {
    assert a[x := a[x].(color := Black)] == a;
    DeleteDone(a, S, bh, root, lt, M, x, 0);
  }

  /** Case 2 of fixupDelete keeps the order and the contents, and x moves up to its parent. */
  lemma BlackSiblingRecoloured<K, P>(a: seq<Node<K, P>>, S: seq<set<nat>>, bh: seq<nat>, root: nat,
                                     lt: (K, K) -> bool, M: map<K, P>, x: nat, b: seq<Node<K, P>>, bh': seq<nat>)
    requires DeleteInv(a, S, bh, root, lt, M, x, 1) && Case2Setting(a, S, bh, root, x)
    requires b == Case2Colour(a, x) && bh' == bh[a[x].parent := bh[a[x].parent] - 1]
    ensures |S[root] - S[a[x].parent]| < |S[root] - S[x]|
    ensures DeleteInv(b, S, bh', root, lt, M, a[x].parent, 1)
  {
    DelCase2(a, S, bh, root, x);
    RecolourOrdered(a, S, root, lt, b);
    RecolourAbstracts(a, S, root, M, b);
  }

  /**
   * Case 1 of fixupDelete with x a left child, as the source colours: the
   * sibling turns black, then the parent red. The result is case 1's
   * recolouring, and the parent can rotate left.
   */
  lemma RedSiblingLeftReady<K, P>(a: seq<Node<K, P>>, S: seq<set<nat>>, bh: seq<nat>, root: nat, x: nat, c: seq<Node<K, P>>)
    requires DelCase1LeftSetting(a, S, bh, root, x)
    requires var p := a[x].parent; var w := a[p].right; var a1 := a[w := a[w].(color := Black)];
      c == a1[p := a1[p].(color := Red)]
    ensures var p := a[x].parent;
      c == DelCase1LeftColour(a, x) && Shaped(c, S, root) &&
      p in S[root] && c[p].right != Nil && c[Nil] == a[Nil] && FarPhase(a, x) == 1
  {
    DeleteFamily(a, S, bh, root, x);
    DelCase1LeftFamily(a, S, bh, root, x);
    RecolourShaped(a, S, root, c);
  }

  /**
   * Case 3 of fixupDelete with x a left child, as the source colours: the
   * sibling's near child turns black, then the sibling red. The result is
   * case 3's recolouring, and the sibling can rotate right.
   */
  lemma NearRedLeftReady<K, P>(a: seq<Node<K, P>>, S: seq<set<nat>>, bh: seq<nat>, root: nat, x: nat, c: seq<Node<K, P>>)
    requires DelCase3LeftSetting(a, S, bh, root, x)
    requires var w := a[a[x].parent].right; var a1 := a[a[w].left := a[a[w].left].(color := Black)];
      c == a1[w := a1[w].(color := Red)]
    ensures var w := a[a[x].parent].right;
      c == DelCase3LeftColour(a, x) && Shaped(c, S, root) &&
      w in S[root] && c[w].left != Nil && c[Nil] == a[Nil] && FarPhase(a, x) == 1
  {
    DeleteFamily(a, S, bh, root, x);
    DelCase3LeftFamily(a, S, bh, root, x);
    RecolourShaped(a, S, root, c);
  }

  /**
   * Case 4 of fixupDelete with x a left child, as the source colours: the
   * sibling takes the parent's colour, then the parent and the sibling's far
   * child turn black. The result is case 4's recolouring, and the parent can
   * rotate left.
   */
  lemma FarRedLeftReady<K, P>(a: seq<Node<K, P>>, S: seq<set<nat>>, bh: seq<nat>, root: nat, x: nat, c: seq<Node<K, P>>)
    requires DelCase4LeftSetting(a, S, bh, root, x)
    requires var p := a[x].parent; var w := a[p].right;
      var a1 := a[w := a[w].(color := a[p].color)]; var a2 := a1[p := a1[p].(color := Black)];
      c == a2[a2[w].right := a2[a2[w].right].(color := Black)]
    ensures var p := a[x].parent;
      c == DelCase4LeftColour(a, x) && Shaped(c, S, root) &&
      p in S[root] && c[p].right != Nil && c[Nil] == a[Nil]
  {
    DeleteFamily(a, S, bh, root, x);
    var p := a[x].parent;
    var w := a[p].right;
    ChildLive(a, S, root, w);
    assert a[w].right != p && a[w].right != w;
    RecolourShaped(a, S, root, c);
  }

  /**
   * Case 1 of fixupDelete with x a right child, as the source colours: the
   * sibling turns black, then the parent red. The result is case 1's
   * recolouring, and the parent can rotate right.
   */
  lemma RedSiblingRightReady<K, P>(a: seq<Node<K, P>>, S: seq<set<nat>>, bh: seq<nat>, root: nat, x: nat, c: seq<Node<K, P>>)
    requires DelCase1RightSetting(a, S, bh, root, x)
    requires var p := a[x].parent; var w := a[p].left; var a1 := a[w := a[w].(color := Black)];
      c == a1[p := a1[p].(color := Red)]
    ensures var p := a[x].parent;
      c == DelCase1RightColour(a, x) && Shaped(c, S, root) &&
      p in S[root] && c[p].left != Nil && c[Nil] == a[Nil] && FarPhase(a, x) == 1
  {
    DeleteFamily(a, S, bh, root, x);
    DelCase1RightFamily(a, S, bh, root, x);
    RecolourShaped(a, S, root, c);
  }

  /**
   * Case 3 of fixupDelete with x a right child, as the source colours: the
   * sibling's near child turns black, then the sibling red. The result is
   * case 3's recolouring, and the sibling can rotate left.
   */
  lemma NearRedRightReady<K, P>(a: seq<Node<K, P>>, S: seq<set<nat>>, bh: seq<nat>, root: nat, x: nat, c: seq<Node<K, P>>)
    requires DelCase3RightSetting(a, S, bh, root, x)
    requires var w := a[a[x].parent].left; var a1 := a[a[w].right := a[a[w].right].(color := Black)];
      c == a1[w := a1[w].(color := Red)]
    ensures var w := a[a[x].parent].left;
      c == DelCase3RightColour(a, x) && Shaped(c, S, root) &&
      w in S[root] && c[w].right != Nil && c[Nil] == a[Nil] && FarPhase(a, x) == 1
  {
    DeleteFamily(a, S, bh, root, x);
    DelCase3RightFamily(a, S, bh, root, x);
    RecolourShaped(a, S, root, c);
  }

  /**
   * Case 4 of fixupDelete with x a right child, as the source colours: the
   * sibling takes the parent's colour, then the parent and the sibling's far
   * child turn black. The result is case 4's recolouring, and the parent can
   * rotate right.
   */
  lemma FarRedRightReady<K, P>(a: seq<Node<K, P>>, S: seq<set<nat>>, bh: seq<nat>, root: nat, x: nat, c: seq<Node<K, P>>)
    requires DelCase4RightSetting(a, S, bh, root, x)
    requires var p := a[x].parent; var w := a[p].left;
      var a1 := a[w := a[w].(color := a[p].color)]; var a2 := a1[p := a1[p].(color := Black)];
      c == a2[a2[w].left := a2[a2[w].left].(color := Black)]
    ensures var p := a[x].parent;
      c == DelCase4RightColour(a, x) && Shaped(c, S, root) &&
      p in S[root] && c[p].left != Nil && c[Nil] == a[Nil]
  {
    DeleteFamily(a, S, bh, root, x);
    var p := a[x].parent;
    var w := a[p].left;
    ChildLive(a, S, root, w);
    assert a[w].left != p && a[w].left != w;
    RecolourShaped(a, S, root, c);
  }
}

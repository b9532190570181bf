/**
 * Insertion into the red-black engine: the descent that finds the new leaf's
 * place, attaching the red leaf, and the three cases of the colour repair
 * (uncle red; inner grandchild; outer grandchild), each proved to keep the
 * loop invariant of the repair.
 */
module RbInsert {
  import opened RbCore
  import opened RbRotate

  // ---------------------------------------------------------------------
  // The invariant of the colour repair.
  // ---------------------------------------------------------------------

  /** The red-black colour rule at i, except that i may have the red child z. */
  ghost predicate RedOkBut<K, P>(nodes: seq<Node<K, P>>, z: nat, i: nat)
    requires InArena(nodes) && i < |nodes|
  {
    nodes[i].color == Red ==>
      (IsBlack(nodes, nodes[i].left) || nodes[i].left == z) &&
      (IsBlack(nodes, nodes[i].right) || nodes[i].right == z)
  }

  /**
   * The colouring while the repair runs: black heights agree everywhere, z is
   * red with black children, the only red-red edge is z under its parent, and
   * the root is black unless it is z.
   */
  ghost predicate InsertColours<K, P>(nodes: seq<Node<K, P>>, S: seq<set<nat>>, bh: seq<nat>, root: nat, z: nat)
    requires Shaped(nodes, S, root)
  {
    Balanced(nodes, S, bh, root) && IsBlack(nodes, Nil) &&
    z in S[root] && nodes[z].color == Red &&
    IsBlack(nodes, nodes[z].left) && IsBlack(nodes, nodes[z].right) &&
    (IsBlack(nodes, root) || z == root) &&
    forall i {:trigger RedOkBut(nodes, z, i)} :: i in S[root] ==> RedOkBut(nodes, z, i)
  }

  /** The whole invariant of the repair loop. */
  ghost predicate InsertInv<K, P>(nodes: seq<Node<K, P>>, S: seq<set<nat>>, bh: seq<nat>, root: nat,
                                  lt: (K, K) -> bool, M: map<K, P>, z: nat)
  {
    Shaped(nodes, S, root) && Ordered(nodes, S, root, lt) && Abstracts(nodes, S, root, M) &&
    InsertColours(nodes, S, bh, root, z)
  }

  /** z is the inner grandchild: a right child under a left child, or the mirror. */
  ghost predicate Inner<K, P>(nodes: seq<Node<K, P>>, z: nat)
    requires InArena(nodes) && z < |nodes|
  {
    var p := nodes[z].parent;
    var g := nodes[p].parent;
    (z == nodes[p].right && p == nodes[g].left) || (z == nodes[p].left && p == nodes[g].right)
  }

  /**
   * What the repair loop gives up at each turn: it ends once z's parent is
   * black; otherwise z moves two levels up, or goes from inner to outer.
   */
  ghost function InsertMeasure<K, P>(nodes: seq<Node<K, P>>, S: seq<set<nat>>, root: nat, z: nat): nat
    requires InArena(nodes) && |S| == |nodes| && root < |nodes| && z < |nodes|
  {
    var p := nodes[z].parent;
    if IsBlack(nodes, p) then 0
    else 1 + 2 * |S[root] - S[p]| + (if Inner(nodes, z) then 1 else 0)
  }

  /** The nodes around a red z with a red parent. */
  lemma Family<K, P>(nodes: seq<Node<K, P>>, S: seq<set<nat>>, bh: seq<nat>, root: nat, z: nat)
    requires Shaped(nodes, S, root) && InsertColours(nodes, S, bh, root, z)
    requires !IsBlack(nodes, nodes[z].parent)
    ensures var p := nodes[z].parent; var g := nodes[p].parent;
      z != root && p != Nil && p in S[root] && p != root && p != z &&
      (nodes[p].left == z || nodes[p].right == z) &&
      g != Nil && g in S[root] && g != p && g != z && nodes[g].color == Black &&
      (nodes[g].left == p || nodes[g].right == p) && nodes[g].left != nodes[g].right &&
      S[z] < S[p] && S[p] < S[g] && S[g] <= S[root] && z in S[p] && p in S[g] &&
      bh[g] == bh[p] && bh[p] == Side(nodes, bh, z)
  {
    var p := nodes[z].parent;
    assert IsBlack(nodes, Nil);
    ParentLive(nodes, S, root, z);
    ChildLive(nodes, S, root, p);
    ParentLive(nodes, S, root, p);
    var g := nodes[p].parent;
    ChildLive(nodes, S, root, g);
    assert RedOkBut(nodes, z, g);
    assert BhOk(nodes, bh, g) && BhOk(nodes, bh, p);
  }

  // ---------------------------------------------------------------------
  // The descent and the new leaf.
  // ---------------------------------------------------------------------

  /** At every proper ancestor of y, the new key k lies on the same side as y. */
  ghost predicate FitsBelow<K, P>(nodes: seq<Node<K, P>>, S: seq<set<nat>>, root: nat, lt: (K, K) -> bool, k: K, y: nat)
    requires Shaped(nodes, S, root)
  {
    forall a :: a in S[root] && y in S[a] && a != y ==>
      (y in S[nodes[a].left] ==> lt(k, nodes[a].key)) && (y in S[nodes[a].right] ==> lt(nodes[a].key, k))
  }

  /** Nothing lies above the root, so every key fits below it. */
  lemma FitsAtRoot<K, P>(nodes: seq<Node<K, P>>, S: seq<set<nat>>, root: nat, lt: (K, K) -> bool, k: K)
    requires Shaped(nodes, S, root) && root != Nil
    ensures FitsBelow(nodes, S, root, lt, k, root)
  {
    forall a | a in S[root] && root in S[a] ensures a == root {
      if a != root {
        ParentInside(nodes, S, root, a, root);
        assert false;
      }
    }
  }

  /** The child of y on k's side, where the descent goes next. */
  function Toward<K, P>(nodes: seq<Node<K, P>>, lt: (K, K) -> bool, k: K, y: nat): nat
    requires y < |nodes|
  {
    if lt(k, nodes[y].key) then nodes[y].left else nodes[y].right
  }

  /** Stepping from y to the child on k's side keeps k fitting below. */
  lemma FitsStep<K(!new), P>(nodes: seq<Node<K, P>>, S: seq<set<nat>>, root: nat, lt: (K, K) -> bool, k: K, y: nat)
    requires Shaped(nodes, S, root) && StrictTotalOrder(lt) && y in S[root] && FitsBelow(nodes, S, root, lt, k, y)
    requires k != nodes[y].key && Toward(nodes, lt, k, y) != Nil
    ensures Toward(nodes, lt, k, y) in S[root]
    ensures FitsBelow(nodes, S, root, lt, k, Toward(nodes, lt, k, y))
  {
    var x := Toward(nodes, lt, k, y);
    ChildLive(nodes, S, root, y);
    forall a | a in S[root] && x in S[a] && a != x
      ensures (x in S[nodes[a].left] ==> lt(k, nodes[a].key)) && (x in S[nodes[a].right] ==> lt(nodes[a].key, k))
    {
      ParentInside(nodes, S, root, a, x);
      ChildLive(nodes, S, root, a);
      if a != y {
        assert y in S[a];
        if y in S[nodes[a].left] {
          SubtreeWithin(nodes, S, root, nodes[a].left, y);
        } else if y in S[nodes[a].right] {
          SubtreeWithin(nodes, S, root, nodes[a].right, y);
        }
      }
    }
  }

  /** The fresh red leaf for k at index |a| hung below y, on k's side. */
  ghost function Attach<K, P>(a: seq<Node<K, P>>, lt: (K, K) -> bool, y: nat, k: K, p: P): seq<Node<K, P>>
    requires y < |a|
  {
    var n := |a|;
    var a1 := a + [Node(k, Red, Nil, Nil, y, p)];
    if y == Nil then a1
    else if lt(k, a[y].key) then a1[y := a1[y].(left := n)]
    else a1[y := a1[y].(right := n)]
  }

  /**
   * The source's link updates, made on the arena that already holds the new
   * node z at its end: z's parent, y's child on k's side, z's children and
   * colour. They give Attach.
   */
  lemma AttachAsWritten<K, P>(a: seq<Node<K, P>>, lt: (K, K) -> bool, y: nat, k: K, p: P,
                              n0: seq<Node<K, P>>, b: seq<Node<K, P>>)
    requires y < |a| && |n0| == |a| + 1 && n0[..|a|] == a && n0[|a|].key == k && n0[|a|].payload == p
    requires var z := |a|;
      var n1 := n0[z := n0[z].(parent := y)];
      var n2 := if y == Nil then n1 else if lt(k, n1[y].key) then n1[y := n1[y].(left := z)] else n1[y := n1[y].(right := z)];
      var n3 := n2[z := n2[z].(left := Nil, right := Nil)];
      b == n3[z := n3[z].(color := Red)]
    ensures b == Attach(a, lt, y, k, p)
  {
    var z := |a|;
    var c := Attach(a, lt, y, k, p);
    assert |b| == |c|;
    forall i | 0 <= i < |b| ensures b[i] == c[i] {
      if i < z {
        assert n0[i] == a[i];
      }
    }
  }

  /** Footprints after the attachment: the leaf joins every subtree holding y. */
  ghost function AttachS(S: seq<set<nat>>, y: nat): seq<set<nat>>
  {
    var n := |S|;
    seq(n + 1, j requires 0 <= j <= n => if j == n then {n} else if y in S[j] then S[j] + {n} else S[j])
  }

  /** Where the descent stops: at y, whose child on k's side is free, or at an empty tree. */
  ghost predicate AttachPoint<K, P>(a: seq<Node<K, P>>, S: seq<set<nat>>, root: nat, lt: (K, K) -> bool, k: K, y: nat)
    requires Shaped(a, S, root)
  {
    if y == Nil then root == Nil
    else y in S[root] && FitsBelow(a, S, root, lt, k, y) && Toward(a, lt, k, y) == Nil
  }

  ghost predicate AttachSetting<K, P>(a: seq<Node<K, P>>, S: seq<set<nat>>, bh: seq<nat>, root: nat,
                                      lt: (K, K) -> bool, M: map<K, P>, y: nat, k: K)
  {
    RbValid(a, S, bh, root, lt, M) && k !in M && y < |a| && AttachPoint(a, S, root, lt, k, y)
  }

  lemma AttachLinked<K, P>(a: seq<Node<K, P>>, S: seq<set<nat>>, bh: seq<nat>, root: nat,
                           lt: (K, K) -> bool, M: map<K, P>, y: nat, k: K, p: P, i: nat)
    requires AttachSetting(a, S, bh, root, lt, M, y, k) && i in S[root]
    ensures InArena(Attach(a, lt, y, k, p)) && |AttachS(S, y)| == |a| + 1
    ensures Linked(Attach(a, lt, y, k, p), AttachS(S, y), i)
    ensures AttachS(S, y)[i] <= S[root] + {|a|}
  {
    var b, S' := Attach(a, lt, y, k, p), AttachS(S, y);
    var n := |a|;
    AttachBounds(a, S, bh, root, lt, M, y, k, p);
    ChildLive(a, S, root, i);
    var l, r := a[i].left, a[i].right;
    if i != y {
      assert b[i] == a[i];
      if y in S[i] {
        assert y in S[l] || y in S[r];
      }
    }
  }

  lemma AttachShaped<K, P>(a: seq<Node<K, P>>, S: seq<set<nat>>, bh: seq<nat>, root: nat,
                           lt: (K, K) -> bool, M: map<K, P>, y: nat, k: K, p: P)
    requires AttachSetting(a, S, bh, root, lt, M, y, k)
    ensures var root' := if y == Nil then |a| else root;
      Shaped(Attach(a, lt, y, k, p), AttachS(S, y), root') &&
      AttachS(S, y)[root'] == S[root] + {|a|}
  {
    AttachBounds(a, S, bh, root, lt, M, y, k, p);
    if y != Nil {
      AttachShapedBelow(a, S, bh, root, lt, M, y, k, p);
    }
  }

  /** The grown arena and footprints stay in bounds. */
  lemma AttachBounds<K, P>(a: seq<Node<K, P>>, S: seq<set<nat>>, bh: seq<nat>, root: nat,
                           lt: (K, K) -> bool, M: map<K, P>, y: nat, k: K, p: P)
    requires AttachSetting(a, S, bh, root, lt, M, y, k)
    ensures InArena(Attach(a, lt, y, k, p)) && Bounded(|a| + 1, AttachS(S, y))
    ensures |Attach(a, lt, y, k, p)| == |a| + 1 && AttachS(S, y)[Nil] == {}
  {
    var b, S' := Attach(a, lt, y, k, p), AttachS(S, y);
    assert InArena(b);
    assert Bounded(|b|, S');
  }

  /** Attached below a node y: the old root stays the root. */
  lemma AttachShapedBelow<K, P>(a: seq<Node<K, P>>, S: seq<set<nat>>, bh: seq<nat>, root: nat,
                                lt: (K, K) -> bool, M: map<K, P>, y: nat, k: K, p: P)
    requires AttachSetting(a, S, bh, root, lt, M, y, k) && y != Nil
    requires InArena(Attach(a, lt, y, k, p)) && Bounded(|a| + 1, AttachS(S, y))
    ensures Shaped(Attach(a, lt, y, k, p), AttachS(S, y), root) && AttachS(S, y)[root] == S[root] + {|a|}
  {
    var b, S' := Attach(a, lt, y, k, p), AttachS(S, y);
    var n := |a|;
    ChildLive(a, S, root, y);
    forall i | i in S'[root] ensures Linked(b, S', i) && S'[i] <= S'[root] {
      if i != n {
        AttachLinked(a, S, bh, root, lt, M, y, k, p, i);
      }
    }
    if root != y {
      RootOrphan(a, S, root, y);
    }
  }

  lemma AttachOrderedAt<K(!new), P>(a: seq<Node<K, P>>, S: seq<set<nat>>, bh: seq<nat>, root: nat,
                                    lt: (K, K) -> bool, M: map<K, P>, y: nat, k: K, p: P, i: nat)
    requires AttachSetting(a, S, bh, root, lt, M, y, k) && StrictTotalOrder(lt) && i in S[root]
    ensures InArena(Attach(a, lt, y, k, p)) && Bounded(|a| + 1, AttachS(S, y))
    ensures OrderedAt(Attach(a, lt, y, k, p), AttachS(S, y), lt, i)
  {
    var b, S' := Attach(a, lt, y, k, p), AttachS(S, y);
    var n := |a|;
    AttachBounds(a, S, bh, root, lt, M, y, k, p);
    ChildLive(a, S, root, i);
    assert OrderedAt(a, S, lt, i);
    assert a[i].key in M;
    var l, r := a[i].left, a[i].right;
    if i == y {
      assert k != a[y].key;
    } else {
      assert b[i] == a[i];
      if y in S[l] {
        assert y in S[i] && lt(k, a[i].key);
      }
      if y in S[r] {
        assert y in S[i] && lt(a[i].key, k);
      }
    }
  }

  lemma AttachOrdered<K(!new), P>(a: seq<Node<K, P>>, S: seq<set<nat>>, bh: seq<nat>, root: nat,
                                  lt: (K, K) -> bool, M: map<K, P>, y: nat, k: K, p: P)
    requires AttachSetting(a, S, bh, root, lt, M, y, k) && StrictTotalOrder(lt)
    ensures var root' := if y == Nil then |a| else root;
      Shaped(Attach(a, lt, y, k, p), AttachS(S, y), root') &&
      Ordered(Attach(a, lt, y, k, p), AttachS(S, y), root', lt)
  {
    var b, S' := Attach(a, lt, y, k, p), AttachS(S, y);
    var root' := if y == Nil then |a| else root;
    AttachShaped(a, S, bh, root, lt, M, y, k, p);
    forall i | i in S'[root'] ensures OrderedAt(b, S', lt, i) {
      if i != |a| {
        AttachOrderedAt(a, S, bh, root, lt, M, y, k, p, i);
      }
    }
  }

  lemma AttachAbstracts<K, P>(a: seq<Node<K, P>>, S: seq<set<nat>>, bh: seq<nat>, root: nat,
                              lt: (K, K) -> bool, M: map<K, P>, y: nat, k: K, p: P)
    requires AttachSetting(a, S, bh, root, lt, M, y, k)
    ensures var root' := if y == Nil then |a| else root;
      Shaped(Attach(a, lt, y, k, p), AttachS(S, y), root') &&
      Abstracts(Attach(a, lt, y, k, p), AttachS(S, y), root', M[k := p])
  {
    var b, S' := Attach(a, lt, y, k, p), AttachS(S, y);
    var n := |a|;
    var root' := if y == Nil then n else root;
    var M' := M[k := p];
    AttachShaped(a, S, bh, root, lt, M, y, k, p);
    forall i | i in S'[root'] ensures b[i].key in M' && M'[b[i].key] == b[i].payload {
      if i != n {
        assert b[i].key == a[i].key && b[i].payload == a[i].payload;
        assert a[i].key in M;
      }
    }
    forall k' | k' in M' ensures exists i :: i in S'[root'] && b[i].key == k' {
      if k' == k {
        assert n in S'[root'] && b[n].key == k;
      } else {
        var i :| i in S[root] && a[i].key == k';
        assert i in S'[root'] && b[i].key == k';
      }
    }
  }

  lemma AttachColoursAt<K, P>(a: seq<Node<K, P>>, S: seq<set<nat>>, bh: seq<nat>, root: nat,
                              lt: (K, K) -> bool, M: map<K, P>, y: nat, k: K, p: P, i: nat)
    requires AttachSetting(a, S, bh, root, lt, M, y, k) && i in S[root]
    ensures InArena(Attach(a, lt, y, k, p)) && |bh + [1]| == |a| + 1
    ensures BhOk(Attach(a, lt, y, k, p), bh + [1], i) && RedOkBut(Attach(a, lt, y, k, p), |a|, i)
  {
    var b := Attach(a, lt, y, k, p);
    var n := |a|;
    AttachBounds(a, S, bh, root, lt, M, y, k, p);
    ChildLive(a, S, root, i);
    assert BhOk(a, bh, i) && RedOk(a, i);
    if i != y {
      assert b[i] == a[i];
    }
  }

  lemma AttachColours<K, P>(a: seq<Node<K, P>>, S: seq<set<nat>>, bh: seq<nat>, root: nat,
                            lt: (K, K) -> bool, M: map<K, P>, y: nat, k: K, p: P)
    requires AttachSetting(a, S, bh, root, lt, M, y, k)
    ensures var root' := if y == Nil then |a| else root;
      Shaped(Attach(a, lt, y, k, p), AttachS(S, y), root') &&
      InsertColours(Attach(a, lt, y, k, p), AttachS(S, y), bh + [1], root', |a|)
  {
    var b, S' := Attach(a, lt, y, k, p), AttachS(S, y);
    var n := |a|;
    var root' := if y == Nil then n else root;
    AttachShaped(a, S, bh, root, lt, M, y, k, p);
    forall i | i in S'[root'] ensures BhOk(b, bh + [1], i) && RedOkBut(b, n, i) {
      if i != n {
        AttachColoursAt(a, S, bh, root, lt, M, y, k, p, i);
      }
    }
    if y != Nil {
      assert b[root] == a[root] || root == y;
    }
  }

  /** Hanging the red leaf below the descent's stopping point sets up the repair loop. */
  lemma AttachInv<K(!new), P>(a: seq<Node<K, P>>, S: seq<set<nat>>, bh: seq<nat>, root: nat,
                              lt: (K, K) -> bool, M: map<K, P>, y: nat, k: K, p: P)
    requires AttachSetting(a, S, bh, root, lt, M, y, k) && StrictTotalOrder(lt)
    ensures var root' := if y == Nil then |a| else root;
      InsertInv(Attach(a, lt, y, k, p), AttachS(S, y), bh + [1], root', lt, M[k := p], |a|) &&
      AttachS(S, y)[root'] == S[root] + {|a|}
  {
    AttachShaped(a, S, bh, root, lt, M, y, k, p);
    AttachOrdered(a, S, bh, root, lt, M, y, k, p);
    AttachAbstracts(a, S, bh, root, lt, M, y, k, p);
    AttachColours(a, S, bh, root, lt, M, y, k, p);
  }

  lemma DoneAt<K, P>(a: seq<Node<K, P>>, S: seq<set<nat>>, bh: seq<nat>, root: nat, z: nat, i: nat)
    requires Shaped(a, S, root) && InsertColours(a, S, bh, root, z) && IsBlack(a, a[z].parent) && i in S[root]
    ensures InArena(a[root := a[root].(color := Black)])
    ensures RedOk(a[root := a[root].(color := Black)], i) && BhOk(a[root := a[root].(color := Black)], bh, i)
  {
    var b := a[root := a[root].(color := Black)];
    PaintOnly(a, root, Black);
    ChildLive(a, S, root, i);
    RootOrphan(a, S, root, i);
    assert RedOkBut(a, z, i) && BhOk(a, bh, i);
    var l, r := a[i].left, a[i].right;
    if l == z || r == z {
      assert a[z].parent == i;
    }
  }

  /** Once z's parent is black, colouring the root black restores every invariant. */
  lemma InsertDone<K, P>(a: seq<Node<K, P>>, S: seq<set<nat>>, bh: seq<nat>, root: nat,
                         lt: (K, K) -> bool, M: map<K, P>, z: nat)
    requires InsertInv(a, S, bh, root, lt, M, z) && IsBlack(a, a[z].parent)
    ensures RbValid(a[root := a[root].(color := Black)], S, bh, root, lt, M)
  {
    var b := a[root := a[root].(color := Black)];
    PaintOnly(a, root, Black);
    RecolourOrdered(a, S, root, lt, b);
    RecolourAbstracts(a, S, root, M, b);
    DoneColours(a, S, bh, root, z);
  }

  lemma DoneColours<K, P>(a: seq<Node<K, P>>, S: seq<set<nat>>, bh: seq<nat>, root: nat, z: nat)
    requires Shaped(a, S, root) && InsertColours(a, S, bh, root, z) && IsBlack(a, a[z].parent)
    ensures Shaped(a[root := a[root].(color := Black)], S, root)
    ensures Coloured(a[root := a[root].(color := Black)], S, root)
    ensures Balanced(a[root := a[root].(color := Black)], S, bh, root)
  {
    var b := a[root := a[root].(color := Black)];
    PaintOnly(a, root, Black);
    RecolourShaped(a, S, root, b);
    forall i | i in S[root] ensures RedOk(b, i) && BhOk(b, bh, i) {
      DoneAt(a, S, bh, root, z, i);
    }
  }

  // ---------------------------------------------------------------------
  // Case 1: the uncle is red. Recolour and move z to the grandparent.
  // ---------------------------------------------------------------------

  ghost predicate Case1Setting<K, P>(a: seq<Node<K, P>>, S: seq<set<nat>>, bh: seq<nat>, root: nat, z: nat)
  {
    Shaped(a, S, root) && InsertColours(a, S, bh, root, z) && !IsBlack(a, a[z].parent) &&
    var p := a[z].parent; var g := a[p].parent;
    var u := if a[g].left == p then a[g].right else a[g].left;
    !IsBlack(a, u)
  }

  /** The recolouring of case 1: parent and uncle black, grandparent red. */
  ghost function Case1Colour<K, P>(a: seq<Node<K, P>>, z: nat): seq<Node<K, P>>
    requires InArena(a) && z < |a|
  {
    var p := a[z].parent; var g := a[p].parent;
    var u := if a[g].left == p then a[g].right else a[g].left;
    a[p := a[p].(color := Black)][u := a[u].(color := Black)][g := a[g].(color := Red)]
  }

  lemma Case1BhAt<K, P>(a: seq<Node<K, P>>, S: seq<set<nat>>, bh: seq<nat>, root: nat, z: nat, i: nat)
    requires Case1Setting(a, S, bh, root, z) && i in S[root]
    ensures var g := a[a[z].parent].parent;
      BhOk(Case1Colour(a, z), bh[g := bh[g] + 1], i)
  {
    Case1ColourOnly(a, z);
    if i == a[a[z].parent].parent {
      Case1BhTop(a, S, bh, root, z);
    } else {
      Case1BhBelow(a, S, bh, root, z, i);
    }
  }

  /** The grandparent, now red, is one black level higher over its black children. */
  lemma Case1BhTop<K, P>(a: seq<Node<K, P>>, S: seq<set<nat>>, bh: seq<nat>, root: nat, z: nat)
    requires Case1Setting(a, S, bh, root, z) && InArena(Case1Colour(a, z))
    ensures var g := a[a[z].parent].parent;
      BhOk(Case1Colour(a, z), bh[g := bh[g] + 1], g)
  {
    var p := a[z].parent;
    Family(a, S, bh, root, z);
    var g := a[p].parent;
    assert BhOk(a, bh, g) && BhOk(a, bh, p);
  }

  /** Every other node keeps its children and their side black heights. */
  lemma Case1BhBelow<K, P>(a: seq<Node<K, P>>, S: seq<set<nat>>, bh: seq<nat>, root: nat, z: nat, i: nat)
    requires Case1Setting(a, S, bh, root, z) && InArena(Case1Colour(a, z)) && i in S[root]
    requires i != a[a[z].parent].parent
    ensures var g := a[a[z].parent].parent;
      BhOk(Case1Colour(a, z), bh[g := bh[g] + 1], i)
  {
    var p := a[z].parent;
    Family(a, S, bh, root, z);
    var g := a[p].parent;
    var u := if a[g].left == p then a[g].right else a[g].left;
    var b := Case1Colour(a, z);
    var bh' := bh[g := bh[g] + 1];
    assert BhOk(a, bh, i);
    var l, r := a[i].left, a[i].right;
    assert b[i].left == l && b[i].right == r;
    ChildLive(a, S, root, i);
    ChildLive(a, S, root, g);
    assert a[u].parent == g && a[p].parent == g;
    assert l != Nil ==> a[l].parent == i;
    assert r != Nil ==> a[r].parent == i;
    assert l != p && l != u && r != p && r != u;
    Case1Side(a, bh, z, l);
    Case1Side(a, bh, z, r);
    SameBh(a, bh, b, bh', i);
  }

  /** Case 1 changes colours only. */
  lemma Case1ColourOnly<K, P>(a: seq<Node<K, P>>, z: nat)
    requires InArena(a) && z < |a|
    ensures Recoloured(a, Case1Colour(a, z)) && InArena(Case1Colour(a, z))
  {
    RecolouredInArena(a, Case1Colour(a, z));
  }

  /** Below the recoloured parent and uncle, a child's side black height is unchanged. */
  lemma Case1Side<K, P>(a: seq<Node<K, P>>, bh: seq<nat>, z: nat, n: nat)
    requires InArena(a) && |bh| == |a| && z < |a| && n < |a|
    requires var p := a[z].parent; var g := a[p].parent;
      a[g].color == Black && n != p && n != a[g].left && n != a[g].right
    ensures var g := a[a[z].parent].parent;
      |Case1Colour(a, z)| == |a| && Side(Case1Colour(a, z), bh[g := bh[g] + 1], n) == Side(a, bh, n)
  {
  }

  /** Colour and black height at a node depend only on it and its children. */
  lemma SameBh<K, P>(a: seq<Node<K, P>>, bh: seq<nat>, b: seq<Node<K, P>>, bh': seq<nat>, i: nat)
    requires InArena(a) && InArena(b) && |a| == |b| == |bh| == |bh'| && i < |a|
    requires b[i].left == a[i].left && b[i].right == a[i].right && bh'[i] == bh[i]
    requires Side(b, bh', a[i].left) == Side(a, bh, a[i].left)
    requires Side(b, bh', a[i].right) == Side(a, bh, a[i].right)
    ensures BhOk(b, bh', i) == BhOk(a, bh, i)
  {
  }

  lemma Case1RedAt<K, P>(a: seq<Node<K, P>>, S: seq<set<nat>>, bh: seq<nat>, root: nat, z: nat, i: nat)
    requires Case1Setting(a, S, bh, root, z) && i in S[root]
    ensures RedOkBut(Case1Colour(a, z), a[a[z].parent].parent, i)
  {
    var p := a[z].parent;
    var g := a[p].parent;
    if i == g || i == p || i == a[g].left || i == a[g].right {
      Case1RedNear(a, S, bh, root, z, i);
    } else {
      Case1RedFar(a, S, bh, root, z, i);
    }
  }

  /** At the recoloured nodes themselves. */
  lemma Case1RedNear<K, P>(a: seq<Node<K, P>>, S: seq<set<nat>>, bh: seq<nat>, root: nat, z: nat, i: nat)
    requires Case1Setting(a, S, bh, root, z) && i in S[root]
    requires var g := a[a[z].parent].parent; i == g || i == a[z].parent || i == a[g].left || i == a[g].right
    ensures RedOkBut(Case1Colour(a, z), a[a[z].parent].parent, i)
  {
    var p := a[z].parent;
    Family(a, S, bh, root, z);
    var g := a[p].parent;
    var u := if a[g].left == p then a[g].right else a[g].left;
    ChildLive(a, S, root, g);
    ChildLive(a, S, root, i);
    assert RedOkBut(a, z, i);
    assert u != Nil && u != g && u != p;
    var l, r := a[i].left, a[i].right;
    assert l != Nil ==> a[l].parent == i;
    assert r != Nil ==> a[r].parent == i;
  }

  /** Away from the recoloured nodes, whose colours and children stay. */
  lemma Case1RedFar<K, P>(a: seq<Node<K, P>>, S: seq<set<nat>>, bh: seq<nat>, root: nat, z: nat, i: nat)
    requires Case1Setting(a, S, bh, root, z) && i in S[root]
    requires var g := a[a[z].parent].parent; i != g && i != a[z].parent && i != a[g].left && i != a[g].right
    ensures RedOkBut(Case1Colour(a, z), a[a[z].parent].parent, i)
  {
    var p := a[z].parent;
    Family(a, S, bh, root, z);
    var g := a[p].parent;
    ChildLive(a, S, root, g);
    ChildLive(a, S, root, i);
    var l, r := a[i].left, a[i].right;
    assert l != Nil ==> a[l].parent == i;
    assert r != Nil ==> a[r].parent == i;
    assert a[a[g].left].parent == g && a[a[g].right].parent == g && a[z].parent == p;
    Case1Untouched(a, z, i);
    if l != g {
      Case1Untouched(a, z, l);
    }
    if r != g {
      Case1Untouched(a, z, r);
    }
    assert RedOkBut(a, z, i);
  }

  /** Case 1 leaves every node but the parent, the uncle and the grandparent as it was. */
  lemma Case1Untouched<K, P>(a: seq<Node<K, P>>, z: nat, n: nat)
    requires InArena(a) && z < |a| && n < |a|
    requires var g := a[a[z].parent].parent; n != g && n != a[z].parent && n != a[g].left && n != a[g].right
    ensures |Case1Colour(a, z)| == |a| && Case1Colour(a, z)[n] == a[n]
  {
  }

  /** The nodes case 1 recolours, seen after the recolouring. */
  lemma Case1Top<K, P>(a: seq<Node<K, P>>, S: seq<set<nat>>, bh: seq<nat>, root: nat, z: nat)
    requires Case1Setting(a, S, bh, root, z)
    ensures var g := a[a[z].parent].parent; var b := Case1Colour(a, z);
      Recoloured(a, b) && g in S[root] && g != Nil && b[g].color == Red &&
      IsBlack(b, b[g].left) && IsBlack(b, b[g].right) && IsBlack(b, Nil) &&
      (IsBlack(b, root) || g == root)
  {
    var p := a[z].parent;
    Family(a, S, bh, root, z);
    var g := a[p].parent;
    var u := if a[g].left == p then a[g].right else a[g].left;
    var b := Case1Colour(a, z);
    assert u != Nil && u != g && u != p;
    if g != root {
      RootOrphan(a, S, root, g);
      assert root != p && root != u;
    }
  }

  lemma Case1Colours<K, P>(a: seq<Node<K, P>>, S: seq<set<nat>>, bh: seq<nat>, root: nat, z: nat)
    requires Case1Setting(a, S, bh, root, z)
    ensures Shaped(Case1Colour(a, z), S, root)
    ensures var g := a[a[z].parent].parent;
      InsertColours(Case1Colour(a, z), S, bh[g := bh[g] + 1], root, g)
  {
    var g := a[a[z].parent].parent;
    var b := Case1Colour(a, z);
    var bh' := bh[g := bh[g] + 1];
    Case1Top(a, S, bh, root, z);
    RecolourShaped(a, S, root, b);
    forall i | i in S[root] ensures BhOk(b, bh', i) && RedOkBut(b, g, i) {
      Case1BhAt(a, S, bh, root, z, i);
      Case1RedAt(a, S, bh, root, z, i);
    }
  }

  /** Removing a larger part of A leaves strictly less. */
  lemma ShrinkingRest(A: set<nat>, B: set<nat>, C: set<nat>, x: nat)
    requires B <= C && x in A && x in C && x !in B
    ensures |A - C| < |A - B|
  {
    var D := (A - B) - (A - C);
    assert x in D;
    assert A - B == (A - C) + D;
    assert (A - C) * D == {};
  }

  lemma Case1Measure<K, P>(a: seq<Node<K, P>>, S: seq<set<nat>>, bh: seq<nat>, root: nat, z: nat)
    requires Case1Setting(a, S, bh, root, z)
    ensures InArena(Case1Colour(a, z))
    ensures InsertMeasure(Case1Colour(a, z), S, root, a[a[z].parent].parent) < InsertMeasure(a, S, root, z)
  {
    var p := a[z].parent;
    Family(a, S, bh, root, z);
    var g := a[p].parent;
    var b := Case1Colour(a, z);
    Case1Top(a, S, bh, root, z);
    RecolouredInArena(a, b);
    var gg := b[g].parent;
    if g != root {
      ParentLive(a, S, root, g);
      ChildLive(a, S, root, g);
      ShrinkingRest(S[root], S[p], S[gg], g);
    }
  }

  /** Case 1 keeps the invariant with z moved to its grandparent, and gives up measure. */
  lemma Case1<K, P>(a: seq<Node<K, P>>, S: seq<set<nat>>, bh: seq<nat>, root: nat, z: nat)
    requires Case1Setting(a, S, bh, root, z)
    ensures var g := a[a[z].parent].parent;
      Recoloured(a, Case1Colour(a, z)) && Shaped(Case1Colour(a, z), S, root) &&
      InsertColours(Case1Colour(a, z), S, bh[g := bh[g] + 1], root, g) &&
      InsertMeasure(Case1Colour(a, z), S, root, g) < InsertMeasure(a, S, root, z)
  {
    Case1Colours(a, S, bh, root, z);
    Case1Measure(a, S, bh, root, z);
  }

  /** The recolouring of case 3: parent black, grandparent red. */
  ghost function Case3Colour<K, P>(a: seq<Node<K, P>>, z: nat): seq<Node<K, P>>
    requires InArena(a) && z < |a|
  {
    var p := a[z].parent; var g := a[p].parent;
    a[p := a[p].(color := Black)][g := a[g].(color := Red)]
  }

  // ---------------------------------------------------------------------
  // Cases 2 and 3 with the parent a left child; the mirror images follow.
  // ---------------------------------------------------------------------

  /** Case 2: z is the right child of a left child and the uncle is black. */
  ghost predicate Case2LeftSetting<K, P>(a: seq<Node<K, P>>, S: seq<set<nat>>, bh: seq<nat>, root: nat, z: nat)
  {
    Shaped(a, S, root) && InsertColours(a, S, bh, root, z) && !IsBlack(a, a[z].parent) &&
    var p := a[z].parent; var g := a[p].parent;
    p == a[g].left && IsBlack(a, a[g].right) && z == a[p].right
  }

  lemma Case2LeftAt<K, P>(a: seq<Node<K, P>>, S: seq<set<nat>>, bh: seq<nat>, root: nat, z: nat,
                          b: seq<Node<K, P>>, root': nat, i: nat)
    requires Case2LeftSetting(a, S, bh, root, z) && RotatedLeft(a, root, a[z].parent, b, root') && i in S[root]
    ensures InArena(b) && |bh| == |b|
    ensures RedOkBut(b, a[z].parent, i) && BhOk(b, bh, i)
  {
    var p := a[z].parent;
    Family(a, S, bh, root, z);
    var g := a[p].parent;
    RotationNeighbours(a, S, root, p, z);
    LeftFrame(a, S, root, p, b, root');
    LeftEntries(a, S, root, p, b, root');
    ChildLive(a, S, root, p);
    ChildLive(a, S, root, z);
    ChildLive(a, S, root, i);
    assert RedOkBut(a, z, p) && RedOkBut(a, z, i);
    assert BhOk(a, bh, p) && BhOk(a, bh, z) && BhOk(a, bh, i);
    if i == p || i == z {
    } else if i == g {
      assert b[g].left == z && b[g].right == a[g].right;
    } else {
      LeftUntouched(a, S, root, p, b, root', i);
      var l, r := a[i].left, a[i].right;
      assert l != Nil ==> a[l].parent == i;
      assert r != Nil ==> a[r].parent == i;
      assert l != z && r != z;
    }
  }

  /** Case 2 rotates the parent left and makes it the new z; the invariant holds again. */
  lemma Case2Left<K, P>(a: seq<Node<K, P>>, S: seq<set<nat>>, bh: seq<nat>, root: nat, z: nat,
                        b: seq<Node<K, P>>, root': nat)
    requires Case2LeftSetting(a, S, bh, root, z) && RotatedLeft(a, root, a[z].parent, b, root')
    ensures root' == root && Shaped(b, LeftRotatedS(a, S, a[z].parent), root)
    ensures LeftRotatedS(a, S, a[z].parent)[root] == S[root]
    ensures InsertColours(b, LeftRotatedS(a, S, a[z].parent), bh, root, a[z].parent)
    ensures InsertMeasure(b, LeftRotatedS(a, S, a[z].parent), root, a[z].parent) < InsertMeasure(a, S, root, z)
  {
    var p := a[z].parent;
    Family(a, S, bh, root, z);
    var g := a[p].parent;
    var S' := LeftRotatedS(a, S, p);
    RotationNeighbours(a, S, root, p, z);
    RotateLeftShaped(a, S, root, p, b, root');
    ChildLive(a, S, root, p);
    ChildLive(a, S, root, z);
    forall i | i in S[root] ensures RedOkBut(b, p, i) && BhOk(b, bh, i) {
      Case2LeftAt(a, S, bh, root, z, b, root', i);
    }
    assert RedOkBut(a, z, p);
    assert b[p].left == a[p].left && b[p].right == a[z].left;
    assert b[z].parent == g && b[z].left == p && b[g].left == z;
    assert a[g].right != z;
    InnerTurned(a, S, root, z, b, S');
  }

  /** Case 2 turns an inner z into an outer one one level down: the measure drops. */
  lemma InnerTurned<K, P>(a: seq<Node<K, P>>, S: seq<set<nat>>, root: nat, z: nat, b: seq<Node<K, P>>, S': seq<set<nat>>)
    requires InArena(a) && InArena(b) && |S| == |a| == |b| == |S'| && root < |a| && z < |a|
    requires var p := a[z].parent;
      p != Nil && a[p].color == Red && Inner(a, z) && z != Nil && b[p].parent == z && b[z].color == Red &&
      !Inner(b, p) && S'[z] == S[p] && S'[root] == S[root]
    ensures InsertMeasure(b, S', root, a[z].parent) < InsertMeasure(a, S, root, z)
  {
  }

  /** Case 3: z is the left child of a left child and the uncle is black. */
  ghost predicate Case3LeftSetting<K, P>(a: seq<Node<K, P>>, S: seq<set<nat>>, bh: seq<nat>, root: nat, z: nat)
  {
    Shaped(a, S, root) && InsertColours(a, S, bh, root, z) && !IsBlack(a, a[z].parent) &&
    var p := a[z].parent; var g := a[p].parent;
    p == a[g].left && IsBlack(a, a[g].right) && z == a[p].left
  }

  lemma Case3LeftRedTop<K, P>(a: seq<Node<K, P>>, S: seq<set<nat>>, bh: seq<nat>, root: nat, z: nat,
                          b: seq<Node<K, P>>, root': nat, i: nat)
    requires Case3LeftSetting(a, S, bh, root, z) && i in S[root]
    requires i == a[z].parent || i == a[a[z].parent].parent
    requires RotatedRight(Case3Colour(a, z), root, a[a[z].parent].parent, b, root')
    ensures InArena(b) && |bh| == |b|
    ensures RedOkBut(b, z, i)
  {
    var p := a[z].parent;
    Family(a, S, bh, root, z);
    var g := a[p].parent;
    var c := Case3Colour(a, z);
    Case3Recoloured(a, z, c);
    RecolourShaped(a, S, root, c);
    RotationNeighbours(c, S, root, g, p);
    RightFrame(c, S, root, g, b, root');
    RightEntries(c, S, root, g, b, root');
    ChildLive(a, S, root, p);
    ChildLive(a, S, root, g);
    ChildLive(a, S, root, i);
    assert RedOkBut(a, z, p);
  }

  lemma Case3LeftRedAbove<K, P>(a: seq<Node<K, P>>, S: seq<set<nat>>, bh: seq<nat>, root: nat, z: nat,
                          b: seq<Node<K, P>>, root': nat, i: nat)
    requires Case3LeftSetting(a, S, bh, root, z) && i in S[root]
    requires i == a[a[a[z].parent].parent].parent
    requires RotatedRight(Case3Colour(a, z), root, a[a[z].parent].parent, b, root')
    ensures InArena(b) && |bh| == |b|
    ensures RedOkBut(b, z, i)
  {
    var p := a[z].parent;
    Family(a, S, bh, root, z);
    var g := a[p].parent;
    var c := Case3Colour(a, z);
    Case3Recoloured(a, z, c);
    RecolourShaped(a, S, root, c);
    RotationNeighbours(c, S, root, g, p);
    RightFrame(c, S, root, g, b, root');
    RightEntries(c, S, root, g, b, root');
    ChildLive(a, S, root, p);
    ChildLive(a, S, root, g);
    ChildLive(a, S, root, i);
    assert RedOkBut(a, z, i);
    assert b[i].left == a[i].left || b[i].right == a[i].right;
  }

  lemma Case3LeftRedFar<K, P>(a: seq<Node<K, P>>, S: seq<set<nat>>, bh: seq<nat>, root: nat, z: nat,
                          b: seq<Node<K, P>>, root': nat, i: nat)
    requires Case3LeftSetting(a, S, bh, root, z) && i in S[root]
    requires i != a[z].parent && i != a[a[z].parent].parent && i != a[a[a[z].parent].parent].parent
    requires RotatedRight(Case3Colour(a, z), root, a[a[z].parent].parent, b, root')
    ensures InArena(b) && |bh| == |b|
    ensures RedOkBut(b, z, i)
  {
    var p := a[z].parent;
    Family(a, S, bh, root, z);
    var g := a[p].parent;
    var c := Case3Colour(a, z);
    Case3Recoloured(a, z, c);
    RecolourShaped(a, S, root, c);
    RotationNeighbours(c, S, root, g, p);
    RightFrame(c, S, root, g, b, root');
    RightEntries(c, S, root, g, b, root');
    ChildLive(a, S, root, p);
    ChildLive(a, S, root, g);
    ChildLive(a, S, root, i);
    assert RedOkBut(a, z, i);
    RightUntouched(c, S, root, g, b, root', i);
    var l, r := a[i].left, a[i].right;
    assert l != Nil ==> a[l].parent == i;
    assert r != Nil ==> a[r].parent == i;
    assert l != z && r != z && l != p && r != p && l != g && r != g;
  }

  lemma Case3LeftBhTop<K, P>(a: seq<Node<K, P>>, S: seq<set<nat>>, bh: seq<nat>, root: nat, z: nat,
                          b: seq<Node<K, P>>, root': nat, i: nat)
    requires Case3LeftSetting(a, S, bh, root, z) && i in S[root]
    requires i == a[z].parent || i == a[a[z].parent].parent
    requires RotatedRight(Case3Colour(a, z), root, a[a[z].parent].parent, b, root')
    ensures InArena(b) && |bh| == |b|
    ensures BhOk(b, bh, i)
  {
    var p := a[z].parent;
    Family(a, S, bh, root, z);
    var g := a[p].parent;
    var c := Case3Colour(a, z);
    Case3Recoloured(a, z, c);
    RecolourShaped(a, S, root, c);
    RotationNeighbours(c, S, root, g, p);
    RightFrame(c, S, root, g, b, root');
    RightEntries(c, S, root, g, b, root');
    ChildLive(a, S, root, p);
    ChildLive(a, S, root, g);
    ChildLive(a, S, root, i);
    assert BhOk(a, bh, p) && BhOk(a, bh, g);
  }

  lemma Case3LeftBhAbove<K, P>(a: seq<Node<K, P>>, S: seq<set<nat>>, bh: seq<nat>, root: nat, z: nat,
                          b: seq<Node<K, P>>, root': nat, i: nat)
    requires Case3LeftSetting(a, S, bh, root, z) && i in S[root]
    requires i == a[a[a[z].parent].parent].parent
    requires RotatedRight(Case3Colour(a, z), root, a[a[z].parent].parent, b, root')
    ensures InArena(b) && |bh| == |b|
    ensures BhOk(b, bh, i)
  {
    var p := a[z].parent;
    Family(a, S, bh, root, z);
    var g := a[p].parent;
    var c := Case3Colour(a, z);
    Case3Recoloured(a, z, c);
    RecolourShaped(a, S, root, c);
    RotationNeighbours(c, S, root, g, p);
    RightFrame(c, S, root, g, b, root');
    RightEntries(c, S, root, g, b, root');
    ChildLive(a, S, root, p);
    ChildLive(a, S, root, g);
    ChildLive(a, S, root, i);
    assert BhOk(a, bh, g) && BhOk(a, bh, i);
    assert b[i].left == a[i].left || b[i].right == a[i].right;
  }

  lemma Case3LeftBhFar<K, P>(a: seq<Node<K, P>>, S: seq<set<nat>>, bh: seq<nat>, root: nat, z: nat,
                          b: seq<Node<K, P>>, root': nat, i: nat)
    requires Case3LeftSetting(a, S, bh, root, z) && i in S[root]
    requires i != a[z].parent && i != a[a[z].parent].parent && i != a[a[a[z].parent].parent].parent
    requires RotatedRight(Case3Colour(a, z), root, a[a[z].parent].parent, b, root')
    ensures InArena(b) && |bh| == |b|
    ensures BhOk(b, bh, i)
  {
    var p := a[z].parent;
    Family(a, S, bh, root, z);
    var g := a[p].parent;
    var c := Case3Colour(a, z);
    Case3Recoloured(a, z, c);
    RecolourShaped(a, S, root, c);
    RotationNeighbours(c, S, root, g, p);
    RightFrame(c, S, root, g, b, root');
    RightEntries(c, S, root, g, b, root');
    ChildLive(a, S, root, p);
    ChildLive(a, S, root, g);
    ChildLive(a, S, root, i);
    assert BhOk(a, bh, i);
    RightUntouched(c, S, root, g, b, root', i);
    var l, r := a[i].left, a[i].right;
    assert l != Nil ==> a[l].parent == i;
    assert r != Nil ==> a[r].parent == i;
    assert l != z && r != z && l != p && r != p && l != g && r != g;
  }

  lemma Case3LeftAt<K, P>(a: seq<Node<K, P>>, S: seq<set<nat>>, bh: seq<nat>, root: nat, z: nat,
                          b: seq<Node<K, P>>, root': nat, i: nat)
    requires Case3LeftSetting(a, S, bh, root, z) && i in S[root]
    requires RotatedRight(Case3Colour(a, z), root, a[a[z].parent].parent, b, root')
    ensures InArena(b) && |bh| == |b|
    ensures RedOkBut(b, z, i) && BhOk(b, bh, i)
  {
    var p := a[z].parent;
    var g := a[p].parent;
    if i == p || i == g {
      Case3LeftRedTop(a, S, bh, root, z, b, root', i);
      Case3LeftBhTop(a, S, bh, root, z, b, root', i);
    } else if i == a[g].parent {
      Case3LeftRedAbove(a, S, bh, root, z, b, root', i);
      Case3LeftBhAbove(a, S, bh, root, z, b, root', i);
    } else {
      Case3LeftRedFar(a, S, bh, root, z, b, root', i);
      Case3LeftBhFar(a, S, bh, root, z, b, root', i);
    }
  }

  lemma Case3Left<K, P>(a: seq<Node<K, P>>, S: seq<set<nat>>, bh: seq<nat>, root: nat, z: nat,
                        b: seq<Node<K, P>>, root': nat)
    requires Case3LeftSetting(a, S, bh, root, z)
    requires RotatedRight(Case3Colour(a, z), root, a[a[z].parent].parent, b, root')
    ensures Recoloured(a, Case3Colour(a, z)) && Shaped(Case3Colour(a, z), S, root)
    ensures Shaped(b, RightRotatedS(Case3Colour(a, z), S, a[a[z].parent].parent), root')
    ensures RightRotatedS(Case3Colour(a, z), S, a[a[z].parent].parent)[root'] == S[root]
    ensures InsertColours(b, RightRotatedS(Case3Colour(a, z), S, a[a[z].parent].parent), bh, root', z)
    ensures IsBlack(b, b[z].parent)
  {
    Case3LeftShape(a, S, bh, root, z, b, root');
    Case3LeftColours(a, S, bh, root, z, b, root');
  }

  /** The recolouring and the rotation at the grandparent keep the shape. */
  lemma Case3LeftShape<K, P>(a: seq<Node<K, P>>, S: seq<set<nat>>, bh: seq<nat>, root: nat, z: nat,
                             b: seq<Node<K, P>>, root': nat)
    requires Case3LeftSetting(a, S, bh, root, z)
    requires RotatedRight(Case3Colour(a, z), root, a[a[z].parent].parent, b, root')
    ensures Recoloured(a, Case3Colour(a, z)) && Shaped(Case3Colour(a, z), S, root)
    ensures Shaped(b, RightRotatedS(Case3Colour(a, z), S, a[a[z].parent].parent), root')
    ensures RightRotatedS(Case3Colour(a, z), S, a[a[z].parent].parent)[root'] == S[root]
  {
    var p := a[z].parent;
    Family(a, S, bh, root, z);
    var g := a[p].parent;
    var c := Case3Colour(a, z);
    Case3Recoloured(a, z, c);
    RecolourShaped(a, S, root, c);
    RotationNeighbours(c, S, root, g, p);
    RotateRightShaped(c, S, root, g, b, root');
  }

  /** After the rotation z's parent is black and only z may have a red parent. */
  lemma Case3LeftColours<K, P>(a: seq<Node<K, P>>, S: seq<set<nat>>, bh: seq<nat>, root: nat, z: nat,
                               b: seq<Node<K, P>>, root': nat)
    requires Case3LeftSetting(a, S, bh, root, z)
    requires RotatedRight(Case3Colour(a, z), root, a[a[z].parent].parent, b, root')
    requires Recoloured(a, Case3Colour(a, z)) && Shaped(Case3Colour(a, z), S, root)
    requires Shaped(b, RightRotatedS(Case3Colour(a, z), S, a[a[z].parent].parent), root')
    requires RightRotatedS(Case3Colour(a, z), S, a[a[z].parent].parent)[root'] == S[root]
    ensures InsertColours(b, RightRotatedS(Case3Colour(a, z), S, a[a[z].parent].parent), bh, root', z)
    ensures IsBlack(b, b[z].parent)
  {
    var p := a[z].parent;
    Family(a, S, bh, root, z);
    var g := a[p].parent;
    var c := Case3Colour(a, z);
    RotationNeighbours(c, S, root, g, p);
    ChildLive(a, S, root, p);
    ChildLive(a, S, root, z);
    forall i | i in S[root] ensures RedOkBut(b, z, i) && BhOk(b, bh, i) {
      Case3LeftAt(a, S, bh, root, z, b, root', i);
    }
    assert b[z] == a[z];
    if c[g].parent != Nil {
      RootOrphan(a, S, root, g);
      assert root != p && root != g;
    }
  }
  // The mirror images: cases 2 and 3 with the parent a right child.

  /** Case 2: z is the left child of a right child and the uncle is black. */
  ghost predicate Case2RightSetting<K, P>(a: seq<Node<K, P>>, S: seq<set<nat>>, bh: seq<nat>, root: nat, z: nat)
  {
    Shaped(a, S, root) && InsertColours(a, S, bh, root, z) && !IsBlack(a, a[z].parent) &&
    var p := a[z].parent; var g := a[p].parent;
    p == a[g].right && IsBlack(a, a[g].left) && z == a[p].left
  }

  lemma Case2RightAt<K, P>(a: seq<Node<K, P>>, S: seq<set<nat>>, bh: seq<nat>, root: nat, z: nat,
                          b: seq<Node<K, P>>, root': nat, i: nat)
    requires Case2RightSetting(a, S, bh, root, z) && RotatedRight(a, root, a[z].parent, b, root') && i in S[root]
    ensures InArena(b) && |bh| == |b|
    ensures RedOkBut(b, a[z].parent, i) && BhOk(b, bh, i)
  {
    var p := a[z].parent;
    Family(a, S, bh, root, z);
    var g := a[p].parent;
    RotationNeighbours(a, S, root, p, z);
    RightFrame(a, S, root, p, b, root');
    RightEntries(a, S, root, p, b, root');
    ChildLive(a, S, root, p);
    ChildLive(a, S, root, z);
    ChildLive(a, S, root, i);
    assert RedOkBut(a, z, p) && RedOkBut(a, z, i);
    assert BhOk(a, bh, p) && BhOk(a, bh, z) && BhOk(a, bh, i);
    if i == p || i == z {
    } else if i == g {
      assert b[g].right == z && b[g].left == a[g].left;
    } else {
      RightUntouched(a, S, root, p, b, root', i);
      var l, r := a[i].right, a[i].left;
      assert l != Nil ==> a[l].parent == i;
      assert r != Nil ==> a[r].parent == i;
      assert l != z && r != z;
    }
  }

  /** Case 2 rotates the parent right and makes it the new z; the invariant holds again. */
  lemma Case2Right<K, P>(a: seq<Node<K, P>>, S: seq<set<nat>>, bh: seq<nat>, root: nat, z: nat,
                        b: seq<Node<K, P>>, root': nat)
    requires Case2RightSetting(a, S, bh, root, z) && RotatedRight(a, root, a[z].parent, b, root')
    ensures root' == root && Shaped(b, RightRotatedS(a, S, a[z].parent), root)
    ensures RightRotatedS(a, S, a[z].parent)[root] == S[root]
    ensures InsertColours(b, RightRotatedS(a, S, a[z].parent), bh, root, a[z].parent)
    ensures InsertMeasure(b, RightRotatedS(a, S, a[z].parent), root, a[z].parent) < InsertMeasure(a, S, root, z)
  {
    var p := a[z].parent;
    Family(a, S, bh, root, z);
    var g := a[p].parent;
    var S' := RightRotatedS(a, S, p);
    RotationNeighbours(a, S, root, p, z);
    RotateRightShaped(a, S, root, p, b, root');
    ChildLive(a, S, root, p);
    ChildLive(a, S, root, z);
    forall i | i in S[root] ensures RedOkBut(b, p, i) && BhOk(b, bh, i) {
      Case2RightAt(a, S, bh, root, z, b, root', i);
    }
    assert RedOkBut(a, z, p);
    assert b[p].right == a[p].right && b[p].left == a[z].right;
    assert b[z].parent == g && b[z].right == p && b[g].right == z;
    assert a[g].left != z;
    InnerTurned(a, S, root, z, b, S');
  }

  /** Case 3: z is the right child of a right child and the uncle is black. */
  ghost predicate Case3RightSetting<K, P>(a: seq<Node<K, P>>, S: seq<set<nat>>, bh: seq<nat>, root: nat, z: nat)
  {
    Shaped(a, S, root) && InsertColours(a, S, bh, root, z) && !IsBlack(a, a[z].parent) &&
    var p := a[z].parent; var g := a[p].parent;
    p == a[g].right && IsBlack(a, a[g].left) && z == a[p].right
  }

  lemma Case3RightRedTop<K, P>(a: seq<Node<K, P>>, S: seq<set<nat>>, bh: seq<nat>, root: nat, z: nat,
                          b: seq<Node<K, P>>, root': nat, i: nat)
    requires Case3RightSetting(a, S, bh, root, z) && i in S[root]
    requires i == a[z].parent || i == a[a[z].parent].parent
    requires RotatedLeft(Case3Colour(a, z), root, a[a[z].parent].parent, b, root')
    ensures InArena(b) && |bh| == |b|
    ensures RedOkBut(b, z, i)
  {
    var p := a[z].parent;
    Family(a, S, bh, root, z);
    var g := a[p].parent;
    var c := Case3Colour(a, z);
    Case3Recoloured(a, z, c);
    RecolourShaped(a, S, root, c);
    RotationNeighbours(c, S, root, g, p);
    LeftFrame(c, S, root, g, b, root');
    LeftEntries(c, S, root, g, b, root');
    ChildLive(a, S, root, p);
    ChildLive(a, S, root, g);
    ChildLive(a, S, root, i);
    assert RedOkBut(a, z, p);
  }

  lemma Case3RightRedAbove<K, P>(a: seq<Node<K, P>>, S: seq<set<nat>>, bh: seq<nat>, root: nat, z: nat,
                          b: seq<Node<K, P>>, root': nat, i: nat)
    requires Case3RightSetting(a, S, bh, root, z) && i in S[root]
    requires i == a[a[a[z].parent].parent].parent
    requires RotatedLeft(Case3Colour(a, z), root, a[a[z].parent].parent, b, root')
    ensures InArena(b) && |bh| == |b|
    ensures RedOkBut(b, z, i)
  {
    var p := a[z].parent;
    Family(a, S, bh, root, z);
    var g := a[p].parent;
    var c := Case3Colour(a, z);
    Case3Recoloured(a, z, c);
    RecolourShaped(a, S, root, c);
    RotationNeighbours(c, S, root, g, p);
    LeftFrame(c, S, root, g, b, root');
    LeftEntries(c, S, root, g, b, root');
    ChildLive(a, S, root, p);
    ChildLive(a, S, root, g);
    ChildLive(a, S, root, i);
    assert RedOkBut(a, z, i);
    assert b[i].right == a[i].right || b[i].left == a[i].left;
  }

  lemma Case3RightRedFar<K, P>(a: seq<Node<K, P>>, S: seq<set<nat>>, bh: seq<nat>, root: nat, z: nat,
                          b: seq<Node<K, P>>, root': nat, i: nat)
    requires Case3RightSetting(a, S, bh, root, z) && i in S[root]
    requires i != a[z].parent && i != a[a[z].parent].parent && i != a[a[a[z].parent].parent].parent
    requires RotatedLeft(Case3Colour(a, z), root, a[a[z].parent].parent, b, root')
    ensures InArena(b) && |bh| == |b|
    ensures RedOkBut(b, z, i)
  {
    var p := a[z].parent;
    Family(a, S, bh, root, z);
    var g := a[p].parent;
    var c := Case3Colour(a, z);
    Case3Recoloured(a, z, c);
    RecolourShaped(a, S, root, c);
    RotationNeighbours(c, S, root, g, p);
    LeftFrame(c, S, root, g, b, root');
    LeftEntries(c, S, root, g, b, root');
    ChildLive(a, S, root, p);
    ChildLive(a, S, root, g);
    ChildLive(a, S, root, i);
    assert RedOkBut(a, z, i);
    LeftUntouched(c, S, root, g, b, root', i);
    var l, r := a[i].right, a[i].left;
    assert l != Nil ==> a[l].parent == i;
    assert r != Nil ==> a[r].parent == i;
    assert l != z && r != z && l != p && r != p && l != g && r != g;
  }

  lemma Case3RightBhTop<K, P>(a: seq<Node<K, P>>, S: seq<set<nat>>, bh: seq<nat>, root: nat, z: nat,
                          b: seq<Node<K, P>>, root': nat, i: nat)
    requires Case3RightSetting(a, S, bh, root, z) && i in S[root]
    requires i == a[z].parent || i == a[a[z].parent].parent
    requires RotatedLeft(Case3Colour(a, z), root, a[a[z].parent].parent, b, root')
    ensures InArena(b) && |bh| == |b|
    ensures BhOk(b, bh, i)
  {
    var p := a[z].parent;
    Family(a, S, bh, root, z);
    var g := a[p].parent;
    var c := Case3Colour(a, z);
    Case3Recoloured(a, z, c);
    RecolourShaped(a, S, root, c);
    RotationNeighbours(c, S, root, g, p);
    LeftFrame(c, S, root, g, b, root');
    LeftEntries(c, S, root, g, b, root');
    ChildLive(a, S, root, p);
    ChildLive(a, S, root, g);
    ChildLive(a, S, root, i);
    assert BhOk(a, bh, p) && BhOk(a, bh, g);
  }

  lemma Case3RightBhAbove<K, P>(a: seq<Node<K, P>>, S: seq<set<nat>>, bh: seq<nat>, root: nat, z: nat,
                          b: seq<Node<K, P>>, root': nat, i: nat)
    requires Case3RightSetting(a, S, bh, root, z) && i in S[root]
    requires i == a[a[a[z].parent].parent].parent
    requires RotatedLeft(Case3Colour(a, z), root, a[a[z].parent].parent, b, root')
    ensures InArena(b) && |bh| == |b|
    ensures BhOk(b, bh, i)
  {
    var p := a[z].parent;
    Family(a, S, bh, root, z);
    var g := a[p].parent;
    var c := Case3Colour(a, z);
    Case3Recoloured(a, z, c);
    RecolourShaped(a, S, root, c);
    RotationNeighbours(c, S, root, g, p);
    LeftFrame(c, S, root, g, b, root');
    LeftEntries(c, S, root, g, b, root');
    ChildLive(a, S, root, p);
    ChildLive(a, S, root, g);
    ChildLive(a, S, root, i);
    assert BhOk(a, bh, g) && BhOk(a, bh, i);
    assert b[i].right == a[i].right || b[i].left == a[i].left;
  }

  lemma Case3RightBhFar<K, P>(a: seq<Node<K, P>>, S: seq<set<nat>>, bh: seq<nat>, root: nat, z: nat,
                          b: seq<Node<K, P>>, root': nat, i: nat)
    requires Case3RightSetting(a, S, bh, root, z) && i in S[root]
    requires i != a[z].parent && i != a[a[z].parent].parent && i != a[a[a[z].parent].parent].parent
    requires RotatedLeft(Case3Colour(a, z), root, a[a[z].parent].parent, b, root')
    ensures InArena(b) && |bh| == |b|
    ensures BhOk(b, bh, i)
  {
    var p := a[z].parent;
    Family(a, S, bh, root, z);
    var g := a[p].parent;
    var c := Case3Colour(a, z);
    Case3Recoloured(a, z, c);
    RecolourShaped(a, S, root, c);
    RotationNeighbours(c, S, root, g, p);
    LeftFrame(c, S, root, g, b, root');
    LeftEntries(c, S, root, g, b, root');
    ChildLive(a, S, root, p);
    ChildLive(a, S, root, g);
    ChildLive(a, S, root, i);
    assert BhOk(a, bh, i);
    LeftUntouched(c, S, root, g, b, root', i);
    var l, r := a[i].right, a[i].left;
    assert l != Nil ==> a[l].parent == i;
    assert r != Nil ==> a[r].parent == i;
    assert l != z && r != z && l != p && r != p && l != g && r != g;
  }

  lemma Case3RightAt<K, P>(a: seq<Node<K, P>>, S: seq<set<nat>>, bh: seq<nat>, root: nat, z: nat,
                          b: seq<Node<K, P>>, root': nat, i: nat)
    requires Case3RightSetting(a, S, bh, root, z) && i in S[root]
    requires RotatedLeft(Case3Colour(a, z), root, a[a[z].parent].parent, b, root')
    ensures InArena(b) && |bh| == |b|
    ensures RedOkBut(b, z, i) && BhOk(b, bh, i)
  {
    var p := a[z].parent;
    var g := a[p].parent;
    if i == p || i == g {
      Case3RightRedTop(a, S, bh, root, z, b, root', i);
      Case3RightBhTop(a, S, bh, root, z, b, root', i);
    } else if i == a[g].parent {
      Case3RightRedAbove(a, S, bh, root, z, b, root', i);
      Case3RightBhAbove(a, S, bh, root, z, b, root', i);
    } else {
      Case3RightRedFar(a, S, bh, root, z, b, root', i);
      Case3RightBhFar(a, S, bh, root, z, b, root', i);
    }
  }

  lemma Case3Right<K, P>(a: seq<Node<K, P>>, S: seq<set<nat>>, bh: seq<nat>, root: nat, z: nat,
                        b: seq<Node<K, P>>, root': nat)
    requires Case3RightSetting(a, S, bh, root, z)
    requires RotatedLeft(Case3Colour(a, z), root, a[a[z].parent].parent, b, root')
    ensures Recoloured(a, Case3Colour(a, z)) && Shaped(Case3Colour(a, z), S, root)
    ensures Shaped(b, LeftRotatedS(Case3Colour(a, z), S, a[a[z].parent].parent), root')
    ensures LeftRotatedS(Case3Colour(a, z), S, a[a[z].parent].parent)[root'] == S[root]
    ensures InsertColours(b, LeftRotatedS(Case3Colour(a, z), S, a[a[z].parent].parent), bh, root', z)
    ensures IsBlack(b, b[z].parent)
  {
    Case3RightShape(a, S, bh, root, z, b, root');
    Case3RightColours(a, S, bh, root, z, b, root');
  }

  /** The recolouring and the rotation at the grandparent keep the shape. */
  lemma Case3RightShape<K, P>(a: seq<Node<K, P>>, S: seq<set<nat>>, bh: seq<nat>, root: nat, z: nat,
                             b: seq<Node<K, P>>, root': nat)
    requires Case3RightSetting(a, S, bh, root, z)
    requires RotatedLeft(Case3Colour(a, z), root, a[a[z].parent].parent, b, root')
    ensures Recoloured(a, Case3Colour(a, z)) && Shaped(Case3Colour(a, z), S, root)
    ensures Shaped(b, LeftRotatedS(Case3Colour(a, z), S, a[a[z].parent].parent), root')
    ensures LeftRotatedS(Case3Colour(a, z), S, a[a[z].parent].parent)[root'] == S[root]
  {
    var p := a[z].parent;
    Family(a, S, bh, root, z);
    var g := a[p].parent;
    var c := Case3Colour(a, z);
    Case3Recoloured(a, z, c);
    RecolourShaped(a, S, root, c);
    RotationNeighbours(c, S, root, g, p);
    RotateLeftShaped(c, S, root, g, b, root');
  }

  /** After the rotation z's parent is black and only z may have a red parent. */
  lemma Case3RightColours<K, P>(a: seq<Node<K, P>>, S: seq<set<nat>>, bh: seq<nat>, root: nat, z: nat,
                               b: seq<Node<K, P>>, root': nat)
    requires Case3RightSetting(a, S, bh, root, z)
    requires RotatedLeft(Case3Colour(a, z), root, a[a[z].parent].parent, b, root')
    requires Recoloured(a, Case3Colour(a, z)) && Shaped(Case3Colour(a, z), S, root)
    requires Shaped(b, LeftRotatedS(Case3Colour(a, z), S, a[a[z].parent].parent), root')
    requires LeftRotatedS(Case3Colour(a, z), S, a[a[z].parent].parent)[root'] == S[root]
    ensures InsertColours(b, LeftRotatedS(Case3Colour(a, z), S, a[a[z].parent].parent), bh, root', z)
    ensures IsBlack(b, b[z].parent)
  {
    var p := a[z].parent;
    Family(a, S, bh, root, z);
    var g := a[p].parent;
    var c := Case3Colour(a, z);
    RotationNeighbours(c, S, root, g, p);
    ChildLive(a, S, root, p);
    ChildLive(a, S, root, z);
    forall i | i in S[root] ensures RedOkBut(b, z, i) && BhOk(b, bh, i) {
      Case3RightAt(a, S, bh, root, z, b, root', i);
    }
    assert b[z] == a[z];
    if c[g].parent != Nil {
      RootOrphan(a, S, root, g);
      assert root != p && root != g;
    }
  }

  // ---------------------------------------------------------------------
  // One turn of the repair loop, on the whole invariant, with the new arena
  // given as the source builds it, one field update at a time.
  // ---------------------------------------------------------------------

  /** Case 1 keeps the whole invariant with z moved to its grandparent. */
  lemma InsertStep1<K, P>(a: seq<Node<K, P>>, S: seq<set<nat>>, bh: seq<nat>, root: nat,
                          lt: (K, K) -> bool, M: map<K, P>, z: nat, b: seq<Node<K, P>>, bh': seq<nat>)
    requires InsertInv(a, S, bh, root, lt, M, z) && Case1Setting(a, S, bh, root, z)
    requires var p := a[z].parent; var g := a[p].parent;
      var u := if a[g].left == p then a[g].right else a[g].left;
      var a1 := a[p := a[p].(color := Black)];
      var a2 := a1[u := a1[u].(color := Black)];
      b == a2[g := a2[g].(color := Red)] && bh' == bh[g := bh[g] + 1]
    ensures InsertInv(b, S, bh', root, lt, M, a[a[z].parent].parent)
  {
    Case1AsWritten(a, S, bh, root, z, b);
    Case1On(a, S, bh, root, z, b, bh', a[a[z].parent].parent);
    RecolourOrdered(a, S, root, lt, b);
    RecolourAbstracts(a, S, root, M, b);
  }

  /** Case 1 gives up measure: z moves two levels up. */
  lemma InsertStep1Measure<K, P>(a: seq<Node<K, P>>, S: seq<set<nat>>, bh: seq<nat>, root: nat, z: nat, b: seq<Node<K, P>>)
    requires Case1Setting(a, S, bh, root, z)
    requires var p := a[z].parent; var g := a[p].parent;
      var u := if a[g].left == p then a[g].right else a[g].left;
      var a1 := a[p := a[p].(color := Black)];
      var a2 := a1[u := a1[u].(color := Black)];
      b == a2[g := a2[g].(color := Red)]
    ensures InsertMeasure(b, S, root, a[a[z].parent].parent) < InsertMeasure(a, S, root, z)
  {
    Case1AsWritten(a, S, bh, root, z, b);
    Case1Measure(a, S, bh, root, z);
  }

  /** Case 1 on the recoloured arena b, named. */
  lemma Case1On<K, P>(a: seq<Node<K, P>>, S: seq<set<nat>>, bh: seq<nat>, root: nat, z: nat,
                      b: seq<Node<K, P>>, bh': seq<nat>, g: nat)
    requires Case1Setting(a, S, bh, root, z) && b == Case1Colour(a, z)
    requires g == a[a[z].parent].parent && g < |bh| && bh' == bh[g := bh[g] + 1]
    ensures Recoloured(a, b) && Shaped(b, S, root) && InsertColours(b, S, bh', root, g)
    ensures InsertMeasure(b, S, root, g) < InsertMeasure(a, S, root, z)
  {
    Case1(a, S, bh, root, z);
  }

  /** The three colour updates of case 1, made one after another, give Case1Colour. */
  lemma Case1AsWritten<K, P>(a: seq<Node<K, P>>, S: seq<set<nat>>, bh: seq<nat>, root: nat, z: nat, b: seq<Node<K, P>>)
    requires Case1Setting(a, S, bh, root, z)
    requires var p := a[z].parent; var g := a[p].parent;
      var u := if a[g].left == p then a[g].right else a[g].left;
      var a1 := a[p := a[p].(color := Black)];
      var a2 := a1[u := a1[u].(color := Black)];
      b == a2[g := a2[g].(color := Red)]
    ensures b == Case1Colour(a, z)
  {
    var p := a[z].parent;
    Family(a, S, bh, root, z);
    var g := a[p].parent;
    var u := if a[g].left == p then a[g].right else a[g].left;
    ChildLive(a, S, root, g);
    assert u != p && u != g;
  }

  /** Case 2 with the parent a left child, once the rotation has kept order and contents. */
  lemma InsertStep2Left<K, P>(a: seq<Node<K, P>>, S: seq<set<nat>>, bh: seq<nat>, root: nat,
                              lt: (K, K) -> bool, M: map<K, P>, z: nat,
                              b: seq<Node<K, P>>, S': seq<set<nat>>, root': nat)
    requires InsertInv(a, S, bh, root, lt, M, z) && Case2LeftSetting(a, S, bh, root, z)
    requires RotatedLeft(a, root, a[z].parent, b, root') && S' == LeftRotatedS(a, S, a[z].parent)
    requires Shaped(b, S', root') && Ordered(b, S', root', lt) && Abstracts(b, S', root', M)
    ensures root' == root && InsertInv(b, S', bh, root', lt, M, a[z].parent)
    ensures InsertMeasure(b, S', root', a[z].parent) < InsertMeasure(a, S, root, z)
  {
    Case2Left(a, S, bh, root, z, b, root');
  }

  /** Case 2 with the parent a right child. */
  lemma InsertStep2Right<K, P>(a: seq<Node<K, P>>, S: seq<set<nat>>, bh: seq<nat>, root: nat,
                               lt: (K, K) -> bool, M: map<K, P>, z: nat,
                               b: seq<Node<K, P>>, S': seq<set<nat>>, root': nat)
    requires InsertInv(a, S, bh, root, lt, M, z) && Case2RightSetting(a, S, bh, root, z)
    requires RotatedRight(a, root, a[z].parent, b, root') && S' == RightRotatedS(a, S, a[z].parent)
    requires Shaped(b, S', root') && Ordered(b, S', root', lt) && Abstracts(b, S', root', M)
    ensures root' == root && InsertInv(b, S', bh, root', lt, M, a[z].parent)
    ensures InsertMeasure(b, S', root', a[z].parent) < InsertMeasure(a, S, root, z)
  {
    Case2Right(a, S, bh, root, z, b, root');
  }

  /** The recolouring of case 3, parent black and grandparent red, keeps shape, order and contents. */
  lemma InsertStep3Colour<K, P>(a: seq<Node<K, P>>, S: seq<set<nat>>, bh: seq<nat>, root: nat,
                                lt: (K, K) -> bool, M: map<K, P>, z: nat, c: seq<Node<K, P>>)
    requires InsertInv(a, S, bh, root, lt, M, z) && !IsBlack(a, a[z].parent)
    requires var p := a[z].parent; var g := a[p].parent;
      var a1 := a[p := a[p].(color := Black)];
      c == a1[g := a1[g].(color := Red)]
    ensures c == Case3Colour(a, z) && Recoloured(a, c)
    ensures Shaped(c, S, root) && Ordered(c, S, root, lt) && Abstracts(c, S, root, M)
  {
    Family(a, S, bh, root, z);
    Case3Recoloured(a, z, c);
    RecolourOrdered(a, S, root, lt, c);
    RecolourAbstracts(a, S, root, M, c);
  }

  /** The two colour updates of case 3 change colours only. */
  lemma Case3Recoloured<K, P>(a: seq<Node<K, P>>, z: nat, c: seq<Node<K, P>>)
    requires InArena(a) && z < |a|
    requires var p := a[z].parent; var g := a[p].parent;
      var a1 := a[p := a[p].(color := Black)];
      c == a1[g := a1[g].(color := Red)]
    ensures c == Case3Colour(a, z) && Recoloured(a, c)
  {
  }

  /** Case 3 with the parent a left child: the repair ends with the whole invariant. */
  lemma InsertStep3Left<K, P>(a: seq<Node<K, P>>, S: seq<set<nat>>, bh: seq<nat>, root: nat,
                              lt: (K, K) -> bool, M: map<K, P>, z: nat,
                              c: seq<Node<K, P>>, b: seq<Node<K, P>>, S': seq<set<nat>>, root': nat)
    requires InsertInv(a, S, bh, root, lt, M, z) && Case3LeftSetting(a, S, bh, root, z)
    requires c == Case3Colour(a, z) && RotatedRight(c, root, a[a[z].parent].parent, b, root')
    requires S' == RightRotatedS(c, S, a[a[z].parent].parent)
    requires Shaped(b, S', root') && Ordered(b, S', root', lt) && Abstracts(b, S', root', M)
    ensures InsertInv(b, S', bh, root', lt, M, z) && IsBlack(b, b[z].parent)
  {
    Case3Left(a, S, bh, root, z, b, root');
  }

  /** Case 3 with the parent a right child. */
  lemma InsertStep3Right<K, P>(a: seq<Node<K, P>>, S: seq<set<nat>>, bh: seq<nat>, root: nat,
                               lt: (K, K) -> bool, M: map<K, P>, z: nat,
                               c: seq<Node<K, P>>, b: seq<Node<K, P>>, S': seq<set<nat>>, root': nat)
    requires InsertInv(a, S, bh, root, lt, M, z) && Case3RightSetting(a, S, bh, root, z)
    requires c == Case3Colour(a, z) && RotatedLeft(c, root, a[a[z].parent].parent, b, root')
    requires S' == LeftRotatedS(c, S, a[a[z].parent].parent)
    requires Shaped(b, S', root') && Ordered(b, S', root', lt) && Abstracts(b, S', root', M)
    ensures InsertInv(b, S', bh, root', lt, M, z) && IsBlack(b, b[z].parent)
  {
    Case3Right(a, S, bh, root, z, b, root');
  }

  /** The recolouring of case 3, as the source makes it, keeps the shape. */
  lemma InsertStep3Shaped<K, P>(a: seq<Node<K, P>>, S: seq<set<nat>>, bh: seq<nat>, root: nat, z: nat, c: seq<Node<K, P>>)
    requires Shaped(a, S, root) && InsertColours(a, S, bh, root, z) && !IsBlack(a, a[z].parent)
    requires var p := a[z].parent; var g := a[p].parent;
      var a1 := a[p := a[p].(color := Black)];
      c == a1[g := a1[g].(color := Red)]
    ensures c == Case3Colour(a, z) && Recoloured(a, c) && Shaped(c, S, root)
  {
    Family(a, S, bh, root, z);
    RecolourShaped(a, S, root, c);
  }

  /**
   * Case 3 with the parent a left child, given the rotation's own guarantee
   * that it keeps order and contents.
   */
  lemma InsertCase3Left<K, P>(a: seq<Node<K, P>>, S: seq<set<nat>>, bh: seq<nat>, root: nat,
                              lt: (K, K) -> bool, M: map<K, P>, z: nat,
                              c: seq<Node<K, P>>, b: seq<Node<K, P>>, S': seq<set<nat>>, root': nat)
    requires InsertInv(a, S, bh, root, lt, M, z) && Case3LeftSetting(a, S, bh, root, z)
    requires c == Case3Colour(a, z) && Recoloured(a, c) && Shaped(c, S, root)
    requires RotatedRight(c, root, a[a[z].parent].parent, b, root')
    requires S' == RightRotatedS(c, S, a[a[z].parent].parent) && Shaped(b, S', root')
    requires Ordered(c, S, root, lt) ==> Ordered(b, S', root', lt)
    requires Abstracts(c, S, root, M) ==> Abstracts(b, S', root', M)
    ensures InsertInv(b, S', bh, root', lt, M, z) && IsBlack(b, b[z].parent)
  {
    RecolourOrdered(a, S, root, lt, c);
    RecolourAbstracts(a, S, root, M, c);
    InsertStep3Left(a, S, bh, root, lt, M, z, c, b, S', root');
  }

  /** The mirror image: the parent a right child. */
  lemma InsertCase3Right<K, P>(a: seq<Node<K, P>>, S: seq<set<nat>>, bh: seq<nat>, root: nat,
                               lt: (K, K) -> bool, M: map<K, P>, z: nat,
                               c: seq<Node<K, P>>, b: seq<Node<K, P>>, S': seq<set<nat>>, root': nat)
    requires InsertInv(a, S, bh, root, lt, M, z) && Case3RightSetting(a, S, bh, root, z)
    requires c == Case3Colour(a, z) && Recoloured(a, c) && Shaped(c, S, root)
    requires RotatedLeft(c, root, a[a[z].parent].parent, b, root')
    requires S' == LeftRotatedS(c, S, a[a[z].parent].parent) && Shaped(b, S', root')
    requires Ordered(c, S, root, lt) ==> Ordered(b, S', root', lt)
    requires Abstracts(c, S, root, M) ==> Abstracts(b, S', root', M)
    ensures InsertInv(b, S', bh, root', lt, M, z) && IsBlack(b, b[z].parent)
  {
    RecolourOrdered(a, S, root, lt, c);
    RecolourAbstracts(a, S, root, M, c);
    InsertStep3Right(a, S, bh, root, lt, M, z, c, b, S', root');
  }

  /** Once z's parent is black, the root coloured black gives back every invariant. */
  lemma InsertFinish<K, P>(a: seq<Node<K, P>>, S: seq<set<nat>>, bh: seq<nat>, root: nat,
                           lt: (K, K) -> bool, M: map<K, P>, z: nat, b: seq<Node<K, P>>)
    requires InsertInv(a, S, bh, root, lt, M, z) && IsBlack(a, a[z].parent)
    requires b == a[root := a[root].(color := Black)]
    ensures RbValid(b, S, bh, root, lt, M)
  {
    InsertDone(a, S, bh, root, lt, M, z);
  }
}

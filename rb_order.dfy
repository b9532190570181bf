/**
 * Consequences of the search-tree order over the arena: keys are distinct,
 * every subtree holds a contiguous run of keys, and a strictly sorted listing
 * is fixed by its elements.
 */
module RbOrder {
  import opened RbCore

  /** Two distinct live nodes inside the subtree of a carry distinct keys. */
  lemma {:induction false} KeysDistinctIn<K(!new), P>(nodes: seq<Node<K, P>>, S: seq<set<nat>>, root: nat,
                                               lt: (K, K) -> bool, a: nat, i: nat, j: nat)
    requires Shaped(nodes, S, root) && Ordered(nodes, S, root, lt) && StrictTotalOrder(lt)
    requires a in S[root] && i in S[a] && j in S[a] && i != j
    ensures nodes[i].key != nodes[j].key
    decreases S[a]
  {
    var l, r := nodes[a].left, nodes[a].right;
    ChildLive(nodes, S, root, a);
    assert OrderedAt(nodes, S, lt, a);
    if i == a || j == a {
    } else if i in S[l] && j in S[l] {
      KeysDistinctIn(nodes, S, root, lt, l, i, j);
    } else if i in S[r] && j in S[r] {
      KeysDistinctIn(nodes, S, root, lt, r, i, j);
    } else if i in S[l] {
      assert lt(nodes[i].key, nodes[a].key) && lt(nodes[a].key, nodes[j].key);
    } else {
      assert lt(nodes[j].key, nodes[a].key) && lt(nodes[a].key, nodes[i].key);
    }
  }

  /** Keys identify live nodes. */
  lemma KeysDistinct<K(!new), P>(nodes: seq<Node<K, P>>, S: seq<set<nat>>, root: nat, lt: (K, K) -> bool, i: nat, j: nat)
    requires Shaped(nodes, S, root) && Ordered(nodes, S, root, lt) && StrictTotalOrder(lt)
    requires i in S[root] && j in S[root] && nodes[i].key == nodes[j].key
    ensures i == j
  {
    if i != j {
      KeysDistinctIn(nodes, S, root, lt, root, i, j);
    }
  }

  /** Every key in the subtree of a lies between the keys of a's footprint bounds. */
  ghost predicate AllBelow<K, P>(nodes: seq<Node<K, P>>, lt: (K, K) -> bool, k: K, T: set<nat>)
    requires forall m :: m in T ==> m < |nodes|
  {
    forall m :: m in T ==> lt(k, nodes[m].key)
  }

  ghost predicate AllAbove<K, P>(nodes: seq<Node<K, P>>, lt: (K, K) -> bool, k: K, T: set<nat>)
    requires forall m :: m in T ==> m < |nodes|
  {
    forall m :: m in T ==> lt(nodes[m].key, k)
  }

  /**
   * A subtree holds a contiguous run of keys: seen from any ancestor a, a node
   * outside the subtree of p is below all of it or above all of it.
   */
  lemma {:induction false} Contiguous<K(!new), P>(nodes: seq<Node<K, P>>, S: seq<set<nat>>, root: nat,
                                           lt: (K, K) -> bool, a: nat, p: nat, n: nat)
    requires Shaped(nodes, S, root) && Ordered(nodes, S, root, lt) && StrictTotalOrder(lt)
    requires a in S[root] && p in S[a] && n in S[a] && n !in S[p]
    ensures AllBelow(nodes, lt, nodes[n].key, S[p]) || AllAbove(nodes, lt, nodes[n].key, S[p])
    decreases S[a]
  {
    var l, r := nodes[a].left, nodes[a].right;
    ChildLive(nodes, S, root, a);
    assert OrderedAt(nodes, S, lt, a);
    if p == a {
    } else if p in S[l] {
      SubtreeWithin(nodes, S, root, l, p);
      if n in S[l] {
        Contiguous(nodes, S, root, lt, l, p, n);
      } else {
        assert AllAbove(nodes, lt, nodes[n].key, S[p]) by {
          forall m | m in S[p] ensures lt(nodes[m].key, nodes[n].key) {
            assert lt(nodes[m].key, nodes[a].key);
            if n != a {
              assert lt(nodes[a].key, nodes[n].key);
            }
          }
        }
      }
    } else {
      SubtreeWithin(nodes, S, root, r, p);
      if n in S[r] {
        Contiguous(nodes, S, root, lt, r, p, n);
      } else {
        assert AllBelow(nodes, lt, nodes[n].key, S[p]) by {
          forall m | m in S[p] ensures lt(nodes[n].key, nodes[m].key) {
            assert lt(nodes[a].key, nodes[m].key);
            if n != a {
              assert lt(nodes[n].key, nodes[a].key);
            }
          }
        }
      }
    }
  }

  /** Strictly increasing under lt. */
  ghost predicate SortedBy<T>(s: seq<T>, lt: (T, T) -> bool) {
    forall i, j :: 0 <= i < j < |s| ==> lt(s[i], s[j])
  }

  /** Two strictly sorted sequences with the same elements are the same sequence. */
  lemma {:induction false} SortedUnique<T(!new)>(s: seq<T>, t: seq<T>, lt: (T, T) -> bool)
    requires StrictOrder(lt)
    requires SortedBy(s, lt) && SortedBy(t, lt)
    requires forall x :: x in s <==> x in t
    ensures s == t
    decreases |s|
  {
    if s != [] {
      assert s[0] in t;
    }
    if t != [] {
      assert t[0] in s;
    }
    if s != [] && t != [] {
      var i0 :| 0 <= i0 < |s| && s[i0] == t[0];
      var j0 :| 0 <= j0 < |t| && t[j0] == s[0];
      assert s[0] == t[0];
      forall x ensures x in s[1..] <==> x in t[1..] {
        if x in s[1..] {
          var i :| 0 <= i < |s[1..]| && s[1..][i] == x;
          assert lt(s[0], x);
          assert x in s && x in t;
          var j :| 0 <= j < |t| && t[j] == x;
          assert j != 0;
          assert t[1..][j - 1] == x;
        }
        if x in t[1..] {
          var j :| 0 <= j < |t[1..]| && t[1..][j] == x;
          assert lt(t[0], x);
          assert x in t && x in s;
          var i :| 0 <= i < |s| && s[i] == x;
          assert i != 0;
          assert s[1..][i - 1] == x;
        }
      }
      SortedUnique(s[1..], t[1..], lt);
      assert s == [s[0]] + s[1..];
      assert t == [t[0]] + t[1..];
    }
  }

  /** Overwriting the payload of one node: links, keys and colours stay. */
  lemma OverwrittenShape<K, P>(nodes: seq<Node<K, P>>, S: seq<set<nat>>, bh: seq<nat>, root: nat,
                               lt: (K, K) -> bool, n: nat, p: P)
    requires Shaped(nodes, S, root) && Ordered(nodes, S, root, lt) && Coloured(nodes, S, root)
    requires Balanced(nodes, S, bh, root) && n in S[root]
    ensures Shaped(nodes[n := nodes[n].(payload := p)], S, root)
    ensures Ordered(nodes[n := nodes[n].(payload := p)], S, root, lt)
    ensures Coloured(nodes[n := nodes[n].(payload := p)], S, root)
    ensures Balanced(nodes[n := nodes[n].(payload := p)], S, bh, root)
  {
    var b := nodes[n := nodes[n].(payload := p)];
    assert InArena(b);
    forall i | i in S[root] ensures Linked(b, S, i) && S[i] <= S[root] {
      assert Linked(nodes, S, i);
    }
    forall i | i in S[root] ensures OrderedAt(b, S, lt, i) && RedOk(b, i) && BhOk(b, bh, i) {
      assert OrderedAt(nodes, S, lt, i) && RedOk(nodes, i) && BhOk(nodes, bh, i);
    }
  }

  /**
   * Overwriting the payload of the live node n, which holds key k, keeps
   * every invariant and maps k to the new payload; all other entries stay.
   */
  lemma Overwritten<K(!new), P>(nodes: seq<Node<K, P>>, S: seq<set<nat>>, bh: seq<nat>, root: nat,
                                lt: (K, K) -> bool, M: map<K, P>, n: nat, p: P, b: seq<Node<K, P>>, M': map<K, P>)
    requires RbValid(nodes, S, bh, root, lt, M) && StrictTotalOrder(lt) && n in S[root]
    requires b == nodes[n := nodes[n].(payload := p)] && M' == M[nodes[n].key := p]
    ensures RbValid(b, S, bh, root, lt, M')
  {
    var k := nodes[n].key;
    OverwrittenShape(nodes, S, bh, root, lt, n, p);
    forall m | m in S[root] ensures b[m].key in M' && M'[b[m].key] == b[m].payload {
      if m != n && nodes[m].key == k {
        KeysDistinct(nodes, S, root, lt, m, n);
      }
    }
    forall k' | k' in M' ensures exists m :: m in S[root] && b[m].key == k' {
      if k' == k {
        assert b[n].key == k';
      } else {
        var m :| m in S[root] && nodes[m].key == k';
        assert b[m].key == k';
      }
    }
  }
}

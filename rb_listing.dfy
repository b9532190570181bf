/**
 * The in-order listing of a subtree (left subtree, the node, right subtree)
 * and what it promises: it is sorted by key, it lists exactly the entries of
 * the subtree, and rewiring that keeps the entries and the order (a rotation)
 * leaves it unchanged.
 */
module RbListing {
  import opened RbCore
  import opened RbOrder
  import opened RbRotate

  lemma AppendAssoc<T>(a: seq<T>, b: seq<T>, c: seq<T>)
    ensures a + (b + c) == a + b + c
  {
  }

  /** One result of the listing: a key and its payload. */
  datatype Entry<K, P> = Entry(key: K, payload: P)

  /** The entry a node carries. */
  function EntryOf<K, P>(n: Node<K, P>): Entry<K, P> {
    Entry(n.key, n.payload)
  }

  /** The listing of the subtree at i; a missing child contributes nothing. */
  function Listing<K, P>(nodes: seq<Node<K, P>>, ghost S: seq<set<nat>>, ghost root: nat, i: nat): seq<Entry<K, P>>
    requires Shaped(nodes, S, root) && (i == Nil || i in S[root])
    decreases S[i]
  {
    if i == Nil then []
    else
      ChildLive(nodes, S, root, i);
      var l, r := nodes[i].left, nodes[i].right;
      (if l != Nil then Listing(nodes, S, root, l) else []) +
      [EntryOf(nodes[i])] +
      (if r != Nil then Listing(nodes, S, root, r) else [])
  }

  /** Strictly increasing keys. */
  ghost predicate SortedKeys<K, P>(s: seq<Entry<K, P>>, lt: (K, K) -> bool) {
    forall i, j :: 0 <= i < j < |s| ==> lt(s[i].key, s[j].key)
  }

  /** The entries carried by the nodes of T. */
  ghost predicate ListsExactly<K, P>(s: seq<Entry<K, P>>, nodes: seq<Node<K, P>>, T: set<nat>)
    requires forall n :: n in T ==> n < |nodes|
  {
    (forall i :: 0 <= i < |s| ==> exists n :: n in T && s[i] == EntryOf(nodes[n])) &&
    (forall n :: n in T ==> EntryOf(nodes[n]) in s)
  }

  /** The listing holds exactly the entries of M. */
  ghost predicate ListsMap<K, P>(s: seq<Entry<K, P>>, M: map<K, P>) {
    (forall i :: 0 <= i < |s| ==> s[i].key in M && M[s[i].key] == s[i].payload) &&
    (forall k :: k in M ==> Entry(k, M[k]) in s)
  }

  lemma {:induction false} ConcatSorted<K(!new), P>(s: seq<Entry<K, P>>, e: Entry<K, P>, t: seq<Entry<K, P>>, lt: (K, K) -> bool)
    requires SortedKeys(s, lt) && SortedKeys(t, lt)
    requires forall x :: x in s ==> lt(x.key, e.key)
    requires forall x :: x in t ==> lt(e.key, x.key)
    requires StrictOrder(lt)
    ensures SortedKeys(s + [e] + t, lt)
  {
    var u := s + [e] + t;
    forall i, j | 0 <= i < j < |u| ensures lt(u[i].key, u[j].key) {
      if j < |s| {
      } else if i < |s| && j == |s| {
        assert u[i] in s;
      } else if i < |s| {
        assert u[i] in s && u[j] in t;
        assert lt(u[i].key, e.key) && lt(e.key, u[j].key);
      } else if i == |s| {
        assert u[j] in t;
      } else {
        assert u[i] == t[i - |s| - 1] && u[j] == t[j - |s| - 1];
      }
    }
  }

  /** Joining the listings of two key-separated subtrees around their parent keeps the keys sorted. */
  lemma JoinSorted<K(!new), P>(nodes: seq<Node<K, P>>, lt: (K, K) -> bool, i: nat, Sl: set<nat>, Sr: set<nat>,
                               L: seq<Entry<K, P>>, R: seq<Entry<K, P>>)
    requires i < |nodes| && (forall n :: n in Sl ==> n < |nodes|) && (forall n :: n in Sr ==> n < |nodes|)
    requires StrictOrder(lt)
    requires SortedKeys(L, lt) && ListsExactly(L, nodes, Sl)
    requires SortedKeys(R, lt) && ListsExactly(R, nodes, Sr)
    requires forall n :: n in Sl ==> lt(nodes[n].key, nodes[i].key)
    requires forall n :: n in Sr ==> lt(nodes[i].key, nodes[n].key)
    ensures SortedKeys(L + [EntryOf(nodes[i])] + R, lt)
  {
    var e := EntryOf(nodes[i]);
    forall x | x in L ensures lt(x.key, e.key) {
      var q :| 0 <= q < |L| && L[q] == x;
      var n :| n in Sl && L[q] == EntryOf(nodes[n]);
    }
    forall x | x in R ensures lt(e.key, x.key) {
      var q :| 0 <= q < |R| && R[q] == x;
      var n :| n in Sr && R[q] == EntryOf(nodes[n]);
    }
    ConcatSorted(L, e, R, lt);
  }

  /** Every entry of the joined listing comes from a node of the joined footprint. */
  lemma JoinFrom<K, P>(nodes: seq<Node<K, P>>, i: nat, Sl: set<nat>, Sr: set<nat>,
                       L: seq<Entry<K, P>>, R: seq<Entry<K, P>>)
    requires i < |nodes| && (forall n :: n in Sl ==> n < |nodes|) && (forall n :: n in Sr ==> n < |nodes|)
    requires ListsExactly(L, nodes, Sl) && ListsExactly(R, nodes, Sr)
    ensures forall q :: 0 <= q < |L + [EntryOf(nodes[i])] + R| ==>
              exists n :: n in Sl + {i} + Sr && (L + [EntryOf(nodes[i])] + R)[q] == EntryOf(nodes[n])
  {
    var u := L + [EntryOf(nodes[i])] + R;
    var Si := Sl + {i} + Sr;
    forall q | 0 <= q < |u| ensures exists n :: n in Si && u[q] == EntryOf(nodes[n]) {
      if q < |L| {
        var n :| n in Sl && L[q] == EntryOf(nodes[n]);
        assert u[q] == L[q] && n in Si;
      } else if q == |L| {
        assert u[q] == EntryOf(nodes[i]) && i in Si;
      } else {
        var n :| n in Sr && R[q - |L| - 1] == EntryOf(nodes[n]);
        assert u[q] == R[q - |L| - 1] && n in Si;
      }
    }
  }

  /** Every node of the joined footprint has its entry in the joined listing. */
  lemma JoinTo<K, P>(nodes: seq<Node<K, P>>, i: nat, Sl: set<nat>, Sr: set<nat>,
                     L: seq<Entry<K, P>>, R: seq<Entry<K, P>>)
    requires i < |nodes| && (forall n :: n in Sl ==> n < |nodes|) && (forall n :: n in Sr ==> n < |nodes|)
    requires ListsExactly(L, nodes, Sl) && ListsExactly(R, nodes, Sr)
    ensures forall n :: n in Sl + {i} + Sr ==> EntryOf(nodes[n]) in L + [EntryOf(nodes[i])] + R
  {
    var u := L + [EntryOf(nodes[i])] + R;
    forall n | n in Sl + {i} + Sr ensures EntryOf(nodes[n]) in u {
      if n in Sl {
        assert EntryOf(nodes[n]) in L;
      } else if n in Sr {
        assert EntryOf(nodes[n]) in R;
      }
    }
  }

  /** Joining the listings of two disjoint subtrees around their parent lists the whole subtree. */
  lemma JoinLists<K, P>(nodes: seq<Node<K, P>>, i: nat, Sl: set<nat>, Sr: set<nat>,
                        L: seq<Entry<K, P>>, R: seq<Entry<K, P>>)
    requires i < |nodes| && (forall n :: n in Sl ==> n < |nodes|) && (forall n :: n in Sr ==> n < |nodes|)
    requires i !in Sl && i !in Sr && Sl !! Sr
    requires ListsExactly(L, nodes, Sl) && |L| == |Sl|
    requires ListsExactly(R, nodes, Sr) && |R| == |Sr|
    ensures ListsExactly(L + [EntryOf(nodes[i])] + R, nodes, Sl + {i} + Sr)
    ensures |L + [EntryOf(nodes[i])] + R| == |Sl + {i} + Sr|
  {
    SplitSize(Sl, Sr, i);
    JoinFrom(nodes, i, Sl, Sr, L, R);
    JoinTo(nodes, i, Sl, Sr, L, R);
  }

  /**
   * The listing of a subtree is sorted, lists exactly the entries of the
   * subtree, and has one entry per node.
   */
  lemma {:induction false} ListingFacts<K(!new), P>(nodes: seq<Node<K, P>>, S: seq<set<nat>>, root: nat,
                                                   lt: (K, K) -> bool, i: nat)
    requires Shaped(nodes, S, root) && Ordered(nodes, S, root, lt) && StrictOrder(lt)
    requires i == Nil || i in S[root]
    ensures SortedKeys(Listing(nodes, S, root, i), lt)
    ensures ListsExactly(Listing(nodes, S, root, i), nodes, S[i])
    ensures |Listing(nodes, S, root, i)| == |S[i]|
    decreases S[i]
  {
    if i != Nil {
      ChildLive(nodes, S, root, i);
      assert OrderedAt(nodes, S, lt, i);
      var l, r := nodes[i].left, nodes[i].right;
      var L := if l != Nil then Listing(nodes, S, root, l) else [];
      var R := if r != Nil then Listing(nodes, S, root, r) else [];
      if l != Nil {
        ListingFacts(nodes, S, root, lt, l);
      }
      if r != Nil {
        ListingFacts(nodes, S, root, lt, r);
      }
      JoinSorted(nodes, lt, i, S[l], S[r], L, R);
      JoinLists(nodes, i, S[l], S[r], L, R);
    }
  }

  /** At the root, the listing holds exactly the abstract contents, one entry per key, in key order. */
  lemma ListingContents<K(!new), P>(nodes: seq<Node<K, P>>, S: seq<set<nat>>, root: nat,
                                    lt: (K, K) -> bool, M: map<K, P>)
    requires Shaped(nodes, S, root) && Ordered(nodes, S, root, lt) && StrictOrder(lt) && Abstracts(nodes, S, root, M)
    ensures SortedKeys(Listing(nodes, S, root, root), lt)
    ensures ListsMap(Listing(nodes, S, root, root), M)
    ensures |Listing(nodes, S, root, root)| == |S[root]|
  {
    ListingFacts(nodes, S, root, lt, root);
    var s := Listing(nodes, S, root, root);
    forall q | 0 <= q < |s| ensures s[q].key in M && M[s[q].key] == s[q].payload {
      var n :| n in S[root] && s[q] == EntryOf(nodes[n]);
    }
    forall k | k in M ensures Entry(k, M[k]) in s {
      var n :| n in S[root] && nodes[n].key == k;
      assert EntryOf(nodes[n]) in s;
    }
  }

  /** The keys of a listing. */
  function KeysOf<K, P>(s: seq<Entry<K, P>>): seq<K> {
    seq(|s|, i requires 0 <= i < |s| => s[i].key)
  }

  /** Two sorted listings of the same contents are the same listing. */
  lemma SameListing<K(!new), P>(s: seq<Entry<K, P>>, t: seq<Entry<K, P>>, lt: (K, K) -> bool, M: map<K, P>)
    requires StrictOrder(lt) && SortedKeys(s, lt) && SortedKeys(t, lt)
    requires ListsMap(s, M) && ListsMap(t, M)
    ensures s == t
  {
    var ks, kt := KeysOf(s), KeysOf(t);
    forall k ensures k in ks <==> k in kt {
      if k in ks {
        var q :| 0 <= q < |ks| && ks[q] == k;
        assert Entry(k, M[k]) in t;
        var q' :| 0 <= q' < |t| && t[q'] == Entry(k, M[k]);
        assert kt[q'] == k;
      }
      if k in kt {
        var q :| 0 <= q < |kt| && kt[q] == k;
        assert Entry(k, M[k]) in s;
        var q' :| 0 <= q' < |s| && s[q'] == Entry(k, M[k]);
        assert ks[q'] == k;
      }
    }
    SortedUnique(ks, kt, lt);
    assert |s| == |t|;
    forall q | 0 <= q < |s| ensures s[q] == t[q] {
      assert ks[q] == kt[q];
    }
  }

  /**
   * The listing depends on the contents only: two ordered trees holding the
   * same entries (a tree before and after a rotation, say) list them the same.
   */
  lemma ListingOfContents<K(!new), P>(a: seq<Node<K, P>>, S: seq<set<nat>>, root: nat,
                                      b: seq<Node<K, P>>, S': seq<set<nat>>, root': nat,
                                      lt: (K, K) -> bool, M: map<K, P>)
    requires StrictOrder(lt)
    requires Shaped(a, S, root) && Ordered(a, S, root, lt) && Abstracts(a, S, root, M)
    requires Shaped(b, S', root') && Ordered(b, S', root', lt) && Abstracts(b, S', root', M)
    ensures Listing(a, S, root, root) == Listing(b, S', root', root')
  {
    ListingContents(a, S, root, lt, M);
    ListingContents(b, S', root', lt, M);
    SameListing(Listing(a, S, root, root), Listing(b, S', root', root'), lt, M);
  }

  /** A listing with strictly increasing keys has one entry per key of the map it lists. */
  lemma {:induction false} SortedSize<K(!new), P>(s: seq<Entry<K, P>>, lt: (K, K) -> bool, M: map<K, P>)
    requires StrictOrder(lt) && SortedKeys(s, lt) && ListsMap(s, M)
    ensures |s| == |M|
    decreases |s|
  {
    if s == [] {
      assert M.Keys == {};
    } else {
      var t, e := s[..|s| - 1], s[|s| - 1];
      var M' := M - {e.key};
      forall i | 0 <= i < |t| ensures t[i].key in M' && M'[t[i].key] == t[i].payload {
        assert t[i] == s[i] && lt(s[i].key, e.key);
      }
      forall k | k in M' ensures Entry(k, M'[k]) in t {
        assert Entry(k, M[k]) in s;
        var q :| 0 <= q < |s| && s[q] == Entry(k, M[k]);
        assert q != |s| - 1 && t[q] == s[q];
      }
      SortedSize(t, lt, M');
      assert e.key in M;
    }
  }

  /** A tree holding the contents M has exactly |M| live nodes. */
  lemma SizeOfContents<K(!new), P>(nodes: seq<Node<K, P>>, S: seq<set<nat>>, root: nat, lt: (K, K) -> bool, M: map<K, P>)
    requires Shaped(nodes, S, root) && Ordered(nodes, S, root, lt) && StrictOrder(lt) && Abstracts(nodes, S, root, M)
    ensures |S[root]| == |M|
  {
    ListingContents(nodes, S, root, lt, M);
    SortedSize(Listing(nodes, S, root, root), lt, M);
  }

  /** A left rotation keeps the in-order listing of the tree. */
  lemma RotateLeftListing<K(!new), P>(a: seq<Node<K, P>>, S: seq<set<nat>>, root: nat, lt: (K, K) -> bool,
                                      M: map<K, P>, x: nat, b: seq<Node<K, P>>, root': nat)
    requires Shaped(a, S, root) && Ordered(a, S, root, lt) && StrictTotalOrder(lt) && Abstracts(a, S, root, M)
    requires x in S[root] && a[x].right != Nil && RotatedLeft(a, root, x, b, root')
    ensures Shaped(b, LeftRotatedS(a, S, x), root')
    ensures Listing(b, LeftRotatedS(a, S, x), root', root') == Listing(a, S, root, root)
  {
    RotateLeftShaped(a, S, root, x, b, root');
    RotateLeftOrdered(a, S, root, lt, x, b, root');
    AbstractsTransfer(a, S, root, M, b, LeftRotatedS(a, S, x), root');
    ListingOfContents(a, S, root, b, LeftRotatedS(a, S, x), root', lt, M);
  }

  /** A right rotation keeps the in-order listing of the tree. */
  lemma RotateRightListing<K(!new), P>(a: seq<Node<K, P>>, S: seq<set<nat>>, root: nat, lt: (K, K) -> bool,
                                       M: map<K, P>, x: nat, b: seq<Node<K, P>>, root': nat)
    requires Shaped(a, S, root) && Ordered(a, S, root, lt) && StrictTotalOrder(lt) && Abstracts(a, S, root, M)
    requires x in S[root] && a[x].left != Nil && RotatedRight(a, root, x, b, root')
    ensures Shaped(b, RightRotatedS(a, S, x), root')
    ensures Listing(b, RightRotatedS(a, S, x), root', root') == Listing(a, S, root, root)
  {
    RotateRightShaped(a, S, root, x, b, root');
    RotateRightOrdered(a, S, root, lt, x, b, root');
    AbstractsTransfer(a, S, root, M, b, RightRotatedS(a, S, x), root');
    ListingOfContents(a, S, root, b, RightRotatedS(a, S, x), root', lt, M);
  }
}

/**
 * The overlap searches of the interval tree, on the arena: the descent that
 * stops at the first node whose interval overlaps the query, and the
 * in-order walk that reports every overlapping interval. Both skip a
 * subtree whose max field lies before the query's start; that is sound
 * because the field is the greatest high in the subtree, and the descent
 * may also give up the right subtree once it turns left, because of the key
 * order.
 */
module IntervalSearch {
  import opened RbCore
  import opened RbListing
  import opened Intervals
  import opened IntervalMax

  /** The key order of the tree is a strict total order. */
  lemma IntervalLessTotal()
    ensures StrictTotalOrder(Less)
  {
    forall x: Interval, y: Interval, z: Interval | Less(x, y) && Less(y, z) ensures Less(x, z) {
      LessTransitive(x, y, z);
    }
    forall x: Interval, y: Interval ensures x != y ==> (Less(x, y) || Less(y, x)) {
      LessTrichotomy(x, y);
    }
  }

  // ---------------------------------------------------------------------
  // The reference: the overlapping entries of a listing.
  // ---------------------------------------------------------------------

  /** The entries of s whose interval overlaps key, in the order of s. */
  function Overlapping<P>(s: seq<Entry<Interval, P>>, key: Interval): (r: seq<Entry<Interval, P>>)
    ensures forall i :: 0 <= i < |r| ==> r[i] in s && Overlaps(r[i].key, key)
    ensures forall i :: 0 <= i < |s| && Overlaps(s[i].key, key) ==> s[i] in r
    ensures |r| <= |s|
  {
    if s == [] then []
    else (if Overlaps(s[0].key, key) then [s[0]] else []) + Overlapping(s[1..], key)
  }

  /** Keeping the overlapping entries distributes over concatenation. */
  lemma {:induction false} OverlappingAppend<P>(s: seq<Entry<Interval, P>>, t: seq<Entry<Interval, P>>, key: Interval)
    ensures Overlapping(s + t, key) == Overlapping(s, key) + Overlapping(t, key)
    decreases |s|
  {
    if s == [] {
      assert s + t == t;
    } else {
      assert (s + t)[0] == s[0] && (s + t)[1..] == s[1..] + t;
      OverlappingAppend(s[1..], t, key);
    }
  }

  /** An entry whose key precedes every key of a sorted sequence can be put in front of it. */
  lemma SortedCons<P>(e: Entry<Interval, P>, t: seq<Entry<Interval, P>>, lt: (Interval, Interval) -> bool)
    requires SortedKeys(t, lt) && forall j :: 0 <= j < |t| ==> lt(e.key, t[j].key)
    ensures SortedKeys([e] + t, lt)
  {
    var u := [e] + t;
    forall i, j | 0 <= i < j < |u| ensures lt(u[i].key, u[j].key) {
      assert u[j] == t[j - 1];
      if i > 0 {
        assert u[i] == t[i - 1];
      }
    }
  }

  /** Keeping the overlapping entries of a sorted listing leaves it sorted. */
  lemma {:induction false} OverlappingSorted<P>(s: seq<Entry<Interval, P>>, key: Interval, lt: (Interval, Interval) -> bool)
    requires SortedKeys(s, lt)
    ensures SortedKeys(Overlapping(s, key), lt)
    decreases |s|
  {
    if s != [] {
      var t := Overlapping(s[1..], key);
      assert SortedKeys(s[1..], lt) by {
        forall i, j | 0 <= i < j < |s[1..]| ensures lt(s[1..][i].key, s[1..][j].key) {
          assert s[1..][i] == s[i + 1] && s[1..][j] == s[j + 1];
        }
      }
      OverlappingSorted(s[1..], key, lt);
      if Overlaps(s[0].key, key) {
        forall j | 0 <= j < |t| ensures lt(s[0].key, t[j].key) {
          var k :| 0 <= k < |s[1..]| && s[1..][k] == t[j];
          assert s[k + 1] == t[j];
        }
        SortedCons(s[0], t, lt);
      }
    }
  }

  /** Nothing is kept from a sequence none of whose entries overlaps key. */
  lemma {:induction false} OverlappingNone<P>(s: seq<Entry<Interval, P>>, key: Interval)
    requires forall i :: 0 <= i < |s| ==> !Overlaps(s[i].key, key)
    ensures Overlapping(s, key) == []
    decreases |s|
  {
    if s != [] {
      OverlappingNone(s[1..], key);
    }
  }

  // ---------------------------------------------------------------------
  // Pruning.
  // ---------------------------------------------------------------------

  /** A subtree whose field lies before the query's start holds no interval that overlaps the query. */
  lemma Pruned<P>(nodes: seq<Node<Interval, P>>, S: seq<set<nat>>, root: nat, max: seq<int>, c: nat, key: Interval)
    requires Shaped(nodes, S, root) && MaxInv(nodes, S, root, max) && c in S[root] && max[c] < key.low
    ensures forall n :: n in S[c] ==> n < |nodes| && !Overlaps(nodes[n].key, key) && !Overlaps(key, nodes[n].key)
  {
    MaxIsGreatestHigh(nodes, S, root, max, c);
  }

  /** The in-order listing of such a subtree has no overlapping entry. */
  lemma PrunedListing<P>(nodes: seq<Node<Interval, P>>, S: seq<set<nat>>, root: nat, max: seq<int>, c: nat, key: Interval)
    requires Shaped(nodes, S, root) && Ordered(nodes, S, root, Less) && MaxInv(nodes, S, root, max)
    requires c in S[root] && max[c] < key.low
    ensures Overlapping(Listing(nodes, S, root, c), key) == []
  {
    Pruned(nodes, S, root, max, c, key);
    IntervalLessTotal();
    ListingFacts(nodes, S, root, Less, c);
    OverlappingNone(Listing(nodes, S, root, c), key);
  }

  // ---------------------------------------------------------------------
  // The descent of search.
  // ---------------------------------------------------------------------

  /** Where the descent goes from x: left when the left child's field reaches the query's start, else right. */
  function SearchNext<P>(nodes: seq<Node<Interval, P>>, max: seq<int>, x: nat, key: Interval): nat
    requires x < |nodes| && |max| == |nodes| && nodes[x].left < |nodes|
  {
    if nodes[x].left != Nil && GreaterOrEqual(max[nodes[x].left], key.low) then nodes[x].left else nodes[x].right
  }

  /** No node of T holds an interval that overlaps key. */
  ghost predicate NoneOverlaps<P>(nodes: seq<Node<Interval, P>>, T: set<nat>, key: Interval)
    requires forall n :: n in T ==> n < |nodes|
  {
    forall n :: n in T ==> !Overlaps(key, nodes[n].key)
  }

  /**
   * One step of the descent from a node x that does not overlap key loses
   * nothing: when nothing below the chosen child overlaps key, nothing in
   * x's subtree does. Going left, an interval of the left subtree reaches
   * the query's start; since it does not overlap, it starts after the
   * query ends, and so does every interval of the right subtree, which
   * starts no earlier.
   */
  lemma SearchStep<P>(nodes: seq<Node<Interval, P>>, S: seq<set<nat>>, root: nat, max: seq<int>, x: nat, key: Interval)
    requires Shaped(nodes, S, root) && Ordered(nodes, S, root, Less) && MaxInv(nodes, S, root, max)
    requires x in S[root] && !Overlaps(key, nodes[x].key)
    ensures var y := SearchNext(nodes, max, x, key);
      (y == Nil || (y in S[root] && y in S[y])) && S[y] < S[x] &&
      (NoneOverlaps(nodes, S[y], key) ==> NoneOverlaps(nodes, S[x], key))
  {
    ChildLive(nodes, S, root, x);
    assert OrderedAt(nodes, S, Less, x);
    var l, r := nodes[x].left, nodes[x].right;
    if l != Nil && GreaterOrEqual(max[l], key.low) {
      if NoneOverlaps(nodes, S[l], key) {
        MaxIsGreatestHigh(nodes, S, root, max, l);
        var j :| j in S[l] && nodes[j].key.high == max[l];
        assert key.high < nodes[j].key.low;
        assert Less(nodes[j].key, nodes[x].key);
        forall n | n in S[r] ensures !Overlaps(key, nodes[n].key) {
          assert Less(nodes[x].key, nodes[n].key);
        }
      }
    } else if l != Nil {
      Pruned(nodes, S, root, max, l, key);
    }
  }

  // ---------------------------------------------------------------------
  // The in-order walk of searchInorder.
  // ---------------------------------------------------------------------

  /** The overlapping entries of a subtree's listing: those of the left subtree, the node's own, those of the right subtree. */
  lemma OverlappingSplit<P>(nodes: seq<Node<Interval, P>>, S: seq<set<nat>>, root: nat, z: nat, key: Interval)
    requires Shaped(nodes, S, root) && z in S[root]
    ensures z < |nodes| && nodes[z].left < |nodes| && nodes[z].right < |nodes|
    ensures nodes[z].left == Nil || nodes[z].left in S[root]
    ensures nodes[z].right == Nil || nodes[z].right in S[root]
    ensures Overlapping(Listing(nodes, S, root, z), key) ==
            Overlapping(Listing(nodes, S, root, nodes[z].left), key) +
            Overlapping([EntryOf(nodes[z])], key) +
            Overlapping(Listing(nodes, S, root, nodes[z].right), key)
  {
    ChildLive(nodes, S, root, z);
    var L := Listing(nodes, S, root, nodes[z].left);
    var R := Listing(nodes, S, root, nodes[z].right);
    var e := EntryOf(nodes[z]);
    assert Listing(nodes, S, root, z) == L + [e] + R;
    OverlappingAppend(L + [e], R, key);
    OverlappingAppend(L, [e], key);
  }

  /**
   * searchInorder: the in-order walk from z that appends to res every
   * interval overlapping key, entering a child only when its field reaches
   * the query's start. It appends exactly the overlapping entries of the
   * subtree's in-order listing, in that order.
   */
  method SearchInorder<P>(nodes: seq<Node<Interval, P>>, ghost S: seq<set<nat>>, ghost root: nat, max: seq<int>,
                          z: nat, key: Interval, res: seq<Entry<Interval, P>>) returns (out: seq<Entry<Interval, P>>)
    requires Shaped(nodes, S, root) && Ordered(nodes, S, root, Less) && MaxInv(nodes, S, root, max) && z in S[root]
    ensures out == res + Overlapping(Listing(nodes, S, root, z), key)
    decreases S[z]
  {
    OverlappingSplit(nodes, S, root, z, key);
    var l, r := nodes[z].left, nodes[z].right;
    ghost var A := Overlapping(Listing(nodes, S, root, l), key);
    ghost var B := Overlapping([EntryOf(nodes[z])], key);
    ghost var C := Overlapping(Listing(nodes, S, root, r), key);
    ChildLive(nodes, S, root, z);
    out := res;
    if l != Nil && GreaterOrEqual(max[l], key.low) {
      out := SearchInorder(nodes, S, root, max, l, key, out);
    } else if l != Nil {
      PrunedListing(nodes, S, root, max, l, key);
    }
    assert out == res + A;
    if Overlaps(nodes[z].key, key) {
      out := out + [Entry(nodes[z].key, nodes[z].payload)];
    }
    assert out == res + A + B;
    ghost var mid := out;
    if r != Nil && GreaterOrEqual(max[r], key.low) {
      out := SearchInorder(nodes, S, root, max, r, key, out);
    } else if r != Nil {
      PrunedListing(nodes, S, root, max, r, key);
    }
    assert out == mid + C;
    AppendAssoc(res, A, B);
    AppendAssoc(res, A + B, C);
  }

  // ---------------------------------------------------------------------
  // From nodes to contents.
  // ---------------------------------------------------------------------

  /** No live node overlaps key exactly when no interval of the contents does. */
  lemma NoneOverlapsContents<P>(nodes: seq<Node<Interval, P>>, S: seq<set<nat>>, root: nat, M: map<Interval, P>,
                                key: Interval)
    requires Shaped(nodes, S, root) && Abstracts(nodes, S, root, M)
    ensures NoneOverlaps(nodes, S[root], key) <==> forall k :: k in M ==> !Overlaps(key, k)
  {
    if NoneOverlaps(nodes, S[root], key) {
      forall k | k in M ensures !Overlaps(key, k) {
        var n :| n in S[root] && nodes[n].key == k;
      }
    }
  }

  /** An entry is kept exactly when it is in s and overlaps key. */
  lemma OverlappingMembers<P>(s: seq<Entry<Interval, P>>, key: Interval)
    ensures forall e :: e in Overlapping(s, key) <==> e in s && Overlaps(e.key, key)
  {
    var r := Overlapping(s, key);
    forall e | e in s && Overlaps(e.key, key) ensures e in r {
      var q :| 0 <= q < |s| && s[q] == e;
    }
  }

  /** A listing of M holds an entry exactly when M maps its key to its payload. */
  lemma ListsMapMembers<P>(s: seq<Entry<Interval, P>>, M: map<Interval, P>)
    requires ListsMap(s, M)
    ensures forall e :: e in s <==> e.key in M && M[e.key] == e.payload
  {
    forall e | e in s ensures e.key in M && M[e.key] == e.payload {
      var q :| 0 <= q < |s| && s[q] == e;
    }
  }

  /**
   * The overlapping entries of the whole listing, in key order, are exactly
   * the entries of the contents whose interval overlaps key; there are none
   * exactly when no interval of the contents overlaps key.
   */
  lemma OverlappingContents<P>(nodes: seq<Node<Interval, P>>, S: seq<set<nat>>, root: nat, M: map<Interval, P>,
                               key: Interval)
    requires Shaped(nodes, S, root) && Ordered(nodes, S, root, Less) && Abstracts(nodes, S, root, M)
    ensures SortedKeys(Overlapping(Listing(nodes, S, root, root), key), Less)
    ensures forall e :: e in Overlapping(Listing(nodes, S, root, root), key) <==>
                        e.key in M && M[e.key] == e.payload && Overlaps(e.key, key)
    ensures Overlapping(Listing(nodes, S, root, root), key) == [] <==> forall k :: k in M ==> !Overlaps(k, key)
  {
    IntervalLessTotal();
    ListingContents(nodes, S, root, Less, M);
    var s := Listing(nodes, S, root, root);
    var r := Overlapping(s, key);
    OverlappingSorted(s, key, Less);
    OverlappingMembers(s, key);
    ListsMapMembers(s, M);
    if r != [] {
      assert r[0] in r;
    } else {
      forall k | k in M ensures !Overlaps(k, key) {
        assert Entry(k, M[k]) in s;
      }
    }
  }
}

/**
 * The bst package: a plain, unbalanced binary search tree of int64 keys with
 * arbitrary payloads, and its read-only queries. The package builds no
 * tree itself and changes none; its nodes are modelled as values, a nil
 * pointer as Nil, and a returned node as the subtree rooted at it.
 */
module Bst {
  /** A node, or Go's nil pointer. */
  datatype Node<P> = Nil | Node(key: int, left: Node<P>, right: Node<P>, payload: P)

  /** The tree: its root, nil when the tree is empty. */
  datatype Tree<P> = Tree(root: Node<P>)

  /** The keys stored in the subtree at n. */
  ghost function Keys<P>(n: Node<P>): set<int> {
    if n == Nil then {} else Keys(n.left) + {n.key} + Keys(n.right)
  }

  /** s is n or a node below it. */
  ghost predicate SubtreeOf<P>(s: Node<P>, n: Node<P>) {
    s == n || (n != Nil && (SubtreeOf(s, n.left) || SubtreeOf(s, n.right)))
  }

  /**
   * Search-tree order: keys in a left subtree are smaller than the node's,
   * keys in a right subtree are no smaller.
   */
  ghost predicate Ordered<P>(n: Node<P>) {
    n == Nil ||
    (Ordered(n.left) && Ordered(n.right) &&
     (forall k :: k in Keys(n.left) ==> k < n.key) &&
     (forall k :: k in Keys(n.right) ==> n.key <= k))
  }

  // ---------------------------------------------------------------------
  // The reference definitions, by recursion.
  // ---------------------------------------------------------------------

  /** The descent by key: right when key is greater than the node's, left when smaller. */
  ghost function Find<P>(n: Node<P>, key: int): Node<P> {
    if n == Nil || n.key == key then n
    else if key > n.key then Find(n.right, key)
    else Find(n.left, key)
  }

  /** The end of the left links from n (Nil for Nil). */
  ghost function LeftMost<P>(n: Node<P>): Node<P> {
    if n == Nil || n.left == Nil then n else LeftMost(n.left)
  }

  /** The end of the right links from n (Nil for Nil). */
  ghost function RightMost<P>(n: Node<P>): Node<P> {
    if n == Nil || n.right == Nil then n else RightMost(n.right)
  }

  /** The descent ends at nil or at a node below n that holds key. */
  lemma {:induction false} FindFound<P>(n: Node<P>, key: int)
    ensures Find(n, key) == Nil || (SubtreeOf(Find(n, key), n) && Find(n, key).key == key)
  {
    if n != Nil && n.key != key {
      if key > n.key {
        FindFound(n.right, key);
      } else {
        FindFound(n.left, key);
      }
    }
  }

  /** In an ordered tree the descent ends at nil exactly when key is not stored. */
  lemma {:induction false} FindAbsent<P>(n: Node<P>, key: int)
    requires Ordered(n)
    ensures Find(n, key) == Nil <==> key !in Keys(n)
  {
    if n != Nil && n.key != key {
      if key > n.key {
        FindAbsent(n.right, key);
        assert key !in Keys(n.left);
      } else {
        FindAbsent(n.left, key);
        assert key !in Keys(n.right);
      }
    }
  }

  /**
   * The leftmost node of a non-empty subtree is a node of it with no left
   * child; in an ordered tree its key is the least.
   */
  lemma {:induction false} LeftMostLeast<P>(n: Node<P>)
    requires n != Nil
    ensures LeftMost(n) != Nil && LeftMost(n).left == Nil && SubtreeOf(LeftMost(n), n)
    ensures Ordered(n) ==> LeftMost(n).key in Keys(n) && forall k :: k in Keys(n) ==> LeftMost(n).key <= k
  {
    if n.left != Nil {
      LeftMostLeast(n.left);
    }
  }

  /**
   * The rightmost node of a non-empty subtree is a node of it with no right
   * child; in an ordered tree its key is the greatest.
   */
  lemma {:induction false} RightMostGreatest<P>(n: Node<P>)
    requires n != Nil
    ensures RightMost(n) != Nil && RightMost(n).right == Nil && SubtreeOf(RightMost(n), n)
    ensures Ordered(n) ==> RightMost(n).key in Keys(n) && forall k :: k in Keys(n) ==> k <= RightMost(n).key
  {
    if n.right != Nil {
      RightMostGreatest(n.right);
    }
  }

  // ---------------------------------------------------------------------
  // The loops of the package.
  // ---------------------------------------------------------------------

  /**
   * searchIterative: from node, go right while key is greater than the
   * node's key and left while it is smaller, until the key or nil is
   * reached. The result is nil or a node below node holding key; in an
   * ordered tree it is nil exactly when key is not stored.
   */
  method SearchIterative<P>(node: Node<P>, key: int) returns (r: Node<P>)
    ensures r == Find(node, key)
    ensures r == Nil || (SubtreeOf(r, node) && r.key == key)
    ensures Ordered(node) ==> (r == Nil <==> key !in Keys(node))
  {
    FindFound(node, key);
    if Ordered(node) {
      FindAbsent(node, key);
    }
    if node == Nil || node.key == key {
      return node;
    }
    r := node;
    while r != Nil && r.key != key
      invariant Find(r, key) == Find(node, key)
      decreases r
    {
      if key > r.key {
        r := r.right;
      } else {
        r := r.left;
      }
    }
  }

  /** min: follow left links to the end; nil for nil, else a leftmost node below node. */
  method Min<P>(node: Node<P>) returns (r: Node<P>)
    ensures r == LeftMost(node)
    ensures r == Nil <==> node == Nil
    ensures r != Nil ==> r.left == Nil && SubtreeOf(r, node)
    ensures r != Nil && Ordered(node) ==> r.key in Keys(node) && forall k :: k in Keys(node) ==> r.key <= k
  {
    if node != Nil {
      LeftMostLeast(node);
    }
    r := node;
    while r != Nil && r.left != Nil
      invariant LeftMost(r) == LeftMost(node)
      decreases r
    {
      r := r.left;
    }
  }

  /** max: follow right links to the end; nil for nil, else a rightmost node below node. */
  method Max<P>(node: Node<P>) returns (r: Node<P>)
    ensures r == RightMost(node)
    ensures r == Nil <==> node == Nil
    ensures r != Nil ==> r.right == Nil && SubtreeOf(r, node)
    ensures r != Nil && Ordered(node) ==> r.key in Keys(node) && forall k :: k in Keys(node) ==> k <= r.key
  {
    if node != Nil {
      RightMostGreatest(node);
    }
    r := node;
    while r != Nil && r.right != Nil
      invariant RightMost(r) == RightMost(node)
      decreases r
    {
      r := r.right;
    }
  }

  // ---------------------------------------------------------------------
  // The tree's methods.
  // ---------------------------------------------------------------------

  /** Search: nil on an empty tree, else the node searchIterative finds. */
  method Search<P>(t: Tree<P>, key: int) returns (r: Node<P>)
    ensures t.root == Nil ==> r == Nil
    ensures r == Nil || (SubtreeOf(r, t.root) && r.key == key)
    ensures Ordered(t.root) ==> (r == Nil <==> key !in Keys(t.root))
  {
    if t.root == Nil {
      return Nil;
    }
    r := SearchIterative(t.root, key);
  }

  /** Tree.Min: the node with the lowest key, nil on an empty tree. */
  method TreeMin<P>(t: Tree<P>) returns (r: Node<P>)
    ensures r == Nil <==> t.root == Nil
    ensures r != Nil ==> r.left == Nil && SubtreeOf(r, t.root)
    ensures r != Nil && Ordered(t.root) ==> r.key in Keys(t.root) && forall k :: k in Keys(t.root) ==> r.key <= k
  {
    r := Min(t.root);
  }

  /** Tree.Max: the node with the highest key, nil on an empty tree. */
  method TreeMax<P>(t: Tree<P>) returns (r: Node<P>)
    ensures r == Nil <==> t.root == Nil
    ensures r != Nil ==> r.right == Nil && SubtreeOf(r, t.root)
    ensures r != Nil && Ordered(t.root) ==> r.key in Keys(t.root) && forall k :: k in Keys(t.root) ==> k <= r.key
  {
    r := Max(t.root);
  }
}

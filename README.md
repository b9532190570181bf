# go-trees in Dafny

A model of the go-trees module's core in Dafny, with proofs about it:

- the sentinel-based red-black tree of package `redblack`;
- the interval tree of package `interval`, which is the same red-black tree keyed by intervals and carrying a `max` field per node;
- the pointer-based binary search queries of package `bst`.

## How the model is laid out

**Arena.** Each red-black tree is a `class Tree` whose nodes live in an arena, `nodes: seq<Node<K, P>>`.

- A node is named by its index. `left`, `right` and `parent` are indices.
- Index 0 (`Nil`) is the shared black sentinel, the Go `t.sentinel`. Its `parent` field is written by transplant, as in Go.
- `newLeaf` appends to the arena.
- A deleted node stays in the arena but is no longer reachable from `root`.

**Ghost fields.** These carry what the proofs need:

- `S[i]`: the set of nodes in the subtree of `i`. The live nodes are `S[root]`.
- `bh[i]`: the black height below `i`.
- `M: map<K, P>`: the abstract contents, key to payload.

**`Valid()`** says four things:

- the arena is a binary tree with consistent parent links (`Shaped`);
- keys are in search-tree order (`Ordered`);
- the red-black colour rules hold (`Coloured`, `Balanced`);
- the live nodes list exactly `M` (`Abstracts`).

Every public mutator is specified by its effect on `M` and by keeping `Valid()`. The queries are specified against `M`.

**The shared engine.** Rotation, attach, transplant, the fix-ups and their invariants are stated once, generic in the key type and the order. They live in the modules:

- `RbCore`: arena, shape, order, colours, contents;
- `RbRotate`;
- `RbInsert`;
- `RbDelete`;
- `RbOrder`;
- `RbListing`: in-order listing;
- `RbQuery`: extremes, find, successor, height bound.

The `RedBlack.Tree` class (`int` keys) and the `IntervalTree.Tree` class (`Interval` keys) then follow the Go methods step by step over that engine.

- `fixupInsert` and `fixupDelete` are `while` loops, as in Go. Each case is its own method, so the loop body is one call.
- The interval tree keeps Go's per-node `max` in a parallel `max: seq<int>` field. `IntervalMax` says what the field means: the greatest `high` in the subtree (`MaxIsGreatestHigh`). It also proves how each rotation, attach and deletion step keeps the field up to date.

**Packages.**

- **`Intervals`:** the interval algebra of `interval/interval.go`.
- **`IntervalSearch`:** the recursive all-overlaps walk.
- **`Bst`:** package `bst`, on values. A `Node` is a datatype (`Nil` or a node with a key, payload and two children).

## Model

| member | source | states |
|---|---|---|
| RedBlack.LessIsTotal | redblack/tree.go:147-161 | the key order the Go comparisons use is a strict total order |
| RedBlack.Tree.constructor | redblack/tree.go:12-20 | a new tree is valid and empty, its root is the black sentinel, and the sentinel carries the given payload |
| RedBlack.Tree.EmptyIffNoRoot | redblack/tree.go:23-32 | the root is the sentinel exactly when the tree is empty; otherwise the root's key and payload are an entry of the contents |
| RedBlack.Tree.Root | redblack/tree.go:23-32 | no payload exactly when the tree is empty; otherwise the root's payload, which is the payload stored for the root's key |
| RedBlack.Tree.Height | redblack/tree.go:36-41 | the height of the tree as `height` computes it (-1 when empty, exactly then), and 2^((h+1)/2) <= n+1 for n entries |
| RedBlack.Tree.MinNode | redblack/tree.go:131-137 | from a live node, the leftmost node of its subtree: it has no left child and its key is below every other key in the subtree; the sentinel maps to itself |
| RedBlack.Tree.MaxNode | redblack/tree.go:139-145 | from a live node, the rightmost node of its subtree, whose key is above every other key in it |
| RedBlack.Tree.Min | redblack/tree.go:44-55 | no payload exactly when empty; otherwise the payload of the least key |
| RedBlack.Tree.Max | redblack/tree.go:58-69 | no payload exactly when empty; otherwise the payload of the greatest key |
| RedBlack.Tree.SearchNode | redblack/tree.go:147-161 | the descent finds the node holding the key in the subtree, and the sentinel exactly when no node there holds it |
| RedBlack.Tree.Search | redblack/tree.go:72-87 | the payload stored for the key, or none exactly when the key is absent |
| RedBlack.Tree.SuccessorNode | redblack/tree.go:112-129 | the node with the next greater key; the sentinel when the key is the greatest; nil only from the sentinel |
| RedBlack.Tree.Successor | redblack/tree.go:91-102 | as written: none for an absent key, the payload of the next greater key, and the sentinel's payload when the key is the greatest |
| RedBlack.Tree.SuccessorChecked | redblack/tree.go:91-102 | corrected: none exactly when the key is absent or the greatest, else the payload of the next greater key |
| RedBlack.Tree.InOrder | redblack/search.go:10-23 | all entries, sorted by key, each stored entry once, and nothing else |
| RedBlack.ResultsInOrder | redblack/search.go:25-42 | appends the in-order listing of a subtree to the accumulator |
| RedBlack.Tree.RotateLeft | redblack/tree.go:163-187 | the Go relinking of x, its right child and their parent; keeps the shape, order and contents |
| RedBlack.Tree.RotateRight | redblack/tree.go:189-210 | the mirror of RotateLeft |
| RedBlack.Tree.NewLeaf | redblack/tree.go:212-219 | appends a red node with the key and payload and no children, a leaf, and changes nothing else |
| RedBlack.Tree.Insert | redblack/insert.go:15-46 | attaching a fresh key and fixing up adds exactly that entry and leaves the tree valid |
| RedBlack.Tree.FixupInsert | redblack/insert.go:48-87 | from the one-red-violation state left by attach, restores every red-black rule and keeps the contents |
| RedBlack.Tree.InsertRepair | redblack/insert.go:50-84 | one loop round: the case split on the uncle's colour and z's side, keeping the invariant and decreasing the measure |
| RedBlack.Tree.InsertRecolour | redblack/insert.go:54-58 | case 1: recolouring moves the violation two levels up |
| RedBlack.Tree.InsertInnerLeft | redblack/insert.go:59-61 | case 2, left side: the rotation turns an inner child into an outer one |
| RedBlack.Tree.InsertOuterLeft | redblack/insert.go:62-65 | case 3, left side: recolour and rotate, after which the parent is black |
| RedBlack.Tree.InsertInnerRight | redblack/insert.go:76-78 | case 2, right side |
| RedBlack.Tree.InsertOuterRight | redblack/insert.go:79-82 | case 3, right side |
| RedBlack.Tree.Upsert | redblack/insert.go:4-13 | the contents become old contents with key set to payload; an existing key only has its payload overwritten in place; a new key adds one node |
| RedBlack.Tree.Delete | redblack/delete.go:4-11 | the contents lose the key; an absent key changes nothing |
| RedBlack.Tree.DeleteNode | redblack/delete.go:13-51 | removing a live node removes exactly its key and leaves the tree valid |
| RedBlack.Tree.RemoveNoLeft | redblack/delete.go:21-23 | no left child: transplant the right child, leaving a black deficit at x exactly when the removed node was black |
| RedBlack.Tree.RemoveNoRight | redblack/delete.go:24-26 | no right child: transplant the left child |
| RedBlack.Tree.RemoveTwo | redblack/delete.go:27-46 | two children: the successor takes z's place and colour; the deficit is at the successor's right child when it was black |
| RedBlack.Tree.SpliceSuccessor | redblack/delete.go:29-46 | the two transplants and relinks of the two-children case |
| RedBlack.Tree.FixupDelete | redblack/delete.go:66-135 | from a one-black deficit at x, restores every red-black rule and keeps the contents |
| RedBlack.Tree.DeleteFinish | redblack/delete.go:134 | colouring x black ends the repair with a valid tree |
| RedBlack.Tree.DeleteRepair | redblack/delete.go:67-132 | one loop round, split on x's side |
| RedBlack.Tree.DeleteRecolour | redblack/delete.go:81-83 | case 2: recolouring the sibling moves the deficit to the parent |
| RedBlack.Tree.DeleteRepairLeft | redblack/delete.go:68-99 | left side: case 1 when the sibling is red, then cases 2 to 4 |
| RedBlack.Tree.DeleteRedSiblingLeft | redblack/delete.go:71-78 | case 1: rotation gives x a black sibling, with the deficit unchanged |
| RedBlack.Tree.DeleteBlackSiblingLeft | redblack/delete.go:80-99 | the switch on a black sibling's children: case 2, case 3, or case 4, which ends the loop |
| RedBlack.Tree.DeleteNearRedLeft | redblack/delete.go:84-90 | case 3: rotation at the sibling leaves a black sibling whose far child is red, for case 4 in the next round |
| RedBlack.Tree.DeleteFarRedLeft | redblack/delete.go:91-98 | case 4: recolour and rotate remove the deficit, and x becomes the root |
| RedBlack.Tree.DeleteRepairRight | redblack/delete.go:100-132 | the mirror of DeleteRepairLeft |
| RedBlack.Tree.DeleteRedSiblingRight | redblack/delete.go:103-110 | case 1, right side |
| RedBlack.Tree.DeleteBlackSiblingRight | redblack/delete.go:112-131 | the switch of cases 2 to 4, right side |
| RedBlack.Tree.DeleteNearRedRight | redblack/delete.go:116-122 | case 3, right side |
| RedBlack.Tree.DeleteFarRedRight | redblack/delete.go:123-131 | case 4, right side |
| RedBlack.PayloadOverwritten | redblack/insert.go:8-11 | overwriting the payload of a found key keeps the tree valid, with the contents updated at that key |
| RedBlack.KeyAbsent | redblack/insert.go:8-12 | the descent failing to find a key means the key is absent from the contents |
| RedBlack.NextUnique | redblack/tree.go:112-129 | the next greater key, when there is one, is unique |
| RedBlack.NoNextKey | redblack/tree.go:112-129 | a greatest key has no next key |
| RedBlack.NextExcludesLast | redblack/tree.go:112-129 | a key with a next key is not the greatest |
| RedBlack.GreatestKeySuccessor | redblack/tree.go:91-129 | on a one-key tree, where successor returns the sentinel, the as-written Successor of that key yields "sentinel" and the checked one yields nothing |
| RedBlack.SingleKeyLifecycle | redblack/insert.go:4-13 | upsert, overwrite, search and delete (redblack/delete.go:4-11) of one key: the payloads found are "a" then "b", and the emptied tree has height -1 and no root |
| IntervalTree.Tree.constructor | interval/tree.go:37-45 | a new tree is valid and empty, and the sentinel carries the given payload |
| IntervalTree.Tree.EmptyIffNoRoot | interval/tree.go:49-61 | the root is the sentinel exactly when the tree is empty |
| IntervalTree.Tree.Root | interval/tree.go:49-61 | "tree is empty" exactly when empty; otherwise the root's interval and payload, an entry of the contents |
| IntervalTree.Tree.Height | interval/tree.go:65-78 | the height (-1 exactly when empty), logarithmic in the number of entries |
| IntervalTree.Tree.MinNode | interval/tree.go:165-171 | the leftmost node of a live node's subtree, least in interval order |
| IntervalTree.Tree.Min | interval/tree.go:82-96 | "tree is empty" exactly when empty; otherwise the entry with the least interval |
| IntervalTree.Tree.UpdateMax | interval/tree.go:173-183 | z's field becomes the greatest of its high and its children's fields; nothing else changes |
| IntervalTree.Tree.FindExact | interval/insert.go:15 | the `findExact` call of Upsert and Delete: the node holding exactly the key, and the sentinel exactly when none does |
| IntervalTree.Tree.NewLeaf | interval/tree.go:151-163 | appends a red leaf whose field is its own high |
| IntervalTree.Tree.RotateLeft | interval/tree.go:98-124 | the relinking of rotateLeft, keeping shape, order and contents; corrected refresh of both moved fields (see Findings) |
| IntervalTree.Tree.RotateRight | interval/tree.go:126-149 | the mirror; corrected refresh of both moved fields |
| IntervalTree.Tree.RotateLeftAsWritten | interval/tree.go:98-124 | the same relinking with only the demoted node's field refreshed, as written at line 123 |
| IntervalTree.Tree.RotateRightAsWritten | interval/tree.go:126-149 | the same relinking with only the promoted node's field refreshed, as written at line 148 |
| IntervalTree.Tree.Insert | interval/insert.go:22-59 | attaching a fresh interval and fixing up adds exactly that entry and keeps every field up to date |
| IntervalTree.Tree.Descend | interval/insert.go:29-41 | the descent ends at the attach point and raises each field on the way to at least the new high |
| IntervalTree.Tree.Hang | interval/insert.go:43-58 | linking the leaf below the attach point and fixing up gives a valid tree with the new entry |
| IntervalTree.Tree.FixupInsert | interval/insert.go:68-107 | restores the red-black rules, keeps contents and every field up to date |
| IntervalTree.Tree.InsertRepair | interval/insert.go:70-104 | one loop round of the case split |
| IntervalTree.Tree.InsertRecolour | interval/insert.go:74-78 | case 1: recolouring, which leaves the fields as they are |
| IntervalTree.Tree.InsertInnerLeft | interval/insert.go:79-81 | case 2, left side |
| IntervalTree.Tree.InsertOuterLeft | interval/insert.go:82-85 | case 3, left side |
| IntervalTree.Tree.InsertInnerRight | interval/insert.go:96-98 | case 2, right side |
| IntervalTree.Tree.InsertOuterRight | interval/insert.go:99-102 | case 3, right side |
| IntervalTree.Tree.Upsert | interval/insert.go:5-20 | the contents become old contents with key set to payload; an existing interval only has its payload overwritten, fields unchanged |
| IntervalTree.Tree.Delete | interval/delete.go:4-15 | the contents lose the interval; an absent interval changes nothing |
| IntervalTree.Tree.DeleteNode | interval/delete.go:17-63 | removing a live node removes exactly its interval and keeps every field up to date |
| IntervalTree.Tree.RecalcMax | interval/insert.go:61-66 | started at the sentinel it changes nothing; started below the only stale fields, every field is up to date afterwards |
| IntervalTree.Tree.RemoveNoLeft | interval/delete.go:28-30 | no left child: transplant the right child |
| IntervalTree.Tree.RemoveNoRight | interval/delete.go:31-33 | no right child: transplant the left child |
| IntervalTree.Tree.RemoveTwo | interval/delete.go:34-56 | two children: splice in the successor; the fields are stale only on the path above the refresh start |
| IntervalTree.Tree.SpliceSuccessor | interval/delete.go:36-56 | the transplants and relinks of the two-children case |
| IntervalTree.Tree.FixupDelete | interval/delete.go:78-148 | from a black deficit, restores every rule, keeps contents and fields |
| IntervalTree.Tree.DeleteFinish | interval/delete.go:147 | colouring x black ends the repair |
| IntervalTree.Tree.DeleteRepair | interval/delete.go:79-145 | one loop round, split on x's side |
| IntervalTree.Tree.DeleteRecolour | interval/delete.go:92-94 | case 2 |
| IntervalTree.Tree.DeleteRepairLeft | interval/delete.go:80-111 | left side: case 1, then cases 2 to 4 |
| IntervalTree.Tree.DeleteRedSiblingLeft | interval/delete.go:83-90 | case 1 |
| IntervalTree.Tree.DeleteBlackSiblingLeft | interval/delete.go:92-111 | case 2, or case 3 when the far child is black followed by case 4 in the same round |
| IntervalTree.Tree.DeleteNearRedLeft | interval/delete.go:96-103 | case 3, which leaves a black sibling whose far child is red |
| IntervalTree.Tree.DeleteFarRedLeft | interval/delete.go:104-110 | case 4, after which x is the root |
| IntervalTree.Tree.DeleteRepairRight | interval/delete.go:112-145 | the mirror of DeleteRepairLeft |
| IntervalTree.Tree.DeleteRedSiblingRight | interval/delete.go:115-122 | case 1, right side |
| IntervalTree.Tree.DeleteBlackSiblingRight | interval/delete.go:124-144 | cases 2 to 4, right side, case 3 followed by case 4 |
| IntervalTree.Tree.DeleteNearRedRight | interval/delete.go:128-135 | case 3, right side |
| IntervalTree.Tree.DeleteFarRedRight | interval/delete.go:137-143 | case 4, right side |
| IntervalTree.Tree.Search | interval/search.go:82-92 | some overlapping node of the subtree, or the sentinel exactly when no node there overlaps the key |
| IntervalTree.Tree.FindFirstOverlapping | interval/search.go:15-33 | the not-found error exactly when no stored interval overlaps the key; otherwise a stored entry that overlaps it |
| IntervalTree.Tree.FindAllOverlapping | interval/search.go:38-58 | the not-found error exactly when nothing overlaps; otherwise every overlapping entry, each once, in interval order |
| IntervalTree.PayloadOverwritten | interval/insert.go:15-18 | overwriting a payload keeps the tree valid, contents updated at that key |
| IntervalTree.KeyAbsent | interval/insert.go:15-19 | a failed exact search means the interval is absent |
| IntervalTree.RotateLeftRefreshed | interval/tree.go:98-124 | a left rotation with the corrected refresh keeps shape, order, contents and every field |
| IntervalTree.RotateRightRefreshed | interval/tree.go:126-149 | the same for a right rotation |
| IntervalTree.AttachKeepsMax | interval/insert.go:43-56 | attaching the leaf below raised fields gives fields that are all up to date |
| IntervalTree.SingleIntervalLifecycle | interval/insert.go:5-20 | after upserting [1,5]: the root is that entry with field 5; a query [4,6] finds it; [6,7] finds nothing; deleting empties the tree |
| IntervalTree.SentinelRecalcScenario | interval/delete.go:58 | after the sentinel-transplant of [7,100], recalcMax from the sentinel leaves the childless root [5,6] with field 100; from the sentinel's parent it gives 6 |
| IntervalMax.Later | interval/tree.go:176-182 | the later of two instants: at least both, and one of them |
| IntervalMax.UpdatedMax | interval/tree.go:173-183 | the refreshed field: at least the node's high and each child's field, and equal to one of them |
| IntervalMax.MaxIsGreatestHigh | interval/tree.go:173-183 | with every field up to date, a node's field is the greatest high in its subtree |
| IntervalMax.RotateLeftMax | interval/tree.go:98-124 | refreshing the demoted and then the promoted node after a left rotation keeps every field up to date |
| IntervalMax.RotateRightMax | interval/tree.go:126-149 | the same for a right rotation |
| IntervalMax.RaisedStep | interval/insert.go:29-41 | one descent step raises exactly the field of the node passed |
| IntervalMax.AttachMax | interval/insert.go:43-56 | the raised fields plus the leaf's own high are all up to date after attach |
| IntervalMax.RecalcStep | interval/insert.go:61-66 | one refresh moves the only stale fields up to the parent |
| IntervalMax.RecalcDone | interval/insert.go:61-66 | with nothing left stale, every field is up to date |
| IntervalMax.LeftRefreshAsWritten | interval/tree.go:123 | the as-written refresh after rotateLeft changes only the demoted node's field |
| IntervalMax.RightRefreshAsWritten | interval/tree.go:148 | the as-written refresh after rotateRight changes only the promoted node's field |
| IntervalMax.RotateLeftAsWrittenStale | interval/tree.go:123 | from a tree with every field up to date, the as-written left rotation leaves the new root [2,3] with field 4 above [1,100]; the corrected one does not |
| IntervalMax.RotateRightAsWrittenStale | interval/tree.go:148 | the as-written right rotation leaves [3,4] with field 100 though its subtree is only [3,4]; the corrected one does not |
| IntervalMax.RecalcFromSentinelStale | interval/delete.go:28-30 | deleting the red child [7,100] of [5,6] transplants the sentinel, and the root's field 100 is stale |
| Intervals.NewInterval | interval/interval.go:16-25 | an error exactly when the end is before the start; otherwise the interval from start to end |
| Intervals.Less | interval/interval.go:27-29 | strict lexicographic order on (low, high) |
| Intervals.Overlaps | interval/interval.go:31-33 | for well-formed intervals, overlap exactly when some instant lies in both |
| Intervals.Intersects | interval/interval.go:35-37 | containing instant t is overlapping the point interval [t,t] |
| Intervals.GreaterOrEqual | interval/interval.go:43-45 | t1 is after or equal to t2 exactly when it is not before it |
| Intervals.LessTrichotomy | interval/interval.go:27-29 | of two distinct intervals exactly one is less; an interval is not less than itself |
| Intervals.LessTransitive | interval/interval.go:27-29 | less is transitive |
| Intervals.OverlapsSymmetric | interval/interval.go:31-33 | overlap does not depend on argument order |
| Intervals.TouchingOverlap | interval/interval.go:31-33 | intervals sharing only an endpoint overlap |
| IntervalSearch.IntervalLessTotal | interval/interval.go:27-29 | interval order is a strict total order |
| IntervalSearch.Overlapping | interval/search.go:69-75 | the reference all-overlaps filter: exactly the entries of the listing that overlap the key |
| IntervalSearch.SearchInorder | interval/search.go:60-80 | the pruned walk appends exactly the overlapping entries of the subtree's in-order listing |
| IntervalSearch.OverlappingSorted | interval/search.go:60-80 | filtering a sorted listing keeps it sorted |
| IntervalSearch.OverlappingNone | interval/search.go:53-55 | with no overlapping entry the filter is empty |
| IntervalSearch.OverlappingContents | interval/search.go:38-58 | the filtered listing is sorted, holds exactly the overlapping entries of the contents, and is empty exactly when nothing overlaps |
| RbListing.ListingContents | redblack/search.go:25-42 | the in-order listing is sorted, lists exactly the contents, and has one entry per live node |
| RbListing.ListingOfContents | redblack/search.go:10-23 | two valid trees with the same contents have the same listing |
| RbListing.RotateLeftListing | redblack/tree.go:163-187 | a left rotation keeps the in-order listing |
| RbListing.RotateRightListing | redblack/tree.go:189-210 | a right rotation keeps the in-order listing |
| RbQuery.ExtremesOfContents | redblack/tree.go:131-145 | the leftmost key is the least and the rightmost the greatest of the contents |
| RbQuery.FindContents | redblack/tree.go:147-161 | the descent finds the key exactly when it is stored, with its payload |
| RbQuery.NextOfContents | redblack/tree.go:112-129 | the next node in the tree holds the next greater key of the contents |
| RbQuery.HeightBound | redblack/tree.go:104-110 | height + 1 is at most twice the black height |
| RbQuery.SizeBound | redblack/tree.go:104-110 | a subtree of black height b has at least 2^b - 1 nodes |
| RbQuery.HeightLogarithmic | redblack/tree.go:36-41 | 2^((h+1)/2) <= n + 1 for a tree of height h and n nodes |
| RbRotate.RotateLeftShaped | redblack/tree.go:163-187 | a left rotation gives a tree with the same nodes, entries and colours |
| RbInsert.AttachAsWritten | redblack/insert.go:30-43 | the Go statement sequence of attach yields the arena the proofs use |
| RbInsert.AttachInv | redblack/insert.go:30-43 | a fresh attached red leaf leaves at most the one red violation fixupInsert repairs |
| RbInsert.Case1AsWritten | redblack/insert.go:54-58 | the Go recolouring statements yield the arena the case 1 proof uses |
| RbInsert.Case1 | redblack/insert.go:54-58 | case 1 keeps the shape, moves the violation to the grandparent and decreases the measure |
| RbInsert.Case2Left | redblack/insert.go:59-61 | case 2 keeps the colour rules and decreases the measure |
| RbInsert.Case3Left | redblack/insert.go:62-65 | case 3 ends with a black parent |
| RbInsert.InsertFinish | redblack/insert.go:86 | colouring the root black after the loop gives a valid tree |
| RbDelete.NoLeft | redblack/delete.go:21-23 | transplanting the right child removes the key and leaves a deficit exactly when the node was black |
| RbDelete.TwoChildren | redblack/delete.go:27-46 | splicing in the successor removes the key, with a deficit at its right child exactly when the successor was black |
| RbDelete.DelCase1Left | redblack/delete.go:71-78 | case 1 gives x a black sibling, with the deficit kept |
| RbDelete.DelCase2 | redblack/delete.go:81-83 | case 2 moves the deficit to the parent, closer to the root |
| RbDelete.DelCase3Left | redblack/delete.go:84-90 | case 3 leaves a sibling whose far child is red |
| RbDelete.DelCase4Left | redblack/delete.go:91-98 | case 4 removes the deficit |
| RbDelete.DeleteDone | redblack/delete.go:134 | colouring x black at the end gives a valid tree |
| RbDelete.Transplanting | redblack/delete.go:53-64 | transplant's relinking, including the write to the sentinel's parent |
| RbOrder.Overwritten | redblack/insert.go:8-11 | changing one live node's payload keeps the tree valid with the contents updated |
| Bst.SearchIterative | bst/tree.go:39-53 | the node holding the key on the search path, or nil; on an ordered tree, nil exactly when the key is absent |
| Bst.FindFound | bst/tree.go:39-53 | what the search returns is nil or a subtree holding the key |
| Bst.FindAbsent | bst/tree.go:39-53 | on an ordered tree the search misses exactly when the key is absent |
| Bst.Min | bst/tree.go:31-37 | the leftmost node: nil exactly for nil, and on an ordered tree it holds the least key |
| Bst.Max | bst/tree.go:23-29 | the rightmost node, holding the greatest key of an ordered tree |
| Bst.LeftMostLeast | bst/tree.go:31-37 | the leftmost node has no left child and holds the least key of an ordered tree |
| Bst.RightMostGreatest | bst/tree.go:23-29 | the rightmost node has no right child and holds the greatest key |
| Bst.Search | bst/tree.go:5-11 | nil for an empty tree, otherwise the searchIterative result |
| Bst.TreeMin | bst/tree.go:14-16 | the tree's least node, nil exactly when empty |
| Bst.TreeMax | bst/tree.go:19-21 | the tree's greatest node, nil exactly when empty |

## Left out

- **Locking.** The `sync.RWMutex` locking of every public method is left out. The model is sequential.
- **Time values.** `time.Time` is modelled as `int`; `Before`, `After` and `Equal` become `<`, `>` and `==`. Go's `less` compares `i.low == x.low` on the struct values (interval/interval.go:28), which the model treats as instant equality. Monotonic-clock readings and locations are not modelled.
- **Integer widths.** `int64` keys are unbounded `int`. The `float64` of `height` becomes `int`, which is exact for any real tree height.
- **Payloads.** `interface{}` payloads are a type parameter `P`. The sentinel's payload is a constructor parameter; the Go constructors fix it to the string "sentinel", as `GreatestKeySuccessor` does.
- **Nil versus none.** For `Root`, `Min`, `Max`, `Search` and `Successor` (redblack/tree.go:23-102), Go returns nil both for a stored nil payload and for a missing key or empty tree. `Option` tells the two apart; a stored nil payload is `Some` of a nil-like value of `P`.
- **Empty slices.** `InOrder` and `FindAllOverlapping` return a nil slice when there is nothing (redblack/search.go:15, interval/search.go:43,54). The model returns `[]` and the `ErrNotFound` outcome.
- **Error text.** The error message is the unformatted constant `noIntervalErrMsg`. Go formats it with `fmt.Sprintf` and the key (interval/search.go:20,26,43,54), and `String` (interval/interval.go:39-41) is not modelled.
- **The `nodes` map.** The `inorderResult.nodes` map of `searchInorder` (interval/search.go:70) is never read, and the model leaves it out. So is the panic on a nil result (interval/search.go:61-63), which no caller can reach.
- **findExact.** It is called by interval `Upsert` and `Delete` (interval/insert.go:15, interval/delete.go:12) but is not part of this model's sources. `IntervalTree.Tree.FindExact` models it as the search-tree descent on the exact interval, with the contract that it finds the node holding the key.
- **Type names.** interval/search.go:15 declares its methods on `IntervalTree`, while interval/tree.go:24 names the type `Tree`. redblack/types.go names the type `RBTree`, while the methods are declared on `Tree`. The model has one tree class per package.
- IntervalTree.Tree.Search: promises some overlapping node, not the first one the Go descent meets. For example, with root [5,10], left child [1,3] and query [2,6], Go returns [5,10]. The contract allows any overlapping entry.
- IntervalTree.Tree.FindFirstOverlapping: the same abstraction. It promises a stored entry that overlaps the key, not which one.
- **Test scenarios.** `RedBlack.Tree.Upsert`, `RedBlack.Tree.Delete`, `IntervalTree.Tree.Upsert` and `IntervalTree.Tree.Delete` state the new contents and `Valid()`. They do not state the exact shape, colours or `max` fields. So the tree shapes checked in redblack/insert_test.go:77-145, redblack/delete_test.go:94-121, interval/insert_test.go:129-220 and interval/delete_test.go:98-175 do not follow from the contracts. Only the single-key lifecycles and the three stale-field scenarios are proved on concrete trees.
- **bst as values.** `bst` nodes are values: pointer identity, aliasing and the `Indexer` interface (bst/types.go:5-7) are not modelled. The model cannot tell two equal subtrees apart.
- **Corrected interval refreshes.** `IntervalTree.Tree.RotateLeft`, `IntervalTree.Tree.RotateRight` and `IntervalTree.Tree.DeleteNode` use the corrected max refreshes listed under Findings, so their `max` fields differ from what the Go code computes on the inputs shown there. The as-written versions are modelled beside them.
- **Fix-up structure.** `fixupInsert` and `fixupDelete` keep their `while` loop, but the body of each case is a separate method. In package `redblack` the deletion cases are a `switch`, so case 3 ends its round and case 4 follows in the next one (redblack/delete.go:80-99). In package `interval` case 4 follows case 3 within the same round (interval/delete.go:95-111). Each model follows its own package.
- **Not modelled.** Benchmarks and the test files themselves are not modelled. The `Key` type with its `Less` method, used at redblack/tree.go:147-161 and redblack/insert.go:23, is not part of this model's sources. The model uses `int` keys ordered by `<`, matching the `int64` key of the node type (redblack/types.go).

## Findings

| source | as written | input that shows it | evidently intended | confidence | as-written member | corrected member |
|---|---|---|---|---|---|---|
| interval/tree.go:123 | after rotateLeft only the demoted node x has its max refreshed; the promoted y keeps its old field | Upsert [1,100], [2,3], [3,4]: the root [2,3] keeps max 4 with [1,100] below it | refresh x and then y, so y's field covers its new subtree | not executed | IntervalTree.Tree.RotateLeftAsWritten, IntervalMax.RotateLeftAsWrittenStale | IntervalMax.RotateLeftMax, IntervalTree.Tree.RotateLeft |
| interval/tree.go:148 | after rotateRight only the promoted node y has its max refreshed; the demoted x keeps its old field | Upsert [3,4], [2,100], [1,2]: [3,4] keeps max 100 though its subtree is only [3,4] | refresh x and then y | not executed | IntervalTree.Tree.RotateRightAsWritten, IntervalMax.RotateRightAsWrittenStale | IntervalMax.RotateRightMax, IntervalTree.Tree.RotateRight |
| interval/delete.go:58 | recalcMax(x) starts at x, which is the sentinel when the removed node had no children, so no ancestor is refreshed | Upsert [5,6], [7,100], then Delete [7,100]: the root [5,6] keeps max 100 | start at the sentinel's parent, the first node whose subtree changed | not executed | IntervalTree.SentinelRecalcScenario, IntervalMax.RecalcFromSentinelStale | IntervalTree.Tree.RecalcMax, IntervalTree.Tree.DeleteNode |
| redblack/tree.go:97 | Successor checks the result only against nil, but successor returns the sentinel for the greatest key (redblack/tree.go:128) | Upsert 3, then Successor(3): returns the payload "sentinel" | return nil when there is no greater key | not executed | RedBlack.Tree.Successor, RedBlack.GreatestKeySuccessor | RedBlack.Tree.SuccessorChecked |

# SearchTree: an arena-indexed order-statistics AVL tree, in Dafny

This project models the `SearchTree` of `src/os_tree.cpp`. It is a balanced
binary search tree of `int` keys that answers rank and range-count queries.

All nodes live in one growable vector. Each node holds a key, a height, a
subtree size, handles of its left child, right child and parent (`-1` for
none), and an `is_active` flag. Slot 0 is a permanent sentinel with key
`-999`, and its left child is the real root.

`insert` works in three steps:
1. It walks down with a `NodeNavigator` cursor to the key or to the node
   where the key belongs.
2. It hangs a new leaf there with `add_node`.
3. It walks back up from the parent of the node the leaf hangs under,
   calling `balance_node` on each node until it reaches the sentinel. That
   call refreshes the node's height and size and applies the AVL left-left,
   right-right, left-right and right-left rotations. The node the leaf hangs
   under is not balanced; `add_node` only refreshes its height and size.

The queries are read-only:
- `rank(x)` is the number of keys `<= x`. It uses the stored subtree sizes.
- `count_in_range(a, b)` is `rank(b) - rank(a - 1)`.
- `print_tree_structure` writes the tree as nested parentheses.

The model has these modules:
- **`OsTreeModel`**: the node record and a value-level `Tree`. Each tree node
  carries its arena handle and the record stored in that slot. The module
  also has pure twins of every state-changing member: `Refresh`,
  `RotateRight`, `RotateLeft`, `Rebalance` through the four case functions,
  `Descend`, `Attach`, `WalkUp` and `InsertSpec`/`InsertKey`. It also has the
  reference counts `KeysUpTo` and `KeysBetween`.
- **`OsTree`**: the classes `SearchTree` and `NodeNavigator`.
  - `SearchTree` has the fields `nodes: seq<Node>` and `size`, plus a ghost
    `T: Tree`.
  - `Sound()` says that the arena holds `T`:
    - each node is in its own slot;
    - parent and child handles agree;
    - keys are in search order;
    - `size` counts the nodes.
  - `Valid()` adds that every stored height and size equals its
    recomputation.
  - Each method is proved to leave the arena holding exactly what the
    matching pure function computes.
- **`ShapeLemmas`, `PathLemmas`, `ArenaLemmas` and `InsertLemmas`**: the
  properties of those functions. These cover preserved keys, order, links
  and metadata. They also say which slots each step may write.
- **`RankLemmas`**: the counting facts behind `node_rank` and
  `count_in_range`.
- **`TreeText`**: the text printed for a tree.
- **`Scenarios`**: the three value checks of `tests/test_os_tree.cpp`, proved.

The header comment of `rank`/`count_in_range` in `src/os_tree.hpp` speaks of
the half-open interval `(a, b]`. The code counts the closed interval
`[a, b]`, since it subtracts the keys `<= a - 1`. The model follows the code.

## Model

| member | source | states |
|---|---|---|
| OsTree.SearchTree.constructor | src/os_tree.cpp:24-27 | a new tree holds only the sentinel slot, is valid and empty, and has size 0 |
| OsTreeModel.NewNode | src/os_tree.cpp:165-166 | a fresh node record is active, has height 1 and subtree size 1, has no children, and has the given key and parent |
| OsTree.SearchTree.RealRoot | src/os_tree.cpp:29-31 | on a sound arena, the sentinel's left slot is the handle of the root of the stored tree, or -1 when the tree is empty |
| OsTree.SearchTree.IsNodeActive | src/os_tree.cpp:35-37 | an active handle lies inside the arena |
| OsTree.SearchTree.GetNodeKey | src/os_tree.cpp:41-46 | 0 for a handle that is not active, else that slot's key |
| OsTree.SearchTree.Height | src/os_tree.cpp:48-53 | 0 for a handle that is not active, else that slot's height |
| OsTree.SearchTree.SubtreeSize | src/os_tree.cpp:55-60 | 0 for a handle that is not active, else that slot's subtree size |
| OsTree.SearchTree.ReadsSubtree | src/os_tree.cpp:41-60 | on any subtree stored in the arena, the accessors at its root handle read its root record, or 0 for an absent subtree |
| OsTree.SearchTree.GetBalance | src/os_tree.cpp:91-96 | 0 for a handle that is not active, else the left child's height minus the right child's |
| OsTree.SearchTree.BalanceOfSubtree | src/os_tree.cpp:91-96 | at the root of a stored subtree, get_balance equals the value-level balance of that subtree |
| OsTree.SearchTree.UpdHeight | src/os_tree.cpp:64-71 | only an active slot changes, and only its height, which becomes one more than its taller child's |
| OsTree.SearchTree.UpdSubtreeSize | src/os_tree.cpp:73-80 | only an active slot changes, and only its size, which becomes its children's sizes plus one |
| OsTree.SearchTree.UpdNodeCtx | src/os_tree.cpp:82-87 | the arena after the call is the old arena with that slot's height and size recomputed |
| OsTree.SearchTree.ReplaceChild | src/os_tree.cpp:98-109 | nothing changes unless both handles are active; the left slot is tried first, then the right; if neither holds the old child, the call fails (the source throws) and nothing changes |
| OsTree.SearchTree.RelinkRight | src/os_tree.cpp:250-258 | the link writes of `right_rotate`: A's right slot and parent, B's left slot and parent, and C's parent when C is active; no other slot changes |
| OsTree.SearchTree.RelinkLeft | src/os_tree.cpp:281-289 | the link writes of `left_rotate`: B's left slot and parent, A's right slot and parent, and C's parent when C is active; no other slot changes |
| OsTree.SearchTree.RightRotate | src/os_tree.cpp:237-265 | succeeds exactly when the node and its left child are active; on success the arena holds the tree rotated right in place and keeps the in-order key sequence; on failure nothing changes |
| OsTree.SearchTree.LeftRotate | src/os_tree.cpp:267-296 | succeeds exactly when the node and its right child are active; on success the arena holds the tree rotated left in place and keeps the in-order key sequence; on failure nothing changes |
| ShapeLemmas.RotateRightPreserves | src/os_tree.cpp:237-265 | a right rotation keeps the in-order keys, the key set, the size, the search order and the parent links; it leaves heights and sizes correct when the three moved subtrees had them |
| ShapeLemmas.RotateLeftPreserves | src/os_tree.cpp:267-296 | a left rotation keeps the in-order keys, the key set, the size, the search order and the parent links; it leaves heights and sizes correct when the three moved subtrees had them |
| OsTree.SearchTree.AddNode | src/os_tree.cpp:143-201 | with an inactive parent, the call succeeds only on an empty tree and makes the key the root; with an active parent, it fails (the source throws) when the chosen child slot is taken; on success the key set gains the key and the size grows by one |
| InsertLemmas.AttachFacts | src/os_tree.cpp:158-185 | at a node whose slot on the key's side is empty, the new leaf is attached; the subtree gains exactly that key and one node and stays ordered, linked and correctly sized |
| OsTree.SearchTree.BalanceNode | src/os_tree.cpp:203-235 | the call fails on the sentinel; otherwise the arena holds the value-level rebalancing of the subtree in place and returns its new root; the in-order keys and the size never change |
| OsTree.SearchTree.BalanceLeftLeft | src/os_tree.cpp:212-216 | the left-left case applied in place, with the stale balance, as in the source |
| OsTree.SearchTree.BalanceRightRight | src/os_tree.cpp:217-221 | the right-right case applied in place to the node the previous case left |
| OsTree.SearchTree.BalanceLeftRight | src/os_tree.cpp:222-227 | the left-right case applied in place to the node the previous cases left |
| OsTree.SearchTree.BalanceRightLeft | src/os_tree.cpp:228-233 | the right-left case applied in place to the node the previous cases left |
| ShapeLemmas.RebalancePreserves | src/os_tree.cpp:203-235 | rebalancing a node whose children are correctly sized keeps the in-order keys, the key set, the size, the order and the links, and leaves the subtree correctly sized |
| OsTree.SearchTree.Insert | src/os_tree.cpp:113-115 | insert from the real root leaves the arena sound and holding `InsertKey` of the old tree; a present key changes nothing; on a valid tree the key set gains the key, the size grows by one exactly when the key is new, and a successful insert leaves the tree valid |
| OsTree.SearchTree.InsertFrom | src/os_tree.cpp:117-141 | insert from any handle leaves the arena holding the value-level insertion: descent, then attachment, then the walk up; it fails when the handle is not active in a non-empty tree |
| OsTree.SearchTree.BalanceUpward | src/os_tree.cpp:135-140 | the loop that goes to the parent and calls balance_node until the sentinel leaves the arena holding the value-level walk up the path |
| InsertLemmas.DescendFacts | src/os_tree.cpp:527-544 | the descent stops at a node of the tree; there the key is found, or the slot on the key's side is empty; it stops on the key exactly when the key is in the tree |
| InsertLemmas.WalkUpFacts | src/os_tree.cpp:135-140 | the walk up keeps the key set, the in-order keys, the size, the order and the links, and a walk that completes leaves every height and size correct |
| InsertLemmas.InsertFacts | src/os_tree.cpp:117-141 | insertion keeps the tree ordered and linked; a successful one leaves it correctly sized; a present key changes nothing; otherwise the key set gains the key and the size grows by one |
| OsTree.SearchTree.NodeRank | src/os_tree.cpp:300-315 | on a stored, ordered, correctly sized subtree, the result is the number of its keys that are `<= x` |
| RankLemmas.UpToLeft | src/os_tree.cpp:304-306 | when the node's key exceeds `x`, the keys `<= x` are exactly those of the left subtree |
| RankLemmas.UpToThrough | src/os_tree.cpp:307-313 | when the node's key is `<= x`, the count is the whole left subtree, plus one, plus the right subtree's count |
| OsTree.SearchTree.Rank | src/os_tree.cpp:317-319 | on a valid tree, the number of stored keys that are `<= x` |
| OsTree.SearchTree.CountInRange | src/os_tree.cpp:321-324 | 0 when `a > b`; on a valid tree, the number of stored keys in the closed interval `[a, b]` |
| RankLemmas.BetweenIsDifference | src/os_tree.cpp:321-324 | the keys in `[a, b]` number the keys `<= b` less the keys `<= a - 1` |
| OsTree.SearchTree.PrintTreeStructure | src/os_tree.cpp:389-408 | the text written for a stored subtree is `Render` of it: `()` when absent, else `(key left right)` |
| OsTree.SearchTree.PrintTree | src/os_tree.cpp:411-414 | the whole tree's text followed by a newline, which holds `2 * size + 1` opening and as many closing parentheses |
| TreeText.RenderParens | src/os_tree.cpp:389-408 | a subtree of `n` nodes is written with `2n + 1` parentheses of each kind |
| TreeText.NumberText | src/os_tree.cpp:397 | a key is written as decimal digits, with a leading `-` when negative |
| TreeText.NumberRoundTrip | src/os_tree.cpp:397 | reading the written digits back gives the key |
| TreeText.DigitsText | src/os_tree.cpp:397 | the digits of a number are nonempty decimal digits with no leading zero |
| TreeText.DigitsRoundTrip | src/os_tree.cpp:397 | reading the decimal digits back gives the number |
| OsTree.NodeNavigator.constructor | src/os_tree.cpp:516-525 | a new cursor on the tree and handle it is built with, with no node visited yet (-1) |
| OsTree.NodeNavigator.ReadsAt | src/os_tree.cpp:418-435 | on a node of a sound tree, the cursor is valid; its key, height and size are that node's; it has a left or right child exactly when the node does; its parent is the node above; it is at the root exactly when the node is the real root |
| OsTree.NodeNavigator.GetParent | src/os_tree.cpp:478-481 | -1 exactly when the cursor has no active parent, else the parent handle |
| OsTree.NodeNavigator.GetKey | src/os_tree.cpp:483-488 | a value exactly when the cursor is valid (the source throws otherwise), and then the node's key |
| OsTree.NodeNavigator.GetHeight | src/os_tree.cpp:494-499 | a value exactly when the cursor is valid, and then the node's height |
| OsTree.NodeNavigator.GetSubtreeSize | src/os_tree.cpp:501-506 | a value exactly when the cursor is valid, and then the node's subtree size |
| OsTree.NodeNavigator.GoLeft | src/os_tree.cpp:437-442 | moves exactly when there is an active left child, and then remembers the node it left; otherwise nothing changes |
| OsTree.NodeNavigator.GoRight | src/os_tree.cpp:444-449 | moves exactly when there is an active right child, and then remembers the node it left; otherwise nothing changes |
| OsTree.NodeNavigator.GoParent | src/os_tree.cpp:451-457 | moves exactly when there is an active parent, and then remembers the node it left; otherwise nothing changes |
| OsTree.NodeNavigator.GoRoot | src/os_tree.cpp:459-464 | moves to the real root exactly when that root is active; otherwise nothing changes |
| OsTree.NodeNavigator.SetIndex | src/os_tree.cpp:466-471 | moves to the handle exactly when it is active; otherwise nothing changes |
| OsTree.SearchTree.GetRootNavigator | src/os_tree.cpp:516-518 | a new cursor on the real root with nothing visited |
| OsTree.SearchTree.GetNavigatorByIndex | src/os_tree.cpp:520-525 | a new cursor on the given handle, active or not, with nothing visited |
| OsTree.SearchTree.GetNavigatorByKey | src/os_tree.cpp:527-544 | the cursor ends where the value-level descent stops, still inside the tree, having last visited that node's parent, or nothing if it never moved |
| Scenarios.BuildTree | src/os_tree.cpp:113-115 | inserting keys one after the other into a new tree gives what `Build` computes; when no insertion fails, the tree is valid and holds exactly those keys |
| Scenarios.InsertThirty | tests/test_os_tree.cpp:72 | inserting 30 into the tree of 10 and 20 succeeds and rotates the root left, so 20 becomes the root |
| Scenarios.InsertForty | tests/test_os_tree.cpp:73 | inserting 40 next succeeds |
| Scenarios.BasicCounts | tests/test_os_tree.cpp:69-75 | two keys of {10, 20} lie in `[8, 31]` and none lie in `[6, 9]`; three keys of {10, 20, 30, 40} lie in `[15, 40]` |
| Scenarios.RankCounts | tests/test_os_tree.cpp:89-90 | two keys of {10, 5, 15} are `<= 10`, and all three are `<= 16` |
| Scenarios.BasicTest | tests/test_os_tree.cpp:63-76 | the three counts of `basic_test` are 2, 0 and 3 |
| Scenarios.EmptyTreeTest | tests/test_os_tree.cpp:78-81 | an empty tree has no key in `[0, 10]` |
| Scenarios.RankTest | tests/test_os_tree.cpp:84-92 | after inserting 10, 5 and 15, `rank(10)` is 2 and `rank(16)` is 3 |

## Left out

- The model has no streams and no I/O.
  - `writeDot`, the `DBG_PRINT` tracing, `dothtml` and the dump-producing tests `check_structure_with_dump` and `check_balancing_with_dump` are not part of this model.
  - `main.cpp` and `benchmark.cpp` are not part of this model either.
- `print_tree_structure` writes to an `std::ostream`; `PrintTreeStructure` and `PrintTree` return the string instead.
- The pointer-based `Node` and its members in `src/os_tree.hpp` are an older design, and they are not part of this model.
- Integers are unbounded. In the source:
  - `count_in_range(INT_MIN, b)` overflows in `a - 1`;
  - keys, heights and sizes are 32-bit.

  The model has no wrap-around.
- Exceptions are failure flags. The model returns `ok == false` where the source throws `std::invalid_argument` or `std::out_of_range`, and `Option.None` for the navigator getters.
  - The model says what state a failure leaves behind.
  - It does not model C++ unwinding, nor any code that catches the exception.
- `get_navigator_by_index` builds an exception for an inactive handle but never throws it. The model, like the source, returns the cursor anyway.
- The navigator's `tree_` pointer is never null in the model, because every navigator the core creates points to its own tree.
  - The null checks in `is_current_index_valid`, `go_root` and `set_index` are therefore always true.
- AVL balance, meaning a balance factor of at most 1 in every subtree, is not proved. Only the search order, the parent and child links, the key set, the size, and correct stored heights and sizes are.
- `Insert`: the promises about keys, size and validity are stated for a tree that was valid before the call.
  - Failure is not ruled out, because the source can throw on distinct keys.
    - A node on the path may already lean by 2 or more before the insertion. The case tests of `balance_node` do not keep every subtree within a balance of 1.
    - The key may then select a double-rotation case whose child lacks the inner grandchild. The inner rotation then finds no child to promote.
    - Example: insert 33, 12, 29, 37, 35, 36, 24, 14 and then 2. Node 14's right subtree, rooted at 24, has no left child and is much taller than its left. The walk calls `balance_node` on 14, whose balance is below -1, and 2 < 24. So the right-left case (src/os_tree.cpp:229-233) alone applies, and `right_rotate(24)` throws at src/os_tree.cpp:245.
  - In that case the model promises only that the structure stays sound, and that the tree is what `InsertKey` computes.
- `InsertFrom`, `AddNode`, `RightRotate`, `LeftRotate` and `BalanceNode` require a sound arena. A subtree that the source would accept in an inconsistent arena is outside the model.
  - These methods also require the ghost description of where the handle sits in the tree.
  - `AddNode` also requires, for an active parent, that the key differs from the parent's and lies in the interval the path above allows (`Fits`). `InsertFrom` requires that the key lies in the start subtree's interval.
  - The source's `add_node` and `insert(node_index, key)` accept any key. A duplicate key, or one outside that interval, would leave the tree out of search order.
  - Their only caller, `insert(key)` (src/os_tree.cpp:113-115), starts at the real root and never passes such a key.
  - The rotations also require that the handle is not the sentinel. The source never rotates the sentinel: `balance_node` refuses it.
- `NodeRank` and `PrintTreeStructure` take the ghost subtree that the handle roots, so that their recursion can terminate. A handle into an arena with a cycle is not modelled.
- `NodeNavigator`'s predicates `IsCurrentIndexValid`, `HasLeft`, `HasRight`, `HasParent` and `IsRoot` carry no contracts of their own. `NodeNavigator.ReadsAt` states them on a sound tree.
- `NodeNavigator.constructor`, `OsTreeModel.NewNode`: some initial values are inferred.
  - The header that declares `NodeNavigator` and the arena node record is not part of this model.
  - So the initial `last_visited_` of -1 is inferred, and so are the defaults of a new record: active, height 1, subtree size 1, no children.
  - The height and size defaults match the older `Node` in src/os_tree.hpp:14-15.
  - An inactive initial `last_visited_` is what makes insertion into an empty tree work (src/os_tree.cpp:121-124, 145-155). With an active one, such as the sentinel 0, `add_node` would hang the first key under the sentinel's right slot. The real root would then stay -1, and the counts that `basic_test` expects (tests/test_os_tree.cpp:66-70) would fail.

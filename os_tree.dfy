/**
 * The arena-indexed order-statistics tree `SearchTree` and its cursor
 * `NodeNavigator`.
 *
 * All nodes live in the growable vector `nodes`; children and parents are
 * handles into it, `-1` meaning none.  Slot 0 is a permanent sentinel whose
 * left child is the real root.  The ghost field `T` is the tree the arena
 * holds: every method is proved to leave `T` equal to what the matching
 * function of `OsTreeModel` computes, and the properties of the operations
 * are proved about those functions in `ShapeLemmas`, `PathLemmas` and
 * `InsertLemmas`.
 */
module OsTree {
  import opened OsTreeModel
  import opened ShapeLemmas
  import opened PathLemmas
  import opened InsertLemmas
  import opened ArenaLemmas
  import opened RankLemmas
  import opened TreeText

  class SearchTree {
    var nodes: seq<Node>
    var size: int
    /** The tree hanging under the sentinel. */
    ghost var T: Tree

    /**
     * The structure every operation keeps: the arena holds `T` below the
     * sentinel, one slot per node, with consistent links, the search order
     * and `size` counting the nodes.
     */
    ghost predicate Sound()
      reads this
    {
      Holds(nodes, T) && size == TreeSize(T) && |nodes| == size + 1
    }

    /** `Sound`, and every node's height and size equal their recomputation. */
    ghost predicate Valid()
      reads this
    {
      Sound() && WellSized(T)
    }

    /** An empty tree: the arena holds only the sentinel. */
    constructor ()
      ensures Valid() && T == Nil && size == 0 && |nodes| == 1
    {
      nodes := [NewNode(SentinelKey, NoIndex)];
      size := 0;
      T := Nil;
    }

    // -------------------------------------------------------------------------
    // Accessors
    // -------------------------------------------------------------------------

    /** `real_root`: the sentinel's left child. */
    function RealRoot(): (r: int)
      reads this
      requires |nodes| > 0
      ensures Sound() ==> r == Root(T)
    {
      nodes[Sentinel].left
    }

    /** `is_node_active`: an in-range handle whose slot is active. */
    predicate IsNodeActive(i: int)
      reads this
      ensures IsNodeActive(i) ==> 0 <= i < |nodes|
    {
      ActiveAt(nodes, i)
    }

    /** `get_node_key`: 0 for a handle that is not active. */
    function GetNodeKey(i: int): (k: int)
      reads this
      ensures !IsNodeActive(i) ==> k == 0
      ensures IsNodeActive(i) ==> k == nodes[i].key
    {
      KeyAt(nodes, i)
    }

    /** `height`: 0 for a handle that is not active. */
    function Height(i: int): (h: int)
      reads this
      ensures !IsNodeActive(i) ==> h == 0
      ensures IsNodeActive(i) ==> h == nodes[i].height
    {
      HeightAt(nodes, i)
    }

    /** `subtree_size`: 0 for a handle that is not active. */
    function SubtreeSize(i: int): (n: int)
      reads this
      ensures !IsNodeActive(i) ==> n == 0
      ensures IsNodeActive(i) ==> n == nodes[i].subtreeSize
    {
      SizeAt(nodes, i)
    }

    /** `get_balance`: left height minus right height, 0 for a handle that is not active. */
    function GetBalance(i: int): (b: int)
      reads this
      ensures !IsNodeActive(i) ==> b == 0
      ensures IsNodeActive(i) ==> b == Height(nodes[i].left) - Height(nodes[i].right)
    {
      if !IsNodeActive(i) then 0 else Height(nodes[i].left) - Height(nodes[i].right)
    }

    /**
     * Read through the root handle of a stored subtree, the accessors give the
     * subtree's root values, and 0 for an absent subtree.
     */
    lemma ReadsSubtree(s: Tree)
      requires Stored(nodes, s) && (s.Br? ==> s.rec.isActive)
      ensures IsNodeActive(Root(s)) == s.Br?
      ensures GetNodeKey(Root(s)) == StoredKey(s)
      ensures Height(Root(s)) == StoredHeight(s)
      ensures SubtreeSize(Root(s)) == StoredSize(s)
    {
    }

    /** `get_balance` on a linked stored subtree is the balance of its root. */
    lemma BalanceOfSubtree(s: Tree, p: int)
      requires Stored(nodes, s) && Linked(s, p)
      ensures GetBalance(Root(s)) == Balance(s)
    {
      if s.Br? {
        ReadsSubtree(s.left);
        ReadsSubtree(s.right);
      }
    }

    // -------------------------------------------------------------------------
    // Metadata maintenance
    // -------------------------------------------------------------------------

    /** `upd_height`: one more than the taller child, on this node only. */
    method UpdHeight(i: int)
      modifies this
      ensures T == old(T) && size == old(size)
      ensures !old(IsNodeActive(i)) ==> nodes == old(nodes)
      ensures old(IsNodeActive(i)) ==>
                nodes == old(nodes[i := nodes[i].(height := Max(Height(nodes[i].left), Height(nodes[i].right)) + 1)])
    {
      if !IsNodeActive(i) {
        return;
      }
      var leftHeight := Height(nodes[i].left);
      var rightHeight := Height(nodes[i].right);
      nodes := nodes[i := nodes[i].(height := Max(leftHeight, rightHeight) + 1)];
    }

    /** `upd_subtree_size`: one more than the children's sizes, on this node only. */
    method UpdSubtreeSize(i: int)
      modifies this
      ensures T == old(T) && size == old(size)
      ensures !old(IsNodeActive(i)) ==> nodes == old(nodes)
      ensures old(IsNodeActive(i)) ==>
                nodes == old(nodes[i := nodes[i].(subtreeSize := SubtreeSize(nodes[i].left) + SubtreeSize(nodes[i].right) + 1)])
    {
      if !IsNodeActive(i) {
        return;
      }
      var leftSize := SubtreeSize(nodes[i].left);
      var rightSize := SubtreeSize(nodes[i].right);
      nodes := nodes[i := nodes[i].(subtreeSize := leftSize + rightSize + 1)];
    }

    /** `upd_node_ctx`: height, then size, of this node only. */
    method UpdNodeCtx(i: int)
      modifies this
      ensures T == old(T) && size == old(size)
      ensures nodes == RefreshAt(old(nodes), i)
    {
      if !IsNodeActive(i) {
        return;
      }
      UpdHeight(i);
      UpdSubtreeSize(i);
    }

    // -------------------------------------------------------------------------
    // Re-linking and rotations
    // -------------------------------------------------------------------------

    /**
     * `replace_child`: nothing when the new child or the parent is not
     * active; otherwise the parent's slot holding `prev` (left tried first)
     * gets `next`, and `ok` is false when neither slot holds `prev` (the
     * source throws `invalid_argument`, changing nothing).
     */
    method ReplaceChild(prev: int, next: int, parent: int) returns (ok: bool)
      modifies this
      ensures T == old(T) && size == old(size)
      ensures !old(IsNodeActive(next)) || !old(IsNodeActive(parent)) ==> ok && nodes == old(nodes)
      ensures old(IsNodeActive(next)) && old(IsNodeActive(parent)) ==>
                if old(nodes[parent].left) == prev then ok && nodes == old(nodes[parent := nodes[parent].(left := next)])
                else if old(nodes[parent].right) == prev then ok && nodes == old(nodes[parent := nodes[parent].(right := next)])
                else !ok && nodes == old(nodes)
    {
      if !IsNodeActive(next) {
        return true;
      }
      if !IsNodeActive(parent) {
        return true;
      }
      if nodes[parent].left == prev {
        nodes := nodes[parent := nodes[parent].(left := next)];
      } else if nodes[parent].right == prev {
        nodes := nodes[parent := nodes[parent].(right := next)];
      } else {
        return false;
      }
      return true;
    }

    /** The re-linking writes of `right_rotate(b)`, `a` being `b`'s left child and `c` `a`'s right child. */
    method RelinkRight(b: int, a: int, c: int)
      requires 0 <= a < |nodes| && 0 <= b < |nodes| && a != b
      requires IsNodeActive(c) ==> c != a && c != b
      modifies this
      ensures T == old(T) && size == old(size)
      ensures RightWrites(old(nodes), nodes, b, a, c)
    {
      nodes := nodes[a := nodes[a].(right := b)];
      nodes := nodes[a := nodes[a].(parent := nodes[b].parent)];
      nodes := nodes[b := nodes[b].(left := c)];
      nodes := nodes[b := nodes[b].(parent := a)];
      if IsNodeActive(c) {
        nodes := nodes[c := nodes[c].(parent := b)];
      }
    }

    /** The re-linking writes of `left_rotate(a)`, `b` being `a`'s right child and `c` `b`'s left child. */
    method RelinkLeft(a: int, b: int, c: int)
      requires 0 <= a < |nodes| && 0 <= b < |nodes| && a != b
      requires IsNodeActive(c) ==> c != a && c != b
      modifies this
      ensures T == old(T) && size == old(size)
      ensures LeftWrites(old(nodes), nodes, a, b, c)
    {
      nodes := nodes[b := nodes[b].(left := a)];
      nodes := nodes[b := nodes[b].(parent := nodes[a].parent)];
      nodes := nodes[a := nodes[a].(right := c)];
      nodes := nodes[a := nodes[a].(parent := b)];
      if IsNodeActive(c) {
        nodes := nodes[c := nodes[c].(parent := a)];
      }
    }

    /**
     * `right_rotate(b)`: `ok` is false (the source throws before touching
     * anything) when `b` or its left child is not active.  Otherwise the left
     * child `a` is returned and takes `b`'s place: the arena now holds the
     * tree with the subtree rotated as `RotateRight` says, with the same
     * in-order key sequence.
     */
    method RightRotate(b: int, ghost s: Tree, ghost ctx: seq<Frame>) returns (a: int, ok: bool)
      requires Sound()
      requires IsNodeActive(b) ==> b != Sentinel && s.Br? && s.idx == b && T == Plug(s, ctx)
      modifies this
      ensures Sound() && size == old(size) && |nodes| == old(|nodes|)
      ensures ok <==> old(IsNodeActive(b)) && s.left.Br?
      ensures !ok ==> nodes == old(nodes) && T == old(T)
      ensures ok ==> a == s.left.idx && T == Plug(RotateRight(s).value, ctx)
      ensures ok ==> InOrder(T) == old(InOrder(T)) && Keys(T) == old(Keys(T))
    {
      if !IsNodeActive(b) {
        return NoIndex, false;
      }
      SubtreeSlots(nodes, s, ctx);
      a := nodes[b].left;
      if !IsNodeActive(a) {
        return a, false;
      }
      ghost var n0, P := nodes, Up(ctx);
      RightRotateSlots(n0, s, ctx);
      var c := nodes[a].right;

      RelinkRight(b, a, c);
      RightRelinkedIntro(n0, nodes, s, ctx);
      var replaced := ReplaceChild(b, a, nodes[a].parent);
      // B's parent holds B in one of its child slots
      assert replaced;
      ghost var n4 := nodes;
      UpdNodeCtx(b);
      UpdNodeCtx(a);
      RightRotateArena(n0, n4, s, ctx);
      T := Plug(RotateRight(s).value, ctx);
      ok := true;
    }

    /**
     * `left_rotate(a)`: `ok` is false (the source throws before touching
     * anything) when `a` or its right child is not active.  Otherwise the
     * right child `b` is returned and takes `a`'s place: the arena now holds
     * the tree with the subtree rotated as `RotateLeft` says, with the same
     * in-order key sequence.
     */
    method LeftRotate(a: int, ghost s: Tree, ghost ctx: seq<Frame>) returns (b: int, ok: bool)
      requires Sound()
      requires IsNodeActive(a) ==> a != Sentinel && s.Br? && s.idx == a && T == Plug(s, ctx)
      modifies this
      ensures Sound() && size == old(size) && |nodes| == old(|nodes|)
      ensures ok <==> old(IsNodeActive(a)) && s.right.Br?
      ensures !ok ==> nodes == old(nodes) && T == old(T)
      ensures ok ==> b == s.right.idx && T == Plug(RotateLeft(s).value, ctx)
      ensures ok ==> InOrder(T) == old(InOrder(T)) && Keys(T) == old(Keys(T))
    {
      if !IsNodeActive(a) {
        return NoIndex, false;
      }
      SubtreeSlots(nodes, s, ctx);
      b := nodes[a].right;
      if !IsNodeActive(b) {
        return b, false;
      }
      ghost var n0, P := nodes, Up(ctx);
      LeftRotateSlots(n0, s, ctx);
      var c := nodes[b].left;

      RelinkLeft(a, b, c);
      LeftRelinkedIntro(n0, nodes, s, ctx);
      var replaced := ReplaceChild(a, b, nodes[b].parent);
      // A's parent holds A in one of its child slots
      assert replaced;
      ghost var n4 := nodes;
      UpdNodeCtx(a);
      UpdNodeCtx(b);
      LeftRotateArena(n0, n4, s, ctx);
      T := Plug(RotateLeft(s).value, ctx);
      ok := true;
    }

    // -------------------------------------------------------------------------
    // Insertion
    // -------------------------------------------------------------------------

    /**
     * `add_node(parent, key)`.  With `parent` not active: in an empty tree
     * the new node becomes the root, hung from the sentinel; in a non-empty
     * one `ok` is false (the source throws) and nothing changes.  With an
     * active parent the new leaf goes to its left slot when `key` is smaller
     * than the parent's key and to its right slot otherwise; when that slot
     * is taken `ok` is false and nothing changes; else the parent is
     * refreshed.  The new node always takes the next free slot.
     */
    method AddNode(parent: int, key: int, ghost p: Tree, ghost ctx: seq<Frame>) returns (ok: bool)
      requires Sound()
      requires IsNodeActive(parent) ==>
                 p.Br? && p.idx == parent && T == Plug(p, ctx) && key != p.rec.key && Fits(ctx, key)
      modifies this
      ensures Sound()
      ensures !ok ==> nodes == old(nodes) && T == old(T)
      ensures !old(IsNodeActive(parent)) ==> (ok <==> old(size) == 0)
      ensures !old(IsNodeActive(parent)) && ok ==> T == Br(Nil, old(|nodes|), NewNode(key, Sentinel), Nil)
      ensures old(IsNodeActive(parent)) ==> ok == Attach(p, key, old(|nodes|)).Some?
      ensures old(IsNodeActive(parent)) && ok ==> T == Plug(Attach(p, key, old(|nodes|)).value, ctx)
      ensures ok ==> Keys(T) == old(Keys(T)) + {key} && size == old(size) + 1
    {
      if !IsNodeActive(parent) {
        if size > 0 {
          return false;
        }
        // the tree is empty: the new node is the root
        assert T == Nil && nodes == [SentinelRecord(NoIndex)];
        var rootIdx := |nodes|;
        nodes := nodes + [NewNode(key, Sentinel)];
        nodes := nodes[Sentinel := nodes[Sentinel].(left := rootIdx)];
        size := size + 1;
        T := Br(Nil, rootIdx, NewNode(key, Sentinel), Nil);
        assert nodes == [SentinelRecord(rootIdx), NewNode(key, Sentinel)];
        assert Stored(nodes, T) && Ordered(T) && Linked(T, Sentinel);
        assert Holds(nodes, T);
        assert size == TreeSize(T);
        return true;
      }
      ghost var n0 := nodes;
      SubtreeSlots(nodes, p, ctx);
      var shouldBeLeftChild := key < GetNodeKey(parent);
      if shouldBeLeftChild {
        if nodes[parent].left != NoIndex {
          return false;
        }
        var newIdx := |nodes|;
        nodes := nodes + [NewNode(key, parent)];
        nodes := nodes[parent := nodes[parent].(left := newIdx)];
        size := size + 1;
      } else {
        if nodes[parent].right != NoIndex {
          return false;
        }
        var newIdx := |nodes|;
        nodes := nodes + [NewNode(key, parent)];
        nodes := nodes[parent := nodes[parent].(right := newIdx)];
        size := size + 1;
      }
      assert nodes == Appended(n0, p.idx, key, key < p.rec.key);
      AttachArena(n0, p, ctx, key);
      UpdNodeCtx(parent);
      T := Plug(Attach(p, key, |n0|).value, ctx);
      return true;
    }

    /**
     * `insert(key)`: the insertion started at the real root.  The arena ends
     * up holding the tree `InsertSpec` computes; a key already present
     * changes nothing; `ok` is false only when a rotation of the rebalancing
     * walk throws.  On a tree whose metadata were correct, the keys gain
     * `key`, the size counts it, and when the call completes the metadata
     * are correct again.
     */
    method Insert(key: int) returns (ok: bool)
      requires Sound()
      modifies this
      ensures Sound()
      ensures InsertKey(old(T), key) == Outcome(T, ok)
      ensures key in old(Keys(T)) ==> ok && nodes == old(nodes) && T == old(T)
      ensures old(Valid()) ==>
                Keys(T) == old(Keys(T)) + {key} &&
                size == old(size) + (if key in old(Keys(T)) then 0 else 1) &&
                (ok ==> Valid())
    {
      ghost var t := T;
      if t.Br? {
        DescendFacts(t, [], key);
      }
      ok := InsertFrom(RealRoot(), key, T, []);
      if WellSized(t) {
        InsertFacts(t, t, [], key, old(|nodes|));
      }
    }

    /**
     * `insert(start, key)`, the descent starting at the subtree `s` rooted at
     * `start` on a path `ctx0` whose frames all admit `key`: the cursor of
     * `get_navigator_by_key` finds the place; from an inactive start the new
     * node becomes the root of an empty tree and `ok` is false (the source
     * throws) in a non-empty one; a key already there returns at once;
     * otherwise `add_node` hangs the new leaf and the cursor climbs from its
     * parent, `balance_node` rebalancing each node it meets and the cursor
     * moving to the root that call returns, until it reaches the sentinel.
     */
    method InsertFrom(start: int, key: int, ghost s: Tree, ghost ctx0: seq<Frame>) returns (ok: bool)
      requires Sound()
      requires IsNodeActive(start) ==> s.Br? && s.idx == start && T == Plug(s, ctx0) && Fits(ctx0, key)
      modifies this
      ensures Sound()
      ensures InsertSpec(old(T), if old(IsNodeActive(start)) then s else Nil, ctx0, key, old(|nodes|)) == Outcome(T, ok)
      ensures old(IsNodeActive(start)) && key in old(Keys(T)) ==> nodes == old(nodes)
    {
      var navi := GetNavigatorByKey(start, key, s, ctx0);
      ghost var p, ctx := Nil, [];
      if IsNodeActive(start) {
        p, ctx := Descend(s, ctx0, key).0, Descend(s, ctx0, key).1;
        DescendFacts(s, ctx0, key);
        SubtreeSlots(nodes, p, ctx);
        navi.ReadsAt(p, ctx);
      }
      if !IsNodeActive(navi.current) {
        if size == 0 {
          ok := AddNode(navi.lastVisited, key, Nil, []);
          return;
        } else {
          return false;
        }
      }
      if navi.GetKey().value == key {
        return true;
      }
      ok := AddNode(navi.current, key, p, ctx);
      // the descent stopped where the child slot towards `key` is empty
      assert ok;
      ok := BalanceUpward(navi, key, Attach(p, key, old(|nodes|)).value, ctx);
    }

    /**
     * The loop closing `insert`: from the node the cursor is on, the root of
     * the subtree `sub` on the path `path`, the cursor moves to the parent
     * and, until that is the sentinel, `balance_node` rebalances it and the
     * cursor moves to the root that call returns.  The arena ends up holding
     * the tree `WalkUp` computes; `ok` is false when a rotation throws.
     */
    method BalanceUpward(navi: NodeNavigator, key: int, ghost sub: Tree, ghost path: seq<Frame>) returns (ok: bool)
      requires Sound() && navi.tree == this
      requires sub.Br? && T == Plug(sub, path) && navi.current == sub.idx
      modifies this, navi
      ensures Sound()
      ensures WalkUp(sub, path, key) == Outcome(T, ok)
    {
      ghost var u, rest := sub, path;
      SubtreeSlots(nodes, u, rest);
      var moved := navi.GoParent();
      while moved && navi.current != Sentinel
        invariant Sound()
        invariant u.Br? && T == Plug(u, rest) && WalkUp(u, rest, key) == WalkUp(sub, path, key)
        invariant moved && navi.current == Up(rest) && IsNodeActive(navi.current)
        decreases |rest|
      {
        PlugStep(u, rest);
        var top, balanced := BalanceNode(navi.current, key, Fill(rest[0], u), rest[1..]);
        if !balanced {
          return false;
        }
        u, rest := Rebalance(Fill(rest[0], u), key).tree, rest[1..];
        SubtreeSlots(nodes, u, rest);
        var _ := navi.SetIndex(top);
        moved := navi.GoParent();
      }
      // the cursor reached the sentinel: the path is used up
      ParentSlot(nodes, u, u, rest);
      ok := true;
    }

    // -------------------------------------------------------------------------
    // Rebalancing
    // -------------------------------------------------------------------------

    /**
     * `balance_node(n, key)`: `ok` is false at once for the sentinel (the
     * source throws).  Otherwise the node is refreshed, its balance read once,
     * and the four cases tried in turn as `Rebalance` says: an inactive node
     * reads balance 0 and comes back unchanged; a rotation that throws stops
     * the call with `ok` false and the arena as that rotation left it.  The
     * handle returned is the root of the rebalanced subtree.
     */
    method BalanceNode(n: int, key: int, ghost s: Tree, ghost ctx: seq<Frame>) returns (r: int, ok: bool)
      requires Sound()
      requires n != Sentinel && IsNodeActive(n) ==> s.Br? && s.idx == n && T == Plug(s, ctx)
      modifies this
      ensures Sound() && size == old(size) && |nodes| == old(|nodes|)
      ensures InOrder(T) == old(InOrder(T)) && Keys(T) == old(Keys(T))
      ensures n == Sentinel ==> !ok && nodes == old(nodes) && T == old(T)
      ensures n != Sentinel && !old(IsNodeActive(n)) ==> ok && r == n && nodes == old(nodes) && T == old(T)
      ensures n != Sentinel && old(IsNodeActive(n)) ==>
                ok == Rebalance(s, key).ok && T == Plug(Rebalance(s, key).tree, ctx) &&
                (ok ==> Rebalance(s, key).tree.Br? && r == Rebalance(s, key).tree.idx)
    {
      if n == Sentinel {
        return n, false;
      }
      ghost var active := IsNodeActive(n);
      ghost var u := Refresh(s);
      if active {
        RefreshArena(nodes, s, ctx);
      }
      UpdNodeCtx(n);
      if active {
        T := Plug(u, ctx);
        ChildReads(nodes, u, ctx);
      }
      var balance := GetBalance(n);
      var node := n;
      node, ok := BalanceLeftLeft(node, balance, key, u, ctx);
      if !ok {
        return node, false;
      }
      u := LeftLeftCase(u, balance, key).tree;
      node, ok := BalanceRightRight(node, balance, key, u, ctx);
      if !ok {
        return node, false;
      }
      u := RightRightCase(u, balance, key).tree;
      node, ok := BalanceLeftRight(node, balance, key, u, ctx);
      if !ok {
        return node, false;
      }
      u := LeftRightCase(u, balance, key).tree;
      node, ok := BalanceRightLeft(node, balance, key, u, ctx);
      if !ok {
        return node, false;
      }
      return node, true;
    }

    /**
     * The left-left test of `balance_node` on the subtree `u` rooted at
     * `node`, with the balance read on entry: a right rotation of the node
     * when it leans left and `key` is below its left child's key.  With
     * balance 0 (an inactive node reads 0) nothing happens.
     */
    method BalanceLeftLeft(node: int, balance: int, key: int, ghost u: Tree, ghost ctx: seq<Frame>)
      returns (top: int, ok: bool)
      requires Sound()
      requires balance != 0 ==> u.Br? && node == u.idx && T == Plug(u, ctx)
      modifies this
      ensures Sound() && size == old(size) && |nodes| == old(|nodes|)
      ensures InOrder(T) == old(InOrder(T)) && Keys(T) == old(Keys(T))
      ensures balance == 0 ==> ok && top == node && nodes == old(nodes) && T == old(T)
      ensures balance != 0 ==> var o := LeftLeftCase(u, balance, key);
                ok == o.ok && T == Plug(o.tree, ctx) && (ok ==> o.tree.Br? && top == o.tree.idx)
    {
      if balance != 0 {
        ChildReads(nodes, u, ctx);
      }
      top, ok := node, true;
      if balance > 1 && key < GetNodeKey(nodes[node].left) {
        top, ok := RightRotate(node, u, ctx);
      }
    }

    /** The right-right test of `balance_node`: a left rotation of the node. */
    method BalanceRightRight(node: int, balance: int, key: int, ghost u: Tree, ghost ctx: seq<Frame>)
      returns (top: int, ok: bool)
      requires Sound()
      requires balance != 0 ==> u.Br? && node == u.idx && T == Plug(u, ctx)
      modifies this
      ensures Sound() && size == old(size) && |nodes| == old(|nodes|)
      ensures InOrder(T) == old(InOrder(T)) && Keys(T) == old(Keys(T))
      ensures balance == 0 ==> ok && top == node && nodes == old(nodes) && T == old(T)
      ensures balance != 0 ==> var o := RightRightCase(u, balance, key);
                ok == o.ok && T == Plug(o.tree, ctx) && (ok ==> o.tree.Br? && top == o.tree.idx)
    {
      if balance != 0 {
        ChildReads(nodes, u, ctx);
      }
      top, ok := node, true;
      if balance < -1 && key > GetNodeKey(nodes[node].right) {
        top, ok := LeftRotate(node, u, ctx);
      }
    }

    /**
     * The left-right test of `balance_node`: a left rotation of the left
     * child, then a right rotation of the node, which cannot throw once the
     * first one has completed.
     */
    method BalanceLeftRight(node: int, balance: int, key: int, ghost u: Tree, ghost ctx: seq<Frame>)
      returns (top: int, ok: bool)
      requires Sound()
      requires balance != 0 ==> u.Br? && node == u.idx && T == Plug(u, ctx)
      modifies this
      ensures Sound() && size == old(size) && |nodes| == old(|nodes|)
      ensures InOrder(T) == old(InOrder(T)) && Keys(T) == old(Keys(T))
      ensures balance == 0 ==> ok && top == node && nodes == old(nodes) && T == old(T)
      ensures balance != 0 ==> var o := LeftRightCase(u, balance, key);
                ok == o.ok && T == Plug(o.tree, ctx) && (ok ==> o.tree.Br? && top == o.tree.idx)
    {
      if balance != 0 {
        ChildReads(nodes, u, ctx);
      }
      top, ok := node, true;
      if balance > 1 && key > GetNodeKey(nodes[node].left) {
        var child := nodes[node].left;
        ghost var down := [WentLeft(u.idx, u.rec, u.right)] + ctx;
        PlugPush(u.left, down[0], ctx);
        var _, okChild := LeftRotate(child, u.left, down);
        if !okChild {
          return node, false;
        }
        ghost var lv := RotateLeft(u.left).value;
        PlugPush(lv, down[0], ctx);
        ghost var u' := Br(lv, u.idx, u.rec.(left := lv.idx), u.right);
        ChildReads(nodes, u', ctx);
        top, ok := RightRotate(node, u', ctx);
        // the node's left child is the one just rotated up, so this rotation completes
        assert ok;
      }
    }

    /**
     * The right-left test of `balance_node`: a right rotation of the right
     * child, then a left rotation of the node, which cannot throw once the
     * first one has completed.
     */
    method BalanceRightLeft(node: int, balance: int, key: int, ghost u: Tree, ghost ctx: seq<Frame>)
      returns (top: int, ok: bool)
      requires Sound()
      requires balance != 0 ==> u.Br? && node == u.idx && T == Plug(u, ctx)
      modifies this
      ensures Sound() && size == old(size) && |nodes| == old(|nodes|)
      ensures InOrder(T) == old(InOrder(T)) && Keys(T) == old(Keys(T))
      ensures balance == 0 ==> ok && top == node && nodes == old(nodes) && T == old(T)
      ensures balance != 0 ==> var o := RightLeftCase(u, balance, key);
                ok == o.ok && T == Plug(o.tree, ctx) && (ok ==> o.tree.Br? && top == o.tree.idx)
    {
      if balance != 0 {
        ChildReads(nodes, u, ctx);
      }
      top, ok := node, true;
      if balance < -1 && key < GetNodeKey(nodes[node].right) {
        var child := nodes[node].right;
        ghost var down := [WentRight(u.left, u.idx, u.rec)] + ctx;
        PlugPush(u.right, down[0], ctx);
        var _, okChild := RightRotate(child, u.right, down);
        if !okChild {
          return node, false;
        }
        ghost var rv := RotateRight(u.right).value;
        PlugPush(rv, down[0], ctx);
        ghost var u' := Br(u.left, u.idx, u.rec.(right := rv.idx), rv);
        ChildReads(nodes, u', ctx);
        top, ok := LeftRotate(node, u', ctx);
        // the node's right child is the one just rotated up, so this rotation completes
        assert ok;
      }
    }

    // -------------------------------------------------------------------------
    // Counting keys in a range
    // -------------------------------------------------------------------------

    /**
     * `node_rank(i, x)`: the number of keys at most `x` in the subtree `s`
     * rooted at `i` (hanging under `q`), read from the stored subtree sizes:
     * exact whenever those sizes are.  The ghost `s` only bounds the recursion.
     */
    function NodeRank(i: int, x: int, ghost s: Tree, ghost q: int): (r: int)
      reads this
      requires Stored(nodes, s) && Ordered(s) && Linked(s, q) && i == Root(s)
      ensures WellSized(s) ==> r == |KeysUpTo(Keys(s), x)|
      decreases s
    {
      if !IsNodeActive(i) then 0
      else
        var currKey := GetNodeKey(i);
        assert s.Br? && Linked(s.left, s.idx);
        LeftStoredSize(s);
        ReadsSubtree(s.left);
        assert currKey == s.rec.key && nodes[i].left == Root(s.left);
        if currKey > x then
          UpToLeft(s, x);
          NodeRank(nodes[i].left, x, s.left, s.idx)
        else
          UpToThrough(s, x);
          var matching := 1 + (if IsNodeActive(nodes[i].left) then SubtreeSize(nodes[i].left) else 0);
          NodeRank(nodes[i].right, x, s.right, s.idx) + matching
    }

    /** `rank(x)`: the number of keys at most `x` in a valid tree. */
    function Rank(x: int): (r: int)
      reads this
      requires Sound()
      ensures Valid() ==> r == |KeysUpTo(Keys(T), x)|
    {
      NodeRank(RealRoot(), x, T, Sentinel)
    }

    /**
     * `count_in_range(a, b)`: 0 when `a > b`, otherwise the number of keys in
     * the closed interval `[a, b]` of a valid tree.
     */
    function CountInRange(a: int, b: int): (r: int)
      reads this
      requires Sound()
      ensures a > b ==> r == 0
      ensures Valid() ==> r == |KeysBetween(Keys(T), a, b)|
    {
      if a > b then 0
      else
        BetweenIsDifference(Keys(T), a, b);
        Rank(b) - Rank(a - 1)
    }

    // -------------------------------------------------------------------------
    // Printing
    // -------------------------------------------------------------------------

    /**
     * `print_tree_structure(os, i)`: the text written for the subtree `s`
     * rooted at `i` (hanging under `q`), `()` for an absent one.
     */
    function PrintTreeStructure(i: int, ghost s: Tree, ghost q: int): (out: string)
      reads this
      requires Stored(nodes, s) && Linked(s, q) && i == Root(s)
      ensures out == Render(s)
      decreases s
    {
      if i == NoIndex || !IsNodeActive(i) then "()"
      else
        assert s.Br?;
        "(" + NumberText(nodes[i].key) + " " + PrintTreeStructure(nodes[i].left, s.left, s.idx) + " "
          + PrintTreeStructure(nodes[i].right, s.right, s.idx) + ")"
    }

    /**
     * `print_tree_structure(os)`: the whole tree's text and a newline; it
     * holds `2 * size + 1` parentheses of each kind.
     */
    function PrintTree(): (out: string)
      reads this
      requires Sound()
      ensures out == Render(T) + "\n"
      ensures Occurrences(out, '(') == 2 * size + 1 && Occurrences(out, ')') == 2 * size + 1
    {
      var text := PrintTreeStructure(RealRoot(), T, Sentinel);
      RenderParens(T, '(');
      RenderParens(T, ')');
      OccurrencesAppend(text, "\n", '(');
      OccurrencesAppend(text, "\n", ')');
      assert "\n"[..0] == "";
      text + "\n"
    }

    // -------------------------------------------------------------------------
    // Navigators
    // -------------------------------------------------------------------------

    /** `get_root_navigator`: a cursor on the real root. */
    method GetRootNavigator() returns (navi: NodeNavigator)
      requires |nodes| > 0
      ensures fresh(navi) && navi.tree == this
      ensures navi.current == RealRoot() && navi.lastVisited == NoIndex
    {
      navi := new NodeNavigator(this, RealRoot());
    }

    /**
     * `get_navigator_by_index`: a cursor on `index`, whatever it is; the
     * source builds an exception for an inactive handle but never throws it.
     */
    method GetNavigatorByIndex(index: int) returns (navi: NodeNavigator)
      ensures fresh(navi) && navi.tree == this
      ensures navi.current == index && navi.lastVisited == NoIndex
    {
      navi := new NodeNavigator(this, index);
    }

    /**
     * `get_navigator_by_key(start, key)`: from the subtree `s` rooted at
     * `start` on the path `ctx0`, the cursor goes left while `key` is smaller
     * than the key under it and right while it is greater, and stops on
     * `key` or where the child in that direction is absent: where `Descend`
     * stops.  It stays on an inactive start.
     */
    method GetNavigatorByKey(start: int, key: int, ghost s: Tree, ghost ctx0: seq<Frame>) returns (navi: NodeNavigator)
      requires Sound()
      requires IsNodeActive(start) ==> s.Br? && s.idx == start && T == Plug(s, ctx0)
      ensures fresh(navi) && navi.tree == this
      ensures !IsNodeActive(start) ==> navi.current == start && navi.lastVisited == NoIndex
      ensures IsNodeActive(start) ==>
                var (p, ctx) := Descend(s, ctx0, key);
                p.Br? && navi.current == p.idx && T == Plug(p, ctx) && |ctx| >= |ctx0| &&
                navi.lastVisited == (if |ctx| == |ctx0| then NoIndex else Up(ctx))
    {
      navi := GetNavigatorByIndex(start);
      ghost var c, path := s, ctx0;
      while navi.IsCurrentIndexValid()
        invariant navi.tree == this
        invariant !IsNodeActive(start) ==> navi.current == start && navi.lastVisited == NoIndex
        invariant IsNodeActive(start) ==>
                    c.Br? && navi.current == c.idx && T == Plug(c, path) &&
                    Descend(c, path, key) == Descend(s, ctx0, key) && |path| >= |ctx0| &&
                    navi.lastVisited == (if |path| == |ctx0| then NoIndex else Up(path))
        decreases c
      {
        ChildReads(nodes, c, path);
        var currentKey := navi.GetKey().value;
        if key == currentKey {
          break;
        } else if key < currentKey {
          var moved := navi.GoLeft();
          if !moved {
            break;
          }
          PlugPush(c.left, WentLeft(c.idx, c.rec, c.right), path);
          c, path := c.left, [WentLeft(c.idx, c.rec, c.right)] + path;
        } else {
          var moved := navi.GoRight();
          if !moved {
            break;
          }
          PlugPush(c.right, WentRight(c.left, c.idx, c.rec), path);
          c, path := c.right, [WentRight(c.left, c.idx, c.rec)] + path;
        }
      }
      if IsNodeActive(start) {
        // the cursor never leaves the tree: it stops by a break
        ChildReads(nodes, c, path);
      }
    }
  }

  /**
   * `SearchTree::NodeNavigator`: a cursor over a tree's arena, holding the
   * handle it is on and the handle it left last (`-1` before any move).  It
   * reads the tree's arena as it is at each call.
   */
  class NodeNavigator {
    const tree: SearchTree
    var current: int
    var lastVisited: int

    constructor (tree: SearchTree, index: int)
      ensures this.tree == tree && current == index && lastVisited == NoIndex
    {
      this.tree := tree;
      current := index;
      lastVisited := NoIndex;
    }

    /** `is_current_index_valid`: the cursor is on an active node. */
    predicate IsCurrentIndexValid()
      reads this, tree
    {
      tree.IsNodeActive(current)
    }

    /** `has_left`: on an active node whose left child is active. */
    predicate HasLeft()
      reads this, tree
    {
      IsCurrentIndexValid() && tree.IsNodeActive(tree.nodes[current].left)
    }

    /** `has_right`: on an active node whose right child is active. */
    predicate HasRight()
      reads this, tree
    {
      IsCurrentIndexValid() && tree.IsNodeActive(tree.nodes[current].right)
    }

    /** `has_parent`: on an active node whose parent is active. */
    predicate HasParent()
      reads this, tree
    {
      IsCurrentIndexValid() && tree.IsNodeActive(tree.nodes[current].parent)
    }

    /** `get_parent`: the parent's handle, `-1` when there is no active parent. */
    function GetParent(): (r: int)
      reads this, tree
      ensures r != NoIndex <==> HasParent()
      ensures HasParent() ==> r == tree.nodes[current].parent && tree.IsNodeActive(r)
    {
      if !HasParent() then NoIndex else tree.nodes[current].parent
    }

    /** `is_root`: on an active node that is the real root. */
    predicate IsRoot()
      reads this, tree
    {
      IsCurrentIndexValid() && current == tree.RealRoot()
    }

    /** `get_key`: `None` off an active node (the source throws `out_of_range`). */
    function GetKey(): (r: Option<int>)
      reads this, tree
      ensures r.Some? <==> IsCurrentIndexValid()
      ensures r.Some? ==> r.value == tree.nodes[current].key
    {
      if !IsCurrentIndexValid() then None else Some(tree.nodes[current].key)
    }

    /** `get_height`: `None` off an active node (the source throws `out_of_range`). */
    function GetHeight(): (r: Option<int>)
      reads this, tree
      ensures r.Some? <==> IsCurrentIndexValid()
      ensures r.Some? ==> r.value == tree.nodes[current].height
    {
      if !IsCurrentIndexValid() then None else Some(tree.nodes[current].height)
    }

    /** `get_subtree_size`: `None` off an active node (the source throws `out_of_range`). */
    function GetSubtreeSize(): (r: Option<int>)
      reads this, tree
      ensures r.Some? <==> IsCurrentIndexValid()
      ensures r.Some? ==> r.value == tree.nodes[current].subtreeSize
    {
      if !IsCurrentIndexValid() then None else Some(tree.nodes[current].subtreeSize)
    }

    /** `go_left`: moves to an active left child, remembering where it was. */
    method GoLeft() returns (moved: bool)
      modifies this
      ensures moved == old(HasLeft())
      ensures moved ==> current == old(tree.nodes[current].left) && lastVisited == old(current)
      ensures !moved ==> current == old(current) && lastVisited == old(lastVisited)
    {
      if !HasLeft() {
        return false;
      }
      lastVisited := current;
      current := tree.nodes[current].left;
      return true;
    }

    /** `go_right`: moves to an active right child, remembering where it was. */
    method GoRight() returns (moved: bool)
      modifies this
      ensures moved == old(HasRight())
      ensures moved ==> current == old(tree.nodes[current].right) && lastVisited == old(current)
      ensures !moved ==> current == old(current) && lastVisited == old(lastVisited)
    {
      if !HasRight() {
        return false;
      }
      lastVisited := current;
      current := tree.nodes[current].right;
      return true;
    }

    /** `go_parent`: moves to an active parent, remembering where it was. */
    method GoParent() returns (moved: bool)
      modifies this
      ensures moved == old(HasParent())
      ensures moved ==> current == old(tree.nodes[current].parent) && lastVisited == old(current)
      ensures !moved ==> current == old(current) && lastVisited == old(lastVisited)
    {
      var parentIndex := GetParent();
      if parentIndex == NoIndex {
        return false;
      }
      lastVisited := current;
      current := parentIndex;
      return true;
    }

    /** `go_root`: moves to the real root when it is active. */
    method GoRoot() returns (moved: bool)
      requires |tree.nodes| > 0
      modifies this
      ensures moved == tree.IsNodeActive(tree.RealRoot())
      ensures moved ==> current == tree.RealRoot() && lastVisited == old(current)
      ensures !moved ==> current == old(current) && lastVisited == old(lastVisited)
    {
      if !tree.IsNodeActive(tree.RealRoot()) {
        return false;
      }
      lastVisited := current;
      current := tree.RealRoot();
      return true;
    }

    /** `set_index`: moves to any active handle. */
    method SetIndex(index: int) returns (moved: bool)
      modifies this
      ensures moved == tree.IsNodeActive(index)
      ensures moved ==> current == index && lastVisited == old(current)
      ensures !moved ==> current == old(current) && lastVisited == old(lastVisited)
    {
      if !tree.IsNodeActive(index) {
        return false;
      }
      lastVisited := current;
      current := index;
      return true;
    }

    /**
     * On the root of a subtree `s` of a sound tree, found along the path
     * `ctx`, the navigator reads `s`'s root record, sees exactly the
     * children `s` has, always has a parent (the sentinel above the real
     * root), and is on the root exactly when the path is empty.
     */
    lemma ReadsAt(s: Tree, ctx: seq<Frame>)
      requires tree.Sound() && s.Br? && tree.T == Plug(s, ctx) && current == s.idx
      ensures GetKey() == Some(s.rec.key) && GetHeight() == Some(s.rec.height)
      ensures GetSubtreeSize() == Some(s.rec.subtreeSize)
      ensures HasLeft() == s.left.Br? && HasRight() == s.right.Br?
      ensures HasParent() && GetParent() == Up(ctx)
      ensures IsRoot() <==> ctx == []
    {
      SubtreeSlots(tree.nodes, s, ctx);
      RootSlot(tree.nodes, s, ctx);
    }
  }
}

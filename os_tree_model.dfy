/**
 * The value-level twin of the arena-indexed order-statistics tree.
 *
 * A `Tree` is the shape hanging under the sentinel, with every node carrying
 * its arena handle (`idx`) and the record stored in that slot (`rec`).  The
 * functions here are written after the C++ members they are named after, in
 * the same order of steps, so that each method of `OsTree.SearchTree` can be
 * proved to leave the arena holding exactly the tree these functions compute.
 */
module OsTreeModel {

  datatype Option<T> = None | Some(value: T)

  /** One slot of the node arena `nodes_`. */
  datatype Node = Node(key: int, height: int, subtreeSize: int,
                       left: int, right: int, parent: int, isActive: bool)

  /** The "no node" handle. */
  const NoIndex: int := -1
  /** The sentinel is the first slot the constructor creates. */
  const Sentinel: int := 0
  /** The key the constructor gives the sentinel. */
  const SentinelKey: int := -999

  /** The record built by the node constructor `(key, own index, parent)`. */
  function NewNode(key: int, parent: int): (n: Node)
    ensures n.key == key && n.parent == parent && n.isActive
    ensures n.height == 1 && n.subtreeSize == 1 && n.left == NoIndex && n.right == NoIndex
  {
    Node(key, 1, 1, NoIndex, NoIndex, parent, true)
  }

  function Max(a: int, b: int): int { if a < b then b else a }

  /** The sentinel's record: key -999, no parent, `root` as its left child. */
  function SentinelRecord(root: int): Node
  {
    Node(SentinelKey, 1, 1, root, NoIndex, NoIndex, true)
  }

  /** `replace_child` on a parent record holding `prev`: the left slot is tried first. */
  function ReplacedChild(q: Node, prev: int, next: int): Node
  {
    if q.left == prev then q.(left := next) else q.(right := next)
  }

  datatype Tree = Nil | Br(left: Tree, idx: int, rec: Node, right: Tree)

  /** The handle of the subtree's root, `-1` for an absent subtree. */
  function Root(t: Tree): int { if t.Nil? then NoIndex else t.idx }

  /** What `get_node_key`, `height` and `subtree_size` read for a child: 0 when absent. */
  function StoredKey(t: Tree): int { if t.Nil? then 0 else t.rec.key }
  function StoredHeight(t: Tree): int { if t.Nil? then 0 else t.rec.height }
  function StoredSize(t: Tree): int { if t.Nil? then 0 else t.rec.subtreeSize }

  function LeftSub(t: Tree): Tree { if t.Nil? then Nil else t.left }
  function RightSub(t: Tree): Tree { if t.Nil? then Nil else t.right }

  /** The keys stored in a subtree. */
  function Keys(t: Tree): set<int>
  {
    match t
    case Nil => {}
    case Br(l, _, rec, r) => Keys(l) + {rec.key} + Keys(r)
  }

  /** The handles used by a subtree. */
  function Handles(t: Tree): set<int>
  {
    match t
    case Nil => {}
    case Br(l, i, _, r) => Handles(l) + {i} + Handles(r)
  }

  /** In-order key sequence. */
  function InOrder(t: Tree): seq<int>
  {
    match t
    case Nil => []
    case Br(l, _, rec, r) => InOrder(l) + [rec.key] + InOrder(r)
  }

  /** Height recomputed from the shape, a leaf being 1. */
  function TreeHeight(t: Tree): nat
  {
    match t
    case Nil => 0
    case Br(l, _, _, r) => 1 + Max(TreeHeight(l), TreeHeight(r))
  }

  /** Number of nodes recomputed from the shape. */
  function TreeSize(t: Tree): nat
  {
    match t
    case Nil => 0
    case Br(l, _, _, r) => TreeSize(l) + 1 + TreeSize(r)
  }

  /** Search-tree ordering: left keys strictly smaller, right keys strictly greater. */
  ghost predicate Ordered(t: Tree)
  {
    match t
    case Nil => true
    case Br(l, _, rec, r) =>
      Ordered(l) && Ordered(r) &&
      (forall k :: k in Keys(l) ==> k < rec.key) &&
      (forall k :: k in Keys(r) ==> rec.key < k)
  }

  /**
   * Links agree with the shape: every node is active, its child handles are
   * the roots of its subtrees and its parent handle is `parent`.
   */
  ghost predicate Linked(t: Tree, parent: int)
  {
    match t
    case Nil => true
    case Br(l, i, rec, r) =>
      rec.isActive && rec.parent == parent &&
      rec.left == Root(l) && rec.right == Root(r) &&
      Linked(l, i) && Linked(r, i)
  }

  /** Every node's stored height and size equal their recomputation over its subtree. */
  ghost predicate WellSized(t: Tree)
  {
    match t
    case Nil => true
    case Br(l, _, rec, r) =>
      rec.height == TreeHeight(t) && rec.subtreeSize == TreeSize(t) &&
      WellSized(l) && WellSized(r)
  }

  /** The arena holds every record of `t` at its handle; handle 0 is the sentinel's. */
  ghost predicate Stored(nodes: seq<Node>, t: Tree)
  {
    match t
    case Nil => true
    case Br(l, i, rec, r) =>
      0 < i < |nodes| && nodes[i] == rec && Stored(nodes, l) && Stored(nodes, r)
  }

  /** The arena holds `t` under the sentinel, in search order and with consistent links. */
  ghost predicate Holds(nodes: seq<Node>, t: Tree)
  {
    |nodes| > 0 && nodes[Sentinel] == SentinelRecord(Root(t)) &&
    Stored(nodes, t) && Ordered(t) && Linked(t, Sentinel)
  }

  // ---------------------------------------------------------------------------
  // The arena read and updated slot by slot
  // ---------------------------------------------------------------------------

  /** `is_node_active` on an arena. */
  predicate ActiveAt(nodes: seq<Node>, i: int)
  {
    0 <= i < |nodes| && nodes[i].isActive
  }

  /** `get_node_key` on an arena: 0 for a handle that is not active. */
  function KeyAt(nodes: seq<Node>, i: int): int
  {
    if ActiveAt(nodes, i) then nodes[i].key else 0
  }

  /** `height` on an arena: 0 for a handle that is not active. */
  function HeightAt(nodes: seq<Node>, i: int): int
  {
    if ActiveAt(nodes, i) then nodes[i].height else 0
  }

  /** `subtree_size` on an arena: 0 for a handle that is not active. */
  function SizeAt(nodes: seq<Node>, i: int): int
  {
    if ActiveAt(nodes, i) then nodes[i].subtreeSize else 0
  }

  /** `upd_node_ctx` on an arena: height, then size, of slot `i` alone. */
  function RefreshAt(nodes: seq<Node>, i: int): seq<Node>
  {
    if !ActiveAt(nodes, i) then nodes
    else nodes[i := nodes[i].(height := Max(HeightAt(nodes, nodes[i].left), HeightAt(nodes, nodes[i].right)) + 1,
                              subtreeSize := SizeAt(nodes, nodes[i].left) + SizeAt(nodes, nodes[i].right) + 1)]
  }

  // ---------------------------------------------------------------------------
  // upd_height, upd_subtree_size, upd_node_ctx, get_balance
  // ---------------------------------------------------------------------------

  /** `upd_height` on the subtree's root. */
  function WithHeight(t: Tree): Tree
  {
    match t
    case Nil => Nil
    case Br(l, i, rec, r) =>
      Br(l, i, rec.(height := Max(StoredHeight(l), StoredHeight(r)) + 1), r)
  }

  /** `upd_subtree_size` on the subtree's root. */
  function WithSize(t: Tree): Tree
  {
    match t
    case Nil => Nil
    case Br(l, i, rec, r) =>
      Br(l, i, rec.(subtreeSize := StoredSize(l) + StoredSize(r) + 1), r)
  }

  /** `upd_node_ctx`: height first, then size. */
  function Refresh(t: Tree): Tree
  {
    WithSize(WithHeight(t))
  }

  /** `get_balance`: 0 for an absent node. */
  function Balance(t: Tree): int
  {
    if t.Nil? then 0 else StoredHeight(t.left) - StoredHeight(t.right)
  }

  /** Setting the parent handle of a subtree's root (`C.parent = ...` in the rotations). */
  function Reparent(t: Tree, p: int): Tree
  {
    match t
    case Nil => Nil
    case Br(l, i, rec, r) => Br(l, i, rec.(parent := p), r)
  }

  // ---------------------------------------------------------------------------
  // right_rotate, left_rotate
  // ---------------------------------------------------------------------------

  /**
   * `right_rotate(B)`: `None` when B or its left child A is absent (the source
   * throws `invalid_argument` before touching anything).  Otherwise A takes B's
   * place under B's old parent, B becomes A's right child and A's old right
   * subtree C becomes B's left; B is refreshed before A.
   */
  function RotateRight(t: Tree): (r: Option<Tree>)
    ensures r.Some? <==> t.Br? && t.left.Br?
    ensures r.Some? ==> r.value.Br? && r.value.idx == t.left.idx && r.value.right.Br?
  {
    if t.Nil? || t.left.Nil? then None
    else
      var Br(Br(a, ai, ar, c), bi, br, d) := t;
      var b := Refresh(Br(Reparent(c, bi), bi, br.(left := Root(c), parent := ai), d));
      Some(Refresh(Br(a, ai, ar.(right := bi, parent := br.parent), b)))
  }

  /** `left_rotate(A)`: the mirror image, promoting A's right child B. */
  function RotateLeft(t: Tree): (r: Option<Tree>)
    ensures r.Some? <==> t.Br? && t.right.Br?
    ensures r.Some? ==> r.value.Br? && r.value.idx == t.right.idx && r.value.left.Br?
  {
    if t.Nil? || t.right.Nil? then None
    else
      var Br(a, ai, ar, Br(c, bi, br, d)) := t;
      var a' := Refresh(Br(a, ai, ar.(right := Root(c), parent := bi), Reparent(c, ai)));
      Some(Refresh(Br(a', bi, br.(left := ai, parent := ar.parent), d)))
  }

  // ---------------------------------------------------------------------------
  // balance_node
  // ---------------------------------------------------------------------------

  /**
   * The tree after a step, and whether the step completed (`false`: the source
   * threw `invalid_argument`, and `tree` is the state it left behind).
   */
  datatype Outcome = Outcome(tree: Tree, ok: bool)

  function Lift(r: Option<Tree>, before: Tree): Outcome
  {
    if r.None? then Outcome(before, false) else Outcome(r.value, true)
  }

  /** `left_rotate(node.left)` then `right_rotate(node)`. */
  function RotateLeftRight(t: Tree): Outcome
  {
    var l := RotateLeft(LeftSub(t));
    if l.None? || t.Nil? then Outcome(t, false)
    else
      var t' := Br(l.value, t.idx, t.rec.(left := l.value.idx), t.right);
      Lift(RotateRight(t'), t')
  }

  /** `right_rotate(node.right)` then `left_rotate(node)`. */
  function RotateRightLeft(t: Tree): Outcome
  {
    var r := RotateRight(RightSub(t));
    if r.None? || t.Nil? then Outcome(t, false)
    else
      var t' := Br(t.left, t.idx, t.rec.(right := r.value.idx), r.value);
      Lift(RotateLeft(t'), t')
  }

  /** The left-left case of `balance_node`: a right rotation of the node. */
  function LeftLeftCase(t: Tree, bal: int, key: int): Outcome
  {
    if bal > 1 && key < StoredKey(LeftSub(t)) then Lift(RotateRight(t), t) else Outcome(t, true)
  }

  /** The right-right case: a left rotation of the node. */
  function RightRightCase(t: Tree, bal: int, key: int): Outcome
  {
    if bal < -1 && key > StoredKey(RightSub(t)) then Lift(RotateLeft(t), t) else Outcome(t, true)
  }

  /** The left-right case: left rotation of the left child, then right rotation of the node. */
  function LeftRightCase(t: Tree, bal: int, key: int): Outcome
  {
    if bal > 1 && key > StoredKey(LeftSub(t)) then RotateLeftRight(t) else Outcome(t, true)
  }

  /** The right-left case: right rotation of the right child, then left rotation of the node. */
  function RightLeftCase(t: Tree, bal: int, key: int): Outcome
  {
    if bal < -1 && key < StoredKey(RightSub(t)) then RotateRightLeft(t) else Outcome(t, true)
  }

  /**
   * `balance_node(node, key)`, as written: the node is refreshed and its
   * balance read once; the four cases are then four separate tests, each on
   * the subtree the previous one left, all with that first balance.
   */
  function Rebalance(t: Tree, key: int): Outcome
  {
    var t0 := Refresh(t);
    var bal := Balance(t0);
    var o1 := LeftLeftCase(t0, bal, key);
    if !o1.ok then o1 else
    var o2 := RightRightCase(o1.tree, bal, key);
    if !o2.ok then o2 else
    var o3 := LeftRightCase(o2.tree, bal, key);
    if !o3.ok then o3 else
    RightLeftCase(o3.tree, bal, key)
  }

  // ---------------------------------------------------------------------------
  // The path from a node up to the sentinel
  // ---------------------------------------------------------------------------

  /**
   * One step of the path above a subtree: the parent's handle and record and
   * the parent's other subtree.  The parent's slot that leads back down is
   * not kept here: it always holds the root of whatever subtree is below.
   */
  datatype Frame = WentLeft(p: int, rec: Node, right: Tree) | WentRight(left: Tree, p: int, rec: Node)

  function Fill(f: Frame, t: Tree): Tree
  {
    match f
    case WentLeft(p, rec, r) => Br(t, p, rec.(left := Root(t)), r)
    case WentRight(l, p, rec) => Br(l, p, rec.(right := Root(t)), t)
  }

  /** The whole tree: `t` put back into its path `ctx` (innermost frame first). */
  function Plug(t: Tree, ctx: seq<Frame>): Tree
    decreases |ctx|
  {
    if ctx == [] then t else Plug(Fill(ctx[0], t), ctx[1..])
  }

  /** The handle of the node above the hole: the sentinel when the path is empty. */
  function Up(ctx: seq<Frame>): int
  {
    if ctx == [] then Sentinel else ctx[0].p
  }

  /** A key belongs below every frame of the path. */
  ghost predicate FrameFits(f: Frame, k: int)
  {
    if f.WentLeft? then k < f.rec.key else f.rec.key < k
  }

  ghost predicate Fits(ctx: seq<Frame>, k: int)
  {
    forall j :: 0 <= j < |ctx| ==> FrameFits(ctx[j], k)
  }

  /** The parent's other subtree. */
  function Sibling(f: Frame): Tree
  {
    if f.WentLeft? then f.right else f.left
  }

  /** The siblings along the path keep correct metadata. */
  ghost predicate SiblingsSized(ctx: seq<Frame>)
  {
    forall j :: 0 <= j < |ctx| ==> WellSized(Sibling(ctx[j]))
  }

  // ---------------------------------------------------------------------------
  // get_navigator_by_key, add_node, the rebalancing walk, insert
  // ---------------------------------------------------------------------------

  /**
   * The descent of `get_navigator_by_key`: stop at the node holding `key`, or
   * at the node whose child in the direction of `key` is absent.
   */
  function Descend(s: Tree, ctx: seq<Frame>, key: int): (Tree, seq<Frame>)
    decreases s
  {
    if s.Nil? || key == s.rec.key then (s, ctx)
    else if key < s.rec.key then
      if s.left.Nil? then (s, ctx)
      else Descend(s.left, [WentLeft(s.idx, s.rec, s.right)] + ctx, key)
    else
      if s.right.Nil? then (s, ctx)
      else Descend(s.right, [WentRight(s.left, s.idx, s.rec)] + ctx, key)
  }

  /**
   * `add_node(parent, key)` for an active parent: `None` when the chosen slot
   * is not empty (the source throws); otherwise the new leaf hangs in the left
   * slot when `key < parent key`, else in the right one, and the parent is
   * refreshed.
   */
  function Attach(p: Tree, key: int, newIdx: int): Option<Tree>
  {
    if p.Nil? then None
    else
      var leaf := Br(Nil, newIdx, NewNode(key, p.idx), Nil);
      if key < p.rec.key then
        if p.rec.left != NoIndex then None
        else Some(Refresh(Br(leaf, p.idx, p.rec.(left := newIdx), p.right)))
      else
        if p.rec.right != NoIndex then None
        else Some(Refresh(Br(p.left, p.idx, p.rec.(right := newIdx), leaf)))
  }

  /**
   * The loop of `insert` after `add_node`: from the new leaf's parent, go up
   * one node at a time, `balance_node` it and continue from the root that
   * call returns, until the sentinel is reached.
   */
  function WalkUp(sub: Tree, ctx: seq<Frame>, key: int): Outcome
    decreases |ctx|
  {
    if ctx == [] then Outcome(sub, true)
    else
      var o := Rebalance(Fill(ctx[0], sub), key);
      if !o.ok then Outcome(Plug(o.tree, ctx[1..]), false)
      else WalkUp(o.tree, ctx[1..], key)
  }

  /**
   * `insert(node_index, key)` on the whole tree `t`, the descent starting at
   * the subtree `s` found along the path `ctx0` (`s` is `Nil` when the start
   * handle is not active).  `newIdx` is the handle the new node gets.
   */
  function InsertSpec(t: Tree, s: Tree, ctx0: seq<Frame>, key: int, newIdx: int): Outcome
  {
    if s.Nil? then
      if t.Nil? then Outcome(Br(Nil, newIdx, NewNode(key, Sentinel), Nil), true)
      else Outcome(t, false)
    else
      var (p, ctx) := Descend(s, ctx0, key);
      if p.Nil? || p.rec.key == key then Outcome(t, true)
      else
        var p' := Attach(p, key, newIdx);
        if p'.None? then Outcome(t, false)
        else WalkUp(p'.value, ctx, key)
  }

  /** `insert(key)` on the whole tree `t`: the new node gets the next free handle. */
  function InsertKey(t: Tree, key: int): Outcome
  {
    InsertSpec(t, t, [], key, TreeSize(t) + 1)
  }

  // ---------------------------------------------------------------------------
  // node_rank, count_in_range: the reference definitions
  // ---------------------------------------------------------------------------

  /** The stored keys not greater than `x`. */
  function KeysUpTo(keys: set<int>, x: int): set<int>
  {
    set k | k in keys && k <= x
  }

  /** The stored keys `k` with `a <= k <= b`. */
  function KeysBetween(keys: set<int>, a: int, b: int): set<int>
  {
    set k | k in keys && a <= k <= b
  }
}

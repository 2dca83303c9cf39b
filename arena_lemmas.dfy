/**
 * Which arena slots a rotation rewrites, and why the arena then holds the
 * rotated tree: the promoted node, the demoted node, the root of the moved
 * middle subtree and the slot of the parent above are the only ones written,
 * and they are told apart by their keys.
 */
module ArenaLemmas {
  import opened OsTreeModel
  import opened ShapeLemmas
  import opened PathLemmas

  /** `right_rotate`'s demoted node B before its refresh: its left slot takes A's old right subtree. */
  function RightDemoted(s: Tree): Tree
    requires s.Br? && s.left.Br?
  {
    var c := s.left.right;
    Br(Reparent(c, s.idx), s.idx, s.rec.(left := Root(c), parent := s.left.idx), s.right)
  }

  /** `right_rotate`'s promoted node A before its refresh. */
  function RightPromoted(s: Tree): Tree
    requires s.Br? && s.left.Br?
  {
    Br(s.left.left, s.left.idx, s.left.rec.(right := s.idx, parent := s.rec.parent), Refresh(RightDemoted(s)))
  }

  /** `left_rotate`'s demoted node A before its refresh: its right slot takes B's old left subtree. */
  function LeftDemoted(s: Tree): Tree
    requires s.Br? && s.right.Br?
  {
    var c := s.right.left;
    Br(s.left, s.idx, s.rec.(right := Root(c), parent := s.right.idx), Reparent(c, s.idx))
  }

  /** `left_rotate`'s promoted node B before its refresh. */
  function LeftPromoted(s: Tree): Tree
    requires s.Br? && s.right.Br?
  {
    Br(Refresh(LeftDemoted(s)), s.right.idx, s.right.rec.(left := s.idx, parent := s.rec.parent), s.right.right)
  }

  lemma RotationsUnfold(s: Tree)
    ensures s.Br? && s.left.Br? ==> RotateRight(s) == Some(Refresh(RightPromoted(s)))
    ensures s.Br? && s.right.Br? ==> RotateLeft(s) == Some(Refresh(LeftPromoted(s)))
  {
  }

  /**
   * The slot above a subtree: the sentinel or a node, active, with a key
   * outside the subtree, one of whose child slots holds the subtree's root;
   * re-pointing that slot to another root gives the record the new tree needs.
   */
  lemma {:induction false} ParentSlot(nodes: seq<Node>, s: Tree, t': Tree, ctx: seq<Frame>)
    requires Holds(nodes, Plug(s, ctx))
    requires s.Br? && t'.Br?
    ensures 0 <= Up(ctx) < |nodes| && nodes[Up(ctx)].isActive
    ensures ctx == [] <==> Up(ctx) == Sentinel
    ensures ctx != [] ==> nodes[Up(ctx)].key !in Keys(s)
    ensures nodes[Up(ctx)].left == s.idx || nodes[Up(ctx)].right == s.idx
    ensures ctx == [] ==> ReplacedChild(nodes[Up(ctx)], s.idx, t'.idx) == SentinelRecord(Root(Plug(t', ctx)))
    ensures ctx != [] ==> ReplacedChild(nodes[Up(ctx)], s.idx, t'.idx) == Fill(ctx[0], t').rec
  {
    if ctx != [] {
      var f, rest := ctx[0], ctx[1..];
      PlugStep(s, ctx);
      PlugStoredSplit(nodes, Fill(f, s), rest);
      PlugLinkedSplit(Fill(f, s), rest);
      PlugOrderedSplit(Fill(f, s), rest);
      FillFacts(f, s);
      if f.WentRight? && f.left.Br? {
        assert nodes[f.left.idx].key in Keys(f.left);
      }
    } else {
      assert Up(ctx) == Sentinel;
    }
  }

  /**
   * Putting in place of the subtree `s` a subtree `t'` with the same keys
   * in the same order, stored in the new arena, with the parent's child slot
   * re-pointed by `replace_child` and every slot outside the subtree and the
   * parent left alone, gives an arena holding the whole new tree.
   */
  lemma {:induction false} ReplaceSubtree(n0: seq<Node>, n1: seq<Node>, s: Tree, t': Tree, ctx: seq<Frame>)
    requires Holds(n0, Plug(s, ctx))
    requires s.Br? && t'.Br? && Keys(t') == Keys(s) && InOrder(t') == InOrder(s)
    requires Ordered(t') && Linked(t', Up(ctx)) && Stored(n1, t') && |n1| == |n0|
    requires forall j :: (0 < j < |n0| && j != Up(ctx) && n0[j].key !in Keys(s)) ==> n1[j] == n0[j]
    requires 0 <= Up(ctx) < |n0| && n1[Up(ctx)] == ReplacedChild(n0[Up(ctx)], s.idx, t'.idx)
    requires Up(ctx) != Sentinel ==> n1[Sentinel] == n0[Sentinel]
    ensures Holds(n1, Plug(t', ctx))
    ensures InOrder(Plug(t', ctx)) == InOrder(Plug(s, ctx)) && Keys(Plug(t', ctx)) == Keys(Plug(s, ctx))
    ensures TreeSize(Plug(t', ctx)) == TreeSize(Plug(s, ctx))
  {
    ParentSlot(n0, s, t', ctx);
    PlugOrderedSplit(s, ctx);
    OrderedSizeIsKeyCount(s);
    OrderedSizeIsKeyCount(t');
    PlugStoredReplace(n0, n1, s, t', ctx);
    PlugOrderedReplace(s, t', ctx);
    PlugLinkedReplace(s, t', ctx);
    PlugSizeReplace(s, t', ctx, 0);
    PlugInOrderReplace(s, t', ctx);
    PlugKeysReplace(s, t', ctx, {});
    if ctx != [] {
      PlugRootStable(s, t', ctx);
    }
  }

  /**
   * The slots `right_rotate` writes below the parent: B, its left child A and
   * A's right child C, all distinct, each holding a key of the subtree.
   */
  lemma RightSlots(n0: seq<Node>, s: Tree)
    requires s.Br? && s.left.Br? && Stored(n0, s) && Ordered(s)
    ensures 0 < s.idx < |n0| && n0[s.idx] == s.rec && s.rec.key in Keys(s)
    ensures 0 < s.left.idx < |n0| && n0[s.left.idx] == s.left.rec && s.left.rec.key in Keys(s)
    ensures s.idx != s.left.idx
    ensures s.left.right.Br? ==>
              0 < s.left.right.idx < |n0| && n0[s.left.right.idx] == s.left.right.rec &&
              s.left.right.rec.key in Keys(s) && s.left.right.idx != s.idx && s.left.right.idx != s.left.idx
    ensures s.left.left.Br? ==> s.left.left.idx != s.idx
  {
    var Br(Br(a, ai, ar, c), bi, br, d) := s;
    assert Stored(n0, s.left) && Ordered(s.left);
    assert Keys(s.left) == Keys(a) + {ar.key} + Keys(c);
    assert ar.key < br.key;
    if c.Br? {
      assert Stored(n0, c) && c.rec.key in Keys(c);
      assert ar.key < c.rec.key < br.key;
    }
    if a.Br? {
      assert Stored(n0, a) && a.rec.key in Keys(a);
      assert n0[a.idx].key < br.key;
    }
  }

  /** The mirror image of `RightSlots` for `left_rotate`. */
  lemma LeftSlots(n0: seq<Node>, s: Tree)
    requires s.Br? && s.right.Br? && Stored(n0, s) && Ordered(s)
    ensures 0 < s.idx < |n0| && n0[s.idx] == s.rec && s.rec.key in Keys(s)
    ensures 0 < s.right.idx < |n0| && n0[s.right.idx] == s.right.rec && s.right.rec.key in Keys(s)
    ensures s.idx != s.right.idx
    ensures s.right.left.Br? ==>
              0 < s.right.left.idx < |n0| && n0[s.right.left.idx] == s.right.left.rec &&
              s.right.left.rec.key in Keys(s) && s.right.left.idx != s.idx && s.right.left.idx != s.right.idx
    ensures s.right.right.Br? ==> s.right.right.idx != s.idx
  {
    var Br(a, ai, ar, Br(c, bi, br, d)) := s;
    assert Stored(n0, s.right) && Ordered(s.right);
    assert Keys(s.right) == Keys(c) + {br.key} + Keys(d);
    assert ar.key < br.key;
    if c.Br? {
      assert Stored(n0, c) && c.rec.key in Keys(c);
      assert ar.key < c.rec.key < br.key;
    }
    if d.Br? {
      assert Stored(n0, d) && d.rec.key in Keys(d);
      assert ar.key < n0[d.idx].key;
    }
  }

  /**
   * After `right_rotate` re-links A, B and C (and the parent slot, whose key
   * is not the subtree's), the three subtrees it moves are still stored,
   * C's root now naming B as its parent.
   */
  lemma RightRelinked(n0: seq<Node>, n4: seq<Node>, s: Tree)
    requires s.Br? && s.left.Br? && Stored(n0, s) && Ordered(s) && |n4| == |n0|
    requires forall j :: (0 < j < |n0| && j != s.left.idx && j != s.idx && j != Root(s.left.right) &&
                          n0[j].key in Keys(s)) ==> n4[j] == n0[j]
    requires s.left.right.Br? ==>
               0 < s.left.right.idx < |n4| && n4[s.left.right.idx] == s.left.right.rec.(parent := s.idx)
    ensures Stored(n4, s.left.left) && Stored(n4, Reparent(s.left.right, s.idx)) && Stored(n4, s.right)
  {
    var Br(Br(a, ai, ar, c), bi, br, d) := s;
    assert Stored(n0, s.left) && Ordered(s.left);
    assert Keys(s.left) == Keys(a) + {ar.key} + Keys(c);
    assert n0[ai] == ar && n0[bi] == br;
    assert c.Br? ==> Stored(n0, c) && Ordered(c) && n0[c.idx] == c.rec;
    forall j | 0 < j < |n0| && n0[j].key in Keys(a) ensures n4[j] == n0[j] {
      assert n0[j].key < ar.key < br.key;
    }
    StoredFrame(n0, n4, a);
    forall j | 0 < j < |n0| && n0[j].key in Keys(d) ensures n4[j] == n0[j] {
      assert ar.key < br.key < n0[j].key;
    }
    StoredFrame(n0, n4, d);
    if c.Br? {
      forall j | 0 < j < |n0| && n0[j].key in Keys(c.left) ensures n4[j] == n0[j] {
        assert ar.key < n0[j].key < c.rec.key < br.key;
      }
      StoredFrame(n0, n4, c.left);
      forall j | 0 < j < |n0| && n0[j].key in Keys(c.right) ensures n4[j] == n0[j] {
        assert ar.key < c.rec.key < n0[j].key < br.key;
      }
      StoredFrame(n0, n4, c.right);
    }
  }

  /** The mirror image of `RightRelinked` for `left_rotate`. */
  lemma LeftRelinked(n0: seq<Node>, n4: seq<Node>, s: Tree)
    requires s.Br? && s.right.Br? && Stored(n0, s) && Ordered(s) && |n4| == |n0|
    requires forall j :: (0 < j < |n0| && j != s.right.idx && j != s.idx && j != Root(s.right.left) &&
                          n0[j].key in Keys(s)) ==> n4[j] == n0[j]
    requires s.right.left.Br? ==>
               0 < s.right.left.idx < |n4| && n4[s.right.left.idx] == s.right.left.rec.(parent := s.idx)
    ensures Stored(n4, s.left) && Stored(n4, Reparent(s.right.left, s.idx)) && Stored(n4, s.right.right)
  {
    var Br(a, ai, ar, Br(c, bi, br, d)) := s;
    assert Stored(n0, s.right) && Ordered(s.right);
    assert Keys(s.right) == Keys(c) + {br.key} + Keys(d);
    assert n0[ai] == ar && n0[bi] == br;
    assert c.Br? ==> Stored(n0, c) && Ordered(c) && n0[c.idx] == c.rec;
    forall j | 0 < j < |n0| && n0[j].key in Keys(a) ensures n4[j] == n0[j] {
      assert n0[j].key < ar.key < br.key;
    }
    StoredFrame(n0, n4, a);
    forall j | 0 < j < |n0| && n0[j].key in Keys(d) ensures n4[j] == n0[j] {
      assert ar.key < br.key < n0[j].key;
    }
    StoredFrame(n0, n4, d);
    if c.Br? {
      forall j | 0 < j < |n0| && n0[j].key in Keys(c.left) ensures n4[j] == n0[j] {
        assert ar.key < n0[j].key < c.rec.key < br.key;
      }
      StoredFrame(n0, n4, c.left);
      forall j | 0 < j < |n0| && n0[j].key in Keys(c.right) ensures n4[j] == n0[j] {
        assert ar.key < c.rec.key < n0[j].key < br.key;
      }
      StoredFrame(n0, n4, c.right);
    }
  }

  /**
   * Writing the refreshed demoted node and then the refreshed promoted node
   * into the re-linked arena stores the rotated subtree.
   */
  lemma RightRefreshed(n4: seq<Node>, n6: seq<Node>, s: Tree)
    requires s.Br? && s.left.Br? && Ordered(s)
    requires Stored(n4, s.left.left) && Stored(n4, Reparent(s.left.right, s.idx)) && Stored(n4, s.right)
    requires 0 < s.idx < |n4| && 0 < s.left.idx < |n4| && s.idx != s.left.idx
    requires n4[s.idx].key == s.rec.key && n4[s.left.idx].key == s.left.rec.key
    requires n6 == n4[s.idx := Refresh(RightDemoted(s)).rec][s.left.idx := Refresh(RightPromoted(s)).rec]
    ensures Stored(n6, RotateRight(s).value)
  {
    var Br(Br(a, ai, ar, c), bi, br, d) := s;
    var c' := Reparent(c, bi);
    ReparentKeepsShape(c, ai, bi);
    assert Ordered(s.left);
    assert Keys(s.left) == Keys(a) + {ar.key} + Keys(c);
    forall j | 0 < j < |n4| && n4[j].key in Keys(a) + Keys(c') + Keys(d) ensures n6[j] == n4[j] {
      assert n4[j].key != ar.key && n4[j].key != br.key;
    }
    StoredFrame(n4, n6, a);
    StoredFrame(n4, n6, c');
    StoredFrame(n4, n6, d);
  }

  /** The mirror image of `RightRefreshed` for `left_rotate`. */
  lemma LeftRefreshed(n4: seq<Node>, n6: seq<Node>, s: Tree)
    requires s.Br? && s.right.Br? && Ordered(s)
    requires Stored(n4, s.left) && Stored(n4, Reparent(s.right.left, s.idx)) && Stored(n4, s.right.right)
    requires 0 < s.idx < |n4| && 0 < s.right.idx < |n4| && s.idx != s.right.idx
    requires n4[s.idx].key == s.rec.key && n4[s.right.idx].key == s.right.rec.key
    requires n6 == n4[s.idx := Refresh(LeftDemoted(s)).rec][s.right.idx := Refresh(LeftPromoted(s)).rec]
    ensures Stored(n6, RotateLeft(s).value)
  {
    var Br(a, ai, ar, Br(c, bi, br, d)) := s;
    var c' := Reparent(c, ai);
    ReparentKeepsShape(c, bi, ai);
    assert Ordered(s.right);
    assert Keys(s.right) == Keys(c) + {br.key} + Keys(d);
    forall j | 0 < j < |n4| && n4[j].key in Keys(a) + Keys(c') + Keys(d) ensures n6[j] == n4[j] {
      assert n4[j].key != ar.key && n4[j].key != br.key;
    }
    StoredFrame(n4, n6, a);
    StoredFrame(n4, n6, c');
    StoredFrame(n4, n6, d);
  }

  /**
   * With the records of a node and of its children in their slots,
   * `upd_node_ctx` on the node writes the record of the refreshed subtree.
   */
  lemma RefreshAtRecord(nodes: seq<Node>, s: Tree)
    requires s.Br? && 0 < s.idx < |nodes| && nodes[s.idx] == s.rec && s.rec.isActive
    requires s.rec.left == Root(s.left) && s.rec.right == Root(s.right)
    requires s.left.Br? ==> 0 < s.left.idx < |nodes| && nodes[s.left.idx] == s.left.rec && s.left.rec.isActive
    requires s.right.Br? ==> 0 < s.right.idx < |nodes| && nodes[s.right.idx] == s.right.rec && s.right.rec.isActive
    ensures RefreshAt(nodes, s.idx) == nodes[s.idx := Refresh(s).rec]
  {
  }

  /**
   * What a rotation needs to know about the slots of the subtree `s` it
   * starts from, in the arena `n0` holding the whole tree: the root's record,
   * its children's handles, whether each is active, and the parent slot `P`
   * above, active, distinct from every slot of the subtree, with `s`'s root
   * in one of its child slots.
   */
  lemma SubtreeSlots(n0: seq<Node>, s: Tree, ctx: seq<Frame>)
    requires Holds(n0, Plug(s, ctx))
    requires s.Br?
    ensures 0 < s.idx < |n0| && n0[s.idx] == s.rec && s.rec.isActive && s.rec.parent == Up(ctx)
    ensures s.rec.left == Root(s.left) && (ActiveAt(n0, s.rec.left) <==> s.left.Br?)
    ensures s.rec.right == Root(s.right) && (ActiveAt(n0, s.rec.right) <==> s.right.Br?)
    ensures 0 <= Up(ctx) < |n0| && ActiveAt(n0, Up(ctx)) && Up(ctx) != s.idx
    ensures n0[Up(ctx)].left == s.idx || n0[Up(ctx)].right == s.idx
  {
    PlugStoredSplit(n0, s, ctx);
    PlugLinkedSplit(s, ctx);
    ParentSlot(n0, s, s, ctx);
    if s.left.Br? {
      assert Stored(n0, s.left) && Linked(s.left, s.idx);
    }
    if s.right.Br? {
      assert Stored(n0, s.right) && Linked(s.right, s.idx);
    }
  }

  /** The further slots `right_rotate` reads: A's right child C and how it differs from B, A and the parent. */
  lemma {:induction false} RightRotateSlots(n0: seq<Node>, s: Tree, ctx: seq<Frame>)
    requires Holds(n0, Plug(s, ctx))
    requires s.Br? && s.left.Br?
    ensures 0 < s.left.idx < |n0| && n0[s.left.idx].right == Root(s.left.right)
    ensures s.idx != s.left.idx && Up(ctx) != s.idx && Up(ctx) != s.left.idx
    ensures ActiveAt(n0, Root(s.left.right)) ==> Root(s.left.right) != s.idx && Root(s.left.right) != s.left.idx
    ensures Root(s.left.right) != Up(ctx)
  {
    PlugStoredSplit(n0, s, ctx);
    PlugLinkedSplit(s, ctx);
    PlugOrderedSplit(s, ctx);
    RightSlots(n0, s);
    SubtreeSlots(n0, s, ctx);
    OutsideSubtree(n0, s, ctx);
    assert Linked(s.left, s.idx);
  }

  /** The mirror image of `RightRotateSlots` for `left_rotate`. */
  lemma {:induction false} LeftRotateSlots(n0: seq<Node>, s: Tree, ctx: seq<Frame>)
    requires Holds(n0, Plug(s, ctx))
    requires s.Br? && s.right.Br?
    ensures 0 < s.right.idx < |n0| && n0[s.right.idx].left == Root(s.right.left)
    ensures s.idx != s.right.idx && Up(ctx) != s.idx && Up(ctx) != s.right.idx
    ensures ActiveAt(n0, Root(s.right.left)) ==> Root(s.right.left) != s.idx && Root(s.right.left) != s.right.idx
    ensures Root(s.right.left) != Up(ctx)
  {
    PlugStoredSplit(n0, s, ctx);
    PlugLinkedSplit(s, ctx);
    PlugOrderedSplit(s, ctx);
    LeftSlots(n0, s);
    SubtreeSlots(n0, s, ctx);
    OutsideSubtree(n0, s, ctx);
    assert Linked(s.right, s.idx);
  }

  /** No slot holding a key of the subtree is the parent slot above it. */
  lemma {:induction false} OutsideSubtree(n0: seq<Node>, s: Tree, ctx: seq<Frame>)
    requires Holds(n0, Plug(s, ctx)) && s.Br?
    ensures forall j :: (0 < j < |n0| && n0[j].key in Keys(s)) ==> j != Up(ctx)
  {
    ParentSlot(n0, s, s, ctx);
  }

  /**
   * The re-linking writes of `right_rotate(B)` before its `replace_child`:
   * A takes B as its right child and B's parent, B takes C as its left child
   * and A as its parent, an active C takes B as its parent; no other slot
   * changes.
   */
  ghost predicate RightWrites(n0: seq<Node>, n3: seq<Node>, b: int, a: int, c: int)
  {
    |n3| == |n0| && 0 <= a < |n0| && 0 <= b < |n0| &&
    n3[a] == n0[a].(right := b, parent := n0[b].parent) &&
    n3[b] == n0[b].(left := c, parent := a) &&
    (ActiveAt(n0, c) ==> n3[c] == n0[c].(parent := b)) &&
    forall j :: 0 <= j < |n0| && j != a && j != b && (j == c ==> !ActiveAt(n0, c)) ==> n3[j] == n0[j]
  }

  /** The re-linking writes of `left_rotate(A)`: the mirror image of `RightWrites`. */
  ghost predicate LeftWrites(n0: seq<Node>, n3: seq<Node>, a: int, b: int, c: int)
  {
    |n3| == |n0| && 0 <= a < |n0| && 0 <= b < |n0| &&
    n3[b] == n0[b].(left := a, parent := n0[a].parent) &&
    n3[a] == n0[a].(right := c, parent := b) &&
    (ActiveAt(n0, c) ==> n3[c] == n0[c].(parent := a)) &&
    forall j :: 0 <= j < |n0| && j != a && j != b && (j == c ==> !ActiveAt(n0, c)) ==> n3[j] == n0[j]
  }

  /** `right_rotate`'s writes followed by its `replace_child` on the parent slot. */
  lemma {:induction false} RightRelinkedIntro(n0: seq<Node>, n3: seq<Node>, s: Tree, ctx: seq<Frame>)
    requires Holds(n0, Plug(s, ctx)) && s.Br? && s.left.Br?
    requires RightWrites(n0, n3, s.idx, s.left.idx, Root(s.left.right))
    requires 0 <= Up(ctx) < |n0|
    ensures n3[Up(ctx)] == n0[Up(ctx)]
    ensures RightRelinkedAt(n0, n3[Up(ctx) := ReplacedChild(n3[Up(ctx)], s.idx, s.left.idx)],
                            s.idx, s.left.idx, Root(s.left.right), Up(ctx))
  {
    RightRotateSlots(n0, s, ctx);
  }

  /** `left_rotate`'s writes followed by its `replace_child` on the parent slot. */
  lemma {:induction false} LeftRelinkedIntro(n0: seq<Node>, n3: seq<Node>, s: Tree, ctx: seq<Frame>)
    requires Holds(n0, Plug(s, ctx)) && s.Br? && s.right.Br?
    requires LeftWrites(n0, n3, s.idx, s.right.idx, Root(s.right.left))
    requires 0 <= Up(ctx) < |n0|
    ensures n3[Up(ctx)] == n0[Up(ctx)]
    ensures LeftRelinkedAt(n0, n3[Up(ctx) := ReplacedChild(n3[Up(ctx)], s.idx, s.right.idx)],
                           s.idx, s.right.idx, Root(s.right.left), Up(ctx))
  {
    LeftRotateSlots(n0, s, ctx);
  }

  /**
   * The writes of `right_rotate(B)` up to its `replace_child`, slot by slot:
   * A takes B as its right child and B's parent, B takes C as its left child
   * and A as its parent, an active C takes B as its parent, and the parent's
   * slot holding B now holds A; no other slot changes.
   */
  ghost predicate RightRelinkedAt(n0: seq<Node>, n4: seq<Node>, b: int, a: int, c: int, p: int)
  {
    |n4| == |n0| && 0 <= a < |n0| && 0 <= b < |n0| && 0 <= p < |n0| &&
    n4[a] == n0[a].(right := b, parent := n0[b].parent) &&
    n4[b] == n0[b].(left := c, parent := a) &&
    (ActiveAt(n0, c) ==> n4[c] == n0[c].(parent := b)) &&
    n4[p] == ReplacedChild(n0[p], b, a) &&
    forall j :: 0 <= j < |n0| && j != a && j != b && j != c && j != p ==> n4[j] == n0[j]
  }

  /** The writes of `left_rotate(A)` up to its `replace_child`: the mirror image of `RightRelinkedAt`. */
  ghost predicate LeftRelinkedAt(n0: seq<Node>, n4: seq<Node>, a: int, b: int, c: int, p: int)
  {
    |n4| == |n0| && 0 <= a < |n0| && 0 <= b < |n0| && 0 <= p < |n0| &&
    n4[b] == n0[b].(left := a, parent := n0[a].parent) &&
    n4[a] == n0[a].(right := c, parent := b) &&
    (ActiveAt(n0, c) ==> n4[c] == n0[c].(parent := a)) &&
    n4[p] == ReplacedChild(n0[p], a, b) &&
    forall j :: 0 <= j < |n0| && j != a && j != b && j != c && j != p ==> n4[j] == n0[j]
  }

  /**
   * After `right_rotate`'s re-linking writes, the three subtrees it moves are
   * stored, B and A hold their re-linked records, and outside the subtree
   * only the parent's child slot changed.
   */
  lemma {:induction false} RightRelinkedSlots(n0: seq<Node>, n4: seq<Node>, s: Tree, ctx: seq<Frame>)
    requires Holds(n0, Plug(s, ctx))
    requires s.Br? && s.left.Br?
    requires RightRelinkedAt(n0, n4, s.idx, s.left.idx, Root(s.left.right), Up(ctx))
    ensures Ordered(s) && s.rec.isActive && s.left.rec.isActive
    ensures s.rec.right == Root(s.right) && s.left.rec.left == Root(s.left.left)
    ensures Stored(n4, s.left.left) && Stored(n4, Reparent(s.left.right, s.idx)) && Stored(n4, s.right)
    ensures Linked(s.left.left, s.left.idx) && Linked(Reparent(s.left.right, s.idx), s.idx) && Linked(s.right, s.idx)
    ensures 0 < s.idx < |n4| && 0 < s.left.idx < |n4| && s.idx != s.left.idx
    ensures n4[s.idx] == RightDemoted(s).rec && n4[s.left.idx] == RightPromoted(s).rec.(height := s.left.rec.height, subtreeSize := s.left.rec.subtreeSize)
    ensures s.left.left.Br? ==> s.left.left.idx != s.idx
    ensures n0[s.idx].key in Keys(s) && n0[s.left.idx].key in Keys(s) && Up(ctx) != s.idx && Up(ctx) != s.left.idx
    ensures forall j :: (0 < j < |n0| && j != Up(ctx) && n0[j].key !in Keys(s)) ==> n4[j] == n0[j]
    ensures n4[Up(ctx)] == ReplacedChild(n0[Up(ctx)], s.idx, s.left.idx)
    ensures Up(ctx) != Sentinel ==> n4[Sentinel] == n0[Sentinel]
  {
    var b, a := s.idx, s.left.idx;
    PlugStoredSplit(n0, s, ctx);
    PlugLinkedSplit(s, ctx);
    PlugOrderedSplit(s, ctx);
    RightSlots(n0, s);
    SubtreeSlots(n0, s, ctx);
    OutsideSubtree(n0, s, ctx);
    assert Linked(s.left, b) && Linked(s.left.left, a) && Linked(s.left.right, a);
    RightRelinked(n0, n4, s);
    ReparentKeepsShape(s.left.right, a, b);
  }

  /** The mirror image of `RightRelinkedSlots` for `left_rotate`. */
  lemma {:induction false} LeftRelinkedSlots(n0: seq<Node>, n4: seq<Node>, s: Tree, ctx: seq<Frame>)
    requires Holds(n0, Plug(s, ctx))
    requires s.Br? && s.right.Br?
    requires LeftRelinkedAt(n0, n4, s.idx, s.right.idx, Root(s.right.left), Up(ctx))
    ensures Ordered(s) && s.rec.isActive && s.right.rec.isActive
    ensures s.rec.left == Root(s.left) && s.right.rec.right == Root(s.right.right)
    ensures Stored(n4, s.left) && Stored(n4, Reparent(s.right.left, s.idx)) && Stored(n4, s.right.right)
    ensures Linked(s.left, s.idx) && Linked(Reparent(s.right.left, s.idx), s.idx) && Linked(s.right.right, s.right.idx)
    ensures 0 < s.idx < |n4| && 0 < s.right.idx < |n4| && s.idx != s.right.idx
    ensures n4[s.idx] == LeftDemoted(s).rec && n4[s.right.idx] == LeftPromoted(s).rec.(height := s.right.rec.height, subtreeSize := s.right.rec.subtreeSize)
    ensures s.right.right.Br? ==> s.right.right.idx != s.idx
    ensures n0[s.idx].key in Keys(s) && n0[s.right.idx].key in Keys(s) && Up(ctx) != s.idx && Up(ctx) != s.right.idx
    ensures forall j :: (0 < j < |n0| && j != Up(ctx) && n0[j].key !in Keys(s)) ==> n4[j] == n0[j]
    ensures n4[Up(ctx)] == ReplacedChild(n0[Up(ctx)], s.idx, s.right.idx)
    ensures Up(ctx) != Sentinel ==> n4[Sentinel] == n0[Sentinel]
  {
    var a, b := s.idx, s.right.idx;
    PlugStoredSplit(n0, s, ctx);
    PlugLinkedSplit(s, ctx);
    PlugOrderedSplit(s, ctx);
    LeftSlots(n0, s);
    SubtreeSlots(n0, s, ctx);
    OutsideSubtree(n0, s, ctx);
    assert Linked(s.right, a) && Linked(s.right.left, b) && Linked(s.right.right, b);
    LeftRelinked(n0, n4, s);
    ReparentKeepsShape(s.right.left, b, a);
  }

  /**
   * The two `upd_node_ctx` calls of `right_rotate`, on B and then on A, write
   * the records of the refreshed demoted and promoted subtrees.
   */
  lemma {:induction false} RightRefreshSteps(n4: seq<Node>, s: Tree)
    requires s.Br? && s.left.Br? && s.rec.isActive && s.left.rec.isActive
    requires s.rec.right == Root(s.right) && s.left.rec.left == Root(s.left.left)
    requires Stored(n4, s.left.left) && Stored(n4, Reparent(s.left.right, s.idx)) && Stored(n4, s.right)
    requires Linked(s.left.left, s.left.idx) && Linked(Reparent(s.left.right, s.idx), s.idx) && Linked(s.right, s.idx)
    requires 0 < s.idx < |n4| && 0 < s.left.idx < |n4| && s.idx != s.left.idx
    requires n4[s.idx] == RightDemoted(s).rec
    requires n4[s.left.idx] == RightPromoted(s).rec.(height := s.left.rec.height, subtreeSize := s.left.rec.subtreeSize)
    requires s.left.left.Br? ==> s.left.left.idx != s.idx
    ensures RefreshAt(RefreshAt(n4, s.idx), s.left.idx) ==
              n4[s.idx := Refresh(RightDemoted(s)).rec][s.left.idx := Refresh(RightPromoted(s)).rec]
  {
    RefreshAtRecord(n4, RightDemoted(s));
    RefreshKeepsShape(RightDemoted(s), s.left.idx);
    RefreshAtRecord(RefreshAt(n4, s.idx), RightPromoted(s));
  }

  /** The mirror image of `RightRefreshSteps` for `left_rotate`: A is refreshed, then B. */
  lemma {:induction false} LeftRefreshSteps(n4: seq<Node>, s: Tree)
    requires s.Br? && s.right.Br? && s.rec.isActive && s.right.rec.isActive
    requires s.rec.left == Root(s.left) && s.right.rec.right == Root(s.right.right)
    requires Stored(n4, s.left) && Stored(n4, Reparent(s.right.left, s.idx)) && Stored(n4, s.right.right)
    requires Linked(s.left, s.idx) && Linked(Reparent(s.right.left, s.idx), s.idx) && Linked(s.right.right, s.right.idx)
    requires 0 < s.idx < |n4| && 0 < s.right.idx < |n4| && s.idx != s.right.idx
    requires n4[s.idx] == LeftDemoted(s).rec
    requires n4[s.right.idx] == LeftPromoted(s).rec.(height := s.right.rec.height, subtreeSize := s.right.rec.subtreeSize)
    requires s.right.right.Br? ==> s.right.right.idx != s.idx
    ensures RefreshAt(RefreshAt(n4, s.idx), s.right.idx) ==
              n4[s.idx := Refresh(LeftDemoted(s)).rec][s.right.idx := Refresh(LeftPromoted(s)).rec]
  {
    RefreshAtRecord(n4, LeftDemoted(s));
    RefreshKeepsShape(LeftDemoted(s), s.right.idx);
    RefreshAtRecord(RefreshAt(n4, s.idx), LeftPromoted(s));
  }

  /**
   * `right_rotate`'s writes, then `upd_node_ctx` on B and on A, store the
   * rotated subtree and change, outside it, only the parent's child slot.
   */
  lemma {:induction false} RightRotateStored(n0: seq<Node>, n4: seq<Node>, s: Tree, ctx: seq<Frame>)
    requires Holds(n0, Plug(s, ctx))
    requires s.Br? && s.left.Br?
    requires RightRelinkedAt(n0, n4, s.idx, s.left.idx, Root(s.left.right), Up(ctx))
    ensures var n6 := RefreshAt(RefreshAt(n4, s.idx), s.left.idx);
      |n6| == |n0| && Stored(n6, RotateRight(s).value) &&
      (forall j :: (0 < j < |n0| && j != Up(ctx) && n0[j].key !in Keys(s)) ==> n6[j] == n0[j]) &&
      n6[Up(ctx)] == ReplacedChild(n0[Up(ctx)], s.idx, s.left.idx) &&
      (Up(ctx) != Sentinel ==> n6[Sentinel] == n0[Sentinel])
  {
    RightRelinkedSlots(n0, n4, s, ctx);
    RightRefreshSteps(n4, s);
    RightRefreshed(n4, RefreshAt(RefreshAt(n4, s.idx), s.left.idx), s);
  }

  /** The mirror image of `RightRotateStored` for `left_rotate`. */
  lemma {:induction false} LeftRotateStored(n0: seq<Node>, n4: seq<Node>, s: Tree, ctx: seq<Frame>)
    requires Holds(n0, Plug(s, ctx))
    requires s.Br? && s.right.Br?
    requires LeftRelinkedAt(n0, n4, s.idx, s.right.idx, Root(s.right.left), Up(ctx))
    ensures var n6 := RefreshAt(RefreshAt(n4, s.idx), s.right.idx);
      |n6| == |n0| && Stored(n6, RotateLeft(s).value) &&
      (forall j :: (0 < j < |n0| && j != Up(ctx) && n0[j].key !in Keys(s)) ==> n6[j] == n0[j]) &&
      n6[Up(ctx)] == ReplacedChild(n0[Up(ctx)], s.idx, s.right.idx) &&
      (Up(ctx) != Sentinel ==> n6[Sentinel] == n0[Sentinel])
  {
    LeftRelinkedSlots(n0, n4, s, ctx);
    LeftRefreshSteps(n4, s);
    LeftRefreshed(n4, RefreshAt(RefreshAt(n4, s.idx), s.right.idx), s);
  }

  /**
   * `right_rotate` on the arena: after its re-linking writes and the two
   * `upd_node_ctx` calls (B, then A) the arena holds the whole tree with the
   * subtree rotated as `RotateRight` says; the keys, their in-order sequence,
   * the order and the links of the whole tree are kept.
   */
  lemma {:induction false} RightRotateArena(n0: seq<Node>, n4: seq<Node>, s: Tree, ctx: seq<Frame>)
    requires Holds(n0, Plug(s, ctx))
    requires s.Br? && s.left.Br?
    requires RightRelinkedAt(n0, n4, s.idx, s.left.idx, Root(s.left.right), Up(ctx))
    ensures var n6 := RefreshAt(RefreshAt(n4, s.idx), s.left.idx);
            var t := Plug(RotateRight(s).value, ctx);
      |n6| == |n0| && Holds(n6, t) &&
      InOrder(t) == InOrder(Plug(s, ctx)) && Keys(t) == Keys(Plug(s, ctx)) &&
      TreeSize(t) == TreeSize(Plug(s, ctx))
  {
    PlugLinkedSplit(s, ctx);
    PlugOrderedSplit(s, ctx);
    RotateRightPreserves(s, Up(ctx));
    RightRotateStored(n0, n4, s, ctx);
    ReplaceSubtree(n0, RefreshAt(RefreshAt(n4, s.idx), s.left.idx), s, RotateRight(s).value, ctx);
  }

  /** The mirror image of `RightRotateArena` for `left_rotate`. */
  lemma {:induction false} LeftRotateArena(n0: seq<Node>, n4: seq<Node>, s: Tree, ctx: seq<Frame>)
    requires Holds(n0, Plug(s, ctx))
    requires s.Br? && s.right.Br?
    requires LeftRelinkedAt(n0, n4, s.idx, s.right.idx, Root(s.right.left), Up(ctx))
    ensures var n6 := RefreshAt(RefreshAt(n4, s.idx), s.right.idx);
            var t := Plug(RotateLeft(s).value, ctx);
      |n6| == |n0| && Holds(n6, t) &&
      InOrder(t) == InOrder(Plug(s, ctx)) && Keys(t) == Keys(Plug(s, ctx)) &&
      TreeSize(t) == TreeSize(Plug(s, ctx))
  {
    PlugLinkedSplit(s, ctx);
    PlugOrderedSplit(s, ctx);
    RotateLeftPreserves(s, Up(ctx));
    LeftRotateStored(n0, n4, s, ctx);
    ReplaceSubtree(n0, RefreshAt(RefreshAt(n4, s.idx), s.right.idx), s, RotateLeft(s).value, ctx);
  }

  /**
   * What `balance_node` reads of the subtree `u` it works on: its root slot is
   * active and links to the roots of `u`'s subtrees, and the accessors read
   * through those handles give the subtrees' stored key and height.
   */
  lemma {:induction false} ChildReads(nodes: seq<Node>, u: Tree, ctx: seq<Frame>)
    requires Holds(nodes, Plug(u, ctx)) && u.Br?
    ensures 0 < u.idx < |nodes| && ActiveAt(nodes, u.idx) && nodes[u.idx] == u.rec
    ensures nodes[u.idx].left == Root(u.left) && nodes[u.idx].right == Root(u.right)
    ensures ActiveAt(nodes, Root(u.left)) == u.left.Br? && (u.left.Br? ==> 0 < u.left.idx)
    ensures ActiveAt(nodes, Root(u.right)) == u.right.Br? && (u.right.Br? ==> 0 < u.right.idx)
    ensures KeyAt(nodes, Root(u.left)) == StoredKey(u.left) && KeyAt(nodes, Root(u.right)) == StoredKey(u.right)
    ensures HeightAt(nodes, Root(u.left)) == StoredHeight(u.left)
    ensures HeightAt(nodes, Root(u.right)) == StoredHeight(u.right)
  {
    SubtreeSlots(nodes, u, ctx);
    PlugStoredSplit(nodes, u, ctx);
    PlugLinkedSplit(u, ctx);
    assert Linked(u.left, u.idx) && Linked(u.right, u.idx);
  }

  /**
   * `upd_node_ctx` on the root of a subtree `s` of the tree the arena holds:
   * the arena then holds the same tree with `s` refreshed.
   */
  lemma {:induction false} RefreshArena(n0: seq<Node>, s: Tree, ctx: seq<Frame>)
    requires Holds(n0, Plug(s, ctx)) && s.Br?
    ensures var n1 := RefreshAt(n0, s.idx);
            var t := Plug(Refresh(s), ctx);
      |n1| == |n0| && Holds(n1, t) &&
      InOrder(t) == InOrder(Plug(s, ctx)) && Keys(t) == Keys(Plug(s, ctx)) &&
      TreeSize(t) == TreeSize(Plug(s, ctx))
  {
    SubtreeSlots(n0, s, ctx);
    PlugStoredSplit(n0, s, ctx);
    PlugLinkedSplit(s, ctx);
    PlugOrderedSplit(s, ctx);
    assert Linked(s.left, s.idx) && Linked(s.right, s.idx);
    RefreshAtRecord(n0, s);
    var n1 := n0[s.idx := Refresh(s).rec];
    RefreshKeepsShape(s, Up(ctx));
    StoredFrame(n0, n1, s.left);
    StoredFrame(n0, n1, s.right);
    assert Stored(n1, Refresh(s));
    ReplaceSubtree(n0, n1, s, Refresh(s), ctx);
  }

  /**
   * Putting in place of the subtree `p` a subtree `p'` with the same root
   * handle and one more key, stored in an arena that may have grown, with
   * every slot outside `p` left alone, gives an arena holding the whole
   * tree with one more key.
   */
  lemma {:induction false} GrowSubtree(n0: seq<Node>, n2: seq<Node>, p: Tree, p': Tree, ctx: seq<Frame>, key: int)
    requires Holds(n0, Plug(p, ctx)) && p.Br? && p'.Br? && p'.idx == p.idx
    requires Keys(p') == Keys(p) + {key} && TreeSize(p') == TreeSize(p) + 1 && Fits(ctx, key)
    requires Ordered(p') && Linked(p', Up(ctx)) && Stored(n2, p') && |n0| <= |n2|
    requires forall j :: 0 < j < |n0| && n0[j].key !in Keys(p) ==> n2[j] == n0[j]
    requires n2[Sentinel] == n0[Sentinel]
    ensures Holds(n2, Plug(p', ctx))
    ensures Keys(Plug(p', ctx)) == Keys(Plug(p, ctx)) + {key}
    ensures TreeSize(Plug(p', ctx)) == TreeSize(Plug(p, ctx)) + 1
  {
    ParentSlot(n0, p, p', ctx);
    PlugStoredSplit(n0, p, ctx);
    PlugOrderedSplit(p, ctx);
    PlugStoredReplace(n0, n2, p, p', ctx);
    PlugOrderedReplace(p, p', ctx);
    PlugLinkedReplace(p, p', ctx);
    PlugKeysReplace(p, p', ctx, {key});
    PlugSizeReplace(p, p', ctx, 1);
    if ctx != [] {
      PlugRootStable(p, p', ctx);
    }
  }

  /** The arena after `add_node` appends the new leaf under slot `i`, before `i` is refreshed. */
  ghost function Appended(n0: seq<Node>, i: int, key: int, toLeft: bool): seq<Node>
    requires 0 <= i < |n0|
  {
    var n1 := n0 + [NewNode(key, i)];
    if toLeft then n1[i := n1[i].(left := |n0|)] else n1[i := n1[i].(right := |n0|)]
  }

  /**
   * `add_node` below the root of a stored subtree `p` whose chosen child
   * slot is empty, followed by `upd_node_ctx` on it, stores the subtree
   * `Attach` computes, ordered and linked under the same parent.
   */
  lemma {:induction false} AttachStored(n0: seq<Node>, p: Tree, ctx: seq<Frame>, key: int)
    requires Holds(n0, Plug(p, ctx)) && p.Br? && 0 < p.idx < |n0| && key != p.rec.key
    requires Attach(p, key, |n0|).Some?
    ensures var n2 := RefreshAt(Appended(n0, p.idx, key, key < p.rec.key), p.idx);
            var p' := Attach(p, key, |n0|).value;
      |n2| == |n0| + 1 && p'.Br? && p'.idx == p.idx && Stored(n2, p') &&
      Keys(p') == Keys(p) + {key} && TreeSize(p') == TreeSize(p) + 1 &&
      Ordered(p') && Linked(p', Up(ctx)) &&
      (forall j :: 0 < j < |n0| && n0[j].key !in Keys(p) ==> n2[j] == n0[j]) &&
      n2[Sentinel] == n0[Sentinel]
  {
    if key < p.rec.key {
      AttachStoredLeft(n0, p, ctx, key);
    } else {
      AttachStoredRight(n0, p, ctx, key);
    }
  }

  /** `AttachStored` when the new leaf goes to the left. */
  lemma {:induction false} AttachStoredLeft(n0: seq<Node>, p: Tree, ctx: seq<Frame>, key: int)
    requires Holds(n0, Plug(p, ctx)) && p.Br? && 0 < p.idx < |n0| && key < p.rec.key
    requires Attach(p, key, |n0|).Some?
    ensures var n2 := RefreshAt(Appended(n0, p.idx, key, key < p.rec.key), p.idx);
            var p' := Attach(p, key, |n0|).value;
      |n2| == |n0| + 1 && p'.Br? && p'.idx == p.idx && Stored(n2, p') &&
      Keys(p') == Keys(p) + {key} && TreeSize(p') == TreeSize(p) + 1 &&
      Ordered(p') && Linked(p', Up(ctx)) &&
      (forall j :: 0 < j < |n0| && n0[j].key !in Keys(p) ==> n2[j] == n0[j]) &&
      n2[Sentinel] == n0[Sentinel]
  {
    SubtreeSlots(n0, p, ctx);
    PlugStoredSplit(n0, p, ctx);
    PlugLinkedSplit(p, ctx);
    PlugOrderedSplit(p, ctx);
    var newIdx := |n0|;
    var leaf := Br(Nil, newIdx, NewNode(key, p.idx), Nil);
    var n1 := Appended(n0, p.idx, key, true);
    var q0 := Br(leaf, p.idx, p.rec.(left := newIdx), p.right);
    assert p.left.Nil?;
    if p.right.Br? {
      assert Stored(n0, p.right) && Linked(p.right, p.idx);
    }
    RefreshAtRecord(n1, q0);
    var n2 := n1[p.idx := Refresh(q0).rec];
    StoredFrame(n0, n2, p.right);
    RefreshKeepsShape(q0, Up(ctx));
    assert Stored(n2, Refresh(q0));
  }

  /** `AttachStored` when the new leaf goes to the right. */
  lemma {:induction false} AttachStoredRight(n0: seq<Node>, p: Tree, ctx: seq<Frame>, key: int)
    requires Holds(n0, Plug(p, ctx)) && p.Br? && 0 < p.idx < |n0| && p.rec.key < key
    requires Attach(p, key, |n0|).Some?
    ensures var n2 := RefreshAt(Appended(n0, p.idx, key, key < p.rec.key), p.idx);
            var p' := Attach(p, key, |n0|).value;
      |n2| == |n0| + 1 && p'.Br? && p'.idx == p.idx && Stored(n2, p') &&
      Keys(p') == Keys(p) + {key} && TreeSize(p') == TreeSize(p) + 1 &&
      Ordered(p') && Linked(p', Up(ctx)) &&
      (forall j :: 0 < j < |n0| && n0[j].key !in Keys(p) ==> n2[j] == n0[j]) &&
      n2[Sentinel] == n0[Sentinel]
  {
    SubtreeSlots(n0, p, ctx);
    PlugStoredSplit(n0, p, ctx);
    PlugLinkedSplit(p, ctx);
    PlugOrderedSplit(p, ctx);
    var newIdx := |n0|;
    var leaf := Br(Nil, newIdx, NewNode(key, p.idx), Nil);
    var n1 := Appended(n0, p.idx, key, false);
    var q0 := Br(p.left, p.idx, p.rec.(right := newIdx), leaf);
    assert p.right.Nil?;
    if p.left.Br? {
      assert Stored(n0, p.left) && Linked(p.left, p.idx);
    }
    RefreshAtRecord(n1, q0);
    var n2 := n1[p.idx := Refresh(q0).rec];
    StoredFrame(n0, n2, p.left);
    RefreshKeepsShape(q0, Up(ctx));
    assert Stored(n2, Refresh(q0));
  }

  /** `add_node` followed by `upd_node_ctx` on the parent: the arena holds the tree with one more key. */
  lemma {:induction false} AttachArena(n0: seq<Node>, p: Tree, ctx: seq<Frame>, key: int)
    requires Holds(n0, Plug(p, ctx)) && p.Br? && 0 < p.idx < |n0| && key != p.rec.key && Fits(ctx, key)
    requires Attach(p, key, |n0|).Some?
    ensures var n2 := RefreshAt(Appended(n0, p.idx, key, key < p.rec.key), p.idx);
            var t := Plug(Attach(p, key, |n0|).value, ctx);
      |n2| == |n0| + 1 && Holds(n2, t) &&
      Keys(t) == Keys(Plug(p, ctx)) + {key} && TreeSize(t) == TreeSize(Plug(p, ctx)) + 1
  {
    AttachStored(n0, p, ctx, key);
    var n2 := RefreshAt(Appended(n0, p.idx, key, key < p.rec.key), p.idx);
    GrowSubtree(n0, n2, p, Attach(p, key, |n0|).value, ctx, key);
  }

  /** A stored subtree's root is the real root exactly when its path is empty. */
  lemma {:induction false} RootSlot(nodes: seq<Node>, s: Tree, ctx: seq<Frame>)
    requires Holds(nodes, Plug(s, ctx)) && s.Br?
    ensures nodes[Sentinel].left == s.idx <==> ctx == []
  {
    SubtreeSlots(nodes, s, ctx);
    ParentSlot(nodes, s, s, ctx);
    if ctx != [] {
      PlugRootStable(s, s, ctx);
      var t := Plug(s, ctx);
      assert nodes[t.idx] == t.rec && t.rec.parent == Sentinel;
    }
  }
}

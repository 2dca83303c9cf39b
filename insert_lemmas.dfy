/**
 * The insertion, step by step: the descent of `get_navigator_by_key`, the
 * attachment of `add_node`, the rebalancing walk back up, and what the whole
 * `insert` does to the set of keys, the order, the links and the metadata.
 */
module InsertLemmas {
  import opened OsTreeModel
  import opened ShapeLemmas
  import opened PathLemmas

  /**
   * The descent from `s` keeps the whole tree, stops at a node (never at an
   * absent child), at the node holding `key` or at the node whose child slot
   * towards `key` is empty, and `key` is in the tree exactly when it stopped
   * on it.
   */
  lemma {:induction false} DescendFacts(s: Tree, ctx: seq<Frame>, key: int)
    requires s.Br? && Fits(ctx, key)
    requires Ordered(Plug(s, ctx)) && Linked(Plug(s, ctx), Sentinel)
    ensures var (p, ctx') := Descend(s, ctx, key);
      p.Br? && Plug(p, ctx') == Plug(s, ctx) && Fits(ctx', key) &&
      (key == p.rec.key || (key < p.rec.key && p.left.Nil?) || (p.rec.key < key && p.right.Nil?)) &&
      (key in Keys(Plug(s, ctx)) <==> key == p.rec.key)
    decreases s
  {
    PlugLinkedSplit(s, ctx);
    PlugOrderedSplit(s, ctx);
    if key == s.rec.key {
      PlugKeyMember(s, ctx, key);
    } else if key < s.rec.key && s.left.Br? {
      var ctx2 := [WentLeft(s.idx, s.rec, s.right)] + ctx;
      assert ctx2[1..] == ctx;
      PlugStep(s.left, ctx2);
      assert Fill(ctx2[0], s.left) == s;
      FitsCons(ctx2, key);
      DescendFacts(s.left, ctx2, key);
    } else if s.rec.key < key && s.right.Br? {
      var ctx2 := [WentRight(s.left, s.idx, s.rec)] + ctx;
      assert ctx2[1..] == ctx;
      PlugStep(s.right, ctx2);
      assert Fill(ctx2[0], s.right) == s;
      FitsCons(ctx2, key);
      DescendFacts(s.right, ctx2, key);
    } else {
      PlugKeyMember(s, ctx, key);
      if key < s.rec.key {
        assert key !in Keys(s.right);
      } else {
        assert key !in Keys(s.left);
      }
    }
  }

  /**
   * `add_node` on the node where the descent stopped short of `key` never
   * throws: it hangs one new leaf with `key`, keeps the order and the links,
   * and leaves correct metadata.
   */
  lemma AttachFacts(p: Tree, key: int, newIdx: int, q: int)
    requires p.Br? && Ordered(p) && Linked(p, q) && WellSized(p)
    requires (key < p.rec.key && p.left.Nil?) || (p.rec.key < key && p.right.Nil?)
    ensures var a := Attach(p, key, newIdx);
      a.Some? && a.value.Br? && a.value.idx == p.idx &&
      Keys(a.value) == Keys(p) + {key} && TreeSize(a.value) == TreeSize(p) + 1 &&
      Ordered(a.value) && Linked(a.value, q) && WellSized(a.value)
  {
    var leaf := Br(Nil, newIdx, NewNode(key, p.idx), Nil);
    if key < p.rec.key {
      var p0 := Br(leaf, p.idx, p.rec.(left := newIdx), p.right);
      RefreshKeepsShape(p0, q);
      RefreshMakesWellSized(p0);
    } else {
      var p0 := Br(p.left, p.idx, p.rec.(right := newIdx), leaf);
      RefreshKeepsShape(p0, q);
      RefreshMakesWellSized(p0);
    }
  }

  /**
   * The walk up from the new leaf's parent keeps the keys, the in-order
   * sequence, the order and the links of the whole tree, whether or not a
   * rotation throws on the way; when it completes, every node's metadata is
   * correct again.
   */
  lemma {:induction false} WalkUpFacts(sub: Tree, ctx: seq<Frame>, key: int)
    requires sub.Br? && WellSized(sub) && SiblingsSized(ctx)
    requires Ordered(Plug(sub, ctx)) && Linked(Plug(sub, ctx), Sentinel)
    ensures var o := WalkUp(sub, ctx, key);
      o.tree.Br? && Keys(o.tree) == Keys(Plug(sub, ctx)) &&
      InOrder(o.tree) == InOrder(Plug(sub, ctx)) &&
      TreeSize(o.tree) == TreeSize(Plug(sub, ctx)) &&
      Ordered(o.tree) && Linked(o.tree, Sentinel) &&
      (o.ok ==> WellSized(o.tree))
    decreases |ctx|
  {
    if ctx != [] {
      var f, rest := ctx[0], ctx[1..];
      var n := Fill(f, sub);
      PlugStep(sub, ctx);
      PlugLinkedSplit(n, rest);
      PlugOrderedSplit(n, rest);
      assert WellSized(Sibling(ctx[0]));
      RebalancePreserves(n, key, Up(rest));
      var o := Rebalance(n, key);
      PlugKeysReplace(n, o.tree, rest, {});
      PlugInOrderReplace(n, o.tree, rest);
      PlugSizeReplace(n, o.tree, rest, 0);
      PlugOrderedReplace(n, o.tree, rest);
      PlugLinkedReplace(n, o.tree, rest);
      if o.ok {
        assert SiblingsSized(rest) by {
          forall j | 0 <= j < |rest| ensures WellSized(Sibling(rest[j])) {
            assert rest[j] == ctx[j + 1];
          }
        }
        WalkUpFacts(o.tree, rest, key);
      } else if rest != [] {
        PlugRootStable(n, o.tree, rest);
      }
    }
  }

  /**
   * `insert(node_index, key)` started at the subtree `s` on the path `ctx0`
   * whose frames all admit `key` (`s` is `Nil` for an inactive start node):
   *  - in an empty tree it creates the root;
   *  - from an inactive start in a non-empty tree it throws and changes nothing;
   *  - a key already present leaves the tree as it was;
   *  - otherwise the keys gain `key` and the size grows by one, and the only
   *    way it can fail is a rotation of `balance_node` throwing.
   * In every case the order and the links hold, and when it completes the
   * metadata of every node is correct.
   */
  lemma InsertFacts(t: Tree, s: Tree, ctx0: seq<Frame>, key: int, newIdx: int)
    requires Ordered(t) && Linked(t, Sentinel) && WellSized(t)
    requires s.Br? ==> t == Plug(s, ctx0) && Fits(ctx0, key)
    ensures var o := InsertSpec(t, s, ctx0, key, newIdx);
      Ordered(o.tree) && Linked(o.tree, Sentinel) && (o.ok ==> WellSized(o.tree)) &&
      (s.Nil? && t.Br? ==> o == Outcome(t, false)) &&
      (s.Br? && key in Keys(t) ==> o == Outcome(t, true)) &&
      (s.Br? || t.Nil? ==> Keys(o.tree) == Keys(t) + {key} && o.tree.Br?) &&
      TreeSize(o.tree) == TreeSize(t) + (if key in Keys(t) || (s.Nil? && t.Br?) then 0 else 1)
  {
    if s.Br? {
      DescendFacts(s, ctx0, key);
      var (p, ctx) := Descend(s, ctx0, key);
      if p.rec.key != key {
        PlugOrderedSplit(p, ctx);
        PlugLinkedSplit(p, ctx);
        PlugSizedSplit(p, ctx);
        AttachFacts(p, key, newIdx, Up(ctx));
        var p' := Attach(p, key, newIdx).value;
        PlugKeysReplace(p, p', ctx, {key});
        PlugSizeReplace(p, p', ctx, 1);
        PlugOrderedReplace(p, p', ctx);
        PlugLinkedReplace(p, p', ctx);
        WalkUpFacts(p', ctx, key);
      }
    }
  }
}

/**
 * Facts about a subtree in its place on the path up to the sentinel: what
 * the whole tree keeps when the subtree is replaced by another with the same
 * keys (a rotation) or with one key more (`add_node`), and which arena slots
 * such a replacement may change.
 */
module PathLemmas {
  import opened OsTreeModel

  /** A frame's sibling lies on the far side of the frame's key. */
  ghost predicate SiblingFits(f: Frame)
  {
    forall k :: k in Keys(Sibling(f)) ==> !FrameFits(f, k) && k != f.rec.key
  }

  lemma FillFacts(f: Frame, t: Tree)
    ensures Fill(f, t).Br? && Fill(f, t).idx == f.p && Fill(f, t).rec.key == f.rec.key
    ensures Keys(Fill(f, t)) == Keys(t) + {f.rec.key} + Keys(Sibling(f))
    ensures TreeSize(Fill(f, t)) == TreeSize(t) + 1 + TreeSize(Sibling(f))
    ensures Ordered(Fill(f, t)) <==>
              Ordered(t) && Ordered(Sibling(f)) && SiblingFits(f) &&
              (forall k :: k in Keys(t) ==> FrameFits(f, k))
  {
  }

  lemma PlugStep(t: Tree, ctx: seq<Frame>)
    requires ctx != []
    ensures Plug(t, ctx) == Plug(Fill(ctx[0], t), ctx[1..])
  {
  }

  /** Going one step down: the subtree under a new innermost frame. */
  lemma PlugPush(t: Tree, f: Frame, ctx: seq<Frame>)
    ensures Plug(t, [f] + ctx) == Plug(Fill(f, t), ctx)
  {
    assert ([f] + ctx)[1..] == ctx;
  }

  /** Keys fitting the first frame and the rest of the path fit the whole path. */
  lemma FitsCons(ctx: seq<Frame>, k: int)
    requires ctx != []
    ensures Fits(ctx, k) <==> FrameFits(ctx[0], k) && Fits(ctx[1..], k)
  {
    if FrameFits(ctx[0], k) && Fits(ctx[1..], k) {
      forall j | 0 <= j < |ctx| ensures FrameFits(ctx[j], k) {
        if j > 0 {
          assert ctx[j] == ctx[1..][j - 1];
        }
      }
    }
  }

  /** In an ordered whole tree, the subtree is ordered and its keys fit the path. */
  lemma {:induction false} PlugOrderedSplit(t: Tree, ctx: seq<Frame>)
    requires Ordered(Plug(t, ctx))
    ensures Ordered(t)
    ensures forall k :: k in Keys(t) ==> Fits(ctx, k)
    decreases |ctx|
  {
    if ctx != [] {
      var f := ctx[0];
      PlugStep(t, ctx);
      PlugOrderedSplit(Fill(f, t), ctx[1..]);
      FillFacts(f, t);
      forall k | k in Keys(t) ensures Fits(ctx, k) {
        FitsCons(ctx, k);
      }
    }
  }

  /**
   * Replacing the subtree of an ordered tree by an ordered subtree whose keys
   * fit the path keeps the whole tree ordered.
   */
  lemma {:induction false} PlugOrderedReplace(t: Tree, t': Tree, ctx: seq<Frame>)
    requires Ordered(Plug(t, ctx)) && Ordered(t')
    requires forall k :: k in Keys(t') ==> Fits(ctx, k)
    ensures Ordered(Plug(t', ctx))
    decreases |ctx|
  {
    if ctx != [] {
      var f := ctx[0];
      PlugStep(t, ctx);
      PlugStep(t', ctx);
      PlugOrderedSplit(Fill(f, t), ctx[1..]);
      FillFacts(f, t);
      FillFacts(f, t');
      forall k | k in Keys(Fill(f, t')) ensures Fits(ctx[1..], k) {
        if k in Keys(t') {
          FitsCons(ctx, k);
        }
      }
      forall k | k in Keys(t') ensures FrameFits(f, k) {
        FitsCons(ctx, k);
      }
      PlugOrderedReplace(Fill(f, t), Fill(f, t'), ctx[1..]);
    }
  }

  /** Replacing the subtree adds to the whole tree's keys what it adds to the subtree's. */
  lemma {:induction false} PlugKeysReplace(t: Tree, t': Tree, ctx: seq<Frame>, extra: set<int>)
    requires Keys(t') == Keys(t) + extra
    ensures Keys(Plug(t', ctx)) == Keys(Plug(t, ctx)) + extra
    decreases |ctx|
  {
    if ctx != [] {
      PlugStep(t, ctx);
      PlugStep(t', ctx);
      FillFacts(ctx[0], t);
      FillFacts(ctx[0], t');
      PlugKeysReplace(Fill(ctx[0], t), Fill(ctx[0], t'), ctx[1..], extra);
    }
  }

  /** Replacing the subtree adds to the whole tree's size what it adds to the subtree's. */
  lemma {:induction false} PlugSizeReplace(t: Tree, t': Tree, ctx: seq<Frame>, extra: int)
    requires TreeSize(t') == TreeSize(t) + extra
    ensures TreeSize(Plug(t', ctx)) == TreeSize(Plug(t, ctx)) + extra
    decreases |ctx|
  {
    if ctx != [] {
      PlugStep(t, ctx);
      PlugStep(t', ctx);
      FillFacts(ctx[0], t);
      FillFacts(ctx[0], t');
      PlugSizeReplace(Fill(ctx[0], t), Fill(ctx[0], t'), ctx[1..], extra);
    }
  }

  /** Replacing the subtree by one with the same in-order keys keeps the whole in-order sequence. */
  lemma {:induction false} PlugInOrderReplace(t: Tree, t': Tree, ctx: seq<Frame>)
    requires InOrder(t') == InOrder(t)
    ensures InOrder(Plug(t', ctx)) == InOrder(Plug(t, ctx))
    decreases |ctx|
  {
    if ctx != [] {
      PlugStep(t, ctx);
      PlugStep(t', ctx);
      PlugInOrderReplace(Fill(ctx[0], t), Fill(ctx[0], t'), ctx[1..]);
    }
  }

  /** In a tree linked under the sentinel, the subtree is linked under the node above it. */
  lemma {:induction false} PlugLinkedSplit(t: Tree, ctx: seq<Frame>)
    requires Linked(Plug(t, ctx), Sentinel)
    ensures Linked(t, Up(ctx))
    decreases |ctx|
  {
    if ctx != [] {
      PlugStep(t, ctx);
      PlugLinkedSplit(Fill(ctx[0], t), ctx[1..]);
    }
  }

  /** A subtree linked under the node above it can replace the old one in a linked tree. */
  lemma {:induction false} PlugLinkedReplace(t: Tree, t': Tree, ctx: seq<Frame>)
    requires Linked(Plug(t, ctx), Sentinel) && Linked(t', Up(ctx))
    ensures Linked(Plug(t', ctx), Sentinel)
    decreases |ctx|
  {
    if ctx != [] {
      PlugStep(t, ctx);
      PlugStep(t', ctx);
      PlugLinkedSplit(Fill(ctx[0], t), ctx[1..]);
      PlugLinkedReplace(Fill(ctx[0], t), Fill(ctx[0], t'), ctx[1..]);
    }
  }

  /** In a tree with correct metadata, the subtree and the siblings along its path have it too. */
  lemma {:induction false} PlugSizedSplit(t: Tree, ctx: seq<Frame>)
    requires WellSized(Plug(t, ctx))
    ensures WellSized(t) && SiblingsSized(ctx)
    decreases |ctx|
  {
    if ctx != [] {
      PlugStep(t, ctx);
      PlugSizedSplit(Fill(ctx[0], t), ctx[1..]);
      forall j | 0 <= j < |ctx| ensures WellSized(Sibling(ctx[j])) {
        if j > 0 {
          assert ctx[j] == ctx[1..][j - 1];
        }
      }
    }
  }

  /** Below a non-empty path, the whole tree's root does not depend on the subtree. */
  lemma {:induction false} PlugRootStable(t: Tree, t': Tree, ctx: seq<Frame>)
    requires ctx != []
    ensures Plug(t, ctx).Br? && Plug(t', ctx).Br?
    ensures Root(Plug(t, ctx)) == Root(Plug(t', ctx))
    decreases |ctx|
  {
    PlugStep(t, ctx);
    PlugStep(t', ctx);
    if |ctx| > 1 {
      PlugRootStable(Fill(ctx[0], t), Fill(ctx[0], t'), ctx[1..]);
    }
  }

  /** A key that fits the path is in the whole tree exactly when it is in the subtree. */
  lemma {:induction false} PlugKeyMember(t: Tree, ctx: seq<Frame>, key: int)
    requires Ordered(Plug(t, ctx)) && Fits(ctx, key)
    ensures key in Keys(Plug(t, ctx)) <==> key in Keys(t)
    decreases |ctx|
  {
    if ctx != [] {
      PlugStep(t, ctx);
      FitsCons(ctx, key);
      PlugOrderedSplit(Fill(ctx[0], t), ctx[1..]);
      FillFacts(ctx[0], t);
      PlugKeyMember(Fill(ctx[0], t), ctx[1..], key);
    }
  }

  // ---------------------------------------------------------------------------
  // Which arena slots hold the tree
  // ---------------------------------------------------------------------------

  /** Every handle of a stored subtree holds a record whose key is one of the subtree's. */
  lemma {:induction false} StoredHandleKey(nodes: seq<Node>, t: Tree, i: int)
    requires Stored(nodes, t) && i in Handles(t)
    ensures 0 < i < |nodes| && nodes[i].key in Keys(t)
  {
    match t
    case Br(l, j, _, r) =>
      if i in Handles(l) {
        StoredHandleKey(nodes, l, i);
      } else if i in Handles(r) {
        StoredHandleKey(nodes, r, i);
      }
  }

  /**
   * A stored subtree stays stored in a longer arena that agrees on every
   * slot whose record carries one of the subtree's keys.
   */
  lemma {:induction false} StoredFrame(nodes: seq<Node>, nodes': seq<Node>, t: Tree)
    requires Stored(nodes, t) && |nodes| <= |nodes'|
    requires forall j :: 0 < j < |nodes| && nodes[j].key in Keys(t) ==> nodes'[j] == nodes[j]
    ensures Stored(nodes', t)
  {
    match t
    case Nil =>
    case Br(l, i, _, r) =>
      StoredFrame(nodes, nodes', l);
      StoredFrame(nodes, nodes', r);
  }

  /** In a stored whole tree, the subtree is stored and the slot above it holds the filled frame. */
  lemma {:induction false} PlugStoredSplit(nodes: seq<Node>, t: Tree, ctx: seq<Frame>)
    requires Stored(nodes, Plug(t, ctx))
    ensures Stored(nodes, t)
    ensures ctx != [] ==> 0 < Up(ctx) < |nodes| && nodes[Up(ctx)] == Fill(ctx[0], t).rec
    decreases |ctx|
  {
    if ctx != [] {
      PlugStep(t, ctx);
      PlugStoredSplit(nodes, Fill(ctx[0], t), ctx[1..]);
    }
  }

  /**
   * The arena after a local update: when the new subtree is stored, the slot
   * above it holds the filled frame, and every other slot whose key is not
   * one of the old subtree's is unchanged, the whole new tree is stored.
   */
  lemma {:induction false} PlugStoredReplace(nodes: seq<Node>, nodes': seq<Node>,
                                             t: Tree, t': Tree, ctx: seq<Frame>)
    requires Stored(nodes, Plug(t, ctx)) && Ordered(Plug(t, ctx))
    requires Stored(nodes', t') && |nodes| <= |nodes'|
    requires forall j :: 0 < j < |nodes| && j != Up(ctx) && nodes[j].key !in Keys(t) ==>
               nodes'[j] == nodes[j]
    requires ctx != [] ==> 0 < Up(ctx) < |nodes'| && nodes'[Up(ctx)] == Fill(ctx[0], t').rec
    ensures Stored(nodes', Plug(t', ctx))
    decreases |ctx|
  {
    if ctx != [] {
      var f, rest := ctx[0], ctx[1..];
      PlugStep(t, ctx);
      PlugStep(t', ctx);
      PlugStoredSplit(nodes, t, ctx);
      PlugStoredSplit(nodes, Fill(f, t), rest);
      PlugOrderedSplit(Fill(f, t), rest);
      FillFacts(f, t);
      FillFacts(f, t');
      assert nodes[f.p].key == f.rec.key;
      StoredFrame(nodes, nodes', Sibling(f));
      assert Stored(nodes', Fill(f, t'));
      if rest != [] {
        FitsCons(rest, f.rec.key);
        assert nodes[Up(rest)].key == rest[0].rec.key;
        assert nodes[Up(rest)].key !in Keys(t) by {
          forall k | k in Keys(t) ensures k != rest[0].rec.key {
            FitsCons(rest, k);
          }
        }
      }
      PlugStoredReplace(nodes, nodes', Fill(f, t), Fill(f, t'), rest);
    }
  }
}

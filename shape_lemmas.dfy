/**
 * Facts about single subtrees: what refreshing, re-parenting and the two
 * rotations do to the keys, the search-tree order, the links and the
 * metadata of the subtree they are applied to.
 */
module ShapeLemmas {
  import opened OsTreeModel

  /** With distinct ordered keys, the node count is the number of keys. */
  lemma {:induction false} OrderedSizeIsKeyCount(t: Tree)
    requires Ordered(t)
    ensures |Keys(t)| == TreeSize(t)
  {
    match t
    case Nil =>
    case Br(l, _, rec, r) =>
      OrderedSizeIsKeyCount(l);
      OrderedSizeIsKeyCount(r);
      assert rec.key !in Keys(l) && rec.key !in Keys(r);
      assert Keys(l) !! Keys(r) by {
        forall k | k in Keys(l) ensures k !in Keys(r) { }
      }
      assert |Keys(l) + {rec.key}| == |Keys(l)| + 1;
  }

  /** The keys of a subtree are exactly the elements of its in-order sequence. */
  lemma {:induction false} InOrderHoldsKeys(t: Tree)
    ensures forall k :: k in Keys(t) <==> k in InOrder(t)
  {
    match t
    case Nil =>
    case Br(l, _, _, r) =>
      InOrderHoldsKeys(l);
      InOrderHoldsKeys(r);
  }

  /** A well-sized subtree's root stores its recomputed height and size. */
  lemma {:induction false} WellSizedRoot(t: Tree)
    requires WellSized(t)
    ensures StoredHeight(t) == TreeHeight(t) && StoredSize(t) == TreeSize(t)
  {
  }

  /** `upd_node_ctx` touches only the root's height and size. */
  lemma {:induction false} RefreshKeepsShape(t: Tree, p: int)
    ensures Root(Refresh(t)) == Root(t) && Keys(Refresh(t)) == Keys(t)
    ensures InOrder(Refresh(t)) == InOrder(t) && TreeSize(Refresh(t)) == TreeSize(t)
    ensures Ordered(Refresh(t)) == Ordered(t) && Linked(Refresh(t), p) == Linked(t, p)
    ensures Refresh(t).Br? == t.Br?
    ensures t.Br? ==> Refresh(t).left == t.left && Refresh(t).right == t.right &&
                      Refresh(t).idx == t.idx && Refresh(t).rec.key == t.rec.key &&
                      Refresh(t).rec.(height := t.rec.height, subtreeSize := t.rec.subtreeSize) == t.rec
  {
  }

  /** Refreshing a node whose children are well sized makes the whole subtree well sized. */
  lemma {:induction false} RefreshMakesWellSized(t: Tree)
    requires t.Br? ==> WellSized(t.left) && WellSized(t.right)
    ensures WellSized(Refresh(t))
  {
    if t.Br? {
      WellSizedRoot(t.left);
      WellSizedRoot(t.right);
    }
  }

  /** Changing the parent handle of a subtree's root changes nothing else. */
  lemma {:induction false} ReparentKeepsShape(t: Tree, p: int, q: int)
    ensures Root(Reparent(t, q)) == Root(t) && Keys(Reparent(t, q)) == Keys(t)
    ensures InOrder(Reparent(t, q)) == InOrder(t) && TreeSize(Reparent(t, q)) == TreeSize(t)
    ensures Ordered(Reparent(t, q)) == Ordered(t)
    ensures WellSized(Reparent(t, q)) == WellSized(t)
    ensures StoredHeight(Reparent(t, q)) == StoredHeight(t)
    ensures StoredSize(Reparent(t, q)) == StoredSize(t)
    ensures Linked(t, p) ==> Linked(Reparent(t, q), q)
  {
  }

  /** `right_rotate` keeps the search order. */
  lemma {:induction false} RotateRightOrdered(t: Tree)
    requires RotateRight(t).Some? && Ordered(t)
    ensures Ordered(RotateRight(t).value)
  {
    var Br(Br(a, ai, ar, c), bi, br, d) := t;
    var c' := Reparent(c, bi);
    ReparentKeepsShape(c, ai, bi);
    var b0 := Br(c', bi, br.(left := Root(c), parent := ai), d);
    var b := Refresh(b0);
    RefreshKeepsShape(b0, ai);
    var a0 := Br(a, ai, ar.(right := bi, parent := br.parent), b);
    RefreshKeepsShape(a0, 0);
    assert Ordered(t.left) && Ordered(c) && Ordered(c');
    assert Keys(t.left) == Keys(a) + {ar.key} + Keys(c);
    assert Keys(b) == Keys(c) + {br.key} + Keys(d);
    assert Ordered(b0) by {
      forall k | k in Keys(c') ensures k < br.key {
        assert k in Keys(t.left);
      }
    }
    assert Ordered(a0) by {
      forall k | k in Keys(b) ensures ar.key < k {
        if k in Keys(c) {
        } else if k != br.key {
          assert k in Keys(d);
        }
      }
    }
  }

  /** `right_rotate` re-links the moved nodes consistently under the same parent. */
  lemma {:induction false} RotateRightLinked(t: Tree, p: int)
    requires RotateRight(t).Some? && Linked(t, p)
    ensures Linked(RotateRight(t).value, p)
  {
    var Br(Br(a, ai, ar, c), bi, br, d) := t;
    var c' := Reparent(c, bi);
    ReparentKeepsShape(c, ai, bi);
    var b0 := Br(c', bi, br.(left := Root(c), parent := ai), d);
    RefreshKeepsShape(b0, ai);
    var a0 := Br(a, ai, ar.(right := bi, parent := br.parent), Refresh(b0));
    RefreshKeepsShape(a0, p);
    assert Linked(t.left, bi) && Linked(c, ai) && Linked(c', bi);
    assert Linked(b0, ai);
    assert Linked(a0, p);
  }

  /** `right_rotate` keeps the keys, their in-order sequence and the node count. */
  lemma {:induction false} RotateRightContents(t: Tree)
    requires RotateRight(t).Some?
    ensures InOrder(RotateRight(t).value) == InOrder(t)
    ensures Keys(RotateRight(t).value) == Keys(t)
    ensures TreeSize(RotateRight(t).value) == TreeSize(t)
  {
    var Br(Br(a, ai, ar, c), bi, br, d) := t;
    var c' := Reparent(c, bi);
    ReparentKeepsShape(c, ai, bi);
    var b0 := Br(c', bi, br.(left := Root(c), parent := ai), d);
    RefreshKeepsShape(b0, ai);
    var a0 := Br(a, ai, ar.(right := bi, parent := br.parent), Refresh(b0));
    RefreshKeepsShape(a0, 0);
  }

  /** `right_rotate` leaves correct metadata when the three subtrees it moves are well sized. */
  lemma {:induction false} RotateRightSized(t: Tree)
    requires RotateRight(t).Some?
    requires WellSized(t.left.left) && WellSized(t.left.right) && WellSized(t.right)
    ensures WellSized(RotateRight(t).value)
  {
    var Br(Br(a, ai, ar, c), bi, br, d) := t;
    var c' := Reparent(c, bi);
    ReparentKeepsShape(c, ai, bi);
    var b0 := Br(c', bi, br.(left := Root(c), parent := ai), d);
    RefreshMakesWellSized(b0);
    var a0 := Br(a, ai, ar.(right := bi, parent := br.parent), Refresh(b0));
    RefreshMakesWellSized(a0);
  }

  /**
   * `right_rotate` keeps the in-order key sequence and the search order,
   * re-links the moved nodes consistently under the same parent, and leaves
   * correct metadata when the three subtrees it moves are well sized.
   */
  lemma {:induction false} RotateRightPreserves(t: Tree, p: int)
    requires RotateRight(t).Some?
    ensures InOrder(RotateRight(t).value) == InOrder(t)
    ensures Keys(RotateRight(t).value) == Keys(t)
    ensures TreeSize(RotateRight(t).value) == TreeSize(t)
    ensures Ordered(t) ==> Ordered(RotateRight(t).value)
    ensures Linked(t, p) ==> Linked(RotateRight(t).value, p)
    ensures WellSized(t.left.left) && WellSized(t.left.right) && WellSized(t.right) ==>
              WellSized(RotateRight(t).value)
  {
    RotateRightContents(t);
    if Ordered(t) {
      RotateRightOrdered(t);
    }
    if Linked(t, p) {
      RotateRightLinked(t, p);
    }
    if WellSized(t.left.left) && WellSized(t.left.right) && WellSized(t.right) {
      RotateRightSized(t);
    }
  }

  /** `left_rotate` keeps the search order. */
  lemma {:induction false} RotateLeftOrdered(t: Tree)
    requires RotateLeft(t).Some? && Ordered(t)
    ensures Ordered(RotateLeft(t).value)
  {
    var Br(a, ai, ar, Br(c, bi, br, d)) := t;
    var c' := Reparent(c, ai);
    ReparentKeepsShape(c, bi, ai);
    var a0 := Br(a, ai, ar.(right := Root(c), parent := bi), c');
    var a1 := Refresh(a0);
    RefreshKeepsShape(a0, bi);
    var b0 := Br(a1, bi, br.(left := ai, parent := ar.parent), d);
    RefreshKeepsShape(b0, 0);
    assert Ordered(t.right) && Ordered(c) && Ordered(c');
    assert Keys(t.right) == Keys(c) + {br.key} + Keys(d);
    assert Keys(a1) == Keys(a) + {ar.key} + Keys(c);
    assert Ordered(a0) by {
      forall k | k in Keys(c') ensures ar.key < k {
        assert k in Keys(t.right);
      }
    }
    assert Ordered(b0) by {
      forall k | k in Keys(a1) ensures k < br.key {
        if k in Keys(c) {
        } else if k != ar.key {
          assert k in Keys(a);
        }
      }
    }
  }

  /** `left_rotate` re-links the moved nodes consistently under the same parent. */
  lemma {:induction false} RotateLeftLinked(t: Tree, p: int)
    requires RotateLeft(t).Some? && Linked(t, p)
    ensures Linked(RotateLeft(t).value, p)
  {
    var Br(a, ai, ar, Br(c, bi, br, d)) := t;
    var c' := Reparent(c, ai);
    ReparentKeepsShape(c, bi, ai);
    var a0 := Br(a, ai, ar.(right := Root(c), parent := bi), c');
    RefreshKeepsShape(a0, bi);
    var b0 := Br(Refresh(a0), bi, br.(left := ai, parent := ar.parent), d);
    RefreshKeepsShape(b0, p);
    assert Linked(t.right, ai) && Linked(c, bi) && Linked(c', ai);
    assert Linked(a0, bi);
    assert Linked(b0, p);
  }

  /** `left_rotate` keeps the keys, their in-order sequence and the node count. */
  lemma {:induction false} RotateLeftContents(t: Tree)
    requires RotateLeft(t).Some?
    ensures InOrder(RotateLeft(t).value) == InOrder(t)
    ensures Keys(RotateLeft(t).value) == Keys(t)
    ensures TreeSize(RotateLeft(t).value) == TreeSize(t)
  {
    var Br(a, ai, ar, Br(c, bi, br, d)) := t;
    var c' := Reparent(c, ai);
    ReparentKeepsShape(c, bi, ai);
    var a0 := Br(a, ai, ar.(right := Root(c), parent := bi), c');
    RefreshKeepsShape(a0, bi);
    var b0 := Br(Refresh(a0), bi, br.(left := ai, parent := ar.parent), d);
    RefreshKeepsShape(b0, 0);
  }

  /** `left_rotate` leaves correct metadata when the three subtrees it moves are well sized. */
  lemma {:induction false} RotateLeftSized(t: Tree)
    requires RotateLeft(t).Some?
    requires WellSized(t.left) && WellSized(t.right.left) && WellSized(t.right.right)
    ensures WellSized(RotateLeft(t).value)
  {
    var Br(a, ai, ar, Br(c, bi, br, d)) := t;
    var c' := Reparent(c, ai);
    ReparentKeepsShape(c, bi, ai);
    var a0 := Br(a, ai, ar.(right := Root(c), parent := bi), c');
    RefreshMakesWellSized(a0);
    var b0 := Br(Refresh(a0), bi, br.(left := ai, parent := ar.parent), d);
    RefreshMakesWellSized(b0);
  }

  /** The mirror image of `RotateRightPreserves` for `left_rotate`. */
  lemma {:induction false} RotateLeftPreserves(t: Tree, p: int)
    requires RotateLeft(t).Some?
    ensures InOrder(RotateLeft(t).value) == InOrder(t)
    ensures Keys(RotateLeft(t).value) == Keys(t)
    ensures TreeSize(RotateLeft(t).value) == TreeSize(t)
    ensures Ordered(t) ==> Ordered(RotateLeft(t).value)
    ensures Linked(t, p) ==> Linked(RotateLeft(t).value, p)
    ensures WellSized(t.left) && WellSized(t.right.left) && WellSized(t.right.right) ==>
              WellSized(RotateLeft(t).value)
  {
    RotateLeftContents(t);
    if Ordered(t) {
      RotateLeftOrdered(t);
    }
    if Linked(t, p) {
      RotateLeftLinked(t, p);
    }
    if WellSized(t.left) && WellSized(t.right.left) && WellSized(t.right.right) {
      RotateLeftSized(t);
    }
  }

  /**
   * What every intermediate subtree of `balance_node` keeps with respect to
   * the subtree `t` it started from, hanging under the parent `p`.
   */
  ghost predicate Same(u: Tree, t: Tree, p: int)
  {
    u.Br? && InOrder(u) == InOrder(t) && Keys(u) == Keys(t) &&
    TreeSize(u) == TreeSize(t) && Ordered(u) && Linked(u, p) && WellSized(u)
  }

  /** One single rotation inside `balance_node`: it completes, or throws leaving `u` as it was. */
  lemma {:induction false} SingleStep(u: Tree, t: Tree, p: int)
    requires Same(u, t, p)
    ensures Same(Lift(RotateRight(u), u).tree, t, p)
    ensures Same(Lift(RotateLeft(u), u).tree, t, p)
    ensures !Lift(RotateRight(u), u).ok ==> Lift(RotateRight(u), u).tree == u
    ensures !Lift(RotateLeft(u), u).ok ==> Lift(RotateLeft(u), u).tree == u
  {
    if RotateRight(u).Some? {
      assert WellSized(u.left) && WellSized(u.left.left) && WellSized(u.left.right);
      RotateRightPreserves(u, p);
    }
    if RotateLeft(u).Some? {
      assert WellSized(u.right) && WellSized(u.right.left) && WellSized(u.right.right);
      RotateLeftPreserves(u, p);
    }
  }

  /** The left-right double rotation: it completes, or throws leaving `u` as it was. */
  lemma {:induction false} LeftRightStep(u: Tree, t: Tree, p: int)
    requires Same(u, t, p)
    ensures Same(RotateLeftRight(u).tree, t, p)
    ensures !RotateLeftRight(u).ok ==> RotateLeftRight(u).tree == u
  {
    var l := RotateLeft(LeftSub(u));
    if l.Some? {
      assert WellSized(u.left) && WellSized(u.left.right);
      RotateLeftPreserves(u.left, u.idx);
      var u' := Br(l.value, u.idx, u.rec.(left := l.value.idx), u.right);
      assert Ordered(u') && Linked(u', p);
      RotateRightPreserves(u', p);
    }
  }

  /** The right-left double rotation: it completes, or throws leaving `u` as it was. */
  lemma {:induction false} RightLeftStep(u: Tree, t: Tree, p: int)
    requires Same(u, t, p)
    ensures Same(RotateRightLeft(u).tree, t, p)
    ensures !RotateRightLeft(u).ok ==> RotateRightLeft(u).tree == u
  {
    var r := RotateRight(RightSub(u));
    if r.Some? {
      assert WellSized(u.right) && WellSized(u.right.left);
      RotateRightPreserves(u.right, u.idx);
      var u' := Br(u.left, u.idx, u.rec.(right := r.value.idx), r.value);
      assert Ordered(u') && Linked(u', p);
      RotateLeftPreserves(u', p);
    }
  }

  /** The last two cases of `balance_node`, left-right then right-left, each completing or throwing. */
  lemma {:induction false} DoubleSteps(t2: Tree, t: Tree, p: int, key: int, bal: int)
    requires Same(t2, t, p)
    ensures var o3 := LeftRightCase(t2, bal, key);
      Same(o3.tree, t, p) && (o3.ok ==> Same(RightLeftCase(o3.tree, bal, key).tree, t, p))
  {
    LeftRightStep(t2, t, p);
    var o3 := LeftRightCase(t2, bal, key);
    if o3.ok {
      RightLeftStep(o3.tree, t, p);
    }
  }

  /**
   * `balance_node` on a node whose two subtrees have correct metadata keeps
   * the in-order keys, the order and the links, and leaves correct metadata
   * over the whole subtree whether it completes or throws.
   */
  lemma {:induction false} RebalancePreserves(t: Tree, key: int, p: int)
    requires t.Br? && Ordered(t) && Linked(t, p)
    requires WellSized(t.left) && WellSized(t.right)
    ensures var o := Rebalance(t, key);
      o.tree.Br? && InOrder(o.tree) == InOrder(t) && Keys(o.tree) == Keys(t) &&
      TreeSize(o.tree) == TreeSize(t) && Ordered(o.tree) && Linked(o.tree, p) &&
      WellSized(o.tree)
  {
    var t0 := Refresh(t);
    RefreshKeepsShape(t, p);
    RefreshMakesWellSized(t);
    assert Same(t0, t, p);
    SingleStep(t0, t, p);
    var bal := Balance(t0);
    var o1 := LeftLeftCase(t0, bal, key);
    if o1.ok {
      var t1 := o1.tree;
      SingleStep(t1, t, p);
      var o2 := RightRightCase(t1, bal, key);
      if o2.ok {
        DoubleSteps(o2.tree, t, p, key, bal);
      }
    }
  }
}

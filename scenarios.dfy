/**
 * The behaviour the test suite of `SearchTree` checks, proved: trees are
 * built by inserting keys one after the other into an empty tree, and the
 * counts `count_in_range` and `rank` then return are the ones the tests
 * expect.
 */
module Scenarios {
  import opened OsTreeModel
  import opened OsTree

  /** The keys of a sequence, as a set. */
  function KeySet(keys: seq<int>): set<int>
  {
    set k | k in keys
  }

  /** `insert(key)` on the outcome so far, unless an earlier insertion failed. */
  function InsertAfter(o: Outcome, key: int): Outcome
  {
    if !o.ok then o else InsertKey(o.tree, key)
  }

  /** Inserting `keys` one after the other into an empty tree, stopping at the first failure. */
  function Build(keys: seq<int>): Outcome
  {
    if keys == [] then Outcome(Nil, true)
    else InsertAfter(Build(keys[..|keys| - 1]), keys[|keys| - 1])
  }

  /** Once an insertion fails, the later keys change nothing. */
  lemma {:induction false} BuildStops(keys: seq<int>, j: nat)
    requires j <= |keys| && !Build(keys[..j]).ok
    ensures Build(keys) == Build(keys[..j])
    decreases |keys|
  {
    if j < |keys| {
      var front := keys[..|keys| - 1];
      assert front[..j] == keys[..j];
      BuildStops(front, j);
    } else {
      assert keys[..j] == keys;
    }
  }

  /** One more key: `Build` inserts it into the tree built so far. */
  lemma {:induction false} BuildStep(keys: seq<int>, i: nat)
    requires i < |keys|
    ensures Build(keys[..i + 1]) == InsertAfter(Build(keys[..i]), keys[i])
    ensures KeySet(keys[..i + 1]) == KeySet(keys[..i]) + {keys[i]}
  {
    var front := keys[..i + 1];
    assert front[..|front| - 1] == keys[..i];
    assert front == keys[..i] + [keys[i]];
  }

  /** Inserting `keys[i]` into the tree holding the first `i` keys. */
  method InsertNext(tree: SearchTree, keys: seq<int>, i: nat) returns (ok: bool)
    requires i < |keys| && tree.Valid()
    requires Build(keys[..i]) == Outcome(tree.T, true) && Keys(tree.T) == KeySet(keys[..i])
    modifies tree
    ensures tree.Sound() && Build(keys[..i + 1]) == Outcome(tree.T, ok)
    ensures ok ==> tree.Valid() && Keys(tree.T) == KeySet(keys[..i + 1])
  {
    BuildStep(keys, i);
    ok := tree.Insert(keys[i]);
  }

  /**
   * A new tree with `keys` inserted in order: it holds what `Build` computes,
   * and, when no insertion failed, it is valid and holds exactly those keys.
   */
  method BuildTree(keys: seq<int>) returns (tree: SearchTree, ok: bool)
    ensures fresh(tree) && tree.Sound()
    ensures Build(keys) == Outcome(tree.T, ok)
    ensures ok ==> tree.Valid() && Keys(tree.T) == KeySet(keys)
  {
    tree := new SearchTree();
    ok := true;
    var i := 0;
    assert keys[..0] == [];
    while i < |keys|
      invariant 0 <= i <= |keys|
      invariant fresh(tree) && tree.Sound()
      invariant Build(keys[..i]) == Outcome(tree.T, ok)
      invariant ok ==> tree.Valid() && Keys(tree.T) == KeySet(keys[..i])
      invariant !ok ==> i == |keys|
    {
      ok := InsertNext(tree, keys, i);
      if !ok {
        BuildStops(keys, i + 1);
        i := |keys|;
        assert keys[..i] == keys;
      } else {
        i := i + 1;
      }
    }
    assert keys[..|keys|] == keys;
  }

  // ---------------------------------------------------------------------------
  // The test cases
  // ---------------------------------------------------------------------------

  /** An active node record. */
  function Rec(key: int, height: int, size: int, left: int, right: int, parent: int): Node
  {
    Node(key, height, size, left, right, parent, true)
  }

  /** The tree after inserting 10 and 20: 20 hangs right of the root 10. */
  function TwoTree(): Tree
  {
    Br(Nil, 1, Rec(10, 2, 2, NoIndex, 2, Sentinel), Br(Nil, 2, Rec(20, 1, 1, NoIndex, NoIndex, 1), Nil))
  }

  /** The tree after also inserting 30: the root was rotated left and 20 is the root. */
  function ThreeTree(): Tree
  {
    Br(Br(Nil, 1, Rec(10, 1, 1, NoIndex, NoIndex, 2), Nil), 2, Rec(20, 2, 3, 1, 3, Sentinel),
       Br(Nil, 3, Rec(30, 1, 1, NoIndex, NoIndex, 2), Nil))
  }

  lemma BuildTwo()
    ensures Build([10, 20]) == Outcome(TwoTree(), true)
  {
    assert [10, 20][..1] == [10] && [10][..0] == [];
  }

  /**
   * `insert(key)` on a nonempty tree, step by step: the descent stops at the
   * node `p` without the key, the new leaf is attached there, and the walk up
   * then runs along the path `ctx` the descent took.
   */
  lemma {:induction false} InsertSteps(t: Tree, key: int, p: Tree, ctx: seq<Frame>, attached: Tree)
    requires t.Br? && Descend(t, [], key) == (p, ctx)
    requires p.Br? && p.rec.key != key
    requires Attach(p, key, TreeSize(t) + 1) == Some(attached)
    ensures InsertKey(t, key) == WalkUp(attached, ctx, key)
  {
  }

  /** The walk up from a child of the root: one rebalancing, of the root. */
  lemma {:induction false} WalkUpAtRoot(sub: Tree, f: Frame, key: int)
    ensures WalkUp(sub, [f], key) == Rebalance(Fill(f, sub), key)
  {
    assert [f][1..] == [];
  }

  /** Inserting 30: it goes right of 20, and the root 10, two higher on its right, is rotated left. */
  lemma InsertThirty()
    ensures InsertKey(TwoTree(), 30) == Outcome(ThreeTree(), true)
  {
    var f := WentRight(Nil, 1, Rec(10, 2, 2, NoIndex, 2, Sentinel));
    var p := Br(Nil, 2, Rec(20, 1, 1, NoIndex, NoIndex, 1), Nil);
    var attached := Br(Nil, 2, Rec(20, 2, 2, NoIndex, 3, 1), Br(Nil, 3, Rec(30, 1, 1, NoIndex, NoIndex, 2), Nil));
    DescendThirty();
    AttachThirty();
    InsertSteps(TwoTree(), 30, p, [f], attached);
    WalkUpAtRoot(attached, f, 30);
    RootRotates();
  }

  lemma DescendThirty()
    ensures Descend(TwoTree(), [], 30)
            == (Br(Nil, 2, Rec(20, 1, 1, NoIndex, NoIndex, 1), Nil), [WentRight(Nil, 1, Rec(10, 2, 2, NoIndex, 2, Sentinel))])
  {
    assert [WentRight(Nil, 1, Rec(10, 2, 2, NoIndex, 2, Sentinel))] + [] == [WentRight(Nil, 1, Rec(10, 2, 2, NoIndex, 2, Sentinel))];
  }

  lemma AttachThirty()
    ensures Attach(Br(Nil, 2, Rec(20, 1, 1, NoIndex, NoIndex, 1), Nil), 30, TreeSize(TwoTree()) + 1)
            == Some(Br(Nil, 2, Rec(20, 2, 2, NoIndex, 3, 1), Br(Nil, 3, Rec(30, 1, 1, NoIndex, NoIndex, 2), Nil)))
  {
  }

  /** The rebalancing step of `InsertThirty`: the right-right case at the root. */
  lemma RootRotates()
    ensures Rebalance(Fill(WentRight(Nil, 1, Rec(10, 2, 2, NoIndex, 2, Sentinel)),
                           Br(Nil, 2, Rec(20, 2, 2, NoIndex, 3, 1), Br(Nil, 3, Rec(30, 1, 1, NoIndex, NoIndex, 2), Nil))),
                      30) == Outcome(ThreeTree(), true)
  {
    var t0 := Refresh(Br(Nil, 1, Rec(10, 2, 2, NoIndex, 2, Sentinel),
                         Br(Nil, 2, Rec(20, 2, 2, NoIndex, 3, 1), Br(Nil, 3, Rec(30, 1, 1, NoIndex, NoIndex, 2), Nil))));
    assert Balance(t0) == -2;
    assert RotateLeft(t0) == Some(ThreeTree());
  }

  /** Inserting 40: it goes right of 30, and the root is only refreshed. */
  lemma InsertForty()
    ensures InsertKey(ThreeTree(), 40).ok
  {
    var f := WentRight(Br(Nil, 1, Rec(10, 1, 1, NoIndex, NoIndex, 2), Nil), 2, Rec(20, 2, 3, 1, 3, Sentinel));
    var p := Br(Nil, 3, Rec(30, 1, 1, NoIndex, NoIndex, 2), Nil);
    var attached := Br(Nil, 3, Rec(30, 2, 2, NoIndex, 4, 2), Br(Nil, 4, Rec(40, 1, 1, NoIndex, NoIndex, 3), Nil));
    DescendForty();
    AttachForty();
    InsertSteps(ThreeTree(), 40, p, [f], attached);
    WalkUpAtRoot(attached, f, 40);
    RootRefreshed();
  }

  lemma DescendForty()
    ensures Descend(ThreeTree(), [], 40)
            == (Br(Nil, 3, Rec(30, 1, 1, NoIndex, NoIndex, 2), Nil),
                [WentRight(Br(Nil, 1, Rec(10, 1, 1, NoIndex, NoIndex, 2), Nil), 2, Rec(20, 2, 3, 1, 3, Sentinel))])
  {
    var ctx := [WentRight(Br(Nil, 1, Rec(10, 1, 1, NoIndex, NoIndex, 2), Nil), 2, Rec(20, 2, 3, 1, 3, Sentinel))];
    assert ctx + [] == ctx;
  }

  lemma AttachForty()
    ensures Attach(Br(Nil, 3, Rec(30, 1, 1, NoIndex, NoIndex, 2), Nil), 40, TreeSize(ThreeTree()) + 1)
            == Some(Br(Nil, 3, Rec(30, 2, 2, NoIndex, 4, 2), Br(Nil, 4, Rec(40, 1, 1, NoIndex, NoIndex, 3), Nil)))
  {
  }

  /** The rebalancing step of `InsertForty`: the root's balance is -1, so nothing rotates. */
  lemma RootRefreshed()
    ensures Rebalance(Fill(WentRight(Br(Nil, 1, Rec(10, 1, 1, NoIndex, NoIndex, 2), Nil), 2, Rec(20, 2, 3, 1, 3, Sentinel)),
                           Br(Nil, 3, Rec(30, 2, 2, NoIndex, 4, 2), Br(Nil, 4, Rec(40, 1, 1, NoIndex, NoIndex, 3), Nil))),
                      40).ok
  {
  }

  /** Inserting 10, 5 and 15 needs no rotation. */
  lemma BuildRankTree()
    ensures Build([10, 5, 15]).ok
  {
    assert [10, 5, 15][..2] == [10, 5] && [10, 5][..1] == [10] && [10][..0] == [];
  }

  lemma BasicCounts(two: set<int>, four: set<int>)
    requires two == KeySet([10, 20]) && four == two + {30} + {40}
    ensures |KeysBetween(two, 8, 31)| == 2 && |KeysBetween(two, 6, 9)| == 0
    ensures |KeysBetween(four, 15, 40)| == 3
  {
    assert two == {10, 20};
    assert KeysBetween(two, 8, 31) == {10, 20};
    assert KeysBetween(two, 6, 9) == {};
    assert KeysBetween(four, 15, 40) == {20, 30, 40};
  }

  lemma RankCounts(three: set<int>)
    requires three == KeySet([10, 5, 15])
    ensures |KeysUpTo(three, 10)| == 2 && |KeysUpTo(three, 16)| == 3
  {
    assert three == {10, 5, 15};
    assert KeysUpTo(three, 10) == {10, 5};
    assert KeysUpTo(three, 16) == {10, 5, 15};
  }

  lemma TwoKeys()
    ensures Keys(TwoTree()) == KeySet([10, 20])
  {
    assert KeySet([10, 20]) == {10, 20};
  }

  /** Inserting a key whose insertion is known to succeed: the tree stays valid and gains the key. */
  method InsertKnown(tree: SearchTree, key: int) returns (ok: bool)
    requires tree.Valid() && InsertKey(tree.T, key).ok
    modifies tree
    ensures ok && tree.Valid() && tree.T == InsertKey(old(tree.T), key).tree
    ensures Keys(tree.T) == old(Keys(tree.T)) + {key}
  {
    ok := tree.Insert(key);
  }

  /** The first half of `basic_test`: the tree of 10 and 20 and its two counts. */
  method BasicTwoKeys() returns (tree: SearchTree, first: int, second: int)
    ensures fresh(tree) && tree.Valid() && Build([10, 20]) == Outcome(tree.T, true)
    ensures first == 2 && second == 0
  {
    BuildTwo();
    var ok;
    tree, ok := BuildTree([10, 20]);
    BasicCounts(KeySet([10, 20]), KeySet([10, 20]) + {30} + {40});
    first := tree.CountInRange(8, 31);
    second := tree.CountInRange(6, 9);
  }

  /** The second half of `basic_test`: 30 and 40 join 10 and 20, and three keys lie in `[15, 40]`. */
  method BasicFourKeys(tree: SearchTree) returns (third: int)
    requires tree.Valid() && Build([10, 20]) == Outcome(tree.T, true)
    modifies tree
    ensures third == 3
  {
    BuildTwo();
    TwoKeys();
    InsertThirty();
    var ok := InsertKnown(tree, 30);
    InsertForty();
    ok := InsertKnown(tree, 40);
    BasicCounts(KeySet([10, 20]), Keys(tree.T));
    third := tree.CountInRange(15, 40);
  }

  /**
   * `basic_test`: after inserting 10 and 20, two keys lie in `[8, 31]` and
   * none in `[6, 9]`; after also inserting 30 and 40, three lie in `[15, 40]`.
   */
  method BasicTest() returns (first: int, second: int, third: int)
    ensures first == 2 && second == 0 && third == 3
  {
    var tree;
    tree, first, second := BasicTwoKeys();
    third := BasicFourKeys(tree);
  }

  /** `empty_tree`: no key of an empty tree lies in `[0, 10]`. */
  method EmptyTreeTest() returns (count: int)
    ensures count == 0
  {
    var tree := new SearchTree();
    count := tree.CountInRange(0, 10);
  }

  /** `rank_test`: after inserting 10, 5 and 15, two keys are at most 10 and three at most 16. */
  method RankTest() returns (first: int, second: int)
    ensures first == 2 && second == 3
  {
    BuildRankTree();
    var tree, ok := BuildTree([10, 5, 15]);
    RankCounts(KeySet([10, 5, 15]));
    first := tree.Rank(10);
    second := tree.Rank(16);
  }
}

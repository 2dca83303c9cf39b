/**
 * Counting facts behind `node_rank` and `count_in_range`: how the keys at
 * most `x` split over a search-ordered subtree, and how a closed interval
 * is the difference of two such counts.
 */
module RankLemmas {
  import opened OsTreeModel
  import opened ShapeLemmas

  /**
   * In a search-ordered subtree whose root's key exceeds `x`, the keys at
   * most `x` are those of the left subtree.
   */
  lemma {:induction false} UpToLeft(s: Tree, x: int)
    requires s.Br? && Ordered(s) && s.rec.key > x
    ensures KeysUpTo(Keys(s), x) == KeysUpTo(Keys(s.left), x)
  {
    assert forall k :: k in Keys(s.right) ==> x < k;
  }

  /**
   * In a search-ordered subtree whose root's key is at most `x`, the keys at
   * most `x` are all the left keys, the root's key and the right keys at
   * most `x`.
   */
  lemma {:induction false} UpToThrough(s: Tree, x: int)
    requires s.Br? && Ordered(s) && s.rec.key <= x
    ensures |KeysUpTo(Keys(s), x)| == TreeSize(s.left) + 1 + |KeysUpTo(Keys(s.right), x)|
  {
    OrderedSizeIsKeyCount(s.left);
    UpToAcross(Keys(s.left), s.rec.key, Keys(s.right), x);
  }

  /** The set-level step of `UpToThrough`: lower keys, a pivot at most `x`, upper keys. */
  lemma UpToAcross(lower: set<int>, key: int, upper: set<int>, x: int)
    requires forall k :: k in lower ==> k < key
    requires forall k :: k in upper ==> key < k
    requires key <= x
    ensures |KeysUpTo(lower + {key} + upper, x)| == |lower| + 1 + |KeysUpTo(upper, x)|
  {
    var high := KeysUpTo(upper, x);
    assert KeysUpTo(lower + {key} + upper, x) == lower + ({key} + high);
    assert key !in high;
    assert lower !! ({key} + high);
  }

  /** Where sizes are well kept, a node's left child stores the left subtree's size. */
  lemma {:induction false} LeftStoredSize(s: Tree)
    requires s.Br?
    ensures WellSized(s) ==> StoredSize(s.left) == TreeSize(s.left)
  {
    if WellSized(s) {
      WellSizedRoot(s.left);
    }
  }

  /** The keys in `[a, b]` number the keys at most `b` less those at most `a - 1`. */
  lemma {:induction false} BetweenIsDifference(keys: set<int>, a: int, b: int)
    requires a <= b
    ensures |KeysBetween(keys, a, b)| == |KeysUpTo(keys, b)| - |KeysUpTo(keys, a - 1)|
  {
    var low, mid := KeysUpTo(keys, a - 1), KeysBetween(keys, a, b);
    assert KeysUpTo(keys, b) == low + mid;
    assert low !! mid;
  }
}

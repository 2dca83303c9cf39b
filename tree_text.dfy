/**
 * The text `print_tree_structure` writes: a subtree as `(key left right)`,
 * an absent one as `()`, keys in decimal with a leading `-` when negative.
 */
module TreeText {
  import opened OsTreeModel

  predicate IsDigit(c: char) { '0' <= c <= '9' }

  /** The decimal digits of `n`, most significant first, without leading zeros. */
  function DigitsText(n: nat): (s: string)
    ensures |s| > 0 && forall c :: c in s ==> IsDigit(c)
    ensures |s| > 1 ==> s[0] != '0'
  {
    if n < 10 then ['0' + n as char]
    else DigitsText(n / 10) + ['0' + (n % 10) as char]
  }

  /** The value of a string of decimal digits, read most significant first. */
  function DigitsValue(s: string): nat
    requires forall c :: c in s ==> IsDigit(c)
  {
    if |s| == 0 then 0
    else
      assert s[|s| - 1] in s && IsDigit(s[|s| - 1]);
      DigitsValue(s[..|s| - 1]) * 10 + (s[|s| - 1] as int - '0' as int)
  }

  /** Reading the digits back gives the number. */
  lemma {:induction false} DigitsRoundTrip(n: nat)
    ensures DigitsValue(DigitsText(n)) == n
  {
    var s := DigitsText(n);
    if n >= 10 {
      DigitsRoundTrip(n / 10);
      assert s[..|s| - 1] == DigitsText(n / 10);
    }
  }

  /** How an `int` is written to a stream: a `-` for a negative one, then its digits. */
  function NumberText(n: int): (s: string)
    ensures forall c :: c in s ==> c == '-' || IsDigit(c)
    ensures n < 0 ==> |s| > 1 && s[0] == '-' && forall c :: c in s[1..] ==> IsDigit(c)
    ensures n >= 0 ==> |s| > 0 && forall c :: c in s ==> IsDigit(c)
  {
    if n < 0 then
      var d := DigitsText(-n);
      assert ("-" + d)[1..] == d;
      "-" + d
    else DigitsText(n)
  }

  /** Reading a number's text back, after its sign, gives the number. */
  lemma {:induction false} NumberRoundTrip(n: int)
    ensures n < 0 ==> DigitsValue(NumberText(n)[1..]) == -n
    ensures n >= 0 ==> DigitsValue(NumberText(n)) == n
  {
    if n < 0 {
      DigitsRoundTrip(-n);
      assert NumberText(n)[1..] == DigitsText(-n);
    } else {
      DigitsRoundTrip(n);
    }
  }

  /** The text of a subtree. */
  function Render(t: Tree): string
  {
    match t
    case Nil => "()"
    case Br(l, _, rec, r) => "(" + NumberText(rec.key) + " " + Render(l) + " " + Render(r) + ")"
  }

  /** How many times `c` occurs in `s`. */
  function Occurrences(s: string, c: char): nat
  {
    if |s| == 0 then 0
    else Occurrences(s[..|s| - 1], c) + (if s[|s| - 1] == c then 1 else 0)
  }

  lemma {:induction false} OccurrencesAppend(a: string, b: string, c: char)
    ensures Occurrences(a + b, c) == Occurrences(a, c) + Occurrences(b, c)
    decreases |b|
  {
    if |b| > 0 {
      OccurrencesAppend(a, b[..|b| - 1], c);
      assert (a + b)[..|a + b| - 1] == a + b[..|b| - 1];
    } else {
      assert a + b == a;
    }
  }

  lemma {:induction false} OccurrencesAbsent(s: string, c: char)
    requires c !in s
    ensures Occurrences(s, c) == 0
    decreases |s|
  {
    if |s| > 0 {
      assert forall d :: d in s[..|s| - 1] ==> d in s;
      OccurrencesAbsent(s[..|s| - 1], c);
    }
  }

  /** `()` holds one opening and one closing parenthesis. */
  lemma EmptyParens(paren: char)
    requires paren == '(' || paren == ')'
    ensures Occurrences("()", paren) == 1
  {
    assert "()"[..1] == "(";
    assert "("[..0] == "";
  }

  /** A node's text adds one parenthesis of each kind to its children's texts. */
  lemma {:induction false} FramedParens(k: string, left: string, right: string, paren: char)
    requires paren == '(' || paren == ')'
    requires paren !in k
    ensures Occurrences("(" + k + " " + left + " " + right + ")", paren)
            == Occurrences(left, paren) + Occurrences(right, paren) + 1
  {
    OccurrencesAbsent(k, paren);
    OccurrencesAbsent(" ", paren);
    var a := "(" + k;
    var b := a + " ";
    var c := b + left;
    var d := c + " ";
    var e := d + right;
    OccurrencesAppend("(", k, paren);
    OccurrencesAppend(a, " ", paren);
    OccurrencesAppend(b, left, paren);
    OccurrencesAppend(c, " ", paren);
    OccurrencesAppend(d, right, paren);
    OccurrencesAppend(e, ")", paren);
    assert "("[..0] == "" && ")"[..0] == "";
    assert Occurrences("(", paren) + Occurrences(")", paren) == 1;
  }

  /**
   * The text of a subtree with `n` nodes holds `2n + 1` opening and as many
   * closing parentheses: one pair per node and one per absent child.
   */
  lemma {:induction false} RenderParens(t: Tree, paren: char)
    requires paren == '(' || paren == ')'
    ensures Occurrences(Render(t), paren) == 2 * TreeSize(t) + 1
  {
    match t
    case Nil =>
      EmptyParens(paren);
    case Br(l, _, rec, r) =>
      RenderParens(l, paren);
      RenderParens(r, paren);
      assert Render(t) == "(" + NumberText(rec.key) + " " + Render(l) + " " + Render(r) + ")";
      FramedParens(NumberText(rec.key), Render(l), Render(r), paren);
  }
}

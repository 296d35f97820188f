/**
 * The Rand family of `segmentation_metrics`: `rand_values`, `rand_index`,
 * `adj_rand_index` and `compare_adapted_rand_error`, with the arithmetic done
 * on exact reals. A quotient whose denominator is 0 is `NotFinite`, standing
 * for the `inf` or `nan` that floating-point division produces there.
 */
module Rand {
  import opened Wrappers
  import opened Labels
  import opened Tables
  import opened Contingencies
  import opened PairCounts

  datatype Ratio = Finite(value: real) | NotFinite

  function Div(num: real, den: real): (r: Ratio)
    ensures r.Finite? <==> den != 0.0
    ensures r.Finite? ==> r.value * den == num
  {
    if den == 0.0 then NotFinite else Finite(num / den)
  }

  datatype RandValues = RandValues(a: real, b: real, c: real, d: real)

  /**
   * `rand_values`: the four numbers read off a table's sums. Whatever the
   * table, they add up to C(n, 2) for its total n, a + b is half of
   * Σ rowsum² - n and a + c half of Σ colsum² - n.
   */
  function RandValuesOf(t: Table): (v: RandValues)
    requires Rect(t)
    ensures 2.0 * (v.a + v.b + v.c + v.d) == (Total(t) * Total(t) - Total(t)) as real
    ensures 2.0 * (v.a + v.b) == (SumSq(RowSums(t)) - Total(t)) as real
    ensures 2.0 * (v.a + v.c) == (SumSq(ColSums(t)) - Total(t)) as real
  {
    FromSums(Sums(t))
  }

  /** The arithmetic of `rand_values` on the four reductions. */
  function FromSums(s: TableSums): (v: RandValues)
    ensures 2.0 * (v.a + v.b + v.c + v.d) == (s.total * s.total - s.total) as real
    ensures 2.0 * (v.a + v.b) == (s.rowSq - s.total) as real
    ensures 2.0 * (v.a + v.c) == (s.colSq - s.total) as real
  {
    var n, sum1, sum2, sum3 := s.total as real, s.cellSq as real, s.rowSq as real, s.colSq as real;
    assert n * n == (s.total * s.total) as real;
    RandValues((sum1 - n) / 2.0, (sum2 - sum1) / 2.0, (sum3 - sum1) / 2.0, (sum1 + n * n - sum2 - sum3) / 2.0)
  }

  function AsReals(p: Tally): RandValues {
    RandValues(p.sameBoth as real, p.sameRowOnly as real, p.sameColOnly as real, p.diffBoth as real)
  }

  /**
   * The four reductions of `contingency_table(im_true, im_test)` in terms of
   * the pairs of positions labelled in both fields: N positions, and
   * P.sameBoth, P.sameRowOnly (alike in the test field only) and
   * P.sameColOnly (alike in the true field only) pairs.
   */
  lemma {:induction false} ContingencySums(imTrue: seq<nat>, imTest: seq<nat>)
    requires |imTrue| == |imTest| > 0
    ensures var s := Sums(Contingency(imTrue, imTest).value);
      var p := PairTally(imTest, imTrue);
      var n := Labelled(imTest, imTrue);
      && s.total == n
      && s.cellSq == 2 * p.sameBoth + n
      && s.rowSq == 2 * (p.sameBoth + p.sameRowOnly) + n
      && s.colSq == 2 * (p.sameBoth + p.sameColOnly) + n
  {
    SumsArePairs(imTest, imTrue, Max(imTest) + 1, Max(imTrue) + 1);
    ContingencyTotal(imTrue, imTest);
  }

  /**
   * `rand_values(contingency_table(im_true, im_test))` counts the unordered
   * pairs of positions labelled in both fields: a alike in both fields, b
   * alike in the test field only, c alike in the true field only, d alike in
   * neither. So each is a non-negative integer.
   */
  lemma {:induction false} RandValuesArePairs(imTrue: seq<nat>, imTest: seq<nat>)
    requires |imTrue| == |imTest| > 0
    ensures RandValuesOf(Contingency(imTrue, imTest).value) == AsReals(PairTally(imTest, imTrue))
  {
    SumsArePairs(imTest, imTrue, Max(imTest) + 1, Max(imTrue) + 1);
    CountsAsReals(Sums(Contingency(imTrue, imTest).value), PairTally(imTest, imTrue));
  }

  /** The `rand_values` arithmetic on four sums that count pairs gives those counts. */
  lemma CountsAsReals(s: TableSums, p: Tally)
    requires CountsPairs(s, p)
    ensures FromSums(s) == AsReals(p)
  {
    var n := s.total as real;
    assert n * n == (s.total * s.total) as real;
  }

  /** a + b + c + d is C(n, 2) = n(n - 1)/2 for the n positions labelled in both fields, the table total. */
  lemma {:induction false} RandValuesTotal(imTrue: seq<nat>, imTest: seq<nat>)
    requires |imTrue| == |imTest| > 0
    ensures var v := RandValuesOf(Contingency(imTrue, imTest).value);
      var n := Labelled(imTest, imTrue);
      && n == Total(Contingency(imTrue, imTest).value)
      && v.a + v.b + v.c + v.d == Pairs(n) as real
      && 2.0 * (v.a + v.b + v.c + v.d) == (n * n - n) as real
  {
    RandValuesArePairs(imTrue, imTest);
    PairTallySize(imTest, imTrue);
    ContingencyTotal(imTrue, imTest);
    PairsTwice(Labelled(imTest, imTrue));
  }

  /** a is the sum over cells of C(n_ij, 2). */
  lemma {:induction false} RandValuesSameCells(t: Table)
    requires Rect(t)
    ensures RandValuesOf(t).a == CellPairs(t) as real
  {
    CellSquaresArePairs(t);
  }

  /** Comparing a field with itself: no pair is alike in one field only. */
  lemma {:induction false} RandValuesSelf(x: seq<nat>)
    requires |x| > 0
    ensures RandValuesOf(Contingency(x, x).value).b == 0.0
    ensures RandValuesOf(Contingency(x, x).value).c == 0.0
  {
    RandValuesArePairs(x, x);
    PairTallySelf(x);
  }

  /** Exchanging the two fields exchanges b and c. */
  lemma {:induction false} RandValuesSwap(im1: seq<nat>, im2: seq<nat>)
    requires |im1| == |im2| > 0
    ensures var v := RandValuesOf(Contingency(im1, im2).value);
      RandValuesOf(Contingency(im2, im1).value) == RandValues(v.a, v.c, v.b, v.d)
  {
    RandValuesArePairs(im1, im2);
    RandValuesArePairs(im2, im1);
    PairTallySwap(im2, im1);
  }

  /** A quotient of two numbers with 0 <= num <= den lies in [0, 1]. */
  lemma UnitRatio(num: real, den: real)
    requires 0.0 <= num <= den
    ensures Div(num, den).Finite? ==> 0.0 <= Div(num, den).value <= 1.0
  {
    if den != 0.0 {
      var q := num / den;
      assert q * den == num;
      assert (1.0 - q) * den == den - num;
    }
  }

  lemma MulNonNegative(x: real, y: real)
    requires x >= 0.0 && y >= 0.0
    ensures x * y >= 0.0
  {
  }

  /** A factor of a non-negative product with a positive factor is non-negative. */
  lemma NonNegativeFactor(x: real, y: real, p: real)
    requires x * y == p && p >= 0.0 && y >= 0.0 && y != 0.0
    ensures x >= 0.0
  {
    assert x == p / y;
  }

  lemma MulNonZero(x: real, y: real)
    requires x != 0.0 && y != 0.0
    ensures x * y != 0.0
  {
  }

  lemma DivSelf(x: real)
    requires x != 0.0
    ensures Div(x, x) == Finite(1.0)
  {
  }

  /**
   * (a + d) / (a + b + c + d): undefined exactly when there is no pair, and
   * for non-negative counts a share in [0, 1].
   */
  function RandIndexOf(v: RandValues): (r: Ratio)
    ensures r.Finite? <==> v.a + v.b + v.c + v.d != 0.0
    ensures v.a >= 0.0 && v.b >= 0.0 && v.c >= 0.0 && v.d >= 0.0 && r.Finite? ==> 0.0 <= r.value <= 1.0
  {
    if v.a >= 0.0 && v.b >= 0.0 && v.c >= 0.0 && v.d >= 0.0 then
      UnitRatio(v.a + v.d, v.a + v.b + v.c + v.d);
      Div(v.a + v.d, v.a + v.b + v.c + v.d)
    else
      Div(v.a + v.d, v.a + v.b + v.c + v.d)
  }

  /** `rand_index(im1, im2)`, on `contingency_table(im1, im2)`. */
  function RandIndex(im1: seq<nat>, im2: seq<nat>): (r: Option<Ratio>)
    ensures r.Some? <==> |im1| == |im2| > 0
  {
    match Contingency(im1, im2)
    case None => None
    case Some(t) => Some(RandIndexOf(RandValuesOf(t)))
  }

  /**
   * The Rand index is the fraction of pairs of labelled positions on which
   * the two fields agree (both alike or both different); it is undefined when
   * there are fewer than two labelled positions, and otherwise lies in [0, 1].
   */
  lemma {:induction false} RandIndexIsAgreement(im1: seq<nat>, im2: seq<nat>)
    requires |im1| == |im2| > 0
    ensures var p := PairTally(im2, im1);
      var n := Labelled(im2, im1);
      RandIndex(im1, im2) == Some(Div((p.sameBoth + p.diffBoth) as real, Pairs(n) as real))
    ensures RandIndex(im1, im2).value.Finite? ==> 0.0 <= RandIndex(im1, im2).value.value <= 1.0
  {
    RandValuesArePairs(im1, im2);
    PairTallySize(im2, im1);
    var p := PairTally(im2, im1);
    UnitRatio((p.sameBoth + p.diffBoth) as real, Pairs(Labelled(im2, im1)) as real);
  }

  /** `rand_index(x, x)` is 1 whenever x has two labelled positions. */
  lemma {:induction false} RandIndexSelf(x: seq<nat>)
    requires |x| > 0
    ensures RandIndex(x, x) == Some(if Pairs(Labelled(x, x)) == 0 then NotFinite else Finite(1.0))
  {
    RandIndexIsAgreement(x, x);
    PairTallySize(x, x);
    PairTallySelf(x);
    if Pairs(Labelled(x, x)) != 0 {
      DivSelf(Pairs(Labelled(x, x)) as real);
    }
  }

  /** The Rand index does not depend on which field comes first. */
  lemma {:induction false} RandIndexSymmetric(im1: seq<nat>, im2: seq<nat>)
    ensures RandIndex(im1, im2) == RandIndex(im2, im1)
  {
    if |im1| == |im2| > 0 {
      RandValuesSwap(im1, im2);
    }
  }

  /**
   * `(nk*(a+d) - E) / (nk**2 - E)` with nk = a+b+c+d and E = (a+b)(a+c) +
   * (c+d)(b+d). The denominator is (a+b)(b+d) + (c+d)(a+c), and the index
   * falls short of 1 by nk(b+c) over it.
   */
  function Adjusted(v: RandValues): (r: Ratio)
    ensures r.Finite? <==> (v.a + v.b) * (v.b + v.d) + (v.c + v.d) * (v.a + v.c) != 0.0
    ensures r.Finite? ==>
      (1.0 - r.value) * ((v.a + v.b) * (v.b + v.d) + (v.c + v.d) * (v.a + v.c)) == (v.a + v.b + v.c + v.d) * (v.b + v.c)
  {
    var nk := v.a + v.b + v.c + v.d;
    var e := (v.a + v.b) * (v.a + v.c) + (v.c + v.d) * (v.b + v.d);
    AdjustedGap(v);
    Div(nk * (v.a + v.d) - e, nk * nk - e)
  }

  /** The algebra behind `Adjusted`: its denominator, and its gap to the numerator. */
  lemma AdjustedGap(v: RandValues)
    ensures var nk := v.a + v.b + v.c + v.d;
      var e := (v.a + v.b) * (v.a + v.c) + (v.c + v.d) * (v.b + v.d);
      && nk * nk - e == (v.a + v.b) * (v.b + v.d) + (v.c + v.d) * (v.a + v.c)
      && (nk * nk - e) - (nk * (v.a + v.d) - e) == nk * (v.b + v.c)
  {
  }

  /** `adj_rand_index(im1, im2)`. */
  function AdjRandIndex(im1: seq<nat>, im2: seq<nat>): (r: Option<Ratio>)
    ensures r.Some? <==> |im1| == |im2| > 0
  {
    match Contingency(im1, im2)
    case None => None
    case Some(t) => Some(Adjusted(RandValuesOf(t)))
  }

  /**
   * For non-negative pair counts, the adjusted index is never above 1: its
   * denominator is (a+b)(b+d) + (c+d)(a+c) >= 0 and exceeds the numerator by
   * nk(b+c) >= 0.
   */
  lemma AdjustedAtMostOne(v: RandValues)
    requires v.a >= 0.0 && v.b >= 0.0 && v.c >= 0.0 && v.d >= 0.0
    ensures Adjusted(v).Finite? ==> Adjusted(v).value <= 1.0
  {
    var nk := v.a + v.b + v.c + v.d;
    var den := (v.a + v.b) * (v.b + v.d) + (v.c + v.d) * (v.a + v.c);
    MulNonNegative(v.a + v.b, v.b + v.d);
    MulNonNegative(v.c + v.d, v.a + v.c);
    MulNonNegative(nk, v.b + v.c);
    if Adjusted(v).Finite? {
      var q := Adjusted(v).value;
      var gap := nk * (v.b + v.c);
      assert (1.0 - q) * den == gap;
      NonNegativeFactor(1.0 - q, den, gap);
    }
  }

  lemma {:induction false} AdjRandIndexAtMostOne(im1: seq<nat>, im2: seq<nat>)
    requires |im1| == |im2| > 0
    ensures AdjRandIndex(im1, im2).value.Finite? ==> AdjRandIndex(im1, im2).value.value <= 1.0
  {
    RandValuesArePairs(im1, im2);
    AdjustedAtMostOne(RandValuesOf(Contingency(im1, im2).value));
  }

  /** With b = c = 0 the adjusted index is 2ad / 2ad. */
  lemma AdjustedDiagonal(v: RandValues)
    requires v.b == 0.0 && v.c == 0.0
    ensures Adjusted(v) == if v.a == 0.0 || v.d == 0.0 then NotFinite else Finite(1.0)
  {
    var nk := v.a + v.b + v.c + v.d;
    var e := (v.a + v.b) * (v.a + v.c) + (v.c + v.d) * (v.b + v.d);
    assert nk == v.a + v.d && e == v.a * v.a + v.d * v.d;
    var x := 2.0 * v.a * v.d;
    assert Adjusted(v) == Div(nk * (v.a + v.d) - e, nk * nk - e);
    assert nk * nk - e == x && nk * (v.a + v.d) - e == x;
    if v.a != 0.0 && v.d != 0.0 {
      MulNonZero(2.0 * v.a, v.d);
      DivSelf(x);
    } else {
      assert x == 0.0;
    }
  }

  /**
   * `adj_rand_index(x, x)` is 1 exactly when some pair of labelled positions
   * shares a label and some pair does not; otherwise its denominator is 0.
   */
  lemma {:induction false} AdjRandIndexSelf(x: seq<nat>)
    requires |x| > 0
    ensures var p := PairTally(x, x);
      AdjRandIndex(x, x) == Some(if p.sameBoth == 0 || p.diffBoth == 0 then NotFinite else Finite(1.0))
  {
    RandValuesArePairs(x, x);
    PairTallySelf(x);
    AdjustedDiagonal(RandValuesOf(Contingency(x, x).value));
  }

  /** The adjusted index is unchanged when b and c are exchanged. */
  lemma AdjustedSwap(v: RandValues)
    ensures Adjusted(RandValues(v.a, v.c, v.b, v.d)) == Adjusted(v)
  {
    assert (v.a + v.c) * (v.a + v.b) + (v.b + v.d) * (v.c + v.d)
        == (v.a + v.b) * (v.a + v.c) + (v.c + v.d) * (v.b + v.d);
  }

  /** The adjusted index does not depend on which field comes first. */
  lemma {:induction false} AdjRandIndexSymmetric(im1: seq<nat>, im2: seq<nat>)
    ensures AdjRandIndex(im1, im2) == AdjRandIndex(im2, im1)
  {
    if |im1| == |im2| > 0 {
      RandValuesSwap(im1, im2);
      AdjustedSwap(RandValuesOf(Contingency(im1, im2).value));
    }
  }

  datatype AdaptedRand = AdaptedRand(error: Ratio, precision: Ratio, recall: Ratio)

  /**
   * `2pr / (p + r)`, the harmonic mean of precision and recall; any
   * non-finite operand makes the IEEE result `nan`. Equal finite operands
   * other than 0 give their common value.
   */
  function FScore(p: Ratio, r: Ratio): (f: Ratio)
    ensures f.Finite? <==> p.Finite? && r.Finite? && p.value + r.value != 0.0
    ensures p.Finite? && p == r && p.value != 0.0 ==> f == p
  {
    if p.Finite? && r.Finite? then Div(2.0 * p.value * r.value, p.value + r.value) else NotFinite
  }

  /** `1 - fscore`: the error and the F-score add up to 1. */
  function Complement(f: Ratio): (c: Ratio)
    ensures c.Finite? <==> f.Finite?
    ensures c.Finite? ==> c.value + f.value == 1.0
  {
    if f.Finite? then Finite(1.0 - f.value) else NotFinite
  }

  /**
   * The adapted Rand triple from a table's sums and the field size n:
   * precision = (Σ n_ij² - n) / (Σ colsum² - n),
   * recall = (Σ n_ij² - n) / (Σ rowsum² - n), error = 1 - F-score.
   */
  function AdaptedOf(s: TableSums, n: real): (r: AdaptedRand)
    ensures r.precision.Finite? <==> s.colSq as real != n
    ensures r.recall.Finite? <==> s.rowSq as real != n
    ensures r.error.Finite? ==> r.precision.Finite? && r.recall.Finite?
  {
    var sumP, sumA, sumB := s.cellSq as real, s.colSq as real, s.rowSq as real;
    var precision := Div(sumP - n, sumA - n);
    var recall := Div(sumP - n, sumB - n);
    AdaptedRand(Complement(FScore(precision, recall)), precision, recall)
  }

  /**
   * `compare_adapted_rand_error(im_true, im_test)`: on the table
   * `contingency_table(im_true, im_test)`, with n the full field size rather
   * than the number of labelled positions.
   */
  function AdaptedRandError(imTrue: seq<nat>, imTest: seq<nat>): (r: Option<AdaptedRand>)
    ensures r.Some? <==> |imTrue| == |imTest| > 0
  {
    match Contingency(imTrue, imTest)
    case None => None
    case Some(t) => Some(AdaptedOf(Sums(t), |imTest| as real))
  }

  /** Equal row and column reductions give precision = recall = 1 and error 0, or all 0 / 0. */
  lemma AdaptedDiagonal(s: TableSums, n: real)
    requires s.rowSq == s.cellSq && s.colSq == s.cellSq
    ensures AdaptedOf(s, n) == if s.cellSq as real == n then AdaptedRand(NotFinite, NotFinite, NotFinite)
      else AdaptedRand(Finite(0.0), Finite(1.0), Finite(1.0))
  {
    if s.cellSq as real != n {
      DivSelf(s.cellSq as real - n);
      DivSelf(2.0);
    }
  }

  /**
   * Comparing a field with itself: error 0, precision and recall 1, unless
   * Σ n_ij² equals the field size (twice the pairs sharing a label plus the
   * labelled positions make up the whole field), where every quotient is 0 / 0.
   */
  lemma {:induction false} AdaptedRandSelf(x: seq<nat>)
    requires |x| > 0
    ensures var p := PairTally(x, x);
      AdaptedRandError(x, x) == Some(
        if 2 * p.sameBoth + Labelled(x, x) == |x| then AdaptedRand(NotFinite, NotFinite, NotFinite)
        else AdaptedRand(Finite(0.0), Finite(1.0), Finite(1.0)))
  {
    ContingencySums(x, x);
    PairTallySelf(x);
    AdaptedDiagonal(Sums(Contingency(x, x).value), |x| as real);
  }

  lemma DivScale(num: real, den: real)
    ensures Div(2.0 * num, 2.0 * den) == Div(num, den)
  {
  }

  /**
   * Without background in either field, precision is the share of the pairs
   * alike in the true field that are alike in both, and recall the share of
   * the pairs alike in the test field that are alike in both.
   */
  lemma {:induction false} AdaptedRandPairs(imTrue: seq<nat>, imTest: seq<nat>)
    requires |imTrue| == |imTest| > 0
    requires forall k :: 0 <= k < |imTest| ==> imTest[k] != 0 && imTrue[k] != 0
    ensures var p := PairTally(imTest, imTrue);
      var a := p.sameBoth as real;
      && AdaptedRandError(imTrue, imTest).value.precision == Div(a, a + p.sameColOnly as real)
      && AdaptedRandError(imTrue, imTest).value.recall == Div(a, a + p.sameRowOnly as real)
  {
    ContingencySums(imTrue, imTest);
    LabelledAll(imTest, imTrue);
    var p := PairTally(imTest, imTrue);
    var a, b, c := p.sameBoth as real, p.sameRowOnly as real, p.sameColOnly as real;
    var s := Sums(Contingency(imTrue, imTest).value);
    var n := |imTest| as real;
    assert s.cellSq as real - n == 2.0 * a;
    assert s.colSq as real - n == 2.0 * (a + c);
    assert s.rowSq as real - n == 2.0 * (a + b);
    DivScale(a, a + c);
    DivScale(a, a + b);
  }

  /** For precision and recall in [0, 1], the F-score is in [0, 1]. */
  lemma FScoreBounds(p: real, r: real)
    requires 0.0 <= p <= 1.0 && 0.0 <= r <= 1.0
    ensures FScore(Finite(p), Finite(r)).Finite? ==> 0.0 <= FScore(Finite(p), Finite(r)).value <= 1.0
  {
    MulNonNegative(p, 1.0 - r);
    MulNonNegative(r, 1.0 - p);
    MulNonNegative(p, r);
    assert p * (1.0 - r) == p - p * r;
    assert r * (1.0 - p) == r - p * r;
    assert 2.0 * p * r == 2.0 * (p * r) <= p + r;
    UnitRatio(2.0 * p * r, p + r);
    assert FScore(Finite(p), Finite(r)) == Div(2.0 * p * r, p + r);
  }

  /** Without background, precision, recall and the error all lie in [0, 1] when finite. */
  lemma {:induction false} AdaptedRandBounds(imTrue: seq<nat>, imTest: seq<nat>)
    requires |imTrue| == |imTest| > 0
    requires forall k :: 0 <= k < |imTest| ==> imTest[k] != 0 && imTrue[k] != 0
    ensures var r := AdaptedRandError(imTrue, imTest).value;
      && (r.precision.Finite? ==> 0.0 <= r.precision.value <= 1.0)
      && (r.recall.Finite? ==> 0.0 <= r.recall.value <= 1.0)
      && (r.error.Finite? ==> 0.0 <= r.error.value <= 1.0)
  {
    AdaptedRandPairs(imTrue, imTest);
    var p := PairTally(imTest, imTrue);
    UnitRatio(p.sameBoth as real, p.sameBoth as real + p.sameColOnly as real);
    UnitRatio(p.sameBoth as real, p.sameBoth as real + p.sameRowOnly as real);
    var r := AdaptedRandError(imTrue, imTest).value;
    if r.precision.Finite? && r.recall.Finite? {
      FScoreBounds(r.precision.value, r.recall.value);
    }
  }

  lemma FScoreSymmetric(p: Ratio, r: Ratio)
    ensures FScore(r, p) == FScore(p, r)
  {
    if p.Finite? && r.Finite? {
      assert 2.0 * r.value * p.value == 2.0 * p.value * r.value;
    }
  }

  /** Exchanging row and column reductions exchanges precision and recall and keeps the error. */
  lemma AdaptedSwap(s: TableSums, n: real)
    ensures var r := AdaptedOf(s, n);
      AdaptedOf(TableSums(s.total, s.cellSq, s.colSq, s.rowSq), n) == AdaptedRand(r.error, r.recall, r.precision)
  {
    var r := AdaptedOf(s, n);
    FScoreSymmetric(r.precision, r.recall);
  }

  /** Exchanging the fields exchanges precision and recall and keeps the error. */
  lemma {:induction false} AdaptedRandSwap(imTrue: seq<nat>, imTest: seq<nat>)
    requires |imTrue| == |imTest| > 0
    ensures var r := AdaptedRandError(imTrue, imTest).value;
      AdaptedRandError(imTest, imTrue) == Some(AdaptedRand(r.error, r.recall, r.precision))
  {
    ContingencySums(imTrue, imTest);
    ContingencySums(imTest, imTrue);
    PairTallySwap(imTest, imTrue);
    LabelledSwap(imTest, imTrue);
    var s := Sums(Contingency(imTrue, imTest).value);
    assert Sums(Contingency(imTest, imTrue).value) == TableSums(s.total, s.cellSq, s.colSq, s.rowSq);
    AdaptedSwap(s, |imTest| as real);
  }
}

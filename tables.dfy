/**
 * A contingency table held densely as rows of non-negative counts, with the
 * reductions the Rand statistics read from it: the total, the sum of squared
 * cells, and the sums of squared row and column sums.
 */
module Tables {
  import opened Labels

  type Table = seq<seq<nat>>

  function Width(t: Table): nat {
    if |t| == 0 then 0 else |t[0]|
  }

  /** Every row has the same length, as in a matrix. */
  ghost predicate Rect(t: Table) {
    forall i :: 0 <= i < |t| ==> |t[i]| == Width(t)
  }

  /** `t.sum(axis=1)`: one non-negative sum per row. */
  function RowSums(t: Table): (r: seq<int>)
    ensures |r| == |t|
    ensures forall i :: 0 <= i < |t| ==> r[i] >= 0
  {
    RowsBounded(t);
    seq(|t|, i requires 0 <= i < |t| => Sum(t[i]))
  }

  lemma RowsBounded(t: Table)
    ensures forall i :: 0 <= i < |t| ==> Sum(t[i]) >= 0 && forall j :: 0 <= j < |t[i]| ==> t[i][j] <= Sum(t[i])
  {
    forall i | 0 <= i < |t| ensures Sum(t[i]) >= 0 && forall j :: 0 <= j < |t[i]| ==> t[i][j] <= Sum(t[i]) {
      SumBoundsEntries(t[i]);
    }
  }

  function Column(t: Table, j: nat): (c: seq<int>)
    requires Rect(t) && j < Width(t)
    ensures |c| == |t|
  {
    seq(|t|, i requires 0 <= i < |t| => t[i][j])
  }

  /** `t.sum(axis=0)`: one non-negative sum per column. */
  function ColSums(t: Table): (r: seq<int>)
    requires Rect(t)
    ensures |r| == Width(t)
    ensures forall j :: 0 <= j < Width(t) ==> r[j] >= 0
  {
    ColumnsBounded(t);
    seq(Width(t), j requires 0 <= j < Width(t) => Sum(Column(t, j)))
  }

  lemma ColumnsBounded(t: Table)
    requires Rect(t)
    ensures forall j :: 0 <= j < Width(t) ==>
      Sum(Column(t, j)) >= 0 && forall i :: 0 <= i < |t| ==> t[i][j] <= Sum(Column(t, j))
  {
    forall j | 0 <= j < Width(t)
      ensures Sum(Column(t, j)) >= 0 && forall i :: 0 <= i < |t| ==> t[i][j] <= Sum(Column(t, j))
    {
      var c := Column(t, j);
      assert forall i :: 0 <= i < |t| ==> c[i] == t[i][j];
      SumBoundsEntries(c);
    }
  }

  /** Every count is at most its row sum and at most its column sum. */
  lemma MarginalsBoundCells(t: Table, i: nat, j: nat)
    requires Rect(t) && i < |t| && j < Width(t)
    ensures t[i][j] <= RowSums(t)[i] && t[i][j] <= ColSums(t)[j]
  {
    RowsBounded(t);
    ColumnsBounded(t);
  }

  /** `t.sum()`: non-negative, and at least every row sum. */
  function Total(t: Table): (n: int)
    ensures n >= 0
    ensures forall i :: 0 <= i < |t| ==> RowSums(t)[i] <= n
  {
    SumBoundsEntries(RowSums(t));
    Sum(RowSums(t))
  }

  function RowSquares(t: Table): (r: seq<int>)
    ensures |r| == |t|
  {
    seq(|t|, i requires 0 <= i < |t| => SumSq(t[i]))
  }

  lemma RowsDominated(t: Table)
    ensures forall i :: 0 <= i < |t| ==> RowSums(t)[i] <= RowSquares(t)[i]
  {
    forall i | 0 <= i < |t| ensures RowSums(t)[i] <= RowSquares(t)[i] {
      SumAtMostSumSq(t[i]);
    }
  }

  /** `t.multiply(t).sum()`: the sum of the squared cells, never below the total. */
  function CellSquares(t: Table): (c: int)
    ensures c >= Total(t)
  {
    RowsDominated(t);
    SumMonotone(RowSums(t), RowSquares(t));
    Sum(RowSquares(t))
  }

  datatype TableSums = TableSums(total: int, cellSq: int, rowSq: int, colSq: int)

  /**
   * The four reductions `rand_values` takes of a table. The total is
   * non-negative and at most the cell and row sums of squares; the column
   * sums add up to at most their sum of squares.
   */
  function Sums(t: Table): (s: TableSums)
    requires Rect(t)
    ensures 0 <= s.total <= s.cellSq && s.total <= s.rowSq
    ensures Sum(ColSums(t)) <= s.colSq
  {
    SumAtMostSumSq(RowSums(t));
    SumAtMostSumSq(ColSums(t));
    TableSums(Total(t), CellSquares(t), SumSq(RowSums(t)), SumSq(ColSums(t)))
  }

  /** The table with one more count in cell (x, y). */
  function Inc(t: Table, x: nat, y: nat): (r: Table)
    requires x < |t| && y < |t[x]|
    ensures |r| == |t|
  {
    t[x := t[x][y := t[x][y] + 1]]
  }

  lemma IncColumn(t: Table, x: nat, y: nat, j: nat)
    requires Rect(t) && x < |t| && y < Width(t) && j < Width(t)
    ensures Rect(Inc(t, x, y)) && Width(Inc(t, x, y)) == Width(t)
    ensures Column(Inc(t, x, y), j) == if j == y then Column(t, j)[x := t[x][y] + 1] else Column(t, j)
  {
    var r := Inc(t, x, y);
    assert Width(r) == Width(t) by {
      assert |r[0]| == |t[0]|;
    }
  }

  lemma IncRowSums(t: Table, x: nat, y: nat)
    requires x < |t| && y < |t[x]|
    ensures RowSums(Inc(t, x, y)) == RowSums(t)[x := RowSums(t)[x] + 1]
    ensures RowSquares(Inc(t, x, y)) == RowSquares(t)[x := RowSquares(t)[x] + 2 * t[x][y] + 1]
  {
    var c := t[x][y];
    SumUpdate(t[x], y, c + 1);
    assert (c + 1) * (c + 1) == c * c + 2 * c + 1;
  }

  lemma IncColSums(t: Table, x: nat, y: nat)
    requires Rect(t) && x < |t| && y < Width(t)
    ensures Rect(Inc(t, x, y)) && Width(Inc(t, x, y)) == Width(t)
    ensures ColSums(Inc(t, x, y)) == ColSums(t)[y := ColSums(t)[y] + 1]
  {
    var r := Inc(t, x, y);
    IncColumn(t, x, y, y);
    var cs := ColSums(t);
    forall j | 0 <= j < Width(t) ensures ColSums(r)[j] == cs[y := cs[y] + 1][j] {
      IncColumn(t, x, y, j);
      if j == y {
        SumUpdate(Column(t, y), x, t[x][y] + 1);
      }
    }
  }

  /** Adding 1 to one entry raises its sum by 1 and its sum of squares by twice the entry, plus 1. */
  lemma SumIncOne(s: seq<int>, i: nat)
    requires i < |s|
    ensures Sum(s[i := s[i] + 1]) == Sum(s) + 1
    ensures SumSq(s[i := s[i] + 1]) == SumSq(s) + 2 * s[i] + 1
  {
    SumUpdate(s, i, s[i] + 1);
    assert (s[i] + 1) * (s[i] + 1) == s[i] * s[i] + 2 * s[i] + 1;
  }

  /**
   * One more count in cell (x, y) raises the total by 1 and each sum of
   * squares by twice the old cell, row or column sum, plus 1.
   */
  lemma SumsInc(t: Table, x: nat, y: nat)
    requires Rect(t) && x < |t| && y < Width(t)
    ensures Rect(Inc(t, x, y)) && Width(Inc(t, x, y)) == Width(t)
    ensures var s := Sums(t);
      Sums(Inc(t, x, y)) == TableSums(s.total + 1, s.cellSq + 2 * t[x][y] + 1,
                                      s.rowSq + 2 * RowSums(t)[x] + 1, s.colSq + 2 * ColSums(t)[y] + 1)
  {
    IncRowSums(t, x, y);
    IncColSums(t, x, y);
    SumIncOne(RowSums(t), x);
    SumUpdate(RowSquares(t), x, RowSquares(t)[x] + 2 * t[x][y] + 1);
    SumIncOne(ColSums(t), y);
  }

  /** A table of zeros has all four reductions 0. */
  lemma SumsZero(t: Table)
    requires Rect(t)
    requires forall i, j :: 0 <= i < |t| && 0 <= j < |t[i]| ==> t[i][j] == 0
    ensures Sums(t) == TableSums(0, 0, 0, 0)
  {
    forall i | 0 <= i < |t| ensures Sum(t[i]) == 0 && SumSq(t[i]) == 0 {
      SumZero(t[i]);
    }
    SumZero(RowSums(t));
    SumZero(RowSquares(t));
    forall j | 0 <= j < Width(t) ensures Sum(Column(t, j)) == 0 {
      SumZero(Column(t, j));
    }
    SumZero(ColSums(t));
  }

  /** The number of unordered pairs drawn from `x` items, C(x, 2). */
  function Pairs(x: nat): nat {
    if x == 0 then 0 else Pairs(x - 1) + (x - 1)
  }

  lemma {:induction false} PairsTwice(x: nat)
    ensures 2 * Pairs(x) == x * x - x
  {
    if x > 0 {
      PairsTwice(x - 1);
      assert x * x == (x - 1) * (x - 1) + 2 * x - 1;
    }
  }

  /** Sum over a row of C(cell, 2). */
  function RowPairs(s: seq<nat>): nat {
    if |s| == 0 then 0 else RowPairs(s[..|s| - 1]) + Pairs(s[|s| - 1])
  }

  /** Sum over all cells of C(cell, 2). */
  function CellPairs(t: Table): int {
    Sum(seq(|t|, i requires 0 <= i < |t| => RowPairs(t[i])))
  }

  lemma {:induction false} RowPairsTwice(s: seq<nat>)
    ensures SumSq(s) - Sum(s) == 2 * RowPairs(s)
  {
    if |s| > 0 {
      RowPairsTwice(s[..|s| - 1]);
      PairsTwice(s[|s| - 1]);
    }
  }

  /** Pointwise `a = b + k * c` carries over to the sums. */
  lemma {:induction false} SumLinear(a: seq<int>, b: seq<int>, c: seq<int>, k: int)
    requires |a| == |b| == |c|
    requires forall i :: 0 <= i < |a| ==> a[i] == b[i] + k * c[i]
    ensures Sum(a) == Sum(b) + k * Sum(c)
  {
    if |a| > 0 {
      var n := |a| - 1;
      SumLinear(a[..n], b[..n], c[..n], k);
    }
  }

  /** The sum of squared cells exceeds the total by twice the number of same-cell pairs. */
  lemma CellSquaresArePairs(t: Table)
    ensures CellSquares(t) - Total(t) == 2 * CellPairs(t)
  {
    var c := seq(|t|, i requires 0 <= i < |t| => RowPairs(t[i]));
    forall i | 0 <= i < |t| ensures RowSquares(t)[i] == RowSums(t)[i] + 2 * c[i] {
      RowPairsTwice(t[i]);
    }
    SumLinear(RowSquares(t), RowSums(t), c, 2);
  }
}

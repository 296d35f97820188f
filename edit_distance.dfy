/**
 * `compare_raw_edit_distance`: after relabelling both fields from one, the
 * overlaps of the contingency table that are larger than a size threshold
 * each count for one operation; every test segment overlapping more than
 * one true segment needs that many merges less one, and every true segment
 * overlapped by more than one test segment should need that many splits less
 * one. As written the split count is taken from a 1-by-C matrix whose only
 * row the slice removes, so it is always 0; `RawEditDistanceCorrected`
 * counts both.
 */
module EditDistance {
  import opened Wrappers
  import opened Labels
  import opened Tables
  import opened Relabel
  import opened Contingencies

  /**
   * One cell after `r.data[r.data <= size_threshold] = 0` and the division
   * of every non-zero entry by itself.
   */
  function Survive(x: nat, threshold: int): (r: nat)
    ensures r <= 1
    ensures r == 1 <==> x > threshold && x > 0
  {
    if x <= threshold then 0 else if x != 0 then 1 else 0
  }

  /** The thresholded 0/1 overlap table. */
  function Binarize(t: Table, threshold: int): (b: Table)
    ensures |b| == |t|
    ensures forall i :: 0 <= i < |t| ==> |b[i]| == |t[i]|
    ensures forall i, j :: 0 <= i < |t| && 0 <= j < |t[i]| ==> b[i][j] <= 1
    ensures Rect(t) ==> Rect(b) && Width(b) == Width(t)
  {
    seq(|t|, i requires 0 <= i < |t| => seq(|t[i]|, j requires 0 <= j < |t[i]| => Survive(t[i][j], threshold)))
  }

  /**
   * Σ_{k ≥ 1} (sums[k] - 1): what `(sums - 1)[1:].sum()` gives on a flat
   * vector of segment sums; entries below 1 contribute negatively.
   */
  function Excess(sums: seq<int>): (e: int)
    ensures (forall k :: 1 <= k < |sums| ==> sums[k] >= 1) ==> e >= 0
    ensures (forall k :: 1 <= k < |sums| ==> sums[k] <= 1) ==> e <= 0
    ensures |sums| > 0 && (forall k :: 1 <= k < |sums| ==> sums[k] >= 0) ==> e >= 1 - |sums|
  {
    if |sums| <= 1 then 0 else Excess(sums[..|sums| - 1]) + (sums[|sums| - 1] - 1)
  }

  /** Both fields relabelled from one, and their contingency table thresholded. */
  function Overlaps(imTrue: seq<nat>, imTest: seq<nat>, sizeThreshold: int): (b: Table)
    requires |imTrue| == |imTest| > 0
    ensures Rect(b) && |b| > 0 && Width(b) > 0
    ensures forall i, j :: 0 <= i < |b| && 0 <= j < Width(b) ==> b[i][j] <= 1
  {
    var test := RelabelOf(imTest).value.relabeled;
    var truth := RelabelOf(imTrue).value.relabeled;
    Binarize(Contingency(truth, test).value, sizeThreshold)
  }

  /**
   * A `numpy.matrix`, which every reduction of a sparse matrix returns: it
   * stays two-dimensional, and indexing it selects rows.
   */
  type Matrix = seq<seq<int>>

  /** `r.sum(axis=1)` of a sparse matrix: an R-by-1 matrix of the row sums. */
  function RowTotals(t: Table): (m: Matrix)
    ensures |m| == |t|
    ensures forall i :: 0 <= i < |t| ==> m[i] == [RowSums(t)[i]]
    ensures MatrixSum(m) == Total(t)
  {
    var m := seq(|t|, i requires 0 <= i < |t| => [RowSums(t)[i]]);
    assert forall i :: 0 <= i < |m| ==> Sum(m[i]) == RowSums(t)[i] by {
      forall i | 0 <= i < |m| ensures Sum(m[i]) == RowSums(t)[i] {
        assert m[i][..0] == [];
      }
    }
    assert seq(|m|, i requires 0 <= i < |m| => Sum(m[i])) == RowSums(t);
    m
  }

  /** `r.sum(axis=0)` of a sparse matrix: a 1-by-C matrix, its one row the column sums. */
  function ColumnTotals(t: Table): (m: Matrix)
    requires Rect(t)
    ensures |m| == 1 && m[0] == ColSums(t)
    ensures MatrixSum(m) == Sum(ColSums(t))
  {
    var m := [ColSums(t)];
    var v := Sum(ColSums(t));
    assert seq(|m|, i requires 0 <= i < |m| => Sum(m[i])) == [v];
    assert [v][..0] == [];
    assert Sum([v]) == v;
    assert MatrixSum(m) == Sum([v]);
    m
  }

  /** `m - 1`: the same shape, each row summing to its old sum less its length. */
  function Decrement(m: Matrix): (d: Matrix)
    ensures |d| == |m|
    ensures forall i :: 0 <= i < |m| ==> |d[i]| == |m[i]| && Sum(d[i]) == Sum(m[i]) - |m[i]|
  {
    var d := seq(|m|, i requires 0 <= i < |m| => seq(|m[i]|, j requires 0 <= j < |m[i]| => m[i][j] - 1));
    assert forall i :: 0 <= i < |m| ==> Sum(d[i]) == Sum(m[i]) - |m[i]| by {
      forall i | 0 <= i < |m| ensures Sum(d[i]) == Sum(m[i]) - |m[i]| {
        SumLess(d[i], m[i]);
      }
    }
    d
  }

  /** Entries one less than another sequence's sum to its sum less its length. */
  lemma {:induction false} SumLess(a: seq<int>, s: seq<int>)
    requires |a| == |s|
    requires forall k :: 0 <= k < |a| ==> a[k] == s[k] - 1
    ensures Sum(a) == Sum(s) - |s|
  {
    if |a| > 0 {
      SumLess(a[..|a| - 1], s[..|s| - 1]);
    }
  }

  /** A sum is its first entry plus the sum of the rest. */
  lemma {:induction false} SumFirst(s: seq<int>)
    requires |s| > 0
    ensures Sum(s) == s[0] + Sum(s[1..])
  {
    if |s| > 1 {
      SumFirst(s[..|s| - 1]);
      assert s[..|s| - 1][1..] == s[1..][..|s| - 2];
    }
  }

  /** `m[1:]`: every row but the first, so the first row's sum leaves the total. */
  function DropFirst(m: Matrix): (d: Matrix)
    ensures |m| > 0 ==> |d| == |m| - 1 && MatrixSum(d) == MatrixSum(m) - Sum(m[0])
    ensures |m| <= 1 ==> d == []
  {
    if |m| == 0 then [] else
      var d := m[1..];
      var full := seq(|m|, i requires 0 <= i < |m| => Sum(m[i]));
      SumFirst(full);
      assert seq(|d|, i requires 0 <= i < |d| => Sum(d[i])) == full[1..];
      d
  }

  /** `m.sum()`: 0 on a matrix with no entries, non-negative when every entry is. */
  function MatrixSum(m: Matrix): (s: int)
    ensures (forall i :: 0 <= i < |m| ==> |m[i]| == 0) ==> s == 0
    ensures (forall i, j :: 0 <= i < |m| && 0 <= j < |m[i]| ==> m[i][j] >= 0) ==> s >= 0
  {
    var rows := seq(|m|, i requires 0 <= i < |m| => Sum(m[i]));
    assert forall i :: 0 <= i < |m| ==>
      ((forall j :: 0 <= j < |m[i]| ==> m[i][j] >= 0) ==> rows[i] >= 0) && (|m[i]| == 0 ==> rows[i] == 0) by {
      forall i | 0 <= i < |m|
        ensures ((forall j :: 0 <= j < |m[i]| ==> m[i][j] >= 0) ==> rows[i] >= 0) && (|m[i]| == 0 ==> rows[i] == 0)
      {
        SumBoundsEntries(m[i]);
      }
    }
    SumBoundsEntries(rows);
    SumZeroWhen(rows);
    Sum(rows)
  }

  lemma SumZeroWhen(s: seq<int>)
    ensures (forall k :: 0 <= k < |s| ==> s[k] == 0) ==> Sum(s) == 0
  {
    if forall k :: 0 <= k < |s| ==> s[k] == 0 {
      SumZero(s);
    }
  }

  /** Every entry of a sequence but the first, less one. */
  function Lowered(s: seq<int>): (l: seq<int>)
    ensures |s| > 0 ==> |l| == |s| - 1
  {
    if |s| == 0 then [] else seq(|s| - 1, k requires 0 <= k < |s| - 1 => s[k + 1] - 1)
  }

  lemma {:induction false} ExcessIsLoweredSum(s: seq<int>)
    ensures Excess(s) == Sum(Lowered(s))
  {
    if |s| > 1 {
      var n := |s| - 1;
      ExcessIsLoweredSum(s[..n]);
      assert Lowered(s)[..n - 1] == Lowered(s[..n]);
    }
  }

  /**
   * Line 41 as written: slicing the R-by-1 matrix of row sums drops the
   * background row, so false merges are Σ_{i ≥ 1} (rowsum_i - 1).
   */
  lemma MergesAsWritten(t: Table)
    ensures MatrixSum(DropFirst(Decrement(RowTotals(t)))) == Excess(RowSums(t))
  {
    var d := DropFirst(Decrement(RowTotals(t)));
    var s := RowSums(t);
    ExcessIsLoweredSum(s);
    if |t| > 0 {
      forall k | 0 <= k < |d| ensures Sum(d[k]) == Lowered(s)[k] {
        assert d[k] == [s[k + 1] - 1];
        assert d[k][..0] == [];
      }
      assert seq(|d|, i requires 0 <= i < |d| => Sum(d[i])) == Lowered(s);
    }
  }

  /**
   * Line 40 as written: slicing the 1-by-C matrix of column sums drops its
   * only row, so nothing is left to sum and false splits are always 0.
   */
  lemma SplitsAsWritten(t: Table)
    requires Rect(t)
    ensures MatrixSum(DropFirst(Decrement(ColumnTotals(t)))) == 0
  {
    assert DropFirst(Decrement(ColumnTotals(t))) == [];
  }

  /**
   * `compare_raw_edit_distance(im_true, im_test, size_threshold)` as written:
   * (false merges, false splits). Fields of different sizes and empty fields
   * are errors. False merges are the excess overlaps of the test segments;
   * false splits come out 0 for every input.
   */
  function RawEditDistance(imTrue: seq<nat>, imTest: seq<nat>, sizeThreshold: int): (r: Option<(int, int)>)
    ensures r.Some? <==> |imTrue| == |imTest| > 0
    ensures r.Some? ==> r.value.0 == Excess(RowSums(Overlaps(imTrue, imTest, sizeThreshold)))
    ensures r.Some? ==> r.value.1 == 0
  {
    if |imTrue| != |imTest| || |imTest| == 0 then None
    else
      var b := Overlaps(imTrue, imTest, sizeThreshold);
      MergesAsWritten(b);
      SplitsAsWritten(b);
      Some((MatrixSum(DropFirst(Decrement(RowTotals(b)))), MatrixSum(DropFirst(Decrement(ColumnTotals(b))))))
  }

  /** Σ_{k ≥ 1} max(sums[k] - 1, 0): a segment with no surviving overlap needs no operation. */
  function ClampedExcess(sums: seq<int>): (e: int)
    ensures e >= 0
    ensures e >= Excess(sums)
  {
    if |sums| <= 1 then 0
    else
      var last := sums[|sums| - 1];
      ClampedExcess(sums[..|sums| - 1]) + (if last >= 1 then last - 1 else 0)
  }

  /**
   * The edit distance as intended: false merges are counted over the test
   * segments and false splits over the true segments, each segment's count
   * of operations clamped at 0.
   */
  function RawEditDistanceCorrected(imTrue: seq<nat>, imTest: seq<nat>, sizeThreshold: int): (r: Option<(int, int)>)
    ensures r.Some? <==> |imTrue| == |imTest| > 0
    ensures r.Some? ==> r.value.0 >= 0 && r.value.1 >= 0
    ensures r.Some? ==> r.value.0 >= RawEditDistance(imTrue, imTest, sizeThreshold).value.0
    ensures r.Some? ==> r.value.1 >= RawEditDistance(imTrue, imTest, sizeThreshold).value.1
  {
    if |imTrue| != |imTest| || |imTest| == 0 then None
    else
      var b := Overlaps(imTrue, imTest, sizeThreshold);
      Some((ClampedExcess(RowSums(b)), ClampedExcess(ColSums(b))))
  }

  /** Where every segment (past the background) has a surviving overlap, the two agree. */
  lemma {:induction false} ClampedAgrees(sums: seq<int>)
    requires forall k :: 1 <= k < |sums| ==> sums[k] >= 1
    ensures ClampedExcess(sums) == Excess(sums)
  {
    if |sums| > 1 {
      ClampedAgrees(sums[..|sums| - 1]);
    }
  }

  /** Segments that each keep at most one overlap need no operation. */
  lemma {:induction false} ClampedAtMostOne(sums: seq<int>)
    requires forall k :: 1 <= k < |sums| ==> sums[k] <= 1
    ensures ClampedExcess(sums) == 0
  {
    if |sums| > 1 {
      ClampedAtMostOne(sums[..|sums| - 1]);
    }
  }

  /** Segments that each keep exactly one overlap need no operation, as written too. */
  lemma {:induction false} ExcessOfOnes(sums: seq<int>)
    requires forall k :: 1 <= k < |sums| ==> sums[k] == 1
    ensures Excess(sums) == 0
  {
    if |sums| > 1 {
      ExcessOfOnes(sums[..|sums| - 1]);
    }
  }

  /** A cell counts at least one position exactly when some position carries its two labels. */
  lemma {:induction false} OccurrencesPositive(rows: seq<nat>, cols: seq<nat>, i: nat, j: nat)
    requires |rows| == |cols|
    ensures Occurrences(rows, cols, i, j) > 0 <==> exists k :: 0 <= k < |rows| && rows[k] == i && cols[k] == j
  {
    if |rows| > 0 {
      var n := |rows| - 1;
      OccurrencesPositive(rows[..n], cols[..n], i, j);
      if exists k :: 0 <= k < |rows| && rows[k] == i && cols[k] == j {
        var k :| 0 <= k < |rows| && rows[k] == i && cols[k] == j;
        if k < n {
          assert rows[..n][k] == i && cols[..n][k] == j;
        }
      } else {
        forall k | 0 <= k < n ensures !(rows[..n][k] == i && cols[..n][k] == j) {
          assert rows[..n][k] == rows[k];
        }
      }
    }
  }

  /** A field's table against itself is diagonal past the background, with every label present. */
  lemma SelfTable(s: seq<nat>)
    requires |s| > 0
    requires forall j :: 1 <= j <= Max(s) ==> j in s
    ensures var t := Contingency(s, s).value;
      && |t| == Width(t)
      && (forall i, j :: 0 <= i < |t| && 0 <= j < |t| && i != j ==> t[i][j] == 0)
      && t[0][0] == 0
      && (forall i :: 1 <= i < |t| ==> t[i][i] >= 1)
  {
    var t := Contingency(s, s).value;
    forall i, j | 0 <= i < |t| && 0 <= j < |t|
      ensures i != j ==> t[i][j] == 0
      ensures i == j ==> (t[i][j] == 0 <==> i == 0)
    {
      ContingencyCells(s, s, i, j);
      OccurrencesPositive(s, s, i, j);
      if i == j && i != 0 {
        assert i in s;
        var k :| 0 <= k < |s| && s[k] == i;
      }
    }
  }

  /** The row and column sums of a square table that is zero off its diagonal are its diagonal. */
  lemma DiagonalSums(t: Table)
    requires Rect(t) && |t| == Width(t)
    requires forall i, j :: 0 <= i < |t| && 0 <= j < |t| && i != j ==> t[i][j] == 0
    ensures forall i :: 0 <= i < |t| ==> RowSums(t)[i] == t[i][i] && ColSums(t)[i] == t[i][i]
  {
    forall i | 0 <= i < |t| ensures RowSums(t)[i] == t[i][i] && ColSums(t)[i] == t[i][i] {
      SumSingle(t[i], i);
      SumSingle(Column(t, i), i);
    }
  }

  /**
   * Thresholding keeps a square table zero off its diagonal, so each row and
   * column sum is the (0/1) diagonal entry; at a threshold of at most 0 every
   * non-zero diagonal entry survives.
   */
  lemma BinarizedDiagonal(t: Table, sizeThreshold: int)
    requires Rect(t) && |t| == Width(t)
    requires forall i, j :: 0 <= i < |t| && 0 <= j < |t| && i != j ==> t[i][j] == 0
    ensures var b := Binarize(t, sizeThreshold);
      && (forall k :: 0 <= k < |b| ==> RowSums(b)[k] == ColSums(b)[k] <= 1)
      && (forall k :: 0 <= k < |b| && sizeThreshold <= 0 && t[k][k] >= 1 ==> RowSums(b)[k] == 1)
  {
    var b := Binarize(t, sizeThreshold);
    assert forall i, j :: 0 <= i < |b| && 0 <= j < |b| && i != j ==> b[i][j] == 0;
    DiagonalSums(b);
  }

  /**
   * The thresholded table of a field against itself: every row sum equals
   * the matching column sum and is at most 1; at a threshold of at most 0
   * every row past the background sums to exactly 1.
   */
  lemma SelfOverlaps(x: seq<nat>, sizeThreshold: int)
    requires |x| > 0
    ensures var b := Overlaps(x, x, sizeThreshold);
      && (forall k :: 0 <= k < |b| ==> RowSums(b)[k] == ColSums(b)[k] <= 1)
      && (sizeThreshold <= 0 ==> forall k :: 1 <= k < |b| ==> RowSums(b)[k] == 1)
  {
    var r := RelabelOf(x).value.relabeled;
    RelabeledDense(x);
    SelfTable(r);
    BinarizedDiagonal(Contingency(r, r).value, sizeThreshold);
  }

  /** A relabelled field uses every label from 1 to its maximum. */
  lemma RelabeledDense(x: seq<nat>)
    requires |x| > 0
    ensures var r := RelabelOf(x).value.relabeled;
      |r| > 0 && forall j :: 1 <= j <= Max(r) ==> j in r
  {
    RelabelRange(x);
  }

  /** As written, a field compared with itself at threshold 0 needs no operation. */
  lemma EditDistanceSelf(x: seq<nat>, sizeThreshold: int)
    requires |x| > 0 && sizeThreshold <= 0
    ensures RawEditDistance(x, x, sizeThreshold) == Some((0, 0))
  {
    SelfOverlaps(x, sizeThreshold);
    var b := Overlaps(x, x, sizeThreshold);
    ExcessOfOnes(RowSums(b));
    ExcessOfOnes(ColSums(b));
  }

  /** Corrected, a field compared with itself needs no operation at any threshold. */
  lemma CorrectedSelf(x: seq<nat>, sizeThreshold: int)
    requires |x| > 0
    ensures RawEditDistanceCorrected(x, x, sizeThreshold) == Some((0, 0))
  {
    SelfOverlaps(x, sizeThreshold);
    var b := Overlaps(x, x, sizeThreshold);
    ClampedAtMostOne(RowSums(b));
    ClampedAtMostOne(ColSums(b));
  }

  /**
   * Where every test segment past the background keeps a surviving overlap,
   * the corrected merge count is the count as written.
   */
  lemma CorrectedMergesAgree(imTrue: seq<nat>, imTest: seq<nat>, sizeThreshold: int)
    requires |imTrue| == |imTest| > 0
    requires var rows := RowSums(Overlaps(imTrue, imTest, sizeThreshold));
      forall k :: 1 <= k < |rows| ==> rows[k] >= 1
    ensures RawEditDistanceCorrected(imTrue, imTest, sizeThreshold).value.0
      == RawEditDistance(imTrue, imTest, sizeThreshold).value.0
  {
    ClampedAgrees(RowSums(Overlaps(imTrue, imTest, sizeThreshold)));
  }

  /**
   * Where every true segment past the background keeps a surviving overlap,
   * the corrected split count is the column excess Σ_{j ≥ 1} (colsum_j - 1),
   * what the split line would give on a flat vector of column sums.
   */
  lemma CorrectedSplitsAreColumnExcess(imTrue: seq<nat>, imTest: seq<nat>, sizeThreshold: int)
    requires |imTrue| == |imTest| > 0
    requires var cols := ColSums(Overlaps(imTrue, imTest, sizeThreshold));
      forall k :: 1 <= k < |cols| ==> cols[k] >= 1
    ensures RawEditDistanceCorrected(imTrue, imTest, sizeThreshold).value.1
      == Excess(ColSums(Overlaps(imTrue, imTest, sizeThreshold)))
  {
    ClampedAgrees(ColSums(Overlaps(imTrue, imTest, sizeThreshold)));
  }

  /** Swapping the two fields swaps the rows and columns of a position count. */
  lemma {:induction false} OccurrencesSwap(rows: seq<nat>, cols: seq<nat>, i: nat, j: nat)
    requires |rows| == |cols|
    ensures Occurrences(cols, rows, j, i) == Occurrences(rows, cols, i, j)
  {
    if |rows| > 0 {
      OccurrencesSwap(rows[..|rows| - 1], cols[..|cols| - 1], i, j);
    }
  }

  /** The transpose of a matrix with at least one column. */
  function Transpose(t: Table): (u: Table)
    requires Rect(t) && Width(t) > 0
    ensures Rect(u) && |u| == Width(t) && Width(u) == |t|
    ensures forall j, i :: 0 <= j < |u| && 0 <= i < |t| ==> u[j][i] == t[i][j]
  {
    seq(Width(t), j requires 0 <= j < Width(t) => seq(|t|, i requires 0 <= i < |t| => t[i][j]))
  }

  /** The row sums of a transpose are the column sums, and the other way round. */
  lemma TransposeSums(t: Table)
    requires Rect(t) && Width(t) > 0
    ensures RowSums(Transpose(t)) == ColSums(t)
    ensures ColSums(Transpose(t)) == RowSums(t)
  {
    var u := Transpose(t);
    forall j | 0 <= j < |u| ensures u[j] == Column(t, j) {
    }
    forall i | 0 <= i < |t| ensures Column(u, i) == t[i] {
    }
  }

  /** The contingency table of the swapped fields is the transpose of the table. */
  lemma ContingencySwap(imTrue: seq<nat>, imTest: seq<nat>)
    requires |imTrue| == |imTest| > 0
    ensures Contingency(imTest, imTrue).value == Transpose(Contingency(imTrue, imTest).value)
  {
    var t := Contingency(imTrue, imTest).value;
    var c := Contingency(imTest, imTrue).value;
    var u := Transpose(t);
    forall j | 0 <= j < |c| ensures c[j] == u[j] {
      forall i | 0 <= i < |t| ensures c[j][i] == t[i][j] {
        ContingencyCells(imTrue, imTest, i, j);
        ContingencyCells(imTest, imTrue, j, i);
        OccurrencesSwap(imTest, imTrue, i, j);
      }
    }
  }

  /** Thresholding works cell by cell, so it commutes with transposition. */
  lemma BinarizeTranspose(t: Table, sizeThreshold: int)
    requires Rect(t) && Width(t) > 0
    ensures Binarize(Transpose(t), sizeThreshold) == Transpose(Binarize(t, sizeThreshold))
  {
    var l := Binarize(Transpose(t), sizeThreshold);
    var r := Transpose(Binarize(t, sizeThreshold));
    forall j | 0 <= j < |l| ensures l[j] == r[j] {
    }
  }

  /** The thresholded table of the swapped fields is the transpose of the table. */
  lemma OverlapsSwap(imTrue: seq<nat>, imTest: seq<nat>, sizeThreshold: int)
    requires |imTrue| == |imTest| > 0
    ensures Overlaps(imTest, imTrue, sizeThreshold) == Transpose(Overlaps(imTrue, imTest, sizeThreshold))
  {
    var p := RelabelOf(imTrue).value.relabeled;
    var q := RelabelOf(imTest).value.relabeled;
    ContingencySwap(p, q);
    BinarizeTranspose(Contingency(p, q).value, sizeThreshold);
  }

  /**
   * Corrected, comparing the test field against the true field swaps false
   * merges and false splits: a split of one is a merge of the other.
   */
  lemma CorrectedSwap(imTrue: seq<nat>, imTest: seq<nat>, sizeThreshold: int)
    requires |imTrue| == |imTest| > 0
    ensures var c := RawEditDistanceCorrected(imTrue, imTest, sizeThreshold).value;
      RawEditDistanceCorrected(imTest, imTrue, sizeThreshold) == Some((c.1, c.0))
  {
    OverlapsSwap(imTrue, imTest, sizeThreshold);
    TransposeSums(Overlaps(imTrue, imTest, sizeThreshold));
  }

  /**
   * As written, a single-position field compared with itself at the default
   * threshold of 1000 needs -1 merges: its one overlap is thresholded away
   * and the empty test segment still subtracts 1.
   */
  lemma SelfComparisonGoesNegative()
    ensures RawEditDistance([1], [1], 1000) == Some((-1, 0))
    ensures RawEditDistanceCorrected([1], [1], 1000) == Some((0, 0))
  {
    SingleOverlapGone();
    EmptySums([[0, 0], [0, 0]]);
    DistancesFromSums([1], [1], 1000, [0, 0], [0, 0]);
  }

  /** At threshold 1000 the one overlap of [1] with itself is cleared. */
  lemma SingleOverlapGone()
    ensures Overlaps([1], [1], 1000) == [[0, 0], [0, 0]]
  {
    DenseUnchanged([1]);
    var t := Contingency([1], [1]).value;
    assert |t| == 2;
    ContingencyCells([1], [1], 1, 1);
    assert Occurrences([1], [1], 1, 1) == 1 by {
      assert [1][..0] == [];
    }
    ContingencyCells([1], [1], 0, 0);
    ContingencyCells([1], [1], 0, 1);
    ContingencyCells([1], [1], 1, 0);
    var b := Overlaps([1], [1], 1000);
    assert b[0] == [0, 0] && b[1] == [0, 0];
  }

  /** The all-zero 2-by-2 table: no merges or splits intended, one negative merge as written. */
  lemma EmptySums(b: Table)
    requires b == [[0, 0], [0, 0]]
    ensures Rect(b) && RowSums(b) == [0, 0] && ColSums(b) == [0, 0]
    ensures Excess(RowSums(b)) == -1 && ClampedExcess(RowSums(b)) == 0 && ClampedExcess(ColSums(b)) == 0
  {
    SumZero(b[0]);
    SumZero(b[1]);
    SumZero(Column(b, 0));
    SumZero(Column(b, 1));
    assert [0, 0][..1] == [0];
  }

  /** The overlaps of test field [1,2] with true field [1,1], by position. */
  lemma SplitCounts(i: nat, j: nat)
    ensures Occurrences([1, 2], [1, 1], i, j) == if (i == 1 || i == 2) && j == 1 then 1 else 0
  {
    var r1: seq<nat>, c1: seq<nat> := [1], [1];
    var r2: seq<nat>, c2: seq<nat> := [1, 2], [1, 1];
    assert r1[..0] == [] && c1[..0] == [];
    assert r2[..1] == r1 && c2[..1] == c1;
    assert Occurrences(r1[..0], c1[..0], i, j) == 0;
    assert Occurrences(r1, c1, i, j) == if i == 1 && j == 1 then 1 else 0;
  }

  /** The contingency table of true field [1,1] and test field [1,2]. */
  lemma SplitTable()
    ensures Contingency([1, 1], [1, 2]).value == [[0, 0], [0, 1], [0, 1]]
  {
    var truth: seq<nat>, test: seq<nat> := [1, 1], [1, 2];
    assert Max(truth) == 1 && Max(test) == 2 by {
      assert test[1] == 2;
    }
    var t := Contingency(truth, test).value;
    var e: Table := [[0, 0], [0, 1], [0, 1]];
    forall i | 0 <= i < 3 ensures t[i] == e[i] {
      forall j | 0 <= j < 2 ensures t[i][j] == e[i][j] {
        ContingencyCells(truth, test, i, j);
        SplitCounts(i, j);
      }
    }
  }

  /** The thresholded table of true field [1,1] and test field [1,2] at threshold 0. */
  lemma SplitOverlaps()
    ensures Overlaps([1, 1], [1, 2], 0) == [[0, 0], [0, 1], [0, 1]]
  {
    var truth: seq<nat>, test: seq<nat> := [1, 1], [1, 2];
    assert forall j :: 1 <= j <= Max(test) ==> j in test by {
      assert test[0] == 1 && test[1] == 2;
    }
    assert forall j :: 1 <= j <= Max(truth) ==> j in truth by {
      assert truth[0] == 1;
    }
    DenseUnchanged(truth);
    DenseUnchanged(test);
    SplitTable();
    var e: Table := [[0, 0], [0, 1], [0, 1]];
    assert Overlaps(truth, test, 0) == Binarize(e, 0);
    SplitBinarized(e);
  }

  /** At threshold 0 that table is already 0/1. */
  lemma SplitBinarized(e: Table)
    requires e == [[0, 0], [0, 1], [0, 1]]
    ensures Binarize(e, 0) == e
  {
    var b := Binarize(e, 0);
    forall i | 0 <= i < 3 ensures b[i] == e[i] {
      assert |b[i]| == 2;
    }
  }

  /** The sums of that table: one overlap for each test segment, two for the one true segment. */
  lemma SplitSums(b: Table)
    requires b == [[0, 0], [0, 1], [0, 1]]
    ensures Rect(b) && RowSums(b) == [0, 1, 1] && ColSums(b) == [0, 2]
    ensures Excess(RowSums(b)) == 0 && ClampedExcess(RowSums(b)) == 0 && ClampedExcess(ColSums(b)) == 1
  {
    assert [0, 0][..1] == [0] && [0, 1][..1] == [0] && [0][..0] == [];
    assert RowSums(b) == [0, 1, 1];
    assert Column(b, 0) == [0, 0, 0];
    SumZero(Column(b, 0));
    assert Column(b, 1) == [0, 1, 1] && [0, 1, 1][..2] == [0, 1];
    assert ColSums(b) == [0, 2];
    assert [0, 2][..1] == [0];
  }

  /**
   * As written, one true segment split into two test segments needs no
   * split: true field [1,1] against test field [1,2] gives (0, 0) where the
   * intended count is (0, 1).
   */
  lemma SplitsNeverCounted()
    ensures RawEditDistance([1, 1], [1, 2], 0) == Some((0, 0))
    ensures RawEditDistanceCorrected([1, 1], [1, 2], 0) == Some((0, 1))
  {
    SplitOverlaps();
    SplitSums([[0, 0], [0, 1], [0, 1]]);
    DistancesFromSums([1, 1], [1, 2], 0, [0, 1, 1], [0, 2]);
  }

  /** The overlaps of test field [1,1,1,2,2,3] with true field [1,1,2,2,3,3], by position. */
  lemma ExampleCounts(i: nat, j: nat)
    ensures Occurrences([1, 1, 1, 2, 2, 3], [1, 1, 2, 2, 3, 3], i, j)
      == if i == 1 && j == 1 then 2
         else if (i == 1 && j == 2) || (i == 2 && j == 2) || (i == 2 && j == 3) || (i == 3 && j == 3) then 1
         else 0
  {
    var r1: seq<nat>, c1: seq<nat> := [1], [1];
    var r2: seq<nat>, c2: seq<nat> := [1, 1], [1, 1];
    var r3: seq<nat>, c3: seq<nat> := [1, 1, 1], [1, 1, 2];
    var r4: seq<nat>, c4: seq<nat> := [1, 1, 1, 2], [1, 1, 2, 2];
    var r5: seq<nat>, c5: seq<nat> := [1, 1, 1, 2, 2], [1, 1, 2, 2, 3];
    var r6: seq<nat>, c6: seq<nat> := [1, 1, 1, 2, 2, 3], [1, 1, 2, 2, 3, 3];
    assert r1[..0] == [] && c1[..0] == [];
    assert r2[..1] == r1 && c2[..1] == c1;
    assert r3[..2] == r2 && c3[..2] == c2;
    assert r4[..3] == r3 && c4[..3] == c3;
    assert r5[..4] == r4 && c5[..4] == c4;
    assert r6[..5] == r5 && c6[..5] == c5;
    var o1 := Occurrences(r1, c1, i, j);
    var o2 := Occurrences(r2, c2, i, j);
    var o3 := Occurrences(r3, c3, i, j);
    var o4 := Occurrences(r4, c4, i, j);
    var o5 := Occurrences(r5, c5, i, j);
    assert Occurrences(r1[..0], c1[..0], i, j) == 0;
    assert o1 == if i == 1 && j == 1 then 1 else 0;
    assert o2 == o1 + (if i == 1 && j == 1 then 1 else 0);
    assert o3 == o2 + (if i == 1 && j == 2 then 1 else 0);
    assert o4 == o3 + (if i == 2 && j == 2 then 1 else 0);
    assert o5 == o4 + (if i == 2 && j == 3 then 1 else 0);
    assert Occurrences(r6, c6, i, j) == o5 + (if i == 3 && j == 3 then 1 else 0);
  }

  /** The contingency table of true field [1,1,2,2,3,3] and test field [1,1,1,2,2,3]. */
  lemma ExampleTable()
    ensures Contingency([1, 1, 2, 2, 3, 3], [1, 1, 1, 2, 2, 3]).value
      == [[0, 0, 0, 0], [0, 2, 1, 0], [0, 0, 1, 1], [0, 0, 0, 1]]
  {
    var truth: seq<nat>, test: seq<nat> := [1, 1, 2, 2, 3, 3], [1, 1, 1, 2, 2, 3];
    assert Max(truth) == 3 && Max(test) == 3 by {
      assert truth[4] == 3 && test[5] == 3;
    }
    var t := Contingency(truth, test).value;
    var e: Table := [[0, 0, 0, 0], [0, 2, 1, 0], [0, 0, 1, 1], [0, 0, 0, 1]];
    forall i | 0 <= i < 4 ensures t[i] == e[i] {
      forall j | 0 <= j < 4 ensures t[i][j] == e[i][j] {
        ContingencyCells(truth, test, i, j);
        ExampleCounts(i, j);
      }
    }
  }

  lemma Sum4(w: int, x: int, y: int, z: int)
    ensures Sum([w, x, y, z]) == w + x + y + z
  {
    assert [w, x, y, z][..3] == [w, x, y];
    assert [w, x, y][..2] == [w, x];
    assert [w, x][..1] == [w];
    assert [w][..0] == [];
    assert Sum([w]) == w;
    assert Sum([w, x]) == w + x;
    assert Sum([w, x, y]) == w + x + y;
  }

  lemma Excess4(w: int, x: int, y: int, z: int)
    ensures Excess([w, x, y, z]) == x + y + z - 3
  {
    assert [w, x, y, z][..3] == [w, x, y];
    assert [w, x, y][..2] == [w, x];
    assert [w, x][..1] == [w];
    assert Excess([w, x]) == x - 1;
    assert Excess([w, x, y]) == x + y - 2;
  }

  /** The thresholded example table: rows sum to 0, 2, 2, 1 and columns to 0, 1, 2, 2. */
  lemma ExampleSums(b: Table)
    requires b == [[0, 0, 0, 0], [0, 1, 1, 0], [0, 0, 1, 1], [0, 0, 0, 1]]
    ensures Rect(b) && RowSums(b) == [0, 2, 2, 1] && ColSums(b) == [0, 1, 2, 2]
    ensures Excess(RowSums(b)) == 2 && Excess(ColSums(b)) == 2
    ensures ClampedExcess(RowSums(b)) == 2 && ClampedExcess(ColSums(b)) == 2
  {
    Sum4(0, 0, 0, 0);
    Sum4(0, 1, 1, 0);
    Sum4(0, 0, 1, 1);
    Sum4(0, 0, 0, 1);
    Sum4(0, 1, 0, 0);
    assert RowSums(b) == [0, 2, 2, 1];
    assert Column(b, 0) == [0, 0, 0, 0] && Column(b, 1) == [0, 1, 0, 0];
    assert Column(b, 2) == [0, 1, 1, 0] && Column(b, 3) == [0, 0, 1, 1];
    assert ColSums(b) == [0, 1, 2, 2];
    Excess4(0, 2, 2, 1);
    Excess4(0, 1, 2, 2);
    ClampedAgrees(RowSums(b));
    ClampedAgrees(ColSums(b));
  }

  /** At threshold 0 the example's one overlap of two positions counts once. */
  lemma ExampleBinarized(e: Table)
    requires e == [[0, 0, 0, 0], [0, 2, 1, 0], [0, 0, 1, 1], [0, 0, 0, 1]]
    ensures Binarize(e, 0) == [[0, 0, 0, 0], [0, 1, 1, 0], [0, 0, 1, 1], [0, 0, 0, 1]]
  {
    var b := Binarize(e, 0);
    var expected: Table := [[0, 0, 0, 0], [0, 1, 1, 0], [0, 0, 1, 1], [0, 0, 0, 1]];
    forall i | 0 <= i < 4 ensures b[i] == expected[i] {
      assert |b[i]| == 4;
    }
  }

  /** Both edit distances of a comparison follow from the sums of its thresholded table. */
  lemma DistancesFromSums(imTrue: seq<nat>, imTest: seq<nat>, sizeThreshold: int, rows: seq<int>, cols: seq<int>)
    requires |imTrue| == |imTest| > 0
    requires RowSums(Overlaps(imTrue, imTest, sizeThreshold)) == rows
    requires ColSums(Overlaps(imTrue, imTest, sizeThreshold)) == cols
    ensures RawEditDistance(imTrue, imTest, sizeThreshold) == Some((Excess(rows), 0))
    ensures RawEditDistanceCorrected(imTrue, imTest, sizeThreshold) == Some((ClampedExcess(rows), ClampedExcess(cols)))
  {
  }

  /** True field [1,1,2,2,3,3] already uses labels 1..3, so relabelling keeps it. */
  lemma ExampleTruthDense(truth: seq<nat>)
    requires truth == [1, 1, 2, 2, 3, 3]
    ensures RelabelOf(truth).value.relabeled == truth
  {
    assert truth[0] == 1 && truth[2] == 2 && truth[4] == 3;
    assert Max(truth) == 3;
    DenseUnchanged(truth);
  }

  /** Test field [1,1,1,2,2,3] already uses labels 1..3, so relabelling keeps it. */
  lemma ExampleTestDense(test: seq<nat>)
    requires test == [1, 1, 1, 2, 2, 3]
    ensures RelabelOf(test).value.relabeled == test
  {
    assert test[0] == 1 && test[3] == 2 && test[5] == 3;
    assert Max(test) == 3;
    DenseUnchanged(test);
  }

  /** The thresholded table of true field [1,1,2,2,3,3] and test field [1,1,1,2,2,3] at threshold 0. */
  lemma ExampleOverlaps()
    ensures Overlaps([1, 1, 2, 2, 3, 3], [1, 1, 1, 2, 2, 3], 0)
      == [[0, 0, 0, 0], [0, 1, 1, 0], [0, 0, 1, 1], [0, 0, 0, 1]]
  {
    var truth: seq<nat>, test: seq<nat> := [1, 1, 2, 2, 3, 3], [1, 1, 1, 2, 2, 3];
    ExampleTruthDense(truth);
    ExampleTestDense(test);
    ExampleTable();
    var e: Table := [[0, 0, 0, 0], [0, 2, 1, 0], [0, 0, 1, 1], [0, 0, 0, 1]];
    assert Overlaps(truth, test, 0) == Binarize(e, 0);
    ExampleBinarized(e);
  }

  /**
   * True segments {1,1}, {2,2}, {3,3} against test segments {1,1,1}, {2,2},
   * {3}: five overlaps at threshold 0, two merges, and as written no splits;
   * corrected, two splits.
   */
  lemma ExampleDistance()
    ensures RawEditDistance([1, 1, 2, 2, 3, 3], [1, 1, 1, 2, 2, 3], 0) == Some((2, 0))
    ensures RawEditDistanceCorrected([1, 1, 2, 2, 3, 3], [1, 1, 1, 2, 2, 3], 0) == Some((2, 2))
  {
    ExampleOverlaps();
    ExampleSums([[0, 0, 0, 0], [0, 1, 1, 0], [0, 0, 1, 1], [0, 0, 0, 1]]);
    DistancesFromSums([1, 1, 2, 2, 3, 3], [1, 1, 1, 2, 2, 3], 0, [0, 2, 2, 1], [0, 1, 2, 2]);
  }

  /** Copies a table into a fresh matrix. */
  method ToMatrix(t: Table) returns (a: array2<nat>)
    requires Rect(t)
    ensures fresh(a) && a.Length0 == |t| && a.Length1 == Width(t)
    ensures forall i, j :: 0 <= i < |t| && 0 <= j < Width(t) ==> a[i, j] == t[i][j]
  {
    a := new nat[|t|, Width(t)]((i, j) requires 0 <= i < |t| && 0 <= j < Width(t) => t[i][j]);
  }

  /** `r.data[r.data <= size_threshold] = 0`. */
  method ThresholdCells(a: array2<nat>, sizeThreshold: int)
    modifies a
    ensures forall i, j :: 0 <= i < a.Length0 && 0 <= j < a.Length1 ==>
      a[i, j] == if old(a[i, j]) <= sizeThreshold then 0 else old(a[i, j])
  {
    var i := 0;
    while i < a.Length0
      invariant 0 <= i <= a.Length0
      invariant forall p, q :: 0 <= p < i && 0 <= q < a.Length1 ==>
        a[p, q] == if old(a[p, q]) <= sizeThreshold then 0 else old(a[p, q])
      invariant forall p, q :: i <= p < a.Length0 && 0 <= q < a.Length1 ==> a[p, q] == old(a[p, q])
    {
      var j := 0;
      while j < a.Length1
        invariant 0 <= j <= a.Length1
        invariant forall p, q :: 0 <= p < i && 0 <= q < a.Length1 ==>
          a[p, q] == if old(a[p, q]) <= sizeThreshold then 0 else old(a[p, q])
        invariant forall q :: 0 <= q < j ==>
          a[i, q] == if old(a[i, q]) <= sizeThreshold then 0 else old(a[i, q])
        invariant forall p, q :: i <= p < a.Length0 && 0 <= q < a.Length1 && (p > i || q >= j) ==> a[p, q] == old(a[p, q])
      {
        if a[i, j] <= sizeThreshold {
          a[i, j] := 0;
        }
        j := j + 1;
      }
      i := i + 1;
    }
  }

  /** `r.data[r.data.nonzero()] /= r.data[r.data.nonzero()]`: every non-zero cell becomes 1. */
  method UnitCells(a: array2<nat>)
    modifies a
    ensures forall i, j :: 0 <= i < a.Length0 && 0 <= j < a.Length1 ==>
      a[i, j] == if old(a[i, j]) != 0 then 1 else 0
  {
    var i := 0;
    while i < a.Length0
      invariant 0 <= i <= a.Length0
      invariant forall p, q :: 0 <= p < i && 0 <= q < a.Length1 ==>
        a[p, q] == if old(a[p, q]) != 0 then 1 else 0
      invariant forall p, q :: i <= p < a.Length0 && 0 <= q < a.Length1 ==> a[p, q] == old(a[p, q])
    {
      var j := 0;
      while j < a.Length1
        invariant 0 <= j <= a.Length1
        invariant forall p, q :: 0 <= p < i && 0 <= q < a.Length1 ==>
          a[p, q] == if old(a[p, q]) != 0 then 1 else 0
        invariant forall q :: 0 <= q < j ==> a[i, q] == if old(a[i, q]) != 0 then 1 else 0
        invariant forall p, q :: i <= p < a.Length0 && 0 <= q < a.Length1 && (p > i || q >= j) ==> a[p, q] == old(a[p, q])
      {
        if a[i, j] != 0 {
          a[i, j] := a[i, j] / a[i, j];
        }
        j := j + 1;
      }
      i := i + 1;
    }
  }

  /** The threshold and unit passes of the source, run in place on a matrix copy of `t`. */
  method BinarizeMatrix(t: Table, sizeThreshold: int) returns (b: Table)
    requires Rect(t)
    ensures b == Binarize(t, sizeThreshold)
  {
    var a := ToMatrix(t);
    ThresholdCells(a, sizeThreshold);
    UnitCells(a);
    var R, C := a.Length0, a.Length1;
    b := seq(R, i requires 0 <= i < R reads a => seq(C, j requires 0 <= j < C reads a => a[i, j]));
    ghost var expected := Binarize(t, sizeThreshold);
    forall i | 0 <= i < R ensures b[i] == expected[i] {
      assert |b[i]| == |expected[i]|;
    }
  }

  /** `compare_raw_edit_distance`, computed as the source computes it. */
  method CompareRawEditDistance(imTrue: seq<nat>, imTest: seq<nat>, sizeThreshold: int)
    returns (r: Option<(int, int)>)
    ensures r == RawEditDistance(imTrue, imTest, sizeThreshold)
  {
    if |imTrue| != |imTest| || |imTest| == 0 {
      return None;
    }
    var test := RelabelFromOne(imTest);
    var truth := RelabelFromOne(imTrue);
    var table := ContingencyTable(truth.value.relabeled, test.value.relabeled);
    var b := BinarizeMatrix(table.value, sizeThreshold);
    assert b == Overlaps(imTrue, imTest, sizeThreshold);
    r := Some((MatrixSum(DropFirst(Decrement(RowTotals(b)))), MatrixSum(DropFirst(Decrement(ColumnTotals(b))))));
  }
}

/**
 * `contingency_table`: the matrix whose cell (i, j) counts the positions
 * labelled i in the test field and j in the true field, where a position
 * carrying label 0 in either field contributes nothing.
 *
 * The source builds a sparse COO matrix from the two raveled fields with a
 * weight of 1 per position (0 where a field is 0), then converts it to CSR,
 * which sums the duplicate entries. The model keeps that structure: the
 * weight of a position, the duplicate sum of a cell, and the dense table they
 * define, whose shape is what COO infers from its index arrays.
 */
module Contingencies {
  import opened Wrappers
  import opened Labels
  import opened Tables

  /** The entry of `data` for one position: 0 if either label is background. */
  function Weight(test: nat, truth: nat): (w: nat)
    ensures w == 0 || w == 1
    ensures w == 1 <==> test != 0 && truth != 0
  {
    if test == 0 || truth == 0 then 0 else 1
  }

  /**
   * The duplicate sum CSR conversion stores at (i, j): at most one per
   * position, and nothing in the background row or column.
   */
  function CellSum(rows: seq<nat>, cols: seq<nat>, i: nat, j: nat): (c: nat)
    requires |rows| == |cols|
    ensures c <= |rows|
    ensures i == 0 || j == 0 ==> c == 0
  {
    if |rows| == 0 then 0
    else
      var n := |rows| - 1;
      CellSum(rows[..n], cols[..n], i, j)
        + (if rows[n] == i && cols[n] == j then Weight(rows[n], cols[n]) else 0)
  }

  /** The dense R-by-C table of duplicate sums. */
  function TableOf(rows: seq<nat>, cols: seq<nat>, R: nat, C: nat): (t: Table)
    requires |rows| == |cols|
    ensures |t| == R && Rect(t)
    ensures forall i :: 0 <= i < R ==> |t[i]| == C
    ensures R > 0 ==> Width(t) == C
  {
    seq(R, i requires 0 <= i < R => seq(C, j requires 0 <= j < C => CellSum(rows, cols, i, j)))
  }

  /**
   * `contingency_table(im_true, im_test)`: rows are test labels, columns true
   * labels, with shape (max(test) + 1, max(true) + 1). Fields of different
   * sizes cannot be masked against each other, and COO cannot infer a shape
   * from empty index arrays, so both are errors.
   */
  function Contingency(imTrue: seq<nat>, imTest: seq<nat>): (r: Option<Table>)
    ensures r.Some? <==> |imTrue| == |imTest| > 0
    ensures r.Some? ==> |r.value| == Max(imTest) + 1 && Rect(r.value) && Width(r.value) == Max(imTrue) + 1
  {
    if |imTrue| != |imTest| || |imTest| == 0 then None
    else Some(TableOf(imTest, imTrue, Max(imTest) + 1, Max(imTrue) + 1))
  }

  /** How many positions carry label i in `rows` and j in `cols`, background or not. */
  function Occurrences(rows: seq<nat>, cols: seq<nat>, i: nat, j: nat): nat
    requires |rows| == |cols|
  {
    if |rows| == 0 then 0
    else
      var n := |rows| - 1;
      Occurrences(rows[..n], cols[..n], i, j) + (if rows[n] == i && cols[n] == j then 1 else 0)
  }

  /** How many positions are labelled (non-zero) in both fields. */
  function Labelled(rows: seq<nat>, cols: seq<nat>): nat
    requires |rows| == |cols|
  {
    if |rows| == 0 then 0
    else
      var n := |rows| - 1;
      Labelled(rows[..n], cols[..n]) + Weight(rows[n], cols[n])
  }

  /** How many positions labelled in both fields carry label x in `rows`. */
  function RowCount(rows: seq<nat>, cols: seq<nat>, x: nat): nat
    requires |rows| == |cols|
  {
    if |rows| == 0 then 0
    else
      var n := |rows| - 1;
      RowCount(rows[..n], cols[..n], x) + (if rows[n] == x then Weight(rows[n], cols[n]) else 0)
  }

  /** How many positions labelled in both fields carry label y in `cols`. */
  function ColCount(rows: seq<nat>, cols: seq<nat>, y: nat): nat
    requires |rows| == |cols|
  {
    if |rows| == 0 then 0
    else
      var n := |rows| - 1;
      ColCount(rows[..n], cols[..n], y) + (if cols[n] == y then Weight(rows[n], cols[n]) else 0)
  }

  /** A cell counts the co-occurrences of its two labels, and is 0 in the background row and column. */
  lemma {:induction false} CellIsCount(rows: seq<nat>, cols: seq<nat>, i: nat, j: nat)
    requires |rows| == |cols|
    ensures CellSum(rows, cols, i, j) == if i == 0 || j == 0 then 0 else Occurrences(rows, cols, i, j)
  {
    if |rows| > 0 {
      var n := |rows| - 1;
      CellIsCount(rows[..n], cols[..n], i, j);
    }
  }

  /** Appending one position adds one count to its cell, unless a label of it is 0. */
  lemma TableStep(rows: seq<nat>, cols: seq<nat>, R: nat, C: nat)
    requires |rows| == |cols| > 0
    requires rows[|rows| - 1] < R && cols[|cols| - 1] < C
    ensures var n := |rows| - 1;
      var t0 := TableOf(rows[..n], cols[..n], R, C);
      TableOf(rows, cols, R, C)
        == if Weight(rows[n], cols[n]) == 1 then Inc(t0, rows[n], cols[n]) else t0
  {
    var n := |rows| - 1;
    var t0 := TableOf(rows[..n], cols[..n], R, C);
    var t := TableOf(rows, cols, R, C);
    var u := if Weight(rows[n], cols[n]) == 1 then Inc(t0, rows[n], cols[n]) else t0;
    forall i | 0 <= i < R ensures t[i] == u[i] {
      assert |t[i]| == |u[i]|;
    }
  }

  /** The total, row sums and column sums of the table are the matching position counts. */
  lemma {:induction false} TableMarginals(rows: seq<nat>, cols: seq<nat>, R: nat, C: nat)
    requires |rows| == |cols| && R > 0 && C > 0
    requires forall k :: 0 <= k < |rows| ==> rows[k] < R && cols[k] < C
    ensures var t := TableOf(rows, cols, R, C);
      && Total(t) == Labelled(rows, cols)
      && (forall x :: 0 <= x < R ==> RowSums(t)[x] == RowCount(rows, cols, x))
      && (forall y :: 0 <= y < C ==> ColSums(t)[y] == ColCount(rows, cols, y))
  {
    var t := TableOf(rows, cols, R, C);
    if |rows| == 0 {
      SumsZero(t);
      forall x | 0 <= x < R ensures RowSums(t)[x] == 0 {
        SumZero(t[x]);
      }
      forall y | 0 <= y < C ensures ColSums(t)[y] == 0 {
        SumZero(Column(t, y));
      }
    } else {
      var n := |rows| - 1;
      var p, q := rows[n], cols[n];
      TableMarginals(rows[..n], cols[..n], R, C);
      TableStep(rows, cols, R, C);
      if Weight(p, q) == 1 {
        var t0 := TableOf(rows[..n], cols[..n], R, C);
        IncRowSums(t0, p, q);
        IncColSums(t0, p, q);
        SumIncOne(RowSums(t0), p);
      }
    }
  }

  /** The table's total is the number of positions labelled in both fields. */
  lemma ContingencyTotal(imTrue: seq<nat>, imTest: seq<nat>)
    requires |imTrue| == |imTest| > 0
    ensures Total(Contingency(imTrue, imTest).value) == Labelled(imTest, imTrue)
  {
    TableMarginals(imTest, imTrue, Max(imTest) + 1, Max(imTrue) + 1);
  }

  /**
   * Cell (i, j) of `contingency_table(im_true, im_test)` counts the positions
   * labelled i in the test field and j in the true field, for non-zero i and
   * j, and is 0 otherwise.
   */
  lemma ContingencyCells(imTrue: seq<nat>, imTest: seq<nat>, i: nat, j: nat)
    requires |imTrue| == |imTest| > 0
    requires i <= Max(imTest) && j <= Max(imTrue)
    ensures Contingency(imTrue, imTest).value[i][j]
      == if i == 0 || j == 0 then 0 else Occurrences(imTest, imTrue, i, j)
  {
    CellIsCount(imTest, imTrue, i, j);
  }

  /** The `ignored`/`data` arrays of the source, one entry per position. */
  method Weights(imTrue: seq<nat>, imTest: seq<nat>) returns (data: array<nat>)
    requires |imTrue| == |imTest|
    ensures fresh(data) && data.Length == |imTest|
    ensures forall k :: 0 <= k < |imTest| ==> data[k] == Weight(imTest[k], imTrue[k])
  {
    var ignored := new bool[|imTest|](_ => false);
    data := new nat[|imTest|](_ => 1);
    var k := 0;
    while k < |imTest|
      invariant 0 <= k <= |imTest|
      invariant forall l :: 0 <= l < k ==> ignored[l] == (imTest[l] == 0)
      invariant forall l :: k <= l < |imTest| ==> !ignored[l]
      modifies ignored
    {
      if imTest[k] == 0 {
        ignored[k] := true;
      }
      k := k + 1;
    }
    k := 0;
    while k < |imTest|
      invariant 0 <= k <= |imTest|
      invariant forall l :: 0 <= l < k ==> ignored[l] == (imTest[l] == 0 || imTrue[l] == 0)
      invariant forall l :: k <= l < |imTest| ==> ignored[l] == (imTest[l] == 0)
      modifies ignored
    {
      if imTrue[k] == 0 {
        ignored[k] := true;
      }
      k := k + 1;
    }
    k := 0;
    while k < |imTest|
      invariant 0 <= k <= |imTest|
      invariant forall l :: 0 <= l < k ==> data[l] == Weight(imTest[l], imTrue[l])
      invariant forall l :: k <= l < |imTest| ==> data[l] == 1
      modifies data
    {
      if ignored[k] {
        data[k] := 0;
      }
      k := k + 1;
    }
  }

  /** Sums `data` into an R-by-C matrix at (rows[k], cols[k]): the COO to CSR conversion. */
  method Accumulate(rows: seq<nat>, cols: seq<nat>, data: array<nat>, R: nat, C: nat)
    returns (cont: array2<nat>)
    requires |rows| == |cols| == data.Length
    requires forall k :: 0 <= k < |rows| ==> rows[k] < R && cols[k] < C
    requires forall k :: 0 <= k < |rows| ==> data[k] == Weight(rows[k], cols[k])
    ensures fresh(cont) && cont.Length0 == R && cont.Length1 == C
    ensures forall i, j :: 0 <= i < R && 0 <= j < C ==> cont[i, j] == CellSum(rows, cols, i, j)
  {
    cont := new nat[R, C]((_, _) => 0);
    var k := 0;
    while k < |rows|
      invariant 0 <= k <= |rows|
      invariant forall i, j :: 0 <= i < R && 0 <= j < C ==> cont[i, j] == CellSum(rows[..k], cols[..k], i, j)
    {
      assert rows[..k + 1][..k] == rows[..k] && cols[..k + 1][..k] == cols[..k];
      cont[rows[k], cols[k]] := cont[rows[k], cols[k]] + data[k];
      k := k + 1;
    }
    assert rows[..k] == rows && cols[..k] == cols;
  }

  /** `contingency_table`, built as the source builds it. */
  method ContingencyTable(imTrue: seq<nat>, imTest: seq<nat>) returns (r: Option<Table>)
    ensures r == Contingency(imTrue, imTest)
  {
    if |imTrue| != |imTest| || |imTest| == 0 {
      return None;
    }
    var data := Weights(imTrue, imTest);
    var R, C := Max(imTest) + 1, Max(imTrue) + 1;
    var cont := Accumulate(imTest, imTrue, data, R, C);
    var t := seq(R, i requires 0 <= i < R reads cont => seq(C, j requires 0 <= j < C reads cont => cont[i, j]));
    forall i | 0 <= i < R ensures t[i] == TableOf(imTest, imTrue, R, C)[i] {
      assert |t[i]| == C;
    }
    assert t == TableOf(imTest, imTrue, R, C);
    r := Some(t);
  }
}

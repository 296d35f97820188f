/**
 * The meaning of the four numbers `rand_values` derives from a contingency
 * table: over all unordered pairs of positions labelled in both fields, how
 * many carry the same label in both fields, the same label in the row field
 * only, in the column field only, or in neither.
 *
 * The pairs are defined position by position, independently of any table, and
 * `SumsArePairs` proves the table reductions count them.
 */
module PairCounts {
  import opened Labels
  import opened Tables
  import opened Contingencies

  datatype PairKind = SameBoth | SameRowOnly | SameColOnly | DiffBoth

  /** How the labels (p, q) and (p2, q2) of two positions relate. */
  function Kind(p: nat, q: nat, p2: nat, q2: nat): PairKind {
    if p == p2 && q == q2 then SameBoth
    else if p == p2 then SameRowOnly
    else if q == q2 then SameColOnly
    else DiffBoth
  }

  datatype Tally = Tally(sameBoth: nat, sameRowOnly: nat, sameColOnly: nat, diffBoth: nat)

  function Zero(): Tally {
    Tally(0, 0, 0, 0)
  }

  function Add(x: Tally, y: Tally): Tally {
    Tally(x.sameBoth + y.sameBoth, x.sameRowOnly + y.sameRowOnly,
          x.sameColOnly + y.sameColOnly, x.diffBoth + y.diffBoth)
  }

  function One(k: PairKind): Tally {
    match k
    case SameBoth => Tally(1, 0, 0, 0)
    case SameRowOnly => Tally(0, 1, 0, 0)
    case SameColOnly => Tally(0, 0, 1, 0)
    case DiffBoth => Tally(0, 0, 0, 1)
  }

  function Size(x: Tally): nat {
    x.sameBoth + x.sameRowOnly + x.sameColOnly + x.diffBoth
  }

  /** The labelled positions of (rows, cols), classified against the labels (p, q). */
  function Partners(rows: seq<nat>, cols: seq<nat>, p: nat, q: nat): Tally
    requires |rows| == |cols|
  {
    if |rows| == 0 then Zero()
    else
      var n := |rows| - 1;
      var prev := Partners(rows[..n], cols[..n], p, q);
      if Weight(rows[n], cols[n]) == 1 then Add(prev, One(Kind(p, q, rows[n], cols[n]))) else prev
  }

  /** Every unordered pair of positions labelled in both fields, classified. */
  function PairTally(rows: seq<nat>, cols: seq<nat>): Tally
    requires |rows| == |cols|
  {
    if |rows| == 0 then Zero()
    else
      var n := |rows| - 1;
      var prev := PairTally(rows[..n], cols[..n]);
      if Weight(rows[n], cols[n]) == 1 then Add(prev, Partners(rows[..n], cols[..n], rows[n], cols[n])) else prev
  }

  /** The partners of a labelled position, by kind, from the cell, row and column counts. */
  lemma {:induction false} PartnersByCounts(rows: seq<nat>, cols: seq<nat>, p: nat, q: nat)
    requires |rows| == |cols| && p != 0 && q != 0
    ensures var t := Partners(rows, cols, p, q);
      var c := CellSum(rows, cols, p, q);
      && t.sameBoth == c
      && t.sameRowOnly + c == RowCount(rows, cols, p)
      && t.sameColOnly + c == ColCount(rows, cols, q)
      && t.diffBoth + RowCount(rows, cols, p) + ColCount(rows, cols, q) == Labelled(rows, cols) + c
  {
    if |rows| > 0 {
      var n := |rows| - 1;
      PartnersByCounts(rows[..n], cols[..n], p, q);
    }
  }

  lemma {:induction false} PartnersSize(rows: seq<nat>, cols: seq<nat>, p: nat, q: nat)
    requires |rows| == |cols|
    ensures Size(Partners(rows, cols, p, q)) == Labelled(rows, cols)
  {
    if |rows| > 0 {
      var n := |rows| - 1;
      PartnersSize(rows[..n], cols[..n], p, q);
    }
  }

  /** The four kinds together are all C(N, 2) pairs of the N labelled positions. */
  lemma {:induction false} PairTallySize(rows: seq<nat>, cols: seq<nat>)
    requires |rows| == |cols|
    ensures Size(PairTally(rows, cols)) == Pairs(Labelled(rows, cols))
  {
    if |rows| > 0 {
      var n := |rows| - 1;
      PairTallySize(rows[..n], cols[..n]);
      PartnersSize(rows[..n], cols[..n], rows[n], cols[n]);
      var m := Labelled(rows[..n], cols[..n]);
      if Weight(rows[n], cols[n]) == 1 {
        assert Labelled(rows, cols) == m + 1;
        assert Pairs(m + 1) == Pairs(m) + m;
      }
    }
  }

  /**
   * The four reductions of a table count its pairs: the sum of squared cells
   * less the total is twice the pairs alike in both fields, and so on for the
   * row field only, the column field only, and neither.
   */
  predicate CountsPairs(s: TableSums, p: Tally) {
    && s.cellSq - s.total == 2 * p.sameBoth
    && s.rowSq - s.cellSq == 2 * p.sameRowOnly
    && s.colSq - s.cellSq == 2 * p.sameColOnly
    && s.cellSq + s.total * s.total - s.rowSq - s.colSq == 2 * p.diffBoth
  }

  /** One more labelled position, with cell count c, row count r and column count col before it. */
  lemma CountsPairsStep(s: TableSums, p: Tally, e: Tally, c: int, r: int, col: int)
    requires CountsPairs(s, p)
    requires e.sameBoth == c && e.sameRowOnly + c == r && e.sameColOnly + c == col
    requires e.diffBoth + r + col == s.total + c
    ensures CountsPairs(TableSums(s.total + 1, s.cellSq + 2 * c + 1, s.rowSq + 2 * r + 1, s.colSq + 2 * col + 1), Add(p, e))
  {
    assert (s.total + 1) * (s.total + 1) == s.total * s.total + 2 * s.total + 1;
  }

  /** `CountsPairs` is kept by one more count in a cell, with the partners that count brings. */
  lemma CountsPairsInc(t: Table, x: nat, y: nat, p: Tally, e: Tally)
    requires Rect(t) && x < |t| && y < Width(t)
    requires CountsPairs(Sums(t), p)
    requires e.sameBoth == t[x][y]
    requires e.sameRowOnly + t[x][y] == RowSums(t)[x] && e.sameColOnly + t[x][y] == ColSums(t)[y]
    requires e.diffBoth + RowSums(t)[x] + ColSums(t)[y] == Total(t) + t[x][y]
    ensures Rect(Inc(t, x, y)) && CountsPairs(Sums(Inc(t, x, y)), Add(p, e))
  {
    SumsInc(t, x, y);
    CountsPairsStep(Sums(t), p, e, t[x][y], RowSums(t)[x], ColSums(t)[y]);
  }

  lemma MarginalsAt(rows: seq<nat>, cols: seq<nat>, R: nat, C: nat, x: nat, y: nat)
    requires |rows| == |cols| && x < R && y < C
    requires forall k :: 0 <= k < |rows| ==> rows[k] < R && cols[k] < C
    ensures var t := TableOf(rows, cols, R, C);
      && t[x][y] == CellSum(rows, cols, x, y)
      && Total(t) == Labelled(rows, cols)
      && RowSums(t)[x] == RowCount(rows, cols, x)
      && ColSums(t)[y] == ColCount(rows, cols, y)
  {
    TableMarginals(rows, cols, R, C);
  }

  lemma PairTallyStep(rows: seq<nat>, cols: seq<nat>)
    requires |rows| == |cols| > 0
    requires var n := |rows| - 1; Weight(rows[n], cols[n]) == 1
    ensures var n := |rows| - 1;
      PairTally(rows, cols) == Add(PairTally(rows[..n], cols[..n]), Partners(rows[..n], cols[..n], rows[n], cols[n]))
  {
  }

  /** The induction step of `SumsArePairs` for a last position labelled in both fields. */
  lemma {:induction false} SumsArePairsStep(rows: seq<nat>, cols: seq<nat>, R: nat, C: nat)
    requires |rows| == |cols| > 0 && R > 0 && C > 0
    requires forall k :: 0 <= k < |rows| ==> rows[k] < R && cols[k] < C
    requires var n := |rows| - 1; Weight(rows[n], cols[n]) == 1
    requires var n := |rows| - 1;
      CountsPairs(Sums(TableOf(rows[..n], cols[..n], R, C)), PairTally(rows[..n], cols[..n]))
    ensures CountsPairs(Sums(TableOf(rows, cols, R, C)), PairTally(rows, cols))
  {
    var n := |rows| - 1;
    var x, y := rows[n], cols[n];
    var rows0, cols0 := rows[..n], cols[..n];
    var t0 := TableOf(rows0, cols0, R, C);
    var e := Partners(rows0, cols0, x, y);
    PairTallyStep(rows, cols);
    TableStep(rows, cols, R, C);
    MarginalsAt(rows0, cols0, R, C, x, y);
    PartnersByCounts(rows0, cols0, x, y);
    CountsPairsInc(t0, x, y, PairTally(rows0, cols0), e);
  }

  lemma {:induction false} SumsArePairs(rows: seq<nat>, cols: seq<nat>, R: nat, C: nat)
    requires |rows| == |cols| && R > 0 && C > 0
    requires forall k :: 0 <= k < |rows| ==> rows[k] < R && cols[k] < C
    ensures CountsPairs(Sums(TableOf(rows, cols, R, C)), PairTally(rows, cols))
  {
    if |rows| == 0 {
      SumsZero(TableOf(rows, cols, R, C));
    } else {
      var n := |rows| - 1;
      SumsArePairs(rows[..n], cols[..n], R, C);
      if Weight(rows[n], cols[n]) == 1 {
        SumsArePairsStep(rows, cols, R, C);
      } else {
        TableStep(rows, cols, R, C);
      }
    }
  }

  /** Comparing a field with itself, no pair is alike in one field only. */
  lemma {:induction false} PartnersSelf(s: seq<nat>, p: nat)
    ensures Partners(s, s, p, p).sameRowOnly == 0 && Partners(s, s, p, p).sameColOnly == 0
  {
    if |s| > 0 {
      PartnersSelf(s[..|s| - 1], p);
    }
  }

  lemma {:induction false} PairTallySelf(s: seq<nat>)
    ensures PairTally(s, s).sameRowOnly == 0 && PairTally(s, s).sameColOnly == 0
  {
    if |s| > 0 {
      var n := |s| - 1;
      PairTallySelf(s[..n]);
      PartnersSelf(s[..n], s[n]);
    }
  }

  /** The tally of (rows, cols) with the two one-field-only kinds exchanged. */
  function Swap(x: Tally): Tally {
    Tally(x.sameBoth, x.sameColOnly, x.sameRowOnly, x.diffBoth)
  }

  lemma {:induction false} PartnersSwap(rows: seq<nat>, cols: seq<nat>, p: nat, q: nat)
    requires |rows| == |cols|
    ensures Partners(cols, rows, q, p) == Swap(Partners(rows, cols, p, q))
  {
    if |rows| > 0 {
      var n := |rows| - 1;
      PartnersSwap(rows[..n], cols[..n], p, q);
    }
  }

  /** Exchanging the two fields exchanges the two one-field-only kinds and keeps the others. */
  lemma {:induction false} PairTallySwap(rows: seq<nat>, cols: seq<nat>)
    requires |rows| == |cols|
    ensures PairTally(cols, rows) == Swap(PairTally(rows, cols))
  {
    if |rows| > 0 {
      var n := |rows| - 1;
      PairTallySwap(rows[..n], cols[..n]);
      PartnersSwap(rows[..n], cols[..n], rows[n], cols[n]);
    }
  }

  lemma {:induction false} LabelledSwap(rows: seq<nat>, cols: seq<nat>)
    requires |rows| == |cols|
    ensures Labelled(cols, rows) == Labelled(rows, cols)
  {
    if |rows| > 0 {
      LabelledSwap(rows[..|rows| - 1], cols[..|cols| - 1]);
    }
  }

  /** Without background, every position is labelled. */
  lemma {:induction false} LabelledAll(rows: seq<nat>, cols: seq<nat>)
    requires |rows| == |cols|
    requires forall k :: 0 <= k < |rows| ==> rows[k] != 0 && cols[k] != 0
    ensures Labelled(rows, cols) == |rows|
  {
    if |rows| > 0 {
      LabelledAll(rows[..|rows| - 1], cols[..|cols| - 1]);
    }
  }
}

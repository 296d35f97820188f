/**
 * `relabel_from_one`: maps the labels of a label field onto 1..K, where K is
 * the number of distinct non-zero labels, in sorted label order, keeping 0
 * fixed; it also returns the forward map (old label -> new label) and the
 * inverse map (new label -> old label).
 */
module Relabel {
  import opened Wrappers
  import opened Labels

  datatype Relabeling = Relabeling(relabeled: seq<nat>, forwardMap: seq<nat>, inverseMap: seq<nat>)

  /** The non-zero labels of a field, sorted (`labels0`). */
  function NonZeroLabels(field: seq<nat>): (r: seq<nat>)
    ensures StrictlyIncreasing(r)
    ensures forall x :: x in r <==> x in field && x != 0
  {
    NonZero(Unique(field))
  }

  /** K: the number of distinct non-zero labels. */
  function LabelCount(field: seq<nat>): nat {
    |NonZeroLabels(field)|
  }

  /** The fast-path test `labels.max() == len(labels0)` (the maximum of `np.unique(field)` is that of `field`). */
  predicate AlreadyDense(field: seq<nat>)
    requires |field| > 0
  {
    Max(field) == LabelCount(field)
  }

  /** The new label of `u`: its 1-based position among the sorted non-zero labels, 0 if absent. */
  function Rank(labels0: seq<nat>, u: nat): nat {
    if u in labels0 then IndexOf(labels0, u) + 1 else 0
  }

  lemma RankFacts(labels0: seq<nat>, u: nat)
    requires StrictlyIncreasing(labels0)
    ensures u !in labels0 ==> Rank(labels0, u) == 0
    ensures u in labels0 ==> 1 <= Rank(labels0, u) <= |labels0| && labels0[Rank(labels0, u) - 1] == u
  {
  }

  /** The general path: `forward_map[labels0] = 1..K` scattered into zeros, then gathered over the field. */
  function GeneralPath(field: seq<nat>, labels0: seq<nat>, m: nat): (r: Relabeling)
    requires forall k :: 0 <= k < |field| ==> field[k] <= m
    ensures |r.relabeled| == |field| && |r.forwardMap| == m + 1
    ensures forall u :: 0 <= u <= m ==> r.forwardMap[u] == Rank(labels0, u)
    ensures forall k :: 0 <= k < |field| ==> r.relabeled[k] == Rank(labels0, field[k])
    ensures r.inverseMap == [0] + labels0
  {
    var forward := seq(m + 1, u requires 0 <= u => Rank(labels0, u));
    Relabeling(seq(|field|, k requires 0 <= k < |field| => forward[field[k]]), forward, [0] + labels0)
  }

  /** The relabeling computed by `relabel_from_one`, as written; None where it raises (empty field). */
  function RelabelOf(field: seq<nat>): (r: Option<Relabeling>)
    ensures r.Some? <==> |field| > 0
    ensures r.Some? ==> |r.value.relabeled| == |field|
  {
    if |field| == 0 then None
    else if AlreadyDense(field) then Some(Relabeling(field, Unique(field), Unique(field)))
    else Some(GeneralPath(field, NonZeroLabels(field), Max(field)))
  }

  /** Positions `i, j` of a strictly increasing sequence are at least `j - i` apart in value. */
  lemma {:induction false} IncreasingGap(s: seq<nat>, i: nat, j: nat)
    requires StrictlyIncreasing(s) && i <= j < |s|
    ensures s[j] >= s[i] + (j - i)
  {
    if i < j {
      IncreasingGap(s, i, j - 1);
    }
  }

  /** Sorted distinct positive labels that are all at most their count are exactly 1..K. */
  lemma DenseLabels(s: seq<nat>)
    requires StrictlyIncreasing(s)
    requires forall x :: x in s ==> 1 <= x <= |s|
    ensures forall i :: 0 <= i < |s| ==> s[i] == i + 1
  {
    forall i | 0 <= i < |s| ensures s[i] == i + 1 {
      IncreasingGap(s, 0, i);
      IncreasingGap(s, i, |s| - 1);
      assert s[0] in s && s[|s| - 1] in s;
    }
  }

  /** A sorted sequence of distinct values whose values are exactly 1..K is [1, ..., K]. */
  lemma {:induction false} EnumeratesOneToK(s: seq<nat>, k: nat)
    requires StrictlyIncreasing(s)
    requires forall x :: x in s <==> 1 <= x <= k
    ensures |s| == k
    ensures forall i :: 0 <= i < k ==> s[i] == i + 1
  {
    assert forall j :: 0 <= j < |s| ==> s[j] >= j + 1 by {
      forall j | 0 <= j < |s| ensures s[j] >= j + 1 {
        IncreasingGap(s, 0, j);
        assert s[0] in s;
      }
    }
    var i := 0;
    while i < k
      invariant i <= k && i <= |s|
      invariant forall t :: 0 <= t < i ==> s[t] == t + 1
    {
      assert i + 1 in s;
      var t :| 0 <= t < |s| && s[t] == i + 1;
      assert t == i;
      i := i + 1;
    }
    if |s| > 0 {
      assert s[|s| - 1] in s;
    }
  }

  /** In the fast path the non-zero labels are exactly 1..K. */
  lemma {:induction false} FastPathLabels(field: seq<nat>)
    requires |field| > 0 && AlreadyDense(field)
    ensures forall x :: x in field && x != 0 ==> x <= LabelCount(field)
    ensures forall j :: 1 <= j <= LabelCount(field) ==> j in field
  {
    var labels0 := NonZeroLabels(field);
    MaxBoundsMembers(field);
    DenseLabels(labels0);
    forall j | 1 <= j <= |labels0| ensures j in field {
      assert labels0[j - 1] in labels0;
    }
  }

  /** Conversely, a field using every label of 1..max takes the fast path and comes back unchanged. */
  lemma DenseUnchanged(field: seq<nat>)
    requires |field| > 0
    requires forall j :: 1 <= j <= Max(field) ==> j in field
    ensures AlreadyDense(field) && RelabelOf(field).value.relabeled == field
  {
    var labels0 := NonZeroLabels(field);
    assert forall x :: x in labels0 <==> 1 <= x <= Max(field);
    EnumeratesOneToK(labels0, Max(field));
  }

  /**
   * Both paths: the relabeled field keeps 0 exactly where the input had 0,
   * sends every other label into 1..K, and uses every label of 1..K.
   */
  lemma {:induction false} RelabelRange(field: seq<nat>)
    requires |field| > 0
    ensures var r := RelabelOf(field).value.relabeled;
      && (forall k :: 0 <= k < |field| ==> (r[k] == 0 <==> field[k] == 0))
      && (forall k :: 0 <= k < |field| ==> r[k] <= LabelCount(field))
      && (forall j :: 1 <= j <= LabelCount(field) ==> j in r)
  {
    if AlreadyDense(field) {
      FastPathLabels(field);
    } else {
      GeneralRange(field);
    }
  }

  lemma {:induction false} GeneralRange(field: seq<nat>)
    requires |field| > 0 && !AlreadyDense(field)
    ensures var r := RelabelOf(field).value.relabeled;
      && (forall k :: 0 <= k < |field| ==> (r[k] == 0 <==> field[k] == 0))
      && (forall k :: 0 <= k < |field| ==> r[k] <= LabelCount(field))
      && (forall j :: 1 <= j <= LabelCount(field) ==> j in r)
  {
    var labels0 := NonZeroLabels(field);
    var r := RelabelOf(field).value.relabeled;
    forall k | 0 <= k < |field| ensures (r[k] == 0 <==> field[k] == 0) && r[k] <= |labels0| {
      RankFacts(labels0, field[k]);
    }
    forall j | 1 <= j <= |labels0| ensures j in r {
      var x := labels0[j - 1];
      assert x in labels0;
      var k :| 0 <= k < |field| && field[k] == x;
      IndexOfIncreasing(labels0, j - 1);
      assert r[k] == j;
    }
  }

  lemma {:induction false} RelabelOrderAt(field: seq<nat>, k: nat, l: nat)
    requires 0 <= k < |field| && 0 <= l < |field| && field[k] < field[l]
    ensures var r := RelabelOf(field).value.relabeled; r[k] < r[l]
  {
    if !AlreadyDense(field) {
      var labels0 := NonZeroLabels(field);
      assert field[l] in field;
      RankFacts(labels0, field[l]);
      if field[k] == 0 {
        RankFacts(labels0, 0);
      } else {
        assert field[k] in field;
        RankOrder(labels0, field[k], field[l]);
      }
    }
  }

  /** Rank keeps the order of the labels it numbers. */
  lemma RankOrder(labels0: seq<nat>, u: nat, v: nat)
    requires StrictlyIncreasing(labels0) && u in labels0 && v in labels0 && u < v
    ensures Rank(labels0, u) < Rank(labels0, v)
  {
    RankFacts(labels0, u);
    RankFacts(labels0, v);
  }

  /** Both paths: the relabeling keeps the order of labels, so it is one-to-one. */
  lemma RelabelPreservesOrder(field: seq<nat>)
    requires |field| > 0
    ensures var r := RelabelOf(field).value.relabeled;
      && (forall k, l :: 0 <= k < |field| && 0 <= l < |field| && field[k] < field[l] ==> r[k] < r[l])
      && (forall k, l :: 0 <= k < |field| && 0 <= l < |field| ==> (r[k] == r[l] <==> field[k] == field[l]))
  {
    var r := RelabelOf(field).value.relabeled;
    forall k, l | 0 <= k < |field| && 0 <= l < |field|
      ensures field[k] < field[l] ==> r[k] < r[l]
      ensures r[k] == r[l] <==> field[k] == field[l]
    {
      if field[k] < field[l] {
        RelabelOrderAt(field, k, l);
      } else if field[l] < field[k] {
        RelabelOrderAt(field, l, k);
      }
    }
  }

  /**
   * General path: every voxel satisfies `forward[field] == relabeled` and
   * `inverse[relabeled] == field`; 0 maps to 0; the forward map has `max + 1`
   * entries and the inverse map is the sorted non-zero labels behind a leading 0.
   */
  lemma {:induction false} RelabelRoundTrip(field: seq<nat>)
    requires |field| > 0 && !AlreadyDense(field)
    ensures var r := RelabelOf(field).value;
      && (forall k :: 0 <= k < |field| ==> field[k] < |r.forwardMap| && r.forwardMap[field[k]] == r.relabeled[k])
      && (forall k :: 0 <= k < |field| ==> r.relabeled[k] < |r.inverseMap| && r.inverseMap[r.relabeled[k]] == field[k])
      && r.forwardMap[0] == 0
      && r.inverseMap == [0] + NonZeroLabels(field)
      && |r.forwardMap| == Max(field) + 1
  {
    var labels0 := NonZeroLabels(field);
    var r := RelabelOf(field).value;
    forall k | 0 <= k < |field|
      ensures r.relabeled[k] < |r.inverseMap| && r.inverseMap[r.relabeled[k]] == field[k]
    {
      RankFacts(labels0, field[k]);
    }
    RankFacts(labels0, 0);
  }

  /** General path: the forward map is strictly increasing on the labels present. */
  lemma ForwardMapMonotone(field: seq<nat>, u: nat, v: nat)
    requires |field| > 0 && !AlreadyDense(field)
    requires u in field && v in field && 0 < u < v
    ensures var fw := RelabelOf(field).value.forwardMap;
      u < |fw| && v < |fw| && 0 < fw[u] < fw[v]
  {
    var k :| 0 <= k < |field| && field[k] == u;
    var l :| 0 <= l < |field| && field[l] == v;
    RelabelRoundTrip(field);
    RelabelPreservesOrder(field);
    RelabelRange(field);
  }

  /** Relabeling a relabeled field changes nothing: it takes the fast path. */
  lemma RelabelIdempotent(field: seq<nat>)
    requires |field| > 0
    ensures var r := RelabelOf(field).value.relabeled;
      AlreadyDense(r) && RelabelOf(r).value.relabeled == r
  {
    var r := RelabelOf(field).value.relabeled;
    RelabelRange(field);
    assert forall j :: 1 <= j <= Max(r) ==> j in r;
    DenseUnchanged(r);
  }

  /**
   * The fast path as written: for the already-dense field [1, 2] the field
   * comes back unchanged with `labels` as both maps, and then
   * `forward[field] == relabeled` fails (forward[1] is 2).
   */
  lemma FastPathMapsBreakRoundTrip()
    ensures |RelabelOf([1, 2]).value.forwardMap| == 2
    ensures var r := RelabelOf([1, 2]).value;
      r == Relabeling([1, 2], [1, 2], [1, 2]) && r.forwardMap[r.relabeled[0]] != r.relabeled[0]
  {
    assert [1, 2][..1] == [1];
    assert [1][..0] == [];
    assert Unique([1]) == [1];
    assert Unique([1, 2]) == [1, 2];
    assert Max([1, 2]) == 2 by {
      assert [1, 2][..1] == [1];
    }
  }

  /** The identity map on 0..len - 1. */
  function Identity(len: nat): (r: seq<nat>)
    ensures |r| == len && forall u :: 0 <= u < len ==> r[u] == u
  {
    seq(len, u => u)
  }

  /**
   * `relabel_from_one` with the fast path returning identity maps of length
   * `max + 1` instead of `labels`, so that the documented round trip holds on
   * every input.
   */
  function RelabelOfCorrected(field: seq<nat>): (r: Option<Relabeling>)
    ensures r.Some? <==> |field| > 0
    ensures r.Some? ==> r.value.relabeled == RelabelOf(field).value.relabeled
  {
    if |field| == 0 then None
    else if AlreadyDense(field) then
      Some(Relabeling(field, Identity(Max(field) + 1), Identity(Max(field) + 1)))
    else RelabelOf(field)
  }

  /** The corrected relabeling satisfies the documented round trip on every non-empty field. */
  lemma CorrectedRoundTrip(field: seq<nat>)
    requires |field| > 0
    ensures var r := RelabelOfCorrected(field).value;
      && (forall k :: 0 <= k < |field| ==> field[k] < |r.forwardMap| && r.forwardMap[field[k]] == r.relabeled[k])
      && (forall k :: 0 <= k < |field| ==> r.relabeled[k] < |r.inverseMap| && r.inverseMap[r.relabeled[k]] == field[k])
      && r.forwardMap[0] == 0 && r.inverseMap[0] == 0
  {
    if !AlreadyDense(field) {
      RelabelRoundTrip(field);
    }
  }

  /** Scattering `k + 1` at `labels0[k]` extends the ranks of a prefix by one label. */
  lemma RankExtend(s: seq<nat>, k: nat, u: nat)
    requires StrictlyIncreasing(s) && k < |s|
    ensures Rank(s[..k + 1], u) == if u == s[k] then k + 1 else Rank(s[..k], u)
  {
    var p := s[..k + 1];
    assert p == s[..k] + [s[k]];
    assert s[k] !in s[..k];
    if u == s[k] {
      IndexOfIsFirst(p, u, k);
    } else if u in s[..k] {
      var i := IndexOf(s[..k], u);
      assert p[i] == u && p[..i] == s[..k][..i];
      IndexOfIsFirst(p, u, i);
    }
  }

  /** `forward_map = np.zeros(m + 1); forward_map[labels0] = np.arange(1, K + 1)`. */
  method ScatterForward(labels0: seq<nat>, m: nat) returns (forward: array<nat>)
    requires StrictlyIncreasing(labels0)
    requires forall x :: x in labels0 ==> x <= m
    ensures fresh(forward) && forward.Length == m + 1
    ensures forall u :: 0 <= u <= m ==> forward[u] == Rank(labels0, u)
  {
    forward := new nat[m + 1](_ => 0);
    for k := 0 to |labels0|
      invariant forall u :: 0 <= u <= m ==> forward[u] == Rank(labels0[..k], u)
    {
      var x := labels0[k];
      assert x in labels0;
      forall u | 0 <= u <= m
        ensures Rank(labels0[..k + 1], u) == if u == x then k + 1 else Rank(labels0[..k], u)
      {
        RankExtend(labels0, k, u);
      }
      forward[x] := k + 1;
    }
    assert labels0[..|labels0|] == labels0;
  }

  /** `relabel_from_one`: the forward map is scattered into a zeroed array, then gathered over the field. */
  method RelabelFromOne(field: seq<nat>) returns (r: Option<Relabeling>)
    ensures r == RelabelOf(field)
  {
    if |field| == 0 {
      return None;  // labels.max() of an empty array raises
    }
    var labels := Unique(field);
    var labels0 := NonZero(labels);
    var m := Max(field);
    if m == |labels0| {
      return Some(Relabeling(field, labels, labels));
    }
    var forward := ScatterForward(labels0, m);
    var fw := forward[..];
    var relabeled := seq(|field|, k requires 0 <= k < |field| => fw[field[k]]);
    ghost var g := GeneralPath(field, labels0, m);
    assert fw == g.forwardMap;
    assert relabeled == g.relabeled;
    r := Some(Relabeling(relabeled, fw, [0] + labels0));
  }
}

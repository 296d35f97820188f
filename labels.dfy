/**
 * Sequence helpers shared by the segmentation metrics: the sorted distinct
 * values of a label field (what `np.unique` returns), its maximum, first
 * occurrence, and integer sums.
 */
module Labels {

  ghost predicate StrictlyIncreasing(s: seq<nat>) {
    forall i, j :: 0 <= i < j < |s| ==> s[i] < s[j]
  }

  /** The largest element of a non-empty sequence (`ndarray.max`). */
  function Max(s: seq<nat>): (m: nat)
    requires |s| > 0
    ensures m in s
    ensures forall i :: 0 <= i < |s| ==> s[i] <= m
  {
    if |s| == 1 then s[0]
    else
      var p := Max(s[..|s| - 1]);
      assert forall x :: x in s ==> x in s[..|s| - 1] || x == s[|s| - 1];
      if s[|s| - 1] > p then s[|s| - 1] else p
  }

  /** The maximum bounds every value the sequence holds, not only every position. */
  lemma MaxBoundsMembers(s: seq<nat>)
    requires |s| > 0
    ensures forall x :: x in s ==> x <= Max(s)
  {
    forall x | x in s ensures x <= Max(s) {
      var k :| 0 <= k < |s| && s[k] == x;
    }
  }

  /** Inserts `x` into a sorted sequence of distinct values, unless it is already there. */
  function Insert(u: seq<nat>, x: nat): (r: seq<nat>)
    requires StrictlyIncreasing(u)
    ensures StrictlyIncreasing(r)
    ensures forall y :: y in r <==> y in u || y == x
  {
    if |u| == 0 then [x]
    else if x < u[0] then [x] + u
    else if x == u[0] then u
    else
      var rest := Insert(u[1..], x);
      assert forall y :: y in u <==> y == u[0] || y in u[1..];
      assert forall k :: 0 <= k < |rest| ==> u[0] < rest[k] by {
        forall k | 0 <= k < |rest| ensures u[0] < rest[k] {
          assert rest[k] in rest;
        }
      }
      [u[0]] + rest
  }

  /** The sorted distinct values of `s`, as `np.unique` gives them. */
  function Unique(s: seq<nat>): (u: seq<nat>)
    ensures StrictlyIncreasing(u)
    ensures forall x :: x in u <==> x in s
  {
    if |s| == 0 then []
    else
      assert forall x :: x in s <==> x in s[..|s| - 1] || x == s[|s| - 1];
      Insert(Unique(s[..|s| - 1]), s[|s| - 1])
  }

  /** `labels[labels != 0]` for a sorted sequence of distinct labels. */
  function NonZero(labels: seq<nat>): (r: seq<nat>)
    requires StrictlyIncreasing(labels)
    ensures StrictlyIncreasing(r)
    ensures forall x :: x in r <==> x in labels && x != 0
    ensures |labels| > 0 && labels[0] == 0 ==> labels == [0] + r
    ensures (|labels| == 0 || labels[0] != 0) ==> r == labels
  {
    if |labels| > 0 && labels[0] == 0 then labels[1..] else labels
  }

  /** The position of the first occurrence of `x` in `s`. */
  function IndexOf(s: seq<nat>, x: nat): (i: nat)
    requires x in s
    ensures i < |s| && s[i] == x
    ensures x !in s[..i]
  {
    if s[0] == x then 0
    else
      assert s == [s[0]] + s[1..];
      1 + IndexOf(s[1..], x)
  }

  lemma {:induction false} IndexOfIsFirst(s: seq<nat>, x: nat, i: nat)
    requires i < |s| && s[i] == x && x !in s[..i]
    ensures IndexOf(s, x) == i
  {
    if s[0] != x {
      assert i > 0;
      assert s[1..][..i - 1] == s[..i][1..];
      IndexOfIsFirst(s[1..], x, i - 1);
    }
  }

  lemma IndexOfIncreasing(s: seq<nat>, i: nat)
    requires StrictlyIncreasing(s) && i < |s|
    ensures IndexOf(s, s[i]) == i
  {
    IndexOfIsFirst(s, s[i], i);
  }

  /** The sum of a sequence of integers. */
  function Sum(s: seq<int>): int {
    if |s| == 0 then 0 else Sum(s[..|s| - 1]) + s[|s| - 1]
  }

  /** The sum of squares (`s @ s`). */
  function SumSq(s: seq<int>): int {
    if |s| == 0 then 0 else SumSq(s[..|s| - 1]) + s[|s| - 1] * s[|s| - 1]
  }

  /** A sum of non-negative entries is non-negative and bounds each entry. */
  lemma {:induction false} SumBoundsEntries(s: seq<int>)
    ensures (forall k :: 0 <= k < |s| ==> s[k] >= 0) ==>
      Sum(s) >= 0 && forall k :: 0 <= k < |s| ==> s[k] <= Sum(s)
  {
    if |s| > 0 {
      SumBoundsEntries(s[..|s| - 1]);
      assert forall k :: 0 <= k < |s| - 1 ==> s[..|s| - 1][k] == s[k];
    }
  }

  /** Pointwise `a <= b` carries over to the sums. */
  lemma {:induction false} SumMonotone(a: seq<int>, b: seq<int>)
    requires |a| == |b|
    requires forall k :: 0 <= k < |a| ==> a[k] <= b[k]
    ensures Sum(a) <= Sum(b)
  {
    if |a| > 0 {
      SumMonotone(a[..|a| - 1], b[..|b| - 1]);
    }
  }

  /** Every integer is at most its square, so the sum is at most the sum of squares. */
  lemma {:induction false} SumAtMostSumSq(s: seq<int>)
    ensures Sum(s) <= SumSq(s)
  {
    if |s| > 0 {
      SumAtMostSumSq(s[..|s| - 1]);
      var x := s[|s| - 1];
      if x >= 1 {
        assert x * x >= x * 1;
      } else {
        assert x * x >= 0;
      }
    }
  }

  lemma {:induction false} SumUpdate(s: seq<int>, i: nat, v: int)
    requires i < |s|
    ensures Sum(s[i := v]) == Sum(s) - s[i] + v
    ensures SumSq(s[i := v]) == SumSq(s) - s[i] * s[i] + v * v
  {
    var t := s[i := v];
    var n := |s| - 1;
    if i < n {
      assert t[..n] == s[..n][i := v];
      SumUpdate(s[..n], i, v);
    } else {
      assert t[..n] == s[..n];
    }
  }

  lemma {:induction false} SumZero(s: seq<int>)
    requires forall k :: 0 <= k < |s| ==> s[k] == 0
    ensures Sum(s) == 0 && SumSq(s) == 0
  {
    if |s| > 0 {
      SumZero(s[..|s| - 1]);
    }
  }

  /** A sequence that is 0 everywhere but position `j` sums to its entry at `j`. */
  lemma {:induction false} SumSingle(s: seq<int>, j: nat)
    requires j < |s|
    requires forall k :: 0 <= k < |s| && k != j ==> s[k] == 0
    ensures Sum(s) == s[j]
  {
    var n := |s| - 1;
    if j < n {
      SumSingle(s[..n], j);
    } else {
      SumZero(s[..n]);
    }
  }
}

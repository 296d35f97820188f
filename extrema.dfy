/**
 * The array helpers of the extrema module: saturating addition and
 * subtraction of a constant within the bounds `lo..hi` of an image's integer
 * type, the in-place writing of a constant onto the border of an image, and
 * constant padding by one cell on every side. Images are flattened for the
 * clip helpers and two-dimensional for the border and padding helpers.
 */
module Extrema {
  import opened Wrappers

  function Min(x: int, y: int): int {
    if x <= y then x else y
  }

  function Max(x: int, y: int): int {
    if x >= y then x else y
  }

  // ---------------------------------------------------------------------
  // Saturating addition and subtraction of a constant
  // ---------------------------------------------------------------------

  /** One element of `_add_constant_clip`: `x + c`, overwritten by `hi` where `x > hi - c`. */
  function AddClipValue(x: int, c: int, hi: int): (r: int)
    ensures r == Min(x + c, hi)
  {
    if x > hi - c then hi else x + c
  }

  /** One element of `_subtract_constant_clip`: `x - c`, overwritten by `lo` where `x < c + lo`. */
  function SubtractClipValue(x: int, c: int, lo: int): (r: int)
    ensures r == Max(x - c, lo)
  {
    if x < c + lo then lo else x - c
  }

  /**
   * `_add_constant_clip(image, c)` for a type whose values are `lo..hi`: an
   * error when `c` exceeds the type's range, otherwise elementwise saturation.
   */
  function AddConstantClipOf(image: seq<int>, c: int, lo: int, hi: int): (r: Option<seq<int>>)
    ensures r.None? <==> c > hi - lo
    ensures r.Some? ==> |r.value| == |image|
    ensures r.Some? ==> forall k :: 0 <= k < |image| ==> r.value[k] == Min(image[k] + c, hi)
  {
    if c > hi - lo then None
    else Some(seq(|image|, k requires 0 <= k < |image| => AddClipValue(image[k], c, hi)))
  }

  /** `_subtract_constant_clip(image, c)` for a type whose values are `lo..hi`. */
  function SubtractConstantClipOf(image: seq<int>, c: int, lo: int, hi: int): (r: Option<seq<int>>)
    ensures r.None? <==> c > hi - lo
    ensures r.Some? ==> |r.value| == |image|
    ensures r.Some? ==> forall k :: 0 <= k < |image| ==> r.value[k] == Max(image[k] - c, lo)
  {
    if c > hi - lo then None
    else Some(seq(|image|, k requires 0 <= k < |image| => SubtractClipValue(image[k], c, lo)))
  }

  ghost predicate InRange(s: seq<int>, lo: int, hi: int) {
    forall k :: 0 <= k < |s| ==> lo <= s[k] <= hi
  }

  /** Adding a non-negative constant keeps an image of the type within the type, and never lowers a value. */
  lemma AddClipBounds(image: seq<int>, c: int, lo: int, hi: int)
    requires 0 <= c <= hi - lo && InRange(image, lo, hi)
    ensures var r := AddConstantClipOf(image, c, lo, hi).value;
      InRange(r, lo, hi) && forall k :: 0 <= k < |image| ==> image[k] <= r[k]
  {
  }

  /** Subtracting a non-negative constant keeps an image of the type within the type, and never raises a value. */
  lemma SubtractClipBounds(image: seq<int>, c: int, lo: int, hi: int)
    requires 0 <= c <= hi - lo && InRange(image, lo, hi)
    ensures var r := SubtractConstantClipOf(image, c, lo, hi).value;
      InRange(r, lo, hi) && forall k :: 0 <= k < |image| ==> r[k] <= image[k]
  {
  }

  /** Where the addition does not saturate, subtracting the constant again gives the image back. */
  lemma AddThenSubtract(image: seq<int>, c: int, lo: int, hi: int)
    requires 0 <= c <= hi - lo
    requires forall k :: 0 <= k < |image| ==> lo <= image[k] <= hi - c
    ensures var r := AddConstantClipOf(image, c, lo, hi).value;
      SubtractConstantClipOf(r, c, lo, hi) == Some(image)
  {
    var r := AddConstantClipOf(image, c, lo, hi).value;
    var back := SubtractConstantClipOf(r, c, lo, hi).value;
    assert back == image;
  }

  /** Where the subtraction does not saturate, adding the constant again gives the image back. */
  lemma SubtractThenAdd(image: seq<int>, c: int, lo: int, hi: int)
    requires 0 <= c <= hi - lo
    requires forall k :: 0 <= k < |image| ==> lo + c <= image[k] <= hi
    ensures var r := SubtractConstantClipOf(image, c, lo, hi).value;
      AddConstantClipOf(r, c, lo, hi) == Some(image)
  {
    var r := SubtractConstantClipOf(image, c, lo, hi).value;
    var back := AddConstantClipOf(r, c, lo, hi).value;
    assert back == image;
  }

  /** `_add_constant_clip`: the sum into a fresh array, then the saturated elements overwritten. */
  method AddConstantClip(image: array<int>, c: int, lo: int, hi: int) returns (r: Option<array<int>>)
    ensures r.None? <==> c > hi - lo
    ensures r.Some? ==> fresh(r.value) && r.value[..] == AddConstantClipOf(image[..], c, lo, hi).value
  {
    if c > hi - lo {
      return None;
    }
    var result := new int[image.Length](k requires 0 <= k < image.Length reads image => image[k] + c);
    var k := 0;
    while k < image.Length
      invariant 0 <= k <= image.Length
      invariant forall l :: 0 <= l < k ==> result[l] == AddClipValue(image[l], c, hi)
      invariant forall l :: k <= l < image.Length ==> result[l] == image[l] + c
    {
      if image[k] > hi - c {
        result[k] := hi;
      }
      k := k + 1;
    }
    r := Some(result);
  }

  /** `_subtract_constant_clip`: the difference into a fresh array, then the saturated elements overwritten. */
  method SubtractConstantClip(image: array<int>, c: int, lo: int, hi: int) returns (r: Option<array<int>>)
    ensures r.None? <==> c > hi - lo
    ensures r.Some? ==> fresh(r.value) && r.value[..] == SubtractConstantClipOf(image[..], c, lo, hi).value
  {
    if c > hi - lo {
      return None;
    }
    var result := new int[image.Length](k requires 0 <= k < image.Length reads image => image[k] - c);
    var k := 0;
    while k < image.Length
      invariant 0 <= k <= image.Length
      invariant forall l :: 0 <= l < k ==> result[l] == SubtractClipValue(image[l], c, lo)
      invariant forall l :: k <= l < image.Length ==> result[l] == image[l] - c
    {
      if image[k] < c + lo {
        result[k] := lo;
      }
      k := k + 1;
    }
    r := Some(result);
  }

  // ---------------------------------------------------------------------
  // Border values and constant padding
  // ---------------------------------------------------------------------

  type Grid = seq<seq<int>>

  /** The cells of a matrix, row by row. */
  function Cells(a: array2<int>): (g: Grid)
    reads a
    ensures |g| == a.Length0 && forall i :: 0 <= i < |g| ==> |g[i]| == a.Length1
  {
    seq(a.Length0, i requires 0 <= i < a.Length0 reads a =>
      seq(a.Length1, j requires 0 <= j < a.Length1 reads a => a[i, j]))
  }

  /** A cell lies at the first or last index along some axis of a rows-by-cols image. */
  predicate OnEdge(i: int, j: int, rows: int, cols: int) {
    i == 0 || i == rows - 1 || j == 0 || j == cols - 1
  }

  /** A grid of `rows` rows of `cols` cells. */
  ghost predicate Shaped(g: Grid, rows: nat, cols: nat) {
    |g| == rows && forall i :: 0 <= i < rows ==> |g[i]| == cols
  }

  /** The grid with every border cell replaced by `value` and every interior cell kept. */
  function WithEdge(g: Grid, cols: nat, value: int): (r: Grid)
    requires Shaped(g, |g|, cols)
    ensures Shaped(r, |g|, cols)
    ensures forall i, j :: 0 <= i < |g| && 0 <= j < cols && OnEdge(i, j, |g|, cols) ==> r[i][j] == value
    ensures forall i, j :: 0 <= i < |g| && 0 <= j < cols && !OnEdge(i, j, |g|, cols) ==> r[i][j] == g[i][j]
  {
    seq(|g|, i requires 0 <= i < |g| =>
      seq(cols, j requires 0 <= j < cols => if OnEdge(i, j, |g|, cols) then value else g[i][j]))
  }

  function Filled(n: nat, value: int): (r: seq<int>)
    ensures |r| == n && forall k :: 0 <= k < n ==> r[k] == value
  {
    seq(n, _ => value)
  }

  /** `np.pad(image, 1, mode="constant", constant_values=value)`: a full row above and below, one cell either side. */
  function Pad(g: Grid, cols: nat, value: int): (r: Grid)
    requires Shaped(g, |g|, cols)
    ensures Shaped(r, |g| + 2, cols + 2)
  {
    [Filled(cols + 2, value)]
      + seq(|g|, i requires 0 <= i < |g| => [value] + g[i] + [value])
      + [Filled(cols + 2, value)]
  }

  /** A padded grid holds the original one cell down and right, and `value` on its border. */
  lemma PadCells(g: Grid, cols: nat, value: int)
    requires Shaped(g, |g|, cols)
    ensures var r := Pad(g, cols, value);
      forall i, j :: 0 <= i < |g| + 2 && 0 <= j < cols + 2 ==>
        r[i][j] == if OnEdge(i, j, |g| + 2, cols + 2) then value else g[i - 1][j - 1]
  {
    var r := Pad(g, cols, value);
    forall i, j | 0 <= i < |g| + 2 && 0 <= j < cols + 2
      ensures r[i][j] == if OnEdge(i, j, |g| + 2, cols + 2) then value else g[i - 1][j - 1]
    {
      if 0 < i < |g| + 1 {
        assert r[i] == [value] + g[i - 1] + [value];
      }
    }
  }

  /** Writing the border of a padded grid gives the same padding whatever the border held before. */
  lemma PadThenEdge(g: Grid, cols: nat, before: int, value: int)
    requires Shaped(g, |g|, cols)
    ensures WithEdge(Pad(g, cols, before), cols + 2, value) == Pad(g, cols, value)
  {
    PadCells(g, cols, before);
    PadCells(g, cols, value);
    var l := WithEdge(Pad(g, cols, before), cols + 2, value);
    var r := Pad(g, cols, value);
    forall i | 0 <= i < |g| + 2 ensures l[i] == r[i] {
      assert |l[i]| == |r[i]|;
    }
  }

  /** Writing the border twice is writing it once, with the second value. */
  lemma WithEdgeTwice(g: Grid, cols: nat, v: int, w: int)
    requires Shaped(g, |g|, cols)
    ensures WithEdge(WithEdge(g, cols, v), cols, w) == WithEdge(g, cols, w)
  {
    var l := WithEdge(WithEdge(g, cols, v), cols, w);
    var r := WithEdge(g, cols, w);
    forall i | 0 <= i < |g| ensures l[i] == r[i] {
      assert |l[i]| == |r[i]|;
    }
  }

  /** `image[sl] = value` with `sl[axis]` fixed to `index`: one row (axis 0) or one column (axis 1). */
  method FillSlice(image: array2<int>, axis: nat, index: nat, value: int)
    requires axis < 2 && index < (if axis == 0 then image.Length0 else image.Length1)
    modifies image
    ensures forall i, j :: 0 <= i < image.Length0 && 0 <= j < image.Length1 ==>
      image[i, j] == if (if axis == 0 then i else j) == index then value else old(image[i, j])
  {
    var n := if axis == 0 then image.Length1 else image.Length0;
    var k := 0;
    while k < n
      invariant 0 <= k <= n
      invariant forall i, j :: 0 <= i < image.Length0 && 0 <= j < image.Length1 ==>
        image[i, j] == if (if axis == 0 then i == index && j < k else j == index && i < k) then value else old(image[i, j])
    {
      if axis == 0 {
        image[index, k] := value;
      } else {
        image[k, index] := value;
      }
      k := k + 1;
    }
  }

  /**
   * `_set_edge_values_inplace(image, value)`: for each axis, the slices at
   * index 0 and -1 are set to `value`. An axis of length 0 has no index 0 and
   * raises; the result is then false and no cell exists to have changed.
   */
  method SetEdgeValuesInPlace(image: array2<int>, value: int) returns (ok: bool)
    modifies image
    ensures ok <==> image.Length0 > 0 && image.Length1 > 0
    ensures ok ==> Cells(image) == WithEdge(old(Cells(image)), image.Length1, value)
  {
    ghost var before := Cells(image);
    var rows, cols := image.Length0, image.Length1;
    for axis := 0 to 2
      invariant forall i, j :: 0 <= i < rows && 0 <= j < cols ==>
        image[i, j] == if (axis >= 1 && (i == 0 || i == rows - 1)) || (axis == 2 && (j == 0 || j == cols - 1))
          then value else before[i][j]
      invariant axis >= 1 ==> rows > 0
      invariant axis == 2 ==> cols > 0
    {
      var len := if axis == 0 then rows else cols;
      if len == 0 {
        return false;
      }
      FillSlice(image, axis, 0, value);
      FillSlice(image, axis, len - 1, value);
    }
    ok := true;
    var after := Cells(image);
    var expected := WithEdge(before, cols, value);
    forall i | 0 <= i < rows ensures after[i] == expected[i] {
      assert |after[i]| == |expected[i]|;
    }
  }

  /**
   * `_fast_pad(image, value)`: a matrix two larger on each axis, the image
   * copied into its interior, then its border written in place.
   */
  method FastPad(image: array2<int>, value: int) returns (padded: array2<int>)
    ensures fresh(padded)
    ensures padded.Length0 == image.Length0 + 2 && padded.Length1 == image.Length1 + 2
    ensures Cells(padded) == Pad(Cells(image), image.Length1, value)
  {
    var rows, cols := image.Length0, image.Length1;
    padded := new int[rows + 2, cols + 2];
    for i := 0 to rows
      invariant forall p, q :: 0 <= p < i && 0 <= q < cols ==> padded[p + 1, q + 1] == image[p, q]
    {
      for j := 0 to cols
        invariant forall p, q :: 0 <= p < i && 0 <= q < cols ==> padded[p + 1, q + 1] == image[p, q]
        invariant forall q :: 0 <= q < j ==> padded[i + 1, q + 1] == image[i, q]
      {
        padded[i + 1, j + 1] := image[i, j];
      }
    }
    ghost var g := Cells(image);
    var ok := SetEdgeValuesInPlace(padded, value);
    PadCells(g, cols, value);
    var after := Cells(padded);
    var expected := Pad(g, cols, value);
    forall i | 0 <= i < rows + 2 ensures after[i] == expected[i] {
      assert |after[i]| == |expected[i]|;
    }
  }

  /** The example of `_set_edge_values_inplace`: a 4-by-5 grid of zeros gets a ring of ones. */
  lemma EdgeExample()
    ensures WithEdge(seq(4, _ => Filled(5, 0)), 5, 1)
      == [[1, 1, 1, 1, 1], [1, 0, 0, 0, 1], [1, 0, 0, 0, 1], [1, 1, 1, 1, 1]]
  {
    var l := WithEdge(seq(4, _ => Filled(5, 0)), 5, 1);
    var r: Grid := [[1, 1, 1, 1, 1], [1, 0, 0, 0, 1], [1, 0, 0, 0, 1], [1, 1, 1, 1, 1]];
    forall i | 0 <= i < 4 ensures l[i] == r[i] {
      assert |l[i]| == 5;
    }
  }

  /** The example of `_fast_pad`: a 2-by-3 grid of zeros padded with 4. */
  lemma PadExample()
    ensures Pad(seq(2, _ => Filled(3, 0)), 3, 4)
      == [[4, 4, 4, 4, 4], [4, 0, 0, 0, 4], [4, 0, 0, 0, 4], [4, 4, 4, 4, 4]]
  {
    var g := seq(2, _ => Filled(3, 0));
    PadCells(g, 3, 4);
    var l := Pad(g, 3, 4);
    var r: Grid := [[4, 4, 4, 4, 4], [4, 0, 0, 0, 4], [4, 0, 0, 0, 4], [4, 4, 4, 4, 4]];
    forall i | 0 <= i < 4 ensures l[i] == r[i] {
      assert |l[i]| == 5;
    }
  }
}

# Segmentation metrics and extrema helpers of scikit-image, in Dafny

This project models two parts of scikit-image:

- the segmentation comparison metrics of `skimage/measure/segmentation_metrics.py`:
  - relabelling a label field from one;
  - the contingency table of two label fields;
  - the Rand values a, b, c and d, the Rand index and the adjusted Rand index;
  - the adapted Rand error with its precision and recall;
  - the raw edit distance (false merges and false splits);
- four array helpers of `skimage/morphology/extrema.py`:
  - saturating addition and subtraction of a constant within an integer type's bounds;
  - writing a constant onto the border of an image;
  - constant padding by one cell on every side.

A label field is a `seq<nat>`, the raveled image. Two fields of different sizes are an error (`None`), as is an empty field. `relabel_from_one` calls `max()` on the empty array, and the sparse matrix cannot infer a shape from empty index arrays.

The contingency table is held densely as `seq<seq<nat>>`. Its rows are test labels and its columns true labels. Its shape is (max(test) + 1, max(true) + 1), as the COO matrix infers it. Its cells, sums and shape are those of the source's CSR matrix.

Ratios are exact reals. A quotient with a zero denominator is `NotFinite`, standing for the `inf` or `nan` of floating point.

The imperative parts are Dafny methods with loops. Each is proved equal to the function that states what it computes:

- the `ignored`/`data` arrays and the duplicate-summing COO-to-CSR conversion;
- the scatter of the forward map;
- the in-place threshold and unit passes of the edit distance;
- the masked overwrite of the clip helpers;
- the per-axis border writes;
- the copy-then-border padding.

The central result about the Rand family is `PairCounts.SumsArePairs`. The four reductions `rand_values` reads from the table (total, sum of squared cells, sums of squared row and column sums) are tied to a position-by-position count of unordered pairs. The pairs counted are those of positions labelled in both fields, alike in both, in one field only, or in neither. Every Rand statement about fields goes through it.

Where the code and its documentation disagree, the model follows the code:

- The `rand_values` docstring (segmentation_metrics.py:418-429) describes b as "different in both" and d as "different in seg1 but the same in seg2". The formulas at lines 443-445 compute something else:
  - b counts the pairs alike in the row field (`im2` of `rand_index(im1, im2)`) only;
  - c counts the pairs alike in the column field only;
  - d counts the pairs alike in neither.
  
  `Rand.RandValuesArePairs` states the formulas' meaning.
- The `compare_raw_edit_distance` docstring promises the splits and merges needed. Line 40 takes `r.sum(axis=0)` of a CSR matrix, which is a 1-by-C `numpy.matrix`; `[1:]` then selects rows, leaving none, so false splits are 0 for every input. Line 41's `r.sum(axis=1)` is R-by-1, so there `[1:]` drops the background row as meant. The model keeps the matrix shapes (`EditDistance.RowTotals`, `EditDistance.ColumnTotals`) and proves both consequences (`EditDistance.MergesAsWritten`, `EditDistance.SplitsAsWritten`). For true field [1,1,2,2,3,3], test field [1,1,1,2,2,3] and threshold 0, five overlaps survive and the code gives (2, 0); the intended split count over the true columns is 2 (`EditDistance.ExampleDistance`).

## Model

| member | source | states |
|---|---|---|
| Labels.Unique | skimage/measure/segmentation_metrics.py:260 | `np.unique`: strictly increasing, and holds exactly the values of the field |
| Labels.NonZero | skimage/measure/segmentation_metrics.py:261 | `labels[labels != 0]`: the same sorted labels without 0; equal to the input when 0 is absent, the input's tail when it is present |
| Labels.Max | skimage/measure/segmentation_metrics.py:262 | the maximum belongs to the field and bounds every element |
| Relabel.RelabelOf | skimage/measure/segmentation_metrics.py:260-270 | `relabel_from_one`, both paths; defined exactly when the field is non-empty; the relabelled field has the field's length |
| Relabel.GeneralPath | skimage/measure/segmentation_metrics.py:265-270 | the general path: the forward map has max + 1 entries, entry u is u's rank among the sorted non-zero labels (0 if absent); the field is relabelled through it; the inverse map is 0 followed by the sorted non-zero labels |
| Relabel.RelabelRange | skimage/measure/segmentation_metrics.py:222-224 | both paths: a relabelled position is 0 exactly where the input is 0, every label is at most K (the number of distinct non-zero labels), and every label 1..K occurs |
| Relabel.RelabelPreservesOrder | skimage/measure/segmentation_metrics.py:266 | both paths: a smaller label gets a smaller new label, and two positions get the same new label exactly when they had the same label |
| Relabel.RelabelRoundTrip | skimage/measure/segmentation_metrics.py:255-258 | general path: `fw[label_field] == relab` and `inv[relab] == label_field` at every position; fw[0] = 0; `len(fw) == max + 1`; inv is [0] + sorted non-zero labels |
| Relabel.ForwardMapMonotone | skimage/measure/segmentation_metrics.py:265-266 | general path: the forward map is strictly increasing and positive on the non-zero labels present |
| Relabel.DenseUnchanged | skimage/measure/segmentation_metrics.py:262-264 | a field using every label 1..max takes the fast path and comes back unchanged |
| Relabel.RelabelIdempotent | skimage/measure/segmentation_metrics.py:262-264 | relabelling a relabelled field takes the fast path and changes nothing |
| Relabel.FastPathMapsBreakRoundTrip | skimage/measure/segmentation_metrics.py:263-264 | as written, [1, 2] comes back with `labels` as forward and inverse map, and `fw[relab[0]] != relab[0]` |
| Relabel.RelabelOfCorrected | skimage/measure/segmentation_metrics.py:263-264 | the fast path with identity maps of length max + 1; the relabelled field is the one the source returns |
| Relabel.CorrectedRoundTrip | skimage/measure/segmentation_metrics.py:255-258 | with the corrected fast path the two round trips hold on both paths, and both maps send 0 to 0 |
| Relabel.ScatterForward | skimage/measure/segmentation_metrics.py:265-266 | the in-place scatter `forward_map[labels0] = arange(1, K + 1)` into zeros leaves each entry the label's rank |
| Relabel.RelabelFromOne | skimage/measure/segmentation_metrics.py:260-270 | the imperative relabelling returns exactly `RelabelOf(field)` |
| Contingencies.Weight | skimage/measure/segmentation_metrics.py:214-218 | one `data` entry is 0 or 1, and 1 exactly when neither label is 0 |
| Contingencies.CellSum | skimage/measure/segmentation_metrics.py:219 | the duplicate sum at (i, j) is at most the number of positions, and 0 in the background row and column |
| Contingencies.TableOf | skimage/measure/segmentation_metrics.py:219 | the dense R-by-C table of duplicate sums is rectangular with R rows of C cells |
| Contingencies.Contingency | skimage/measure/segmentation_metrics.py:212-220 | `contingency_table`: defined exactly for equal-sized non-empty fields; shape (max(test) + 1, max(true) + 1), rectangular |
| Contingencies.ContingencyCells | skimage/measure/segmentation_metrics.py:208-210 | cell (i, j) counts the positions labelled i in the test field and j in the true field; 0 in the background row and column |
| Contingencies.CellIsCount | skimage/measure/segmentation_metrics.py:218-219 | the duplicate sum of the zeroed `data` at (i, j) is the co-occurrence count, or 0 when i or j is 0 |
| Contingencies.TableStep | skimage/measure/segmentation_metrics.py:219 | one more position adds one to its cell exactly when both its labels are non-zero |
| Contingencies.TableMarginals | skimage/measure/segmentation_metrics.py:212-220 | the total, row sums and column sums are the numbers of positions labelled in both fields, by test label, by true label |
| Contingencies.ContingencyTotal | skimage/measure/segmentation_metrics.py:212-220 | the table's total is the number of positions labelled in both fields |
| Contingencies.Weights | skimage/measure/segmentation_metrics.py:214-218 | the `ignored` and `data` arrays built by masked assignment: entry k is Weight(test[k], true[k]) |
| Contingencies.Accumulate | skimage/measure/segmentation_metrics.py:219 | COO-to-CSR summation of duplicates into an R-by-C matrix gives each cell its duplicate sum |
| Contingencies.ContingencyTable | skimage/measure/segmentation_metrics.py:196-220 | the imperative construction returns exactly `Contingency(imTrue, imTest)`, errors included |
| PairCounts.PartnersByCounts | skimage/measure/segmentation_metrics.py:418-429 | for one labelled position, its partners alike in both fields, in one field only and in neither are given by its cell, row and column counts |
| PairCounts.PairTallySize | skimage/measure/segmentation_metrics.py:418-429 | the four pair kinds together number C(n, 2) for the n positions labelled in both fields |
| PairCounts.SumsArePairs | skimage/measure/segmentation_metrics.py:438-445 | Σ n_ij² − n, Σ row² − Σ n_ij², Σ col² − Σ n_ij² and Σ n_ij² + n² − Σ row² − Σ col² are twice the pairs alike in both fields, in the row field only, in the column field only and in neither |
| PairCounts.PairTallySelf | skimage/measure/segmentation_metrics.py:418-429 | a field against itself has no pair alike in one field only |
| PairCounts.PairTallySwap | skimage/measure/segmentation_metrics.py:418-429 | exchanging the two fields exchanges the two one-field-only counts and keeps the others |
| PairCounts.LabelledSwap | skimage/measure/segmentation_metrics.py:214-218 | the number of positions labelled in both fields does not depend on their order |
| PairCounts.LabelledAll | skimage/measure/segmentation_metrics.py:214-218 | without background, every position is labelled in both fields |
| Tables.RowSums | skimage/measure/segmentation_metrics.py:440 | `cont_table.sum(axis=1)`: one sum per row, none negative |
| Tables.ColSums | skimage/measure/segmentation_metrics.py:441 | `cont_table.sum(axis=0)`: one sum per column, none negative |
| Tables.MarginalsBoundCells | skimage/measure/segmentation_metrics.py:440-441 | every count is at most its row sum and at most its column sum |
| Tables.Total | skimage/measure/segmentation_metrics.py:438 | `cont_table.sum()`: non-negative and at least every row sum |
| Tables.CellSquares | skimage/measure/segmentation_metrics.py:439 | `cont_table.multiply(cont_table).sum()` is never below the total, since every count is at most its square |
| Tables.Sums | skimage/measure/segmentation_metrics.py:438-441 | the four reductions: the total is non-negative and at most the sum of squared cells and the sum of squared row sums; the column sums add up to at most their sum of squares |
| Tables.SumsInc | skimage/measure/segmentation_metrics.py:438-441 | one more count in cell (x, y) raises the total by 1 and the three sums of squares by twice the old cell, row and column sums plus 1 |
| Tables.CellSquaresArePairs | skimage/measure/segmentation_metrics.py:439-442 | Σ n_ij² − n is twice Σ C(n_ij, 2) |
| Rand.Div | skimage/measure/segmentation_metrics.py:468 | a quotient is finite exactly when its denominator is non-zero, and then times the denominator gives the numerator |
| Rand.FromSums | skimage/measure/segmentation_metrics.py:438-446 | the `rand_values` arithmetic on any four sums: 2(a + b + c + d) = n² − n, 2(a + b) = Σ row² − n, 2(a + c) = Σ col² − n |
| Rand.RandValuesOf | skimage/measure/segmentation_metrics.py:438-446 | `rand_values` of a table: a + b + c + d is C(n, 2) for its total n, a + b half of Σ rowsum² − n, a + c half of Σ colsum² − n |
| Rand.ContingencySums | skimage/measure/segmentation_metrics.py:438-441 | the four reductions of `contingency_table(im_true, im_test)` expressed by the pair counts |
| Rand.RandValuesArePairs | skimage/measure/segmentation_metrics.py:406-446 | `rand_values` of the table of two fields is (alike in both, alike in the test field only, alike in the true field only, alike in neither) |
| Rand.RandValuesTotal | skimage/measure/segmentation_metrics.py:438-446 | a + b + c + d = C(n, 2) with n the table's total, and 2(a + b + c + d) = n² − n |
| Rand.RandValuesSameCells | skimage/measure/segmentation_metrics.py:442 | a = Σ C(n_ij, 2) for every table |
| Rand.RandValuesSelf | skimage/measure/segmentation_metrics.py:443-444 | a field against itself has b = c = 0 |
| Rand.RandValuesSwap | skimage/measure/segmentation_metrics.py:443-444 | exchanging the fields exchanges b and c and keeps a and d |
| Rand.RandIndex | skimage/measure/segmentation_metrics.py:448-468 | `rand_index`: defined exactly for equal-sized non-empty fields |
| Rand.RandIndexOf | skimage/measure/segmentation_metrics.py:468 | (a + d) / (a + b + c + d) is finite exactly when a + b + c + d ≠ 0, and lies in [0, 1] for non-negative counts |
| Rand.RandIndexIsAgreement | skimage/measure/segmentation_metrics.py:466-468 | the Rand index is the share of the C(n, 2) pairs on which the two fields agree; when finite it lies in [0, 1] |
| Rand.RandIndexSelf | skimage/measure/segmentation_metrics.py:466-468 | a field against itself has Rand index 1, or a non-finite one when fewer than two positions are labelled |
| Rand.RandIndexSymmetric | skimage/measure/segmentation_metrics.py:466-468 | the Rand index does not depend on the order of the fields |
| Rand.AdjRandIndex | skimage/measure/segmentation_metrics.py:470-493 | `adj_rand_index`: defined exactly for equal-sized non-empty fields |
| Rand.Adjusted | skimage/measure/segmentation_metrics.py:491-493 | the adjusted formula is finite exactly when (a+b)(b+d) + (c+d)(a+c) ≠ 0, and then 1 − ARI times that denominator is nk(b + c) |
| Rand.AdjustedAtMostOne | skimage/measure/segmentation_metrics.py:491-493 | for non-negative a, b, c, d the adjusted index is at most 1 when finite |
| Rand.AdjRandIndexAtMostOne | skimage/measure/segmentation_metrics.py:473-476 | the adjusted Rand index of two fields is at most 1 when finite |
| Rand.AdjustedDiagonal | skimage/measure/segmentation_metrics.py:491-493 | with b = c = 0 the adjusted index is 1, or non-finite when a or d is 0 |
| Rand.AdjRandIndexSelf | skimage/measure/segmentation_metrics.py:473-476 | a field against itself has adjusted index 1, or non-finite when no pair is alike or no pair differs |
| Rand.AdjustedSwap | skimage/measure/segmentation_metrics.py:491-493 | the adjusted index formula is symmetric in b and c |
| Rand.AdjRandIndexSymmetric | skimage/measure/segmentation_metrics.py:489-493 | the adjusted Rand index does not depend on the order of the fields |
| Rand.AdaptedRandError | skimage/measure/segmentation_metrics.py:72-105 | `compare_adapted_rand_error`: defined exactly for equal-sized non-empty fields |
| Rand.AdaptedOf | skimage/measure/segmentation_metrics.py:85-105 | precision is finite exactly when Σ col² ≠ n, recall exactly when Σ row² ≠ n, and a finite error needs both finite |
| Rand.FScore | skimage/measure/segmentation_metrics.py:102 | finite exactly when both operands are and p + r ≠ 0; equal non-zero operands give their common value |
| Rand.Complement | skimage/measure/segmentation_metrics.py:103 | finite exactly when the F-score is, and then error + F-score = 1 |
| Rand.AdaptedDiagonal | skimage/measure/segmentation_metrics.py:99-103 | with equal sums of squares, precision and recall are 1 and the error 0, or all three non-finite when Σ n_ij² = n |
| Rand.AdaptedRandSelf | skimage/measure/segmentation_metrics.py:72-105 | a field against itself has error 0, precision 1 and recall 1, or all non-finite when Σ n_ij² equals the field size (twice the pairs alike in both fields plus the labelled positions make up the whole field) |
| Rand.AdaptedRandPairs | skimage/measure/segmentation_metrics.py:85-100 | without background, precision is the share of pairs alike in the true field that are alike in both, and recall the same share of pairs alike in the test field |
| Rand.FScoreBounds | skimage/measure/segmentation_metrics.py:102 | for p and r in [0, 1] the F-score lies in [0, 1] when finite |
| Rand.AdaptedRandBounds | skimage/measure/segmentation_metrics.py:99-103 | without background, precision, recall and error lie in [0, 1] when finite |
| Rand.FScoreSymmetric | skimage/measure/segmentation_metrics.py:102 | the F-score is symmetric in precision and recall |
| Rand.AdaptedSwap | skimage/measure/segmentation_metrics.py:88-100 | exchanging the row and column sums exchanges precision and recall and keeps the error |
| Rand.AdaptedRandSwap | skimage/measure/segmentation_metrics.py:74-105 | exchanging the two fields exchanges precision and recall and keeps the error |
| EditDistance.Binarize | skimage/measure/segmentation_metrics.py:36-39 | thresholding then dividing non-zero cells by themselves keeps the shape and leaves only 0s and 1s |
| EditDistance.Survive | skimage/measure/segmentation_metrics.py:36-39 | one cell after thresholding and self-division is 0 or 1, and 1 exactly when it is non-zero and above the threshold |
| EditDistance.Overlaps | skimage/measure/segmentation_metrics.py:33-39 | the thresholded table of the two relabelled fields is rectangular, has a row and a column at least, and holds only 0s and 1s |
| EditDistance.Excess | skimage/measure/segmentation_metrics.py:40-41 | Σ_{k ≥ 1}(sums[k] − 1): non-negative when every segment past the background keeps an overlap, at most 0 when each keeps at most one, and never below 1 − len(sums) for non-negative sums |
| EditDistance.RowTotals | skimage/measure/segmentation_metrics.py:41 | `r.sum(axis=1)`: an R-by-1 matrix whose rows hold the row sums, summing to the table total |
| EditDistance.ColumnTotals | skimage/measure/segmentation_metrics.py:40 | `r.sum(axis=0)`: a 1-by-C matrix whose one row is the column sums |
| EditDistance.Decrement | skimage/measure/segmentation_metrics.py:40-41 | `m - 1`: the same shape, each row summing to its old sum less its length |
| EditDistance.DropFirst | skimage/measure/segmentation_metrics.py:40-41 | `m[1:]`: removes the first row and its sum from the total; nothing is left of a matrix with at most one row |
| EditDistance.MatrixSum | skimage/measure/segmentation_metrics.py:40-41 | `.sum()`: 0 when no row has an entry, non-negative when no entry is negative |
| EditDistance.ExcessIsLoweredSum | skimage/measure/segmentation_metrics.py:40-41 | `Excess(s)`, the recursive count, is the sum of every entry past the first less one, `(s - 1)[1:].sum()` on a flat vector |
| EditDistance.MergesAsWritten | skimage/measure/segmentation_metrics.py:41 | on the R-by-1 matrix `r.sum(axis=1)`, `(m - 1)[1:].sum()` drops the background row and gives Σ_{i ≥ 1} (rowsum_i − 1) |
| EditDistance.SplitsAsWritten | skimage/measure/segmentation_metrics.py:40 | on the 1-by-C matrix `r.sum(axis=0)`, `(m - 1)[1:].sum()` drops the only row and gives 0 |
| EditDistance.RawEditDistance | skimage/measure/segmentation_metrics.py:14-42 | `compare_raw_edit_distance` as written: defined exactly for equal-sized non-empty fields; false merges are Σ_{i ≥ 1} (rowsum_i − 1) over the thresholded table, false splits are 0 for every input |
| EditDistance.EditDistanceSelf | skimage/measure/segmentation_metrics.py:33-42 | as written, at a threshold of at most 0, a field compared with itself needs no merge and no split |
| EditDistance.SelfOverlaps | skimage/measure/segmentation_metrics.py:33-39 | the thresholded table of a field against itself has equal row and column sums, each at most 1, each exactly 1 past the background at a threshold of at most 0 |
| EditDistance.SingleOverlapGone | skimage/measure/segmentation_metrics.py:33-39 | at threshold 1000 the one overlap of [1] with itself is cleared, leaving the all-zero 2-by-2 table |
| EditDistance.EmptySums | skimage/measure/segmentation_metrics.py:40-41 | the all-zero 2-by-2 table gives −1 merges as written and (0, 0) intended |
| EditDistance.SelfComparisonGoesNegative | skimage/measure/segmentation_metrics.py:36-41 | as written, [1] against itself at the default threshold 1000 gives (−1, 0); corrected, it gives (0, 0) |
| EditDistance.ClampedExcess | skimage/measure/segmentation_metrics.py:40-41 | the clamped count of operations is never negative and never below the count as written |
| EditDistance.RawEditDistanceCorrected | skimage/measure/segmentation_metrics.py:40-42 | corrected edit distance, merges over test rows and splits over true columns: defined exactly when the source's is, never negative, never below the as-written counts |
| EditDistance.CorrectedSelf | skimage/measure/segmentation_metrics.py:33-42 | corrected, a field compared with itself needs no merge and no split at every threshold |
| EditDistance.CorrectedMergesAgree | skimage/measure/segmentation_metrics.py:41 | where every test segment past the background keeps a surviving overlap, the corrected merge count equals the count as written |
| EditDistance.CorrectedSplitsAreColumnExcess | skimage/measure/segmentation_metrics.py:40 | where every true segment past the background keeps a surviving overlap, the corrected split count is Σ_{j ≥ 1} (colsum_j − 1) |
| EditDistance.OccurrencesSwap | skimage/measure/segmentation_metrics.py:208-210 | counting positions labelled (i, j) in (test, true) is counting those labelled (j, i) in (true, test) |
| EditDistance.ContingencySwap | skimage/measure/segmentation_metrics.py:208-219 | the contingency table of the swapped fields is the transpose of the table |
| EditDistance.BinarizeTranspose | skimage/measure/segmentation_metrics.py:36-39 | thresholding and unit setting commute with transposition |
| EditDistance.OverlapsSwap | skimage/measure/segmentation_metrics.py:33-39 | the thresholded table of the swapped fields is the transpose of the thresholded table |
| EditDistance.CorrectedSwap | skimage/measure/segmentation_metrics.py:14-42 | corrected, comparing the test field against the true field swaps false merges and false splits |
| EditDistance.ClampedAgrees | skimage/measure/segmentation_metrics.py:40-41 | the clamped and as-written sums agree when every entry past the first is at least 1 |
| EditDistance.ExampleTable | skimage/measure/segmentation_metrics.py:35 | the contingency table of true [1,1,2,2,3,3] and test [1,1,1,2,2,3] |
| EditDistance.ExampleOverlaps | skimage/measure/segmentation_metrics.py:33-39 | that pair's thresholded table at threshold 0 |
| EditDistance.ExampleSums | skimage/measure/segmentation_metrics.py:40-41 | that thresholded table's row sums are 0, 2, 2, 1 and column sums 0, 1, 2, 2, so both excesses are 2 |
| EditDistance.DistancesFromSums | skimage/measure/segmentation_metrics.py:40-42 | both edit distances follow from the row and column sums of the thresholded table: (row excess, 0) as written, the two clamped excesses corrected |
| EditDistance.ExampleDistance | skimage/measure/segmentation_metrics.py:14-42 | that pair at threshold 0 gives 2 merges and 0 splits as written, 2 merges and 2 splits corrected |
| EditDistance.SplitTable | skimage/measure/segmentation_metrics.py:35 | the contingency table of true [1,1] and test [1,2] |
| EditDistance.SplitOverlaps | skimage/measure/segmentation_metrics.py:33-39 | that pair's thresholded table at threshold 0 |
| EditDistance.SplitSums | skimage/measure/segmentation_metrics.py:40-41 | that table's row sums are 0, 1, 1 and column sums 0, 2 |
| EditDistance.SplitsNeverCounted | skimage/measure/segmentation_metrics.py:40 | as written, true [1,1] against test [1,2] at threshold 0 gives (0, 0); corrected, (0, 1) |
| EditDistance.ThresholdCells | skimage/measure/segmentation_metrics.py:36 | in place: every cell at most the threshold becomes 0, the others keep their value |
| EditDistance.UnitCells | skimage/measure/segmentation_metrics.py:39 | in place: every non-zero cell becomes 1, zeros stay 0 |
| EditDistance.BinarizeMatrix | skimage/measure/segmentation_metrics.py:36-39 | the two in-place passes over a matrix copy of the table give `Binarize(t, threshold)` |
| EditDistance.CompareRawEditDistance | skimage/measure/segmentation_metrics.py:31-42 | the imperative computation returns exactly `RawEditDistance`, errors included |
| Extrema.AddClipValue | skimage/morphology/extrema.py:31-32 | one element of the masked addition is min(x + c, hi) |
| Extrema.SubtractClipValue | skimage/morphology/extrema.py:45-46 | one element of the masked subtraction is max(x − c, lo) |
| Extrema.AddConstantClipOf | skimage/morphology/extrema.py:22-33 | an error exactly when c > hi − lo; otherwise the image's size, each element min(x + c, hi) |
| Extrema.SubtractConstantClipOf | skimage/morphology/extrema.py:36-47 | an error exactly when c > hi − lo; otherwise the image's size, each element max(x − c, lo) |
| Extrema.AddClipBounds | skimage/morphology/extrema.py:23-33 | for 0 ≤ c ≤ hi − lo and an image within [lo, hi], the result stays within [lo, hi] and no element decreases |
| Extrema.SubtractClipBounds | skimage/morphology/extrema.py:37-47 | for 0 ≤ c ≤ hi − lo and an image within [lo, hi], the result stays within [lo, hi] and no element increases |
| Extrema.AddThenSubtract | skimage/morphology/extrema.py:22-47 | where the addition saturates nowhere, subtracting the constant again restores the image |
| Extrema.SubtractThenAdd | skimage/morphology/extrema.py:22-47 | where the subtraction saturates nowhere, adding the constant again restores the image |
| Extrema.AddConstantClip | skimage/morphology/extrema.py:22-33 | the error check, the sum into a fresh array, the masked overwrite: exactly `AddConstantClipOf` |
| Extrema.SubtractConstantClip | skimage/morphology/extrema.py:36-47 | the error check, the difference into a fresh array, the masked overwrite: exactly `SubtractConstantClipOf` |
| Extrema.WithEdge | skimage/morphology/extrema.py:232-239 | the specification of the border writes: every border cell becomes `value`, every interior cell is kept, the shape is unchanged |
| Extrema.Pad | skimage/morphology/extrema.py:259-261 | `np.pad(image, mode="constant")` by one: two more rows and two more columns |
| Extrema.PadCells | skimage/morphology/extrema.py:259-261 | padded cell (i, j) is `value` on the border and image[i − 1][j − 1] inside |
| Extrema.PadThenEdge | skimage/morphology/extrema.py:275-282 | writing the border of a padded grid yields the padding with the new value, whatever the border held |
| Extrema.WithEdgeTwice | skimage/morphology/extrema.py:232-239 | writing the border twice is writing it once with the second value |
| Extrema.FillSlice | skimage/morphology/extrema.py:233-239 | in place: the row (axis 0) or column (axis 1) at the index becomes `value`, every other cell unchanged |
| Extrema.SetEdgeValuesInPlace | skimage/morphology/extrema.py:212-239 | succeeds exactly when both axes are non-empty, and then the border cells become `value` and the interior is unchanged |
| Extrema.FastPad | skimage/morphology/extrema.py:242-284 | a fresh matrix two larger on each axis equal to `np.pad` of the image with `value` |
| Extrema.EdgeExample | skimage/morphology/extrema.py:224-230 | the 4-by-5 zero image gets a ring of ones |
| Extrema.PadExample | skimage/morphology/extrema.py:268-272 | the 2-by-3 zero image padded with 4 |

## Left out

- The variation-of-information family (`xlogx`, `divide_rows`, `divide_columns`, `vi_tables`, `compare_split_vi`, `compare_vi`): floating-point logarithms, outside this model.
- `compare_rand_by_threshold`: each step of its loop labels the thresholded UCM with `scipy.ndimage.label` (segmentation_metrics.py:138), a connected-component labelling this model does not include.
- `h_maxima`, `h_minima`, `local_maxima` and `local_minima`: they delegate to grey reconstruction, to Cython code and to neighbourhood helpers that are not part of this model.
- `skimage/transform/__init__.py`: it only re-exports names.
- Multi-dimensional images: label fields are raveled sequences, and the border and padding helpers are two-dimensional only (`array2`).
- Sparse storage: the contingency table is dense. Its values, sums and shape are those of the CSR matrix, not its storage.
- Floating point: ratios are exact reals, and `inf` and `nan` are not told apart (both are `NotFinite`).
- `_assert_compatible` is not part of this model. It is modelled as the equal-length check that yields `None`.
- Rand.AdjRandIndexAtMostOne: only the upper bound 1 is proved. The lower bound −1 named in the docstring is not.
- Extrema.AddConstantClipOf: an element is computed as the exact integer x + c. The wrap-around of a fixed-width dtype for a negative constant is not modelled, and the bounds lemmas require 0 ≤ c.
- Extrema.SubtractConstantClipOf: the same exact-integer model of x − c.
- `dtype_limits` is not part of this model. The type's bounds are the parameters `lo` and `hi`.
- EditDistance.RawEditDistance: the size threshold is an integer. A fractional threshold compares the same as its floor, so it is not modelled separately.
- Relabel.RelabelOf: labels are non-negative. Negative labels of a signed dtype are not modelled.

## Findings

| source | as written | input that shows it | evidently intended | confidence | as-written member | corrected member |
|---|---|---|---|---|---|---|
| skimage/measure/segmentation_metrics.py:263-264 | the already-dense fast path returns `labels` (the sorted distinct labels) as both the forward and the inverse map | `relabel_from_one([1, 2])` gives maps [1, 2] and [1, 2], so `fw[label_field] == relab` fails (fw[1] is 2) and `len(fw)` is not max + 1 | identity maps of length max + 1, so that the documented round trips `fw[label_field] == relab` and `inv[relab] == label_field` hold on both paths | not executed | Relabel.FastPathMapsBreakRoundTrip | Relabel.CorrectedRoundTrip |
| skimage/measure/segmentation_metrics.py:41 | `(r.sum(axis=1) - 1)[1:].sum()` subtracts 1 for every test segment, including one none of whose overlaps survives the threshold | `compare_raw_edit_distance([1], [1])` (default threshold 1000) gives (−1, 0): a segmentation compared with itself needs a negative number of merges | a segment without a surviving overlap contributes 0 (`clip(0)` before the sum): counts are never negative, and a field against itself gives (0, 0) at every threshold | not executed | EditDistance.SelfComparisonGoesNegative | EditDistance.CorrectedSelf |
| skimage/measure/segmentation_metrics.py:40 | `r.sum(axis=0)` of the CSR matrix is a 1-by-C `numpy.matrix`, so `[1:]` removes its only row and false splits are always 0 | `compare_raw_edit_distance([1, 1], [1, 2], 0)`: one true segment covered by two test segments gives (0, 0) | one split for each extra test segment overlapping a true segment, Σ_{j ≥ 1} (colsum_j − 1) clamped at 0; corrected, swapping the two fields swaps merges and splits | not executed | EditDistance.SplitsNeverCounted | EditDistance.CorrectedSwap |

# hyvis scan engine in Dafny

This project models the scan engine of hyvis (`src/hyvis/basic_scans.py`), a library that
samples a high-dimensional landscape function (for instance a loss surface) so that it can
be plotted. The model covers the four scanning operations:

- **Grid sampler** (`landscape_scan_linear`). An affine subspace has a center and D
  direction vectors. The sampler expands a scalar scope `s` to the rows `(-s, s)` and
  rejects any row whose low end is not below its high end. It broadcasts a scalar
  resolution to every direction. It then builds the grid from the bottom corner, one
  direction at a time, and evaluates the landscape once per grid point in row-major
  order. Finally it reshapes the values to the resolution.
- **Collective scanner** (`collective_scan_linear`). It runs one 1-D scan per direction,
  in direction order, through the original center.
- **Hessian scan** (`hessian_scan`). It reorients the subspace by the transposed
  eigenvector matrix, keeps the center, and hands the result to the collective scanner.
- **Path resampler** (the body of `pathscan`). It turns a path into the sequence of
  points to evaluate, in one of four modes: `raw`, `refined` (linear interpolation with
  an end-point snap), `compressed` (keep a point once the walked length reaches
  `stepsize`) and `segmented` (a step derived from the total length).

Modelling choices:

- Coordinates are exact `real`s, so linspace end points are exact.
- The landscape function is a parameter `f: Vec -> real`.
- The Euclidean norm of a difference is a parameter `dist`. It is required to be
  nonnegative only where a proof needs that.
- Errors that numpy or Python would raise are `Err` values of a `Result`.
- Each scanner also returns `calls`, the points handed to the landscape function in call
  order. This lets the model state the number of evaluations and their order.
- The resampling modes return the kept positions as a ghost sequence `sel`, so their
  contracts can speak about which points of the path were kept.

Files:

- `results.dfy`: the `Result` type.
- `linear.dfy`: vectors, linear combinations and their algebra.
- `indexing.dfy`: numpy's row-major reshape, with the flatten/unflatten bijection.
- `scans.dfy`: the grid sampler, the collective scanner and the Hessian reorientation.
- `pathscan.dfy`: the path resampler.

## Model

| member | source | states |
|---|---|---|
| Indexing.Flatten | src/hyvis/basic_scans.py:259 | The row-major position of a multi-index within a shape lies below the product of the shape. |
| Indexing.Unflatten | src/hyvis/basic_scans.py:269 | Every flat position below the product of the shape reshapes to a multi-index within that shape. |
| Indexing.FlattenUnflatten | src/hyvis/basic_scans.py:259-269 | Reshaping a flat position to a multi-index and flattening it again gives back the position. |
| Indexing.UnflattenFlatten | src/hyvis/basic_scans.py:259-269 | Flattening a multi-index and reshaping the position gives back the multi-index, so reshape is a bijection. |
| Indexing.FlattenIsStrideSum | src/hyvis/basic_scans.py:259 | The flat position of `(i_0..i_{D-1})` equals `Σ_d i_d · Π_{e>d} res_e`. |
| Linear.CombineAt | src/hyvis/basic_scans.py:368 | Entry x of a weighted sum of rows is the scalar product of the weights with column x, as numpy's `dot` computes it. |
| Scans.RampEnds | src/hyvis/basic_scans.py:234-236 | `linspace(0, w, n)` starts at 0 and, for n > 1, ends exactly at w. |
| Scans.ScanOf | src/hyvis/basic_scans.py:257-271 | The result has shape `resolution`, records the subspace and the expanded scope, and its entry at every multi-index is `func` at the grid point of that multi-index. |
| Scans.BottomCorner | src/hyvis/basic_scans.py:226-231 | The bottom corner `center + Σ scope[d,0]·directions[d]` plus the per-direction offsets is the grid point. |
| Scans.AddDirection | src/hyvis/basic_scans.py:233-249 | One pass of the direction loop adds direction d's linspace offset to every grid point and changes nothing else. |
| Scans.BuildGrid | src/hyvis/basic_scans.py:226-249 | The flattened grid is, position by position, the grid point of the row-major multi-index. |
| Scans.ScanLinear | src/hyvis/basic_scans.py:211-271 | The scan succeeds exactly when every scope row has low < high. A scalar scope is accepted exactly when it is positive. A failure makes no call to `func`. A success calls `func` exactly `prod(resolution)` times, in row-major grid order, stores call k at position k and returns `ScanOf`. |
| Scans.GridLowCorner | src/hyvis/basic_scans.py:226-232 | The grid point at the all-zeros multi-index is `center + Σ scope[d,0]·directions[d]`. |
| Scans.GridHighCorner | src/hyvis/basic_scans.py:233-249 | The grid point at the last index of every axis is `center + Σ top_d·directions[d]`. Here top_d is scope[d,1], or scope[d,0] when the axis has a single sample. |
| Scans.MiddleSample | src/hyvis/basic_scans.py:200-202 | On a symmetric axis with an odd resolution of at least 3, the middle sample lies at 0. |
| Scans.EvenAxisMissesCenter | src/hyvis/basic_scans.py:200-202 | On a symmetric axis with an even resolution, no sample lies at 0. |
| Scans.GridSamplesCenter | src/hyvis/basic_scans.py:200-202 | With symmetric scope rows and odd resolutions of at least 3, the grid point at the middle multi-index is exactly the center. |
| Scans.ScanLine | src/hyvis/basic_scans.py:318-328 | Pass i of the collective loop returns the 1-D scan along direction i alone, over scope row i with resolution[i] samples. It makes resolution[i] calls. |
| Scans.ScanLines | src/hyvis/basic_scans.py:316-329 | The collective loop returns the per-direction scans in direction order, with all their calls in that order. |
| Scans.LineScansAt | src/hyvis/basic_scans.py:316-329 | The list of per-direction scans has one scan per direction, and scan j is the 1-D scan of direction j. |
| Scans.CollectiveScan | src/hyvis/basic_scans.py:301-331 | The scan succeeds exactly when every scope row has low < high, and a failure makes no call. A success holds exactly D scans: scan i is along direction row i through the original center, over scope row i, with resolution[i]. Calls total `Σ resolution`, direction by direction. |
| Scans.CollectiveCallsAreSum | src/hyvis/basic_scans.py:295 | Two directions with 3 samples each take 6 calls, while the documented `prod(resolution)` would be 9. |
| Scans.LinePoint | src/hyvis/basic_scans.py:321-326 | On a one-direction subspace, grid point k is `center + (low + offset_k)·direction`. |
| Scans.LineScanShape | src/hyvis/basic_scans.py:318-328 | Scan i of a collective scan has center `center`, the single direction `directions[i]`, scope `[scope[i]]` and shape `[resolution[i]]`. |
| Scans.LineScanSamples | src/hyvis/basic_scans.py:318-328 | Sample k of scan i is `func(center + (scope[i,0] + linspace offset k)·directions[i])`. |
| Scans.Reorient | src/hyvis/basic_scans.py:367-370 | The reoriented subspace keeps the center. Its direction j is the combination of the original directions weighted by eigenvector j (row j of `eigenvectors^T · directions`). |
| Scans.ReorientIdentity | src/hyvis/basic_scans.py:367-370 | Reorienting by the identity eigenbasis leaves the subspace unchanged. |
| Scans.HessianScan | src/hyvis/basic_scans.py:365-378 | The outcome is the collective scan of the reoriented subspace with the caller's scope and resolution. Scan j runs along eigen-direction j through the original center. |
| PathScans.LerpEnds | src/hyvis/basic_scans.py:400-404 | The interpolation formula gives the segment's start at fraction 0 and its end at fraction 1. |
| PathScans.Refine | src/hyvis/basic_scans.py:396-405 | An empty path or a non-positive buffer size `(l_p-1)(resolution+1)+1` is an error. Otherwise the output has exactly that length and its last entry is exactly `path[l_p-1]`. Entry j (j below the last) is step `j mod (resolution+1)` of resolution+1 equal steps along segment `j div (resolution+1)`. |
| PathScans.FillBlocks | src/hyvis/basic_scans.py:398-404 | The outer loop writes the interpolated point into every slot but the last. |
| PathScans.FillBlock | src/hyvis/basic_scans.py:399-404 | The inner loop writes the resolution+1 interpolated points of one segment at `step·(resolution+1) + i`, with every write in bounds. Slots before the block keep their refined points, and slots after it are unchanged. |
| PathScans.RefinedKeepsNodes | src/hyvis/basic_scans.py:398-404 | The interpolated point at `k·(resolution+1)` is `path[k]`. |
| PathScans.RefinedKeepsPath | src/hyvis/basic_scans.py:396-405 | In a refined path, the entry at `k·(resolution+1)` equals `path[k]` for every k < l_p. The last of these is the snapped slot, so the original path is a subsequence of the refined one. |
| PathScans.PathLength | src/hyvis/basic_scans.py:423-427 | The summed segment lengths are the length of the path from its first to its last point. |
| PathScans.ArcMonotone | src/hyvis/basic_scans.py:423-427 | With nonnegative distances, the length walked from the start never decreases along the path. |
| PathScans.SelectionLength | src/hyvis/basic_scans.py:407-421 | A strictly increasing choice of positions below l_p has at most l_p entries, so the output fits the l_p-row buffer. |
| PathScans.PickIsSubsequence | src/hyvis/basic_scans.py:406-447 | The compressed and segmented outputs start with `path[0]`, hold between 1 and l_p points, and are the path at strictly increasing positions. |
| PathScans.CompressKeep | src/hyvis/basic_scans.py:414-418 | When the walked length reaches stepsize, keeping the point and resetting the accumulator to 0 preserves the walk's invariant. |
| PathScans.CompressSkip | src/hyvis/basic_scans.py:419-420 | When the walked length stays below stepsize, skipping the point preserves the walk's invariant. |
| PathScans.Compress | src/hyvis/basic_scans.py:406-421 | An empty path is an error. Otherwise the output is `path[0]` followed by a strictly increasing subsequence. Each kept point is the first at which the length walked since the previous kept point reaches stepsize. Every point after the last kept one lies less than stepsize along the path from it, and csp ≤ cp throughout. |
| PathScans.SegmentKeep | src/hyvis/basic_scans.py:436-444 | An emission as written keeps the point and sets the accumulator to `stepsize - acc_path`, preserving the as-written invariant. |
| PathScans.SegmentSkip | src/hyvis/basic_scans.py:445-446 | A point that is not kept leaves the accumulator unchanged, preserving the as-written invariant. |
| PathScans.Segment | src/hyvis/basic_scans.py:422-447 | The loop as written. An empty path is an error, and so is resolution 1 with at most one point (integer division by zero). With resolution 1 and at least two points the step is inf or NaN, and the output is `[path[0]]`. Otherwise the stepsize is total length / (resolution-1). Kept points alternate: after an even-numbered one, the first point whose own incoming segment is at least stepsize long; after an odd-numbered one, the next point. |
| PathScans.SegmentWalk | src/hyvis/basic_scans.py:430-447 | The as-written walk keeps exactly the alternating selection, as the path at strictly increasing positions. |
| PathScans.CarryKeep | src/hyvis/basic_scans.py:436-444 | On an emission the corrected accumulator becomes `acc_path + segment - stepsize`. This preserves the invariant that it holds the length walked beyond the last level reached. |
| PathScans.CarrySkip | src/hyvis/basic_scans.py:445-446 | A point that is not kept adds its segment to the corrected accumulator, preserving the same invariant. |
| PathScans.SegmentCarry | src/hyvis/basic_scans.py:422-447 | Corrected segmented mode. It has the same error cases as Segment, and the same `[path[0]]` output for resolution 1. Otherwise kept point j (j ≥ 1) is the first point after the previous one whose length from the start reaches `j·stepsize`, with stepsize = total / (resolution-1). |
| PathScans.CarryWalk | src/hyvis/basic_scans.py:430-447 | The corrected walk keeps exactly those points, as the path at strictly increasing positions. |
| PathScans.CarryLastKeptLevel | src/hyvis/basic_scans.py:433-447 | The last point the corrected mode keeps lies at least `(|kept|-1)·stepsize` from the start. |
| PathScans.CarryKeepsAtMostResolution | src/hyvis/basic_scans.py:428-447 | With positive total length, the corrected mode keeps at most `resolution` points. |
| PathScans.CarryEndsAtLast | src/hyvis/basic_scans.py:433-447 | If the next level is within the path's length, the corrected walk's last kept point is the path's last point. |
| PathScans.CarryReachesLevel | src/hyvis/basic_scans.py:433-447 | When a whole number of steps makes up the path length, the last kept point lies at the full length. |
| PathScans.CarryReachesEnd | src/hyvis/basic_scans.py:428-447 | In the corrected mode, the last kept point lies at the full length of the path. |
| PathScans.Resample | src/hyvis/basic_scans.py:391-449 | `raw` returns the path unchanged. `refined` and `compressed` meet the outcomes of Refine and Compress. `segmented` meets the outcome of Segment, the loop as written. Any other mode name is an error. |
| PathScans.FinePathLengths | src/hyvis/basic_scans.py:423-428 | On the path of five collinear points one unit apart, the length to point m is m. With resolution 3 the derived step is 2. |
| PathScans.SegmentedFirstKeptIsLong | src/hyvis/basic_scans.py:436-446 | As written, the first point kept after `path[0]` always ends a segment at least stepsize long. |
| PathScans.SegmentedStallsWithoutLongSegments | src/hyvis/basic_scans.py:436-446 | As written, a path with no segment at least stepsize long yields `[path[0]]` only. |
| PathScans.SegmentedStallsOnFinePath | src/hyvis/basic_scans.py:422-447 | As written, the fine path with resolution 3 yields `[path[0]]` only. |
| PathScans.CarryOnFinePath | src/hyvis/basic_scans.py:422-447 | Corrected, the fine path with resolution 3 yields the points at positions 0, 2 and 4. |

## Left out

- The `show` methods (src/hyvis/basic_scans.py:44-77, 99-126, 160-161) are matplotlib rendering.
- `numeric_hessian` and `calc_evs` (src/hyvis/basic_scans.py:365-366) live in `dr_tools`, which is not part of this model. The eigenvector matrix is an input to `Scans.HessianScan`. The Hessian object that `hessian_scan` also returns is not modelled.
- `AffineSubspace` comes from `dr_tools`, which is not part of this model. It is a record of a center and a list of direction rows.
- `np.linalg.norm` needs square roots and floating point, so it is the abstract `dist` parameter.
- The `pools` argument and the commented-out multiprocessing pool (src/hyvis/basic_scans.py:261-264) are not modelled. They are concurrency and are inert in the source.
- IEEE floating point is not modelled: all coordinates are exact reals. So the end-point snap of the refined mode is modelled, but the drift it guards against is not.
- `pca.py` is not part of this model. It is float numerics over library calls.
- The optional `func` attribute of `LinearScan` and `PathScan` is not modelled. Function values have no equality in Dafny, and the core never sets it.
- `PathScans.Resample`: `pathscan` (src/hyvis/basic_scans.py:449) never evaluates `func`, never builds a `PathScan` and returns `None`. The model returns the resampled point sequence. This follows the code rather than the `PathScan` docstring (src/hyvis/basic_scans.py:137-145), which describes a result of function values. The `PathScan` record is modelled as a datatype only.
- `PathScans.Resample`: an unknown mode leaves `scanpath` undefined in the source. The model returns `Err(UnknownMode)`.
- `PathScans.Segment`: the model does not follow float special values. With resolution 1 and at least two points, the source divides a numpy float by 0. The step is then inf, or NaN when all points coincide. No comparison at src/hyvis/basic_scans.py:436-438 passes, so the source returns `[path[0]]` without failing, and the model returns that output directly. With at most one point the length is still the integer 0, so the source raises `ZeroDivisionError`; the model returns `Err(InvalidResolution)`.
- `Scans.ScanLinear`: the scope and resolution arrays are required to have one row per direction, as the docstring demands (src/hyvis/basic_scans.py:180-186). The model does not follow numpy's broadcasting of arrays of other shapes. Resolutions are natural numbers, since `linspace` refuses negative counts.
- `Scans.CollectiveScan`: `collective_scan_linear` broadcasts only a Python `int` resolution (src/hyvis/basic_scans.py:312), while `landscape_scan_linear` broadcasts any numpy scalar (src/hyvis/basic_scans.py:220). The model broadcasts every scalar in both.
- `Scans.ScanLinear`: `func` receives each grid point as a 1×N row (`grid_r[[id_r], :]`, src/hyvis/basic_scans.py:268). The model hands it the point as a vector.

## Findings

| source | as written | input that shows it | evidently intended | confidence | as-written member | corrected member |
|---|---|---|---|---|---|---|
| src/hyvis/basic_scans.py:440-446 | When a point is kept, `acc_path` becomes `stepsize - acc_path`. A point that is not kept adds nothing to `acc_path`. So the accumulator only ever holds 0 or stepsize, and a point is kept only after a single segment at least stepsize long, or directly after such a point. | Path `[[0],[1],[2],[3],[4]]` (four unit segments, length 4) with resolution 3. The step is 2, no single segment reaches it, and the output is `[path[0]]` alone. | Carry the residual, so the samples are equidistant along the path. A skipped segment adds its length to `acc_path`, and a kept point leaves `acc_path + segment - stepsize`. This keeps positions 0, 2 and 4 here, ending at the path's full length. | not executed; proved about the model of the loop | PathScans.SegmentedStallsOnFinePath | PathScans.CarryOnFinePath |
| src/hyvis/basic_scans.py:295 | The documentation of `collective_scan_linear` gives the number of `func` calls as `prod(resolution)`. The code (src/hyvis/basic_scans.py:316-329) runs one 1-D scan per direction, which takes `Σ resolution` calls. | Two directions, scalar scope 1.0, resolution 3: 6 calls, not 9. | The code's count, `Σ resolution`. The sentence was evidently copied from `landscape_scan_linear`, where `prod(resolution)` holds. | not executed; proved about the model | Scans.CollectiveCallsAreSum | Scans.CollectiveScan |

# LSFExtractor `Cube`: a Dafny model of the kernel estimation and LSF reconstruction

LSFExtractor estimates the line-spread function (LSF) of a spectral data cube. The `Cube` class:

- takes every spatial pixel's spectrum and computes its autocorrelation over `used_channels` lags (`cube_correlation`);
- sweeps the two trailing axes row by row to collect those curves (`cube_corr_kernel`, `cube_slicer`, `array_check`);
- summarises every lag column by its 16th, 50th and 84th percentile after dropping NaN. This gives the kernel `[y_down, y_mean, y_up]`;
- calibrates each band (`LSF_calc`). It finds where the band and a reference curve cross 0.5 (`interpolate`, `kernel_correlation`), takes `k_factor` as the ratio of the two crossings, re-reads the band on the lag grid scaled by `k` (`np.interp`), zeroes the centre of the outer bands, and mirrors the result into a profile over `2W - 1` channels;
- swaps the first two profiles so that `LSF` is `[median, lower, upper]`, the order of the `LSF_50`, `LSF_16`, `LSF_84` columns that `save_LSF` writes. `save_LSF` refuses while `LSF` is still `[0, 0, 0]`.

The model works over Dafny `real`, with an explicit NaN tag (`Values.Val`). The Pearson coefficient (`np.corrcoef`) and the simulated-spectrum lag coefficient are uninterpreted function parameters. Modules follow the pipeline:

| file | module | what |
|---|---|---|
| `values.dfy` | `Values` | `Val`, `Result`, `Option`, errors, `nan_to_num`, the NaN filter, the lag grid `x0` |
| `ndarray.dfy` | `NdArrays` | nested arrays with a shape, `cube_slicer`, indexing by a slice tuple, `array_check` |
| `correlation.dfy` | `Correlation` | `cube_correlation` and `Spectrum.get_correlation` |
| `percentile.dfy` | `Percentiles` | numpy's default (`linear`) percentile and its ordering |
| `interpolation.dfy` | `Interpolation` | `scipy.interpolate.interp1d(y, x)(0.5)` as a stable sort of the points followed by `np.interp`, and `np.interp` on the `k`-scaled grid |
| `lsf.dfy` | `Profiles` | the mirror `y[::-1] + y[1:]`, palindromes, the channel axis |
| `kernel.dfy` | `Kernel` | the pixel sweep, the transpose and the percentile bands (`cube_corr_kernel` as functions) |
| `calibration.dfy` | `Calibration` | one pass of `LSF_calc`, the loop over the bands, the swap |
| `cube.dfy` | `CubeModel` | the `Cube` class with its fields and methods, `get_LSF` end to end, `save_LSF` |

`CubeModel.Cube` holds:

- the fields `kernel` (`cube_kernel`), `kFactor` (`k_factor`) and `lsf` (`LSF`);
- the methods `CubeCorrKernel`, `LsfCalc` and `GetLsf`, which update those fields;
- the loops of the source, as `CubeModel.SweepCurves`, `CubeModel.PercentileBands` and `CubeModel.CalcLoop`.

Each method is proved equal to the function that specifies it (`Kernel.CubeKernel`, `Calibration.LsfCalc`, `CubeModel.Estimate`). The properties are proved as lemmas about those functions.

Where numpy would carry a NaN or an infinity on into the LSF, the model stops with an error and names the cause. The cases are a NaN in the reference curve (`NanInReference`) and a crossing at lag 0 (`NonPositiveCrossing`), where `k_factor` would be 0 or divide by zero. `Calibration.NoZeroCrossing` and `CubeModel.EstimateNoZeroCrossing` show that the second case cannot arise once the kernel exists.

## Edge cases of the code

- **All-NaN lag.** `cube_corr_kernel` has no guard for a lag whose column is all NaN, and numpy has no percentile of an empty array. The model stops with `EmptyColumn` (`Kernel.AggregateSucceeds`).
- **Bands.** The kernel, and after it `LSF`, hold the 16th, 50th and 84th percentile profiles themselves.
- **Centre zeroing.** The centres of the outer bands, 0 and 2, are set to 0 (`Calibration.ZeroCentre`).
- **Unready state.** Only `save_LSF` checks for the sentinel `[0, 0, 0]`. It prints the assertion message and returns `None`, modelled as `CubeModel.SaveOutcome.NotReady`.
- **Sweep order.** The pixel sweep is sequential and row-major.
- **Tied crossings.** `interp1d` sorts the points stably, and `np.interp` reads the last of several points whose `y` is exactly 0.5 (`Interpolation.CrossingAtSample`). The lookup therefore never yields NaN.

## Model

| member | source | states |
|---|---|---|
| CubeModel.Cube.constructor | LSFExtractor/Cube.py:12-18 | the object holds the given array, shape and `used_channels` (default 8); `x0` is the grid `0 .. used_channels-1`, `cube_kernel` is empty, `k_factor` is unset and `LSF` is the sentinel `[0, 0, 0]` |
| Values.Grid | LSFExtractor/Cube.py:16 | `x0` has `used_channels` entries and entry `i` is `i` |
| CubeModel.Cube.GetLsf | LSFExtractor/Cube.py:20-24 | runs the kernel step, then the LSF step, passing on the first error; the result is `Estimate` of the old state; the new `cube_kernel`, `LSF` and `k_factor` are those of the two steps, and a kernel failure changes nothing |
| CubeModel.Estimate | LSFExtractor/Cube.py:20-24 | `get_LSF` returns three `LSF` entries, and only once the kernel step has succeeded |
| CubeModel.EstimateShape | LSFExtractor/Cube.py:20-24 | a successful `get_LSF` returns three palindromic profiles of `2W - 1` values (`W >= 2`); the median profile's centre is 1 and the other two centres are 0 |
| CubeModel.LsfOutcomeShape | LSFExtractor/Cube.py:55-71 | the same for the `LSF_calc` step on any three-band kernel whose median band starts at 1 |
| CubeModel.EstimateNoZeroCrossing | LSFExtractor/Cube.py:20-24 | once the kernel exists, the estimation never fails with a crossing at lag 0 (so `k_factor` never divides by zero) |
| CubeModel.LsfOutcomeNoZeroCrossing | LSFExtractor/Cube.py:57-62 | the same for `LSF_calc` on a kernel whose bands are empty or start at 1 |
| CubeModel.EstimateEmptyGrid | LSFExtractor/Cube.py:32-62 | a cube with no pixels yields the kernel `[[], [], []]`, and `get_LSF` then fails on the empty kernel handed to the convolution |
| CubeModel.LsfOutcomeEmpty | LSFExtractor/Cube.py:57-58 | `LSF_calc` on `[[], [], []]` stops at its first band with the empty-kernel error |
| NdArrays.ArrayCheck | LSFExtractor/Cube.py:26-30 | any array of length > 1 is returned unchanged; otherwise element 0 is unwrapped, so every result has length > 1 (zero-length or scalar inputs fail) |
| NdArrays.ArrayCheckSqueezes | LSFExtractor/Cube.py:26-30 | on an array of known shape, `array_check` peels exactly the leading axes of length 1 and returns an array of the remaining shape; it fails when every axis has length 1, or when the first longer axis has length 0 |
| NdArrays.ToTrace | LSFExtractor/Cube.py:39-40 | the unwrapped spectrum is used as a trace exactly when it is one-dimensional, and then keeps its values in order |
| NdArrays.CubeSlicer | LSFExtractor/Cube.py:73-77 | the slice tuple is `dim - 2` full slices followed by the indices `(y0, x0)` |
| NdArrays.PixelSlice | LSFExtractor/Cube.py:37-38 | indexing the cube with that tuple succeeds for an in-range pixel and yields the leading (spectral) axes, with element `p` equal to the cube's element `p + [y0, x0]` |
| NdArrays.SelectSlices | LSFExtractor/Cube.py:37-38 | `n` full slices followed by fixed indices `q` keep the first `n` axes and read element `p + q` |
| NdArrays.SelectAts | LSFExtractor/Cube.py:37-38 | fixed in-range indices select a sub-array of the remaining shape |
| Kernel.PixelCurve | LSFExtractor/Cube.py:37-40 | a pixel's curve exists exactly when its trace can be extracted; it has `used_channels` values and starts at 1 |
| Kernel.Sweep | LSFExtractor/Cube.py:35-41 | the row and column loops over any per-pixel step, stopping at the first error, collect `Y * X` results when they succeed |
| CubeModel.SweepCurves | LSFExtractor/Cube.py:33-40 | the nested row/column loop appends the pixels' curves; the result equals the specification `Kernel.Sweep` |
| CubeModel.SweepPixels | LSFExtractor/Cube.py:36-41 | rows outer, columns inner, every pixel's result appended in turn and the first error returned: equal to `Kernel.Sweep` for any per-pixel step |
| Kernel.RowNext | LSFExtractor/Cube.py:37-41 | one more pixel of a row appends that pixel's curve, or stops with its error |
| Kernel.SweepNext | LSFExtractor/Cube.py:36-41 | one more finished row appends that row's curves after the earlier rows |
| Kernel.RowShape | LSFExtractor/Cube.py:37-40 | one row of the sweep succeeds exactly when every pixel of it does, and then holds their curves in column order |
| Kernel.SweepSucceeds | LSFExtractor/Cube.py:35-40 | the sweep succeeds exactly when every pixel `(y, x)` of the grid does |
| Kernel.SweepRowMajor | LSFExtractor/Cube.py:35-40 | pixel `(y, x)`'s curve is element `y * X + x`: `y` outer, `x` inner |
| Kernel.SweepStep | LSFExtractor/Cube.py:35-40 | a sweep over `r` rows is the sweep over `r - 1` rows followed by row `r - 1` |
| Kernel.RowErrorStays | LSFExtractor/Cube.py:37-40 | the first failing pixel of a row decides that row's error |
| Kernel.SweepErrorStays | LSFExtractor/Cube.py:35-40 | the first failing row decides the sweep's error |
| Kernel.SweepCurveLengths | LSFExtractor/Cube.py:35-40 | every collected curve has `used_channels` values and starts at 1 |
| Kernel.Transpose | LSFExtractor/Cube.py:42 | `np.transpose`: column `c` holds lag `c` of every curve, in pixel order; no curves give no columns |
| Values.DropNaN | LSFExtractor/Cube.py:46 | the filtered column is no longer than the column, and a number is in it exactly when the column holds it (how often: `DropNaNCounts`; in which order: `DropNaNConcat`) |
| Values.DropNaNCounts | LSFExtractor/Cube.py:46 | the filtered column holds each number exactly as often as the column does: nothing is lost or duplicated |
| Values.DropNaNConcat | LSFExtractor/Cube.py:46 | filtering a concatenation concatenates the filtered parts, so the numbers keep their order |
| Values.DropNaNNumbers | LSFExtractor/Cube.py:46 | a column without NaN passes the filter unchanged |
| Percentiles.Sort | LSFExtractor/Cube.py:45 | the sorted copy numpy's percentile works on is sorted and a permutation of the column |
| Percentiles.VirtualIndex | LSFExtractor/Cube.py:45 | the rank `p / 100 * (n - 1)` lies in `[0, n - 1]` |
| Percentiles.Percentile | LSFExtractor/Cube.py:47 | `np.percentile(c_val, p)` lies between the smallest and the largest sample |
| Percentiles.MixMonotone | LSFExtractor/Cube.py:47 | numpy's linear rule `x + (y - x) * g` does not decrease as the fraction `g` grows, for `x <= y` |
| Percentiles.PercentileMonotone | LSFExtractor/Cube.py:45 | a higher percentile is never smaller: 16th <= 50th <= 84th |
| Percentiles.PercentileBounds | LSFExtractor/Cube.py:45 | every percentile lies between two values of the column |
| Percentiles.PercentileConstant | LSFExtractor/Cube.py:45 | every percentile of a constant column is that constant |
| Percentiles.MedianOfSorted | LSFExtractor/Cube.py:47 | the 50th percentile of three ordered samples is the middle one |
| Percentiles.SortedIsFixed | LSFExtractor/Cube.py:47 | sorting samples that are already in order leaves them unchanged |
| Percentiles.SortIdempotent | LSFExtractor/Cube.py:47 | sorting twice gives what sorting once gives |
| Kernel.AggregateBy | LSFExtractor/Cube.py:43-50 | the per-lag loop fails only with the empty-column error; on success it gives three bands with one entry per lag |
| Kernel.AggregateBySucceeds | LSFExtractor/Cube.py:43-50 | that loop succeeds exactly when every lag has a non-NaN value |
| Kernel.AggregateByAt | LSFExtractor/Cube.py:43-50 | entry `c` of band `b` is component `b` of the summary of lag `c`'s non-NaN values |
| Kernel.Aggregate | LSFExtractor/Cube.py:43-52 | the percentile bands fail only on an all-NaN lag, and are three bands with one entry per lag |
| Kernel.AggregateSucceeds | LSFExtractor/Cube.py:43-50 | the bands exist exactly when no lag column is all NaN |
| Kernel.AggregateAt | LSFExtractor/Cube.py:43-52 | `y_down[c]`, `y_mean[c]` and `y_up[c]` are the 16th, 50th and 84th percentiles of lag `c`'s non-NaN values |
| Kernel.AggregateOrdered | LSFExtractor/Cube.py:43-52 | at every lag, lower <= centre <= upper |
| CubeModel.PercentileBands | LSFExtractor/Cube.py:43-52 | the loop appending `d`, `mean`, `up` per lag equals the specification `Kernel.Aggregate`, including its error |
| Kernel.OnesColumn | LSFExtractor/Cube.py:43-50 | lag 0, whose values are all 1, has all three percentiles equal to 1 |
| Kernel.SpreadOfThree | LSFExtractor/Cube.py:47 | for `a <= b <= c` the median is `b` and the 16th and 84th percentiles bracket it |
| CubeModel.Cube.CubeCorrKernel | LSFExtractor/Cube.py:32-52 | stores the kernel `Kernel.CubeKernel` of the cube, or reports its error and stores nothing; a cube with fewer than two axes fails; `k_factor` and `LSF` are untouched |
| Kernel.CubeKernel | LSFExtractor/Cube.py:32-52 | `cube_corr_kernel` succeeds only on a cube of at least two axes, and then gives three bands of equal length |
| Kernel.CurvesKernelShape | LSFExtractor/Cube.py:43-52 | transposing curves of `W` lags that start at 1 and aggregating them gives three ordered bands of `W` entries (none for no curves) starting at 1 |
| Kernel.AggregateOnes | LSFExtractor/Cube.py:45-50 | a first lag column of ones gives all three bands a first value of 1 |
| Kernel.CubeKernelShape | LSFExtractor/Cube.py:32-52 | the kernel is `[y_down, y_mean, y_up]`: three bands of `used_channels` entries (none for an empty grid), ordered at every lag, all starting at 1 |
| Values.NanToNumSeq | LSFExtractor/Cube.py:81 | `np.nan_to_num` keeps the length and maps NaN to 0, every other value to itself |
| Correlation.DropLast | LSFExtractor/Cube.py:83 | `spectrum[:-i]` holds the first `len - i` values (none when `i >= len`) |
| Correlation.DropFirst | LSFExtractor/Cube.py:83 | `spectrum[i:]` holds the values from index `i` onwards |
| Correlation.LagSlicesAligned | LSFExtractor/Cube.py:83 | for lag `i >= 1` both slices have length `len - i`, and position `j` pairs sample `j` with sample `j + i` |
| Correlation.CubeCorrelation | LSFExtractor/Cube.py:79-86 | exactly `channels` values; lag 0 is 1 whatever the input; lag `i` is the coefficient of the two lag slices of the NaN-cleaned spectrum |
| Correlation.NanIsZero | LSFExtractor/Cube.py:81 | the correlation of a spectrum is that of the spectrum with its NaN replaced by 0 |
| Correlation.ReferenceCorrelation | build/scripts-3.12/Spectrum.py:21-25 | `get_correlation` gives `n_channels` values, 1 at lag 0 and the simulated spectrum's lag coefficient elsewhere |
| Calibration.KernelCorrelation | LSFExtractor/Cube.py:88-92 | the reference curve of a band exists exactly when the band is non-empty; it has `used_channels` values and starts at 1 |
| Profiles.Reverse | LSFExtractor/Cube.py:91 | `y[::-1]` has the same length with index `i` read from `len - 1 - i` |
| Profiles.Mirror | LSFExtractor/Cube.py:69 | `y[::-1] + y[1:]` of a length-`W` list has `2W - 1` values, is a palindrome, has `y[0]` in its centre, and holds `y[d]` at both offsets `±d` |
| Profiles.MirrorRoundTrip | LSFExtractor/Cube.py:69 | the right half of the mirror, from the centre on, gives back `y` |
| Interpolation.SortPts | LSFExtractor/Cube.py:121-124 | `interp1d` first orders the points by `y`: the result is sorted and a permutation of the points |
| Interpolation.SortKeepsTies | LSFExtractor/Cube.py:121-124 | the sort is stable: the points with one `y` value keep their original order |
| Interpolation.InsertKeepsTies | LSFExtractor/Cube.py:121-124 | inserting a point into a sorted table puts it before the table's points with the same `y` |
| Interpolation.Keys | LSFExtractor/Cube.py:121-124 | the `y` values of the sorted table, handed to `np.interp` as sample points, are non-decreasing |
| Interpolation.Crossing | LSFExtractor/Cube.py:121-124 | `interp1d(y, x)(t)` succeeds only on two or more points of equal length, and fails only with the length, too-few-points, below-range or above-range error |
| Interpolation.CrossingErrors | LSFExtractor/Cube.py:121-124 | `interp1d(y, x)(t)` fails on mismatched lengths, on fewer than two points, and when `t` is below the minimum or above the maximum of `y` (the bounds error); it succeeds exactly when `min y <= t <= max y` |
| Interpolation.CrossingValue | LSFExtractor/Cube.py:121-124 | a successful lookup reads the last sorted point whose `y` is at most `t`: its lag when that `y` is `t`, otherwise the line to the next sorted point, whose `y` is above `t` |
| Interpolation.CrossingOnSegment | LSFExtractor/Cube.py:121-124 | the lag found is `x[i]` of a point with `y[i] == t`, or lies on the line between two points whose `y` values lie on either side of `t` |
| Interpolation.CrossingAtSample | LSFExtractor/Cube.py:121-124 | when `t` is a value of `y`, the lookup returns the lag of the last point with `y == t` |
| Interpolation.SortedEnds | LSFExtractor/Cube.py:121-124 | the sorted points run from the minimum to the maximum of `y` |
| Interpolation.HalfMaxInRange | LSFExtractor/Cube.py:121-124 | a half-maximum crossing found on the grid `0 .. W-1` lies in `[0, W - 1]` |
| Interpolation.HalfMaxPositive | LSFExtractor/Cube.py:60-62 | when the curve does not start exactly at 0.5, its half-maximum lag is positive |
| Calibration.Crossings | LSFExtractor/Cube.py:57-61 | the two crossings of a pass exist only for a band of `used_channels >= 2` values, and then both are positive |
| Calibration.CrossingsMeaning | LSFExtractor/Cube.py:58-61 | when both crossings exist, the first is the half-maximum crossing of the reference curve `kernel_correlation(y0)` (all numbers) and the second that of the band itself |
| Calibration.CrossingsEarlyErrors | LSFExtractor/Cube.py:57-61 | an empty band fails in the convolution; a band on fewer than two lags fails in the lookup |
| Calibration.NonPositiveCases | LSFExtractor/Cube.py:60-62 | a zero-crossing error means both crossings were found and one of them lies at lag <= 0 |
| Calibration.NoZeroCrossing | LSFExtractor/Cube.py:60-62 | a band that does not start at 0.5 never fails with a zero crossing |
| Calibration.Ratio | LSFExtractor/Cube.py:62 | `interpol_correlation / interpol_kernel` of two positive crossings is positive |
| Calibration.RatioScales | LSFExtractor/Cube.py:62 | `k_factor` times the reference crossing is the band crossing |
| Interpolation.ScaledGrid | LSFExtractor/Cube.py:64 | `np.array(x0) * k` has `W` points, point `i` being `i * k` |
| Interpolation.ScaledGridIncreasing | LSFExtractor/Cube.py:64 | for `k > 0` the scaled grid is strictly increasing, as `np.interp` needs |
| Interpolation.Interp | LSFExtractor/Cube.py:64 | `np.interp` over non-decreasing sample points returns one value per query point |
| Interpolation.InterpIndex | LSFExtractor/Cube.py:64 | value `i` is the interpolation at query point `i` |
| Interpolation.FindInterval | LSFExtractor/Cube.py:64 | the search finds the last sample point at or below the query, inside the range: `xp[r] <= v < xp[r + 1]` |
| Interpolation.InterpSlot | LSFExtractor/Cube.py:64 | inside the sample range `np.interp` reads the last sample point at or below the query: that sample when the point is the query, otherwise the line to the next point, which lies above it |
| Interpolation.InterpClamps | LSFExtractor/Cube.py:64 | left of the first sample point the value is `fp[0]`, and so it is at that point unless it is repeated; at and right of the last it is `fp[-1]` |
| Interpolation.InterpBounds | LSFExtractor/Cube.py:64 | every interpolated value lies within `[min fp, max fp]` |
| Interpolation.InterpSource | LSFExtractor/Cube.py:64 | every interpolated value lies between two neighbouring samples, or is the last sample |
| Interpolation.InterpInside | LSFExtractor/Cube.py:64 | inside the sample points the interpolated value lies between the values of its interval |
| Interpolation.InterpAtSamples | LSFExtractor/Cube.py:64 | at a sample point the value is that sample |
| Interpolation.Remap | LSFExtractor/Cube.py:64 | `np.interp(x0, x0 * k, y0)` has `W` values |
| Interpolation.RemapKeepsFirst | LSFExtractor/Cube.py:64 | its value at lag 0 is `y0[0]` |
| Interpolation.RemapBounded | LSFExtractor/Cube.py:64 | every value lies within `[min y0, max y0]` |
| Interpolation.RemapClampsTail | LSFExtractor/Cube.py:64 | lags at or beyond `(W - 1) * k` read `y0[W - 1]` |
| Interpolation.RemapIdentity | LSFExtractor/Cube.py:64 | with `k = 1` the remap is `y0` itself |
| Interpolation.ZeroScaleGivesLast | LSFExtractor/Cube.py:64 | with `k = 0` the scaled grid is all zeros and `np.interp(x0, x0 * 0, y0)` is `y0[-1]` at every lag |
| Calibration.ZeroCentre | LSFExtractor/Cube.py:67-68 | for bands 0 and 2 `y_shifted[0]` becomes 0, for band 1 it is kept; nothing else changes |
| Calibration.Calibrate | LSFExtractor/Cube.py:64-69 | the reconstructed profile has `2W - 1` values |
| Calibration.CalibrateShape | LSFExtractor/Cube.py:64-69 | the profile is a palindrome whose centre is 0 for bands 0 and 2 and `band[0]` for band 1 |
| Calibration.CalibrateOffset | LSFExtractor/Cube.py:64-69 | off the centre, the value at offset `d` is the remapped band at lag `|d|` |
| Calibration.MirroredAt | LSFExtractor/Cube.py:67-69 | zeroing the centre changes no value off the centre of the mirror |
| Calibration.CalibrateBounded | LSFExtractor/Cube.py:64-69 | off the centre, every profile value lies within the band's range |
| Calibration.CalibrateClamped | LSFExtractor/Cube.py:64-69 | offsets at or beyond `(W - 1) * k` carry the band's last value |
| Calibration.CalibrateUnscaled | LSFExtractor/Cube.py:64-69 | with `k = 1` the profile's right half is the band, with the centre zeroed for the outer bands |
| Calibration.Calibrated | LSFExtractor/Cube.py:57-69 | a pass succeeds exactly when its crossings exist, keeps their error otherwise, and then yields `k > 0` that maps the reference crossing onto the band crossing (`k * reference == band`) and a profile of `2W - 1` values |
| Calibration.BandProfile | LSFExtractor/Cube.py:57-69 | one pass succeeds exactly when both crossings exist; then the band has `used_channels >= 2` lags, `k > 0`, and the profile has `2W - 1` values |
| Calibration.CalibratedShape | LSFExtractor/Cube.py:57-69 | a successful pass's profile is a palindrome of `2W - 1` values with the band-dependent centre |
| Calibration.CalibratedOffset | LSFExtractor/Cube.py:64-69 | off the centre, the pass's profile reads the remapped band at the offset's magnitude, within the band's range |
| Calibration.CalibratedUnscaled | LSFExtractor/Cube.py:62-69 | equal crossings give `k = 1`, and the right half of the profile is the band itself, centre-zeroed for the outer bands |
| Calibration.BandProfileShape | LSFExtractor/Cube.py:57-69 | one successful pass on a band of `W >= 2` lags: a palindromic profile of `2W - 1` values, centre 0 for bands 0 and 2, `band[0]` for band 1 |
| Calibration.EnumerateAt | LSFExtractor/Cube.py:57 | `enumerate(cube_kernel)` hands band `i` to pass `i` |
| Calibration.BandsAt | LSFExtractor/Cube.py:57-69 | outcome `i` of the loop is the pass on band `i` with index `i` |
| Calibration.Bands | LSFExtractor/Cube.py:57 | one pass outcome per band |
| Calibration.BandsShape | LSFExtractor/Cube.py:57-69 | a successful pass `i` has `k > 0` and a palindromic profile of `2W - 1` values |
| Calibration.OuterBandCentre | LSFExtractor/Cube.py:67-69 | a successful pass on band 0 or 2 has centre 0 |
| Calibration.MedianBandCentre | LSFExtractor/Cube.py:67-69 | a successful pass on band 1 has centre `y_mean[0]` |
| Calibration.BandsFailure | LSFExtractor/Cube.py:57-62 | a failed pass fails with the error of its crossings |
| Calibration.Swap01 | LSFExtractor/Cube.py:71 | the swap exchanges `LSF[0]` and `LSF[1]` and leaves `LSF[2]` |
| Calibration.CalcBandsFailure | LSFExtractor/Cube.py:57-69 | the loop succeeds exactly when every pass does; otherwise it stops with the error of some pass |
| Calibration.CalcBandsStops | LSFExtractor/Cube.py:57-69 | after a failed pass the state no longer changes |
| Calibration.CalcBandsWrites | LSFExtractor/Cube.py:57-69 | after `n` successful passes `LSF[i]` holds profile `i` for `i < n`, the later slots are untouched, and `k_factor` is the one of pass `n - 1` |
| Calibration.RunBandsOrder | LSFExtractor/Cube.py:57-71 | over three passes the run succeeds exactly when all three do; `LSF` is then `[median, lower, upper]` and `k_factor` is the upper band's |
| Calibration.RunBandsSucceeds | LSFExtractor/Cube.py:57-71 | the run reports no error exactly when every pass succeeds |
| Calibration.RunBandsShape | LSFExtractor/Cube.py:57-71 | three successful passes leave three palindromic profiles of `2W - 1` values with the median's centre first, two zero centres after it, and a positive `k_factor` |
| Calibration.RunBands | LSFExtractor/Cube.py:57-71 | the loop over the passes and the swap keep the three `LSF` slots |
| Calibration.KernelBandsCalibrate | LSFExtractor/Cube.py:57-69 | when every band calibrates, the bands have `W >= 2` lags, and the outer ones calibrate with centre 0 and the median with centre `y_mean[0]` |
| Calibration.LsfCalc | LSFExtractor/Cube.py:55-71 | `LSF` keeps its three slots |
| Calibration.LsfCalcShape | LSFExtractor/Cube.py:55-71 | a successful `LSF_calc` leaves three palindromic profiles of `2W - 1` values, centres `y_mean[0]`, 0, 0, and a positive `k_factor` |
| Calibration.LsfCalcOrder | LSFExtractor/Cube.py:55-71 | a successful `LSF_calc` leaves `LSF == [median, lower, upper]` of the passes and `k_factor` from the upper band, the last processed |
| Calibration.LsfCalcFailure | LSFExtractor/Cube.py:55-69 | a failed `LSF_calc` reports the error of the pass on some band |
| Calibration.LsfCalcWithoutKernel | LSFExtractor/Cube.py:55-71 | with an empty `cube_kernel` the loop does nothing and the swap of two placeholders leaves `[0, 0, 0]` |
| CubeModel.CalcLoop | LSFExtractor/Cube.py:57-71 | the `for` loop over the bands with its early exit, then the swap, equals the specification `Calibration.RunBands` |
| CubeModel.Cube.LsfCalc | LSFExtractor/Cube.py:55-71 | `LSF`, `k_factor` and the reported error are those of `Calibration.LsfCalc` on the old state; `cube_kernel` is untouched |
| Profiles.ChannelAxis | LSFExtractor/Cube.py:131 | `np.arange(-W + 1, W)` has `2W - 1` channels, channel `i` being `i - W + 1` |
| Profiles.ProfileAtOffset | LSFExtractor/Cube.py:131 | read against the channel axis, a mirrored profile holds at channel `c` the curve's value at lag `|c|` |
| CubeModel.SaveTable | LSFExtractor/Cube.py:126-143 | refuses exactly when `LSF` is `[0, 0, 0]`; builds the table exactly when the three slots are profiles as long as the channel axis; otherwise fails on inconsistent columns. The table's columns are the channels, then `LSF[0]`, `LSF[1]`, `LSF[2]`, all of one length; the file name is the path plus `_LSF.dat`; it is written exactly when `write` is set |
| CubeModel.Cube.SaveLsf | LSFExtractor/Cube.py:126-143 | refuses exactly when `LSF` is `[0, 0, 0]`; a saved table's columns are `LSF[0]`, `LSF[1]`, `LSF[2]` in that order, and its file is the path plus `_LSF.dat`, written exactly when `write` is set |
| CubeModel.SaveProfiles | LSFExtractor/Cube.py:126-143 | three palindromic profiles of `2W - 1` values make a table whose rows for channels `c` and `-c` agree, with channel 0's row `(1, 0, 0)` |
| CubeModel.SaveAfterEstimate | LSFExtractor/Cube.py:126-143 | after a successful `get_LSF`, `save_LSF` builds that table |
| CubeModel.SaveBeforeEstimate | LSFExtractor/Cube.py:126-129 | before any estimation, and after an `LSF_calc` without a kernel, `save_LSF` refuses |

## Left out

- FITS loading (`fits.open`, the HDU list, the `extension` argument): the constructor takes the pixel array and its shape directly.
- The `tqdm` progress bar, `print` messages and the plotting methods `plot_kernel` and `plot_corr_LSF`: output only.
- Writing and formatting the table: `CubeModel.Table` records the file name, the format string and whether it would be written. Astropy's column formatting and the file write are I/O.
- `np.corrcoef`: an uninterpreted function of the two lag slices that may return NaN. Its square roots and divisions are not modelled.
- `Spectrum` (random normal flux, `'same'` convolution, its own `corrcoef`): the per-lag coefficient is an uninterpreted function of a simulated-spectrum tag and the mirrored kernel. The tag holds the channel count 27583 and the band index. The index tells apart the draws for the three bands of one `LSF_calc`. Two calls of `LSF_calc` share the tags, although the source draws fresh random numbers on every call.
- Floating point: all arithmetic is on exact reals. `nan_to_num`'s mapping of ±infinity to large finite values is not modelled; only NaN becomes 0.
- NaN and infinity in `LSF_calc`: a NaN in the reference curve stops the model with `NanInReference`, and a crossing at lag 0 stops it with `NonPositiveCrossing`. numpy would go on. When only the band crosses at lag 0, `k_factor` is 0, the scaled grid is all zeros, and the remap is the constant `y0[-1]` at every lag, apart from the zeroed centre of the outer bands (`Interpolation.ZeroScaleGivesLast`); all of it finite. When the reference crosses at lag 0, `k_factor` is infinite or NaN. The reference curve starts at 1, so only a band that starts at exactly 0.5 takes this path (`Calibration.NoZeroCrossing`).
- Calibration.LsfCalc: its own contract states only the length; what it computes is stated by `LsfCalcOrder`, `LsfCalcShape`, `LsfCalcFailure` and the loop lemmas.
- Calibration.RunBands: its own contract states only the length; `RunBandsOrder`, `RunBandsSucceeds` and `RunBandsShape` state what it computes.
- Calibration.BandProfile: its own contract states when a pass succeeds and its sizes; the profile's shape and values are stated by `BandProfileShape`, `CalibratedShape` and `CalibratedOffset`.
- Kernel.Sweep: its own contract states the number of results; which pixel's result sits where, and which error stops it, are stated by `SweepRowMajor`, `SweepSucceeds` and `SweepErrorStays`.
- Kernel.CubeKernel: its own contract states the three bands of one length; their length, order and first values are stated by `CubeKernelShape`.
- CubeModel.Estimate: its own contract states the three entries; their shape is stated by `EstimateShape` and its errors by `EstimateNoZeroCrossing` and `EstimateEmptyGrid`.
- CubeModel.Cube.SaveLsf: its own contract states the refusal and the columns; the channel axis, the format and the failure case are stated by `SaveTable`, on which it is defined.
- Interpolation.Crossing: its own contract states when it can succeed and which errors it can give; `CrossingErrors` states exactly when each happens, and `CrossingValue`, `CrossingOnSegment` and `CrossingAtSample` state its value.
- Percentiles.Percentile: its own contract states the bounds; its ordering across `p` is stated by `PercentileMonotone`.
- CubeModel.SaveTable: astropy's reaction to columns of different lengths, or to a leftover `0` slot after a failed estimation, is taken to be an error (`InconsistentColumns`). Astropy's own exception is not modelled.
- A spectral trace that is still more than one-dimensional after `array_check` is an error (`NotOneDimensional`). numpy would compute on it as an array.

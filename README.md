# Trace post-processing of the memristive spinal cord simulations, in Dafny

This project models the Python code that turns recorded and simulated
motoneuron traces into the numbers and shadow plots of the memristive
spinal cord experiments, and proves properties of that model. It covers:

- **analysis/functions.py** (module `Functions`, `analysis_functions.dfy`):
  - min-max and zero-relative normalisation;
  - the search for stimulation minima (`find_mins`) and the trimming of
    biological records around them (`read_bio_data`);
  - the NEST transform (`read_nest_data`) and `list_to_dict`;
  - the window-widening latency search of `find_latencies`.
- **analysis/PCA.py** (module `Pca`, `pca.dfy`):
  - `split_by_slices`;
  - `find_extrema` with its twin filter;
  - the latency matrix of `get_lat_matrix`;
  - the peak times and amplitudes per slice (`get_all_peak_amp_per_slice`);
  - the peak-count and amplitude-area matrices of `get_area_extrema_matrix`.
- **analysis/shadows.py** (module `Shadows`, `shadows.dfy`): the regrouping
  of tests into slices (`__restructure_data`) and the mean/min/max envelope
  drawn per slice (`__plot`).
- **GRAS/shadows_boxplot.py** (module `ShadowsBoxplot`,
  `shadows_boxplot.dfy`): the per-step boxplot (`calc_boxplots`), and the
  split and vertical lifting of `plot_shadows_boxplot`.
- **GRAS/tests_runner.py** (module `TestsRunner`, `tests_runner.dfy`):
  - the seven shadow lines read off a matplotlib boxplot
    (`boxplot_processing`);
  - the slicing of `boxplot_shadows`;
  - the chunk-mean slimming of `plot_results`.
- **data/all_bio_dict.py** (module `BioDict`, `bio_dict.dfy`): the two loops
  of the script that reads the tab-separated map of biological recordings
  and calls the converter for every usable one.

`common.dfy` (module `Common`) holds what they share:

- the `Result`/`Error` datatypes standing for Python's exceptions;
- `Option`;
- `min`, `max`, `sum`, `np.mean`, `zip(*rows)`, `np.ravel` and Python
  slicing.

Samples are mathematical reals. The box smoothing (`np.convolve` in `same`
mode), `np.gradient` and `argrelextrema` are defined in the model. Two
library routines the code only calls are function parameters:

- `np.percentile`;
- `plt.boxplot`, whose shape (one box per step) `TestsRunner.Drawn` states.

Loops that change state are methods, each proved against the function that
specifies it. NumPy matrices written cell by cell are `array2`, and
`data += i * 6` works in place on an `array`.

## Model

| member | source | states |
|---|---|---|
| Common.Min | analysis/functions.py:85 | Python's `min`: the result is an element of the sequence, and no element is smaller |
| Common.Max | GRAS/tests_runner.py:103 | Python's `max`: the result is an element of the sequence, and no element is larger |
| Common.Transpose | GRAS/tests_runner.py:147 | `zip(*rows)` has as many columns as the shortest row; column `i` holds element `i` of every row, in row order |
| Common.FlattenLength | analysis/PCA.py:282 | `ravel` of `n` rows of `len` samples has `n * len` samples |
| Common.FlattenAt | analysis/PCA.py:282 | sample `k * len + j` of the ravelled rows is sample `j` of row `k` |
| Common.MeanBetween | analysis/shadows.py:117-123 | the mean of a step lies between its minimum and its maximum |
| Common.SliceBound | analysis/functions.py:222 | a Python slice bound is clamped to `[0, len]`, and a bound inside that range is kept |
| Functions.Normalization | analysis/functions.py:5-32 | `a >= b` raises; empty data raises (IndexError when zero-relative, ValueError otherwise); ZeroDivisionError exactly when the minimum is 0 (zero-relative) or the data are flat (`[a, b]`); otherwise one output per sample |
| Functions.RescaleProperties | analysis/functions.py:28-32 | the `[a, b]` map keeps the order of samples, sends min to `a` and max to `b`, and maps `[min, max]` into `[a, b]` |
| Functions.NormalizationInInterval | analysis/functions.py:28-32 | in `[a, b]` mode outputs compare as the inputs do; an output is `a` iff its input is the minimum and `b` iff it is the maximum; every output lies in `[a, b]` |
| Functions.NormalizationInvertible | analysis/functions.py:28-32 | every input sample is recovered from its output, the minimum and the maximum |
| Functions.RescaleInverse | analysis/functions.py:28-32 | undoing the linear map of `[a, b]` mode gives back the sample |
| Functions.ZeroRelativeStartsAtZero | analysis/functions.py:23-26 | the zero-relative output starts at 0 and keeps the order of the samples |
| Functions.StartsBelow | analysis/functions.py:121-128 | every index listed below `n` is a local minimum under the criterion |
| Functions.StartsBelowSpec | analysis/functions.py:121-128 | every such local minimum below `n` is listed, and the list is strictly increasing |
| Functions.FindMins | analysis/functions.py:104-130 | the loop returns exactly the local minima under the criterion, scanned from 1 to `len - 2`, and the samples at them |
| Functions.DefaultCriterionUsed | analysis/functions.py:119-124 | with no criterion, `i` is listed iff `1 <= i < len - 1`, `a[i-1] > a[i] <= a[i+1]` and `a[i] < -0.5` |
| Functions.TrimBioData | analysis/functions.py:219-224 | IndexError iff no stimulation minimum is found; otherwise the record is cut from the first to the last minimum, and the minima are shifted by the first one |
| Functions.TrimmedStartsAligned | analysis/functions.py:222-224 | the shifted indexes start at 0 and increase strictly; the last one is the length of the cut record when record and stimulus have equal length |
| Functions.NestTransform | analysis/functions.py:188-190 | IndexError iff the test is empty; otherwise one output per sample, starting at 0 |
| Functions.NestTransformInvertible | analysis/functions.py:188-190 | each sample is the first sample minus its output, so the transform reverses the order of the samples |
| Functions.ListToDict | analysis/functions.py:194-203 | the element-by-element copy equals the dictionary's values, in order |
| Functions.FoundPoints | analysis/functions.py:80-81 | every point found is one of the slice's values |
| Functions.FoundPointsSpec | analysis/functions.py:80-81 | a value is found iff some sample with that value has its time inside the window |
| Functions.FirstIndex | analysis/functions.py:86 | `list.index`: a position holding the value, with no earlier one |
| Functions.GroupOf | analysis/functions.py:63-77 | the slice group of slice `k` of `n`: the first `int(n / 3)` slices, then those before `int(n / 2)`, then the last slice, then every other slice |
| Functions.Borders | analysis/functions.py:63-77 | the group's window in milliseconds widened by `additional_border` on both sides: [0, 12.5], [20/3, 40/3], [12.5, 22] and [5, 20] (the first group's left border stays 0) |
| Functions.Window | analysis/functions.py:63-79 | the window of a slice group widened by `additional_border`, in steps: the left border over `step` clamped at 0 from below, the right one clamped at `25 / step` from above (WindowSaturates, WindowEmptyForNegativeStep) |
| Functions.Windows | analysis/functions.py:60-79 | the windows tried are the slice group's window widened by 0, 1, …, 13 |
| Functions.Search | analysis/functions.py:60-90 | a latency found is the time of one of the samples; the only failure is divergence |
| Functions.LatencyFrom | analysis/functions.py:60-90 | the `while flag` loop of one slice from a given widening on: the search through the windows from there (SearchStopsAtFirstHit, LatencyIsWindowMinimum, DivergesOnlyWhenNoWindowHolds) |
| Functions.WindowSaturates | analysis/functions.py:78-79 | with a positive step, every window from widening 13 on is `[0, 25 / step]` |
| Functions.WindowEmptyForNegativeStep | analysis/functions.py:78-79 | with a negative step every window is empty |
| Functions.SearchDiverges | analysis/functions.py:60-90 | when the search diverges, every window it tried holds no point |
| Functions.DivergesOnlyWhenNoWindowHolds | analysis/functions.py:60-90 | when the search diverges, no window of any width holds a point, so the `while flag` loop never ends |
| Functions.EmptyWindowFindsNothing | analysis/functions.py:78-81 | a window whose right end lies left of its left end finds no point |
| Functions.SearchStopsAtFirstHit | analysis/functions.py:80-90 | a found latency comes from the first non-empty window; every narrower window was empty; the latency is the time at the first position of the whole slice (not only the window) holding that window's minimum, so it can lie outside the window (LatencyOutsideWindow) |
| Functions.LatencyOutsideWindow | analysis/functions.py:80-87 | times [0, 10, 20], values [1, 5, 1] and the window (15, 30) give latency 0: `slice_values.index` finds the earlier copy of the window's minimum |
| Functions.LatencyIsWindowMinimum | analysis/functions.py:56-90 | the same, for the widening loop of one slice started at border 0: the time at the first position in the whole slice of the first non-empty window's minimum |
| Functions.SearchWindow | analysis/functions.py:78-90 | one pass of the loop either finds the latency or leaves the result to the wider windows |
| Functions.WindowLatency | analysis/functions.py:56-90 | the `while flag` loop of one slice computes the widening search |
| Functions.FirstMinimumUnique | analysis/functions.py:94 | the first position of the smallest value is unique, so it fixes the Neuron variant's latency |
| Functions.AfferentOutcome | analysis/functions.py:94 | ValueError iff the value list is empty (`min` of an empty list); otherwise, with `j` the first position of the smallest value, the time `times[j]` when `j` indexes the times, else IndexError |
| Functions.AfferentLatencies | analysis/functions.py:94 | one latency per pair of the zip, each the Neuron variant's latency of its slice; it fails iff some pair's latency fails, and then with the error of the first such pair |
| Functions.SliceOutcome | analysis/functions.py:55-90 | one slice of the loop with its errors: IndexError for a missing value list, ZeroDivisionError for a zero step, IndexError for more values than times, otherwise the widening search from 0 (SliceLatencies) |
| Functions.SliceLatencies | analysis/functions.py:53-90 | the loop succeeds iff every slice's search succeeds, and then holds their latencies in order; otherwise the error is that of the first failing slice |
| Functions.FindLatencies | analysis/functions.py:35-101 | both variants: latencies per slice, the error of the first failing slice, the length check, and scaling by the step when `norm_to_ms` |
| Functions.CheckedLatencies | analysis/functions.py:97-101 | Exception iff the number of latencies differs from the number of slices; otherwise the latencies, times the step when `norm_to_ms` |
| Functions.ToMs | analysis/functions.py:99-100 | a latency times the step when `norm_to_ms`, unchanged otherwise |
| Pca.SplitBySlices | analysis/PCA.py:102-116 | split_by_slices: ValueError for a zero slice length (the `range` step), IndexError for a negative one; otherwise the chunks of the trace, the last one dropped when its length differs from the first one's (proved in SplitBySlicesFull, SplitBySlicesShort and SplitBySlicesPrefix) |
| Pca.Chunks | analysis/PCA.py:111-112 | `len(data) // len + 1` chunks, each starting inside the data |
| Pca.SplitBySlicesFull | analysis/PCA.py:102-116 | a trace at least one slice long gives exactly `len(data) // len` slices; slice `k` is `data[k*len:(k+1)*len]` |
| Pca.ChunkFull | analysis/PCA.py:111-112 | every chunk before the last holds `len` samples, at its place in the trace |
| Pca.LastChunkShort | analysis/PCA.py:114-115 | the last chunk is shorter than a slice, so it is the tail that is removed |
| Pca.SplitBySlicesShort | analysis/PCA.py:114-115 | a trace shorter than one slice is kept whole, as the single chunk |
| Pca.SplitBySlicesPrefix | analysis/PCA.py:102-116 | the slices joined give back a prefix of the trace; less than one slice is lost |
| Pca.JoinedSlices | analysis/PCA.py:111-112 | consecutive full slices joined are the start of the trace |
| Pca.IsStrictExtremum | analysis/PCA.py:143 | `argrelextrema` with `np.greater`/`np.less` and order 1: an inner index that beats both neighbours strictly; the end indexes never qualify (listed by ExtremaBelow) |
| Pca.ExtremaBelow | analysis/PCA.py:143 | the indexes listed are exactly the strict extrema below `n` (`argrelextrema`) |
| Pca.ExtremaBelowIncreasing | analysis/PCA.py:143 | the extrema are listed in increasing order |
| Pca.DropTwins | analysis/PCA.py:152 | the twin filter keeps at least one index, and always the last raw extremum |
| Pca.FindExtrema | analysis/PCA.py:132-156 | None iff there is no strict extremum; otherwise a non-empty list of strict extrema, with the samples at them |
| Pca.FindExtremaIncreasing | analysis/PCA.py:143-154 | find_extrema's indexes increase strictly |
| Pca.DropTwinsIncreasing | analysis/PCA.py:152 | the filter keeps the indexes increasing, none before the first raw one |
| Pca.DropTwinsSubset | analysis/PCA.py:152 | the filter only drops indexes |
| Pca.DropTwinsKeeps | analysis/PCA.py:150-152 | raw extremum `k` survives iff it is the last one or the next has another value |
| Pca.DropTwinsHead | analysis/PCA.py:150-152 | the first raw extremum survives iff the second has another value |
| Pca.DropTwinsTail | analysis/PCA.py:150-152 | a later raw extremum survives iff it survives the filter of the tail |
| Pca.FindExtremaTwinRule | analysis/PCA.py:143-154 | the twin rule in terms of the signal: raw extremum `k` is returned iff it is the last or the next raw extremum has another sample value |
| Pca.List3d | analysis/PCA.py:248-249 | `h` rows of `w` empty lists |
| Pca.Convolve | analysis/PCA.py:128-129 | `np.convolve(a, v, mode='same')`: ValueError iff an operand is empty; otherwise `max(len(a), len(v))` samples of the full convolution |
| Pca.Smooth | analysis/PCA.py:119-129 | `smooth(data, 2)`: the 'same' convolution with the box `[0.5, 0.5]` (SmoothValues) |
| Pca.SmoothValues | analysis/PCA.py:119-129 | `smooth(data, 2)` raises ValueError iff the slice is empty; otherwise the first sample is halved and every later one averaged with its predecessor, and a single sample becomes two halves |
| Pca.Gradient | analysis/PCA.py:193-194 | `np.gradient`: ValueError iff there are fewer than two samples; otherwise one entry per sample, so the assertion at line 194 holds |
| Pca.GradientOfLine | analysis/PCA.py:193 | on samples of a line, every gradient entry is its slope (one-sided at the ends, central inside) |
| Pca.GradientOfConstant | analysis/PCA.py:193 | a constant signal has a zero gradient |
| Pca.Positives | analysis/PCA.py:198-199 | exactly the strictly positive gradients of the poly area |
| Pca.Negatives | analysis/PCA.py:201-202 | exactly the strictly negative gradients of the poly area |
| Pca.UpperThreshold | analysis/PCA.py:204-207 | the 80th percentile of the positive poly gradients, or an infinite threshold when there is none (MissingSideNeverFires) |
| Pca.LowerThreshold | analysis/PCA.py:208-211 | the 20th percentile of the negative poly gradients, or an infinite one (`-np.inf`) when there is none (MissingSideNeverFires) |
| Pca.MissingSideNeverFires | analysis/PCA.py:204-211 | with no positive (negative) gradient the threshold is infinite and no gradient passes it |
| Pca.FirstCrossing | analysis/PCA.py:213-217 | the first index from `border` whose gradient crosses, and None iff none does |
| Pca.Latency | analysis/PCA.py:213-220 | the latency is the first crossing at or after the poly border, or the last index when there is none |
| Pca.LatencyInSlice | analysis/PCA.py:213-220 | for a non-empty gradient the latency is one of its indexes |
| Pca.FlatGradientFallsBack | analysis/PCA.py:215-220 | a zero gradient never crosses the micro border: the latency is the last index |
| Pca.FindLatency | analysis/PCA.py:213-220 | the for/else loop computes that latency |
| Pca.PatchEdges | analysis/PCA.py:188-190 | the first two and last two samples are raw, the others smoothed; a one-sample slice, smoothed into two samples, becomes two copies of its sample by broadcasting |
| Pca.SliceGradient | analysis/PCA.py:188-194 | the gradient of the smoothed and patched slice: ValueError iff the slice is empty (in `np.convolve`); otherwise one entry per sample, two for a one-sample slice |
| Pca.SliceLatency | analysis/PCA.py:186-220 | ValueError iff the slice is empty; otherwise the latency is an index of the slice, except that a one-sample slice gets 1 |
| Pca.OneSampleSlice | analysis/PCA.py:188-220 | a one-sample slice has a flat two-sample gradient, so its latency is the fallback `len(gradient) - 1`, which is 1 |
| Pca.LatencyOfSlice | analysis/PCA.py:188-220 | the body of the inner loop computes SliceLatency |
| Pca.SetCell | analysis/PCA.py:222 | the cell `[e, s]` receives the slice's latency and no other cell changes; on an error the matrix is unchanged |
| Pca.FillRow | analysis/PCA.py:186-222 | row `e` receives the latency of each of its slices, other rows are unchanged, and an error comes from one of the slices |
| Pca.LatencyMatrix | analysis/PCA.py:159-222 | TypeError for a non-rectangular input, IndexError for no tests; otherwise succeeds iff the latency of every slice does, that is unless the slices are empty, and then with ValueError (from `np.convolve`); cell `[e, s]` is the latency of slice `s` of test `e` |
| Pca.ZipPairs | analysis/PCA.py:288-290 | `zip(maxima, minima)`: as many pairs as the shorter list, pair `k` from entry `k` of each |
| Pca.Pairing | analysis/PCA.py:287-290 | a minimum before the first maximum is skipped; then maxima and minima are paired in order |
| Pca.ExperimentPairs | analysis/PCA.py:284-290 | pairs exist iff the joined test has both a strict maximum and a strict minimum; each pair's maximum is a strict maximum with its sample |
| Pca.PeakTimes | analysis/PCA.py:292-301 | the times filed under slice `s`: for each accepted pair whose maximum falls in slice `s`, the maximum's offset inside the slice (PeakListsAligned) |
| Pca.PeakAmplitudes | analysis/PCA.py:292-302 | the amplitudes filed under slice `s`: `dA` of the same pairs, in the same order (PeakListsAligned) |
| Pca.PeakListsAligned | analysis/PCA.py:292-302 | a slice's time and amplitude lists have equal length; times are offsets inside the slice, amplitudes are non-negative |
| Pca.PeakSliceInRange | analysis/PCA.py:299 | the slice index `max_index // slice_length` of a maximum names one of the test's slices |
| Pca.IsPeak | analysis/PCA.py:295-298 | a pair is accepted iff its time distance lies in [min_dist, max_dist] and its amplitude difference is at least 0.05, or its amplitude difference is at least 0.3 |
| Pca.PairsFitSlices | analysis/PCA.py:282-299 | every pair of a test falls in one of its slices |
| Pca.FilePeaks | analysis/PCA.py:292-302 | the inner loop files every accepted pair under its slice, in pair order |
| Pca.AllPeakAmpPerSlice | analysis/PCA.py:252-320 | TypeError for a non-rectangular input or a test without a strict maximum or minimum; otherwise one row per test with every accepted pair filed under its slice |
| Pca.SlicePairs | analysis/PCA.py:352-366 | pairs exist iff the smoothed slice has a strict maximum and a strict minimum; pairs join strict maxima to strict minima |
| Pca.PeaksAfter | analysis/PCA.py:371-377 | the number of counted pairs is at most the number of pairs |
| Pca.CountedAfter | analysis/PCA.py:368-375 | a pair is counted iff both its indexes are at least the latency and it is accepted by IsPeak, as `filter_mask` says |
| Pca.PairFeatures | analysis/PCA.py:376-377 | the cell values: twice the number of counted pairs, and the sum of `abs(smoothed[latency:])` whatever the pairs (PeakCountEven, AreaNonNegative, PeaksAfterAntitone) |
| Pca.Magnitudes | analysis/PCA.py:378 | `np.abs`: one non-negative value per sample |
| Pca.SliceFeaturesAsWritten | analysis/PCA.py:350-378 | as written, TypeError exactly for a slice without a strict maximum or minimum |
| Pca.FlatSliceRaises | analysis/PCA.py:352-356 | the flat slice `[0, 0, 0]` raises as written and is skipped by the corrected version |
| Pca.SliceFeatures | analysis/PCA.py:354-378 | the corrected features of a smoothed slice: no features when it lacks a strict maximum or minimum, otherwise the pairs after the latency counted and their amplitude area (SliceFeaturesSkips, SliceFeaturesAgree) |
| Pca.SliceFeaturesSkips | analysis/PCA.py:354-378 | the corrected version skips a slice iff it lacks a strict maximum or minimum, and counts at most two extrema per pair |
| Pca.SliceFeaturesAgree | analysis/PCA.py:350-378 | both versions give the same peak count and area wherever the code as written does not raise |
| Pca.PeakCountEven | analysis/PCA.py:377 | the peak count is even |
| Pca.AreaNonNegative | analysis/PCA.py:378 | the amplitude area is never negative |
| Pca.PeaksAfterAntitone | analysis/PCA.py:371-377 | a later latency never counts more pairs |
| Pca.PeaksAfterNone | analysis/PCA.py:373-377 | a latency past every maximum counts no pair |
| Pca.LatencyAtEnd | analysis/PCA.py:371-378 | a latency at the last sample or later counts no pair, and one past the end leaves a zero area |
| Pca.AreaRow | analysis/PCA.py:348-378 | one cell per slice, each computed from the slice and its latency |
| Pca.AreaTable | analysis/PCA.py:347-378 | one row of cells per test, cell `[e][s]` from slice `s` of test `e` and its latency |
| Pca.FillMatrices | analysis/PCA.py:340-378 | the matrices start at zero; a skipped slice keeps 0, and any other cell holds its peak count and area |
| Pca.SmoothedFeatures | analysis/PCA.py:350-378 | the cell of one slice: the slice smoothed, then its corrected features; no features for an empty slice |
| Pca.AreaExtremaMatrix | analysis/PCA.py:323-384 | TypeError iff the input is not rectangular; otherwise ValueError iff there are slices and they are empty (in `np.convolve`); otherwise cell `[e, s]` of each matrix is the peak count or area of the smoothed slice after its latency, 0 for a skipped slice |
| Shadows.FloorDivBounds | analysis/shadows.py:59 | Python's `//` rounds toward minus infinity, for either sign of the divisor |
| Shadows.FloorDivIs | analysis/shadows.py:59 | `i // n == k` iff `k * n <= i < k * n + n`, for a positive `n` |
| Shadows.SamplesPerSlice | analysis/shadows.py:51 | `int(25 / sim_step)`, truncated toward zero: the samples in one slice |
| Shadows.BucketCount | analysis/shadows.py:47-49 | `int(len(first test) * sim_step) // 25`: the slice count, taken from the first test alone |
| Shadows.RestructureData | analysis/shadows.py:25-62 | StopIteration for no tests; ZeroDivisionError for a zero step or a zero slice length; KeyError iff a sample falls past the last slice; otherwise `int(sim_time) // 25` buckets, each holding every test's samples of that slice |
| Shadows.DistributeTest | analysis/shadows.py:57-61 | the inner loop appends each sample of a test to its slice's bucket under the test, or fails as above |
| Shadows.AppendToBucket | analysis/shadows.py:59-61 | one step adds the sample at the end of its test's list in its own bucket |
| Shadows.OtherBucketsKept | analysis/shadows.py:59-61 | one step leaves every other bucket unchanged |
| Shadows.Distribute | analysis/shadows.py:57-61 | the same two facts on the samples of one test |
| Shadows.SamplesIn | analysis/shadows.py:57-61 | the samples of a test whose index `i` has `i // n == k`, in test order: what bucket `k` receives from the test (BucketIsWindow) |
| Shadows.BucketIsWindow | analysis/shadows.py:57-61 | bucket `k` of a test holds its samples `k*n` up to `(k+1)*n`, cut at the end of the test |
| Shadows.FitsIff | analysis/shadows.py:49-61 | every sample of a test has a bucket iff the test has at most `count * n` samples: a longer tail raises and is not dropped |
| Shadows.NoSampleLost | analysis/shadows.py:56-61 | the buckets of a test laid end to end are its first `count * n` samples: no sample is lost or repeated |
| Shadows.Rows | analysis/shadows.py:114-117 | a bucket's rows in test order, at most one per test |
| Shadows.PlotNormalization | analysis/shadows.py:114-115 | the zero-relative normalisation on numpy samples: IndexError iff the test is empty; non-finite values (no number) iff its minimum is 0, since numpy divides by zero without raising; otherwise sample `i` becomes `(x[i] - x[0]) / abs(min(x))` |
| Shadows.NormalizedRows | analysis/shadows.py:114-115 | normalising the tests of a slice keeps one row per test |
| Shadows.NormalizedRowsSpec | analysis/shadows.py:114-115 | it succeeds iff no test is empty, and then holds each test's normalisation; otherwise it fails with IndexError |
| Shadows.NormalizedPrefixFails | analysis/shadows.py:114-115 | once a test fails, later tests change nothing |
| Shadows.NormalizeTests | analysis/shadows.py:114-115 | the loop over the tests computes NormalizedRows |
| Shadows.EnvelopeOf | analysis/shadows.py:117-123 | one mean, minimum and maximum per step of the shortest test |
| Shadows.EnvelopeBounds | analysis/shadows.py:117-128 | per step the lifted minimum, mean and maximum are ordered, enclose every test, and the extremes are reached by some test |
| Shadows.EnvelopeAt | analysis/shadows.py:117-128 | step `j` of the envelope is the mean, minimum and maximum of column `j`, lifted by the slice's offset |
| Shadows.ColumnExtremes | analysis/shadows.py:117-123 | the minimum, mean and maximum of a column are ordered, bound every entry, and the extremes are entries |
| Shadows.SliceShadow | analysis/shadows.py:112-129 | one slice of the plot: its tests normalised and their envelope lifted by `slice_number * 0.5`, or non-finite when a test has a zero minimum (ShadeFails, ShadeDrawn) |
| Shadows.ShadeOf | analysis/shadows.py:112-123 | the tests normalised; IndexError for a slice without a step; non-finite lines when some test has a zero minimum; otherwise the envelope of the normalised tests lifted by the offset (ShadeFails, ShadeDrawn) |
| Shadows.ShadeFails | analysis/shadows.py:114-121 | a slice fails iff it has no step (`means[0]` of an empty mean list, or `data[0]` of an empty test), and then with IndexError |
| Shadows.ShadeDrawn | analysis/shadows.py:114-129 | a slice with steps is drawn; its values are non-finite iff one of its tests has minimum 0, and otherwise its envelope has one mean per step of the shortest test |
| Shadows.PlotEnvelopes | analysis/shadows.py:112-129 | one shade per slice in slice order iff every slice succeeds (by ShadeFails, iff every slice has a step); otherwise the error of one of the slices |
| ShadowsBoxplot.HighWhisker | GRAS/shadows_boxplot.py:18-22 | the first loop's high whisker: it starts at Q3 and takes every dot in `(Q3, fence]` above it (HighWhiskerSpec) |
| ShadowsBoxplot.LowWhisker | GRAS/shadows_boxplot.py:18-24 | the first loop's low whisker: it starts at Q1 and takes every dot in `[fence, Q1)` below it (LowWhiskerSpec) |
| ShadowsBoxplot.HighFlier | GRAS/shadows_boxplot.py:26-29 | the second loop's high flier: it starts at the high whisker and takes every dot above the fence and above it (HighFlierSpec) |
| ShadowsBoxplot.LowFlier | GRAS/shadows_boxplot.py:26-32 | the second loop's low flier: it starts at the low whisker and takes every dot below the fence and below it (LowFlierSpec) |
| ShadowsBoxplot.BoxplotOf | GRAS/shadows_boxplot.py:11-34 | one step's boxplot as a value: median, Q3, Q1, the two whiskers and the two fliers, with fences 1.5 IQR beyond the quartiles (BoxplotSpec, BoxplotOrdered) |
| ShadowsBoxplot.WhiskerPass | GRAS/shadows_boxplot.py:18-24 | the first loop computes both whisker folds |
| ShadowsBoxplot.FlierPass | GRAS/shadows_boxplot.py:26-32 | the second loop computes both flier folds |
| ShadowsBoxplot.CalcBoxplots | GRAS/shadows_boxplot.py:11-34 | calc_boxplots computes BoxplotOf: the quartiles, the fences at 1.5 IQR, whiskers and fliers, in the returned order |
| ShadowsBoxplot.HighWhiskerSpec | GRAS/shadows_boxplot.py:18-22 | the high whisker is the largest dot in `(Q3, Q3 + 1.5 IQR]`, or Q3 when there is none |
| ShadowsBoxplot.LowWhiskerSpec | GRAS/shadows_boxplot.py:18-24 | the low whisker is the smallest dot in `[Q1 - 1.5 IQR, Q1)`, or Q1 when there is none |
| ShadowsBoxplot.HighFlierSpec | GRAS/shadows_boxplot.py:26-29 | the high flier is the high whisker or the largest dot beyond the upper fence, whichever is larger |
| ShadowsBoxplot.LowFlierSpec | GRAS/shadows_boxplot.py:26-32 | the low flier is the low whisker or the smallest dot beyond the lower fence, whichever is smaller |
| ShadowsBoxplot.BoxplotSpec | GRAS/shadows_boxplot.py:11-34 | a step's boxplot holds the 25th, 50th and 75th percentiles, and whiskers and fliers as characterised above |
| ShadowsBoxplot.BoxplotOrdered | GRAS/shadows_boxplot.py:11-34 | low flier ≤ low whisker ≤ Q1 and Q3 ≤ high whisker ≤ high flier |
| ShadowsBoxplot.WhiskersWithinFences | GRAS/shadows_boxplot.py:14-24 | when Q1 ≤ Q3 both whiskers lie within the fences |
| ShadowsBoxplot.HighWhiskerUnique | GRAS/shadows_boxplot.py:18-22 | the whisker characterisation determines a single value |
| ShadowsBoxplot.BoxplotOrderIndependent | GRAS/shadows_boxplot.py:11-34 | rearranging the dots, with the same quartiles, gives the same boxplot |
| ShadowsBoxplot.PerStep | GRAS/shadows_boxplot.py:56 | one boxplot per time step |
| ShadowsBoxplot.BoxplotsPerStep | GRAS/shadows_boxplot.py:56 | the list comprehension computes PerStep |
| ShadowsBoxplot.ShiftRows | GRAS/shadows_boxplot.py:65 | `data += offset` adds the offset to every value of the rows in range and leaves the others |
| ShadowsBoxplot.ShiftGroups | GRAS/shadows_boxplot.py:64-65 | the loop adds `6 * i` to every row of group `i`, in place |
| ShadowsBoxplot.Group | GRAS/shadows_boxplot.py:56 | group `i` of `np.split` is rows `i*len` to `i*len + len - 1` |
| ShadowsBoxplot.Split | GRAS/shadows_boxplot.py:56 | `np.split` into equal parts: `groups` parts, part `i` being group `i` |
| ShadowsBoxplot.Lifted | GRAS/shadows_boxplot.py:64-65 | lifting keeps one boxplot per step |
| ShadowsBoxplot.LiftedGroups | GRAS/shadows_boxplot.py:56-65 | row `j` of part `i` is boxplot `i*len + j` lifted by `6 * i` |
| ShadowsBoxplot.ShiftedGroups | GRAS/shadows_boxplot.py:56-65 | the in-place shift of the split array computes the lifted groups |
| ShadowsBoxplot.PlotShadowsBoxplot | GRAS/shadows_boxplot.py:53-70 | IndexError for no tests or no steps; ZeroDivisionError for 0 slices; ValueError for a negative count, steps that do not split evenly, or groups whose length is not `steps_in_slice`, the length of `shared_x` they are drawn against; otherwise the boxplots per step, split into slices of `steps_in_slice` steps and lifted |
| TestsRunner.Evens | GRAS/tests_runner.py:81 | `s[::2]`: `ceil(len / 2)` elements, element `k` being `s[2k]` |
| TestsRunner.Odds | GRAS/tests_runner.py:80 | `s[1::2]`: `len // 2` elements, element `k` being `s[2k+1]` |
| TestsRunner.EvensOddsSplit | GRAS/tests_runner.py:80-85 | every whisker lands in exactly one half, and the halves are equally long iff the count is even |
| TestsRunner.Starts | GRAS/tests_runner.py:88-91 | one lifted first y value per line |
| TestsRunner.Ends | GRAS/tests_runner.py:93-94 | one lifted second y value per line |
| TestsRunner.FliersHigh | GRAS/tests_runner.py:97-114 | one upper flier bound per box |
| TestsRunner.FliersLow | GRAS/tests_runner.py:97-114 | one lower flier bound per box |
| TestsRunner.FlierHigh | GRAS/tests_runner.py:99-114 | one entry of `fliers_y_max`: the highest lifted flier point, or the high whisker when no point is above it (FlierHighEnvelope) |
| TestsRunner.FlierLow | GRAS/tests_runner.py:99-114 | one entry of `fliers_y_min`: the lowest lifted flier point, or the low whisker when no point is below it (FlierLowEnvelope) |
| TestsRunner.FlierHighEnvelope | GRAS/tests_runner.py:99-114 | the upper flier bound is at least the whisker and every lifted flier point, is one of them, and is the whisker when there is no flier |
| TestsRunner.FlierLowEnvelope | GRAS/tests_runner.py:99-114 | the mirror image for the lower bound |
| TestsRunner.Processing | GRAS/tests_runner.py:53-116 | AssertionError iff there are not two whiskers per flier group; otherwise six lists with one entry per box and the medians with one entry per median line (ProcessingDrawn ties them to the box count) |
| TestsRunner.Drawn | GRAS/tests_runner.py:69-77 | the shape of what `plt.boxplot` draws for `n` steps: `n` medians, `n` flier groups and `2n` whiskers |
| TestsRunner.ProcessingDrawn | GRAS/tests_runner.py:53-116 | with one box per step the assertion holds and all seven lists have one entry per box |
| TestsRunner.ProcessingBox | GRAS/tests_runner.py:65-116 | box `k`'s edges and whisker ends are its whiskers' y values lifted by `30 * slice_index`, and its flier bounds enclose its whiskers |
| TestsRunner.ProcessingMedian | GRAS/tests_runner.py:65-88 | median `k` is the median line's height lifted by `30 * slice_index` |
| TestsRunner.FlierLimits | GRAS/tests_runner.py:97-114 | the flier loop computes both flier bound lists |
| TestsRunner.BoxplotProcessing | GRAS/tests_runner.py:53-116 | boxplot_processing computes Processing |
| TestsRunner.StepGroups | GRAS/tests_runner.py:148 | `zip(*[iter(steps)] * n)`: consecutive groups of `n` steps read off one iterator, an incomplete tail dropped, no group for `n <= 0` (StepGroupsCount, StepGroupsAt, StepGroupsSpec) |
| TestsRunner.StepGroupsCount | GRAS/tests_runner.py:148 | `zip(*[iter(steps)] * n)` leaves fewer than `n` steps ungrouped |
| TestsRunner.StepGroupsAt | GRAS/tests_runner.py:148 | group `k` is steps `k*n` to `k*n + n - 1` |
| TestsRunner.StepGroupsSpec | GRAS/tests_runner.py:148 | there are `len(steps) // n` groups, group `k` being steps `k*n` to `k*n + n - 1` |
| TestsRunner.Prepared | GRAS/tests_runner.py:148 | `zip(range(slices_number), groups)` keeps the first `min(slices_number, groups)` groups |
| TestsRunner.ProcessAll | GRAS/tests_runner.py:152-153 | the map gives one shadow per prepared slice |
| TestsRunner.ProcessAllSpec | GRAS/tests_runner.py:152-153 | the map succeeds iff every slice does, holds their results in slice order, and can only fail on an assertion |
| TestsRunner.ProcessAllDrawn | GRAS/tests_runner.py:152-153 | with one box per step, the map over slices of `n` steps succeeds and every result has seven lists of `n` entries |
| TestsRunner.ProcessAllPrefixFails | GRAS/tests_runner.py:152-153 | once a slice fails, the map fails the same way |
| TestsRunner.ShadowsOf | GRAS/tests_runner.py:132-145 | empty input raises Exception; a zero frequency or step raises ZeroDivisionError |
| TestsRunner.SlicedShadows | GRAS/tests_runner.py:147-166 | the map over at most `slices_number` slices of `n` steps, then IndexError when a slice has no median for `med[0]` (SlicedLayout, SlicedBoxes) |
| TestsRunner.SlicedLayout | GRAS/tests_runner.py:147-166 | `min(slices_number, len(steps) // n)` slices; slice `k` is processed from steps `k*n` on, and each has a first median |
| TestsRunner.ShadowsLayout | GRAS/tests_runner.py:132-166 | the same for boxplot_shadows, in terms of its inputs |
| TestsRunner.SlicedBoxes | GRAS/tests_runner.py:147-166 | with one box per step, the sliced shadows succeed and every list of every slice has one entry per step of the slice |
| TestsRunner.ShadowsWithBoxes | GRAS/tests_runner.py:132-166 | with one box per step, boxplot_shadows fails iff the input is empty or a divisor (`ees_hz`, the slice length, `step`) is 0, and every list of every slice has `steps_in_slice` entries |
| TestsRunner.BoxplotShadows | GRAS/tests_runner.py:119-166 | boxplot_shadows computes ShadowsOf |
| TestsRunner.ShadowsOfSlices | GRAS/tests_runner.py:147-166 | the grouping, the map and the tick reads compute SlicedShadows |
| TestsRunner.ProcessSlices | GRAS/tests_runner.py:152-153 | the slice-by-slice map computes ProcessAll |
| TestsRunner.AllHaveMedians | GRAS/tests_runner.py:160-166 | `med[0]` succeeds for every slice iff no slice lacks medians |
| TestsRunner.ChunkMeans | GRAS/tests_runner.py:193 | ValueError iff the chunk size is 0; a negative size gives no mean |
| TestsRunner.ChunksFrom | GRAS/tests_runner.py:193 | the comprehension over `range(start, len(data), c)`: the mean of each chunk `data[i:i+c]`, the last one cut at the end (ChunkMeansSpec) |
| TestsRunner.ChunkMeansSpec | GRAS/tests_runner.py:193 | with chunk size `c > 0` there are `ceil(len / c)` means; mean `j` averages samples `j*c` up to `(j+1)*c` or the end |
| TestsRunner.SlimTests | GRAS/tests_runner.py:185-193 | ValueError iff there is a test and the chunk size is 0; otherwise each test replaced by its chunk means |
| BioDict.Split | data/all_bio_dict.py:23 | `split` never gives an empty list |
| BioDict.SplitCount | data/all_bio_dict.py:23 | `split` gives one piece more than there are separators |
| BioDict.SplitJoin | data/all_bio_dict.py:23 | splitting undoes joining when no piece holds the separator |
| BioDict.RemoveAll | data/all_bio_dict.py:23 | `replace("\n", "")` leaves no line break |
| BioDict.RemoveAllConcat | data/all_bio_dict.py:23 | removing a character distributes over concatenation |
| BioDict.Fields | data/all_bio_dict.py:23 | a line with its line breaks removed, split at tabs and unpacked into seven cells, or ValueError for any other count (FieldsTabs, FieldsRoundTrip) |
| BioDict.FieldsTabs | data/all_bio_dict.py:23 | a line unpacks into seven cells iff it holds six tabs; otherwise ValueError |
| BioDict.FieldsRoundTrip | data/all_bio_dict.py:23 | seven tab-free cells written with tabs, with or without a line break, read back as the same cells |
| BioDict.ParseInt | data/all_bio_dict.py:61-62 | `int()` of a string: any `str.isspace()` white space around an optional sign and decimal digits; anything else has no value, which the loop turns into ValueError (ParseShow, ParenNotInt) |
| BioDict.SpacesStripped | data/all_bio_dict.py:61-62 | white space of any of Python's kinds before and after a digit string is stripped: the mark parses to the digits' value |
| BioDict.ParseShow | data/all_bio_dict.py:61-62 | `int(str(n)) == n` |
| BioDict.ParenNotInt | data/all_bio_dict.py:57-62 | a mark holding `(` is never an integer |
| BioDict.MuscleName | data/all_bio_dict.py:28-29 | muscle code `FL` is `flexor`, any other code `extensor` |
| BioDict.Advance | data/all_bio_dict.py:24-31 | one row's update of the running values: a non-empty cell replaces its value, the speed with `cms` appended and the muscle code by its name; an empty cell keeps it (CurrentIsLatest) |
| BioDict.LatestSpec | data/all_bio_dict.py:24-31 | the latest value is `""` when all are empty, and otherwise the last non-empty value |
| BioDict.CurrentIsLatest | data/all_bio_dict.py:17-31 | the running values are the latest non-empty cells so far: type and rat as written, speed with `cms`, muscle code by name |
| BioDict.ReadLines | data/all_bio_dict.py:22-40 | the first loop line by line: ValueError at the first line that does not unpack into seven cells, otherwise the eight lists and the running values (ReadLinesFails, ReadLinesValue, ReadLinesStop) |
| BioDict.TableOf | data/all_bio_dict.py:33-40 | every list has one entry per row |
| BioDict.TableSnoc | data/all_bio_dict.py:24-40 | one more row advances the running values and appends one entry to every list |
| BioDict.TableRowAt | data/all_bio_dict.py:33-40 | entry `k` has folder `sliced`, row `k`'s file and marks, and the running values after row `k` |
| BioDict.ReadLinesFails | data/all_bio_dict.py:22-23 | the first loop gets through iff every line unpacks; otherwise ValueError |
| BioDict.ReadLinesValue | data/all_bio_dict.py:22-40 | when it gets through, it leaves the table and running values of the lines' rows |
| BioDict.ReadLinesStop | data/all_bio_dict.py:22-23 | after a line fails to unpack, later lines change nothing |
| BioDict.ReadMap | data/all_bio_dict.py:17-40 | the first loop computes ReadTable |
| BioDict.Entries | data/all_bio_dict.py:46 | the zip of the eight lists is no longer than any of them |
| BioDict.PathOf | data/all_bio_dict.py:47 | the recording's path: the root, then type, muscle, speed, folder, rat and file joined by `/` (PathLevels) |
| BioDict.PathLevels | data/all_bio_dict.py:47 | the path lists the root's folders, then type, muscle, speed, folder, rat and file |
| BioDict.TitleOf | data/all_bio_dict.py:54 | the title: type, muscle, speed and folder joined by spaces (TitleWords) |
| BioDict.TitleWords | data/all_bio_dict.py:54 | the title's words are type, muscle, speed and folder |
| BioDict.Rejected | data/all_bio_dict.py:48-52 | a row is rejected iff its begin or its end is `-` |
| BioDict.Marks | data/all_bio_dict.py:57-59 | when begin holds `(`, both marks are cut at their first `(`; otherwise both are kept as they are |
| BioDict.EntryCall | data/all_bio_dict.py:48-64 | one iteration of the second loop: no call for a row marked `-`, ValueError when a mark does not parse, otherwise the converter call with path, title, file and both marks (EntryCallSpec) |
| BioDict.EntryCallSpec | data/all_bio_dict.py:48-64 | a rejected row is never converted; `(` in begin cuts both marks; `(` only in end makes `int()` fail; a call carries the parsed marks, the path, the title and the file |
| BioDict.Conversions | data/all_bio_dict.py:46-64 | never more calls than rows |
| BioDict.ConversionsError | data/all_bio_dict.py:46-64 | the loop stops only on a mark that is not an integer, with ValueError |
| BioDict.ConversionsSound | data/all_bio_dict.py:46-64 | every call comes from a usable row |
| BioDict.ConversionsComplete | data/all_bio_dict.py:46-64 | without an error, every usable row is converted |
| BioDict.ConversionsStop | data/all_bio_dict.py:46-64 | after an error, later rows change nothing |
| BioDict.ConvertAll | data/all_bio_dict.py:46-64 | the second loop computes Conversions |
| BioDict.ConvertMap | data/all_bio_dict.py:6-64 | the script drops the header line, runs the first loop, and runs the second loop on the zip of its lists unless the first raised |

## Left out

- File and plotting I/O is not modelled:
  - reading HDF5, TSV and `.dat` files, `np.loadtxt` and `csv.reader`;
  - all matplotlib and pylab drawing, saving and ticks;
  - logging, `print` and timing.

  Inputs arrive as sequences, and the results are what would be drawn or
  written.
- `run_tests` and `convert_to_hdf5` are not modelled. They launch the
  simulator binary and convert its files.
- The `fig2hdf5` converter is not modelled. `BioDict` returns the
  converter calls in order instead of making them.
- `testrunner`, the hard-coded folders and the `Pool` process pool are not
  modelled. The pool's `map` is a sequential map in slice order, with the
  first failing slice deciding the error.
- `np.percentile` and `plt.boxplot` are parameters the model does not
  define. Nothing is assumed about the percentile. For `plt.boxplot`,
  TestsRunner.Drawn states the shape matplotlib gives it (one median, one
  flier group and two whiskers per box); ProcessingDrawn, SlicedBoxes and
  ShadowsWithBoxes hold for every boxplot of that shape.
  `argrelextrema` with `np.greater`/`np.less` is modelled as strict
  comparison with both neighbours.
- Samples are exact reals, not IEEE floats. NaN is not modelled. Every
  `int()` of a float is exact truncation toward zero of the real value:
  `int(slice_numbers / 6 * 2)` and `int(slice_numbers / 6 * 3)` in
  find_latencies (Functions.GroupOf), Shadows.SamplesPerSlice
  and Shadows.BucketCount, TestsRunner.SliceTimeLength, SlicesNumber,
  StepsInSlice and ChunkSize. A float quotient that rounds to just below
  an integer truncates one lower in the source.
- Shadows.PlotEnvelopes: a slice with a test whose minimum is 0 is drawn by
  numpy with infinities and NaNs (numpy scalars divide by zero with a
  warning, not an exception). The model records such a slice as
  `NonFinite` with its step count and does not model those values.
- `np.inf` thresholds are a missing threshold that no gradient passes.
- Functions.Search: the `while flag` loop of find_latencies never
  terminates when no window holds a point. Every window has stopped
  growing after 13 widenings, so the model stops there and returns
  `Diverges`; DivergesOnlyWhenNoWindowHolds proves no wider window would
  succeed.
- Python dictionaries keyed by test name or slice index are sequences in
  insertion order. Restructured buckets are maps from test position to
  samples. Shadows.NormalizeTests builds the normalised rows in order
  rather than rewriting the dictionary's values in place.
- `analysis/shadows.py:147` unpacks the single dictionary that
  `__restructure_data` returns into two names. This fails for every slice
  count except two, so `plot_shadows` itself is not modelled; the model
  follows `__restructure_data` and `__plot` directly. The commented-out
  bio-data overlay in `__plot` is not modelled either.
- `np.ndarray` type checks are modelled as the input being rectangular.
  A ragged input raises TypeError; a NumPy array is always rectangular.
- Pca.AreaExtremaMatrix requires latencies for every slice. The source
  indexes the latency matrix it is given by the slice's position.
- Step-derived values are integer parameters: `min_dist`, `max_dist`, the
  poly border `int(10 / step)`, and slices_number and steps_in_slice in
  plot_shadows_boxplot. The constants 0.3, 0.05 and 0.005 are fixed.
- Pca.AreaRow and Pca.AreaTable take the cell computation as a parameter;
  AreaExtremaMatrix supplies SmoothedFeatures, the corrected features of
  the smoothed slice.
- BioDict.ParseInt: `int()` on a string is modelled with ASCII digits, an
  optional sign and the white space `str.isspace()` accepts around them.
  Underscores between digits (`int("1_0")`) and non-ASCII decimal digits,
  which Python also accepts, make ParseInt give no value.
- The `debugging` branches are not modelled. They plot, or raise
  `NotImplemented`.

## Findings

| source | as written | input that shows it | evidently intended | confidence | as-written member | corrected member |
|---|---|---|---|---|---|---|
| analysis/PCA.py:352-356 | `find_extrema` returns `(None, None)` for a slice without strict extrema, and the guard `len(e_maxima_indexes) == 0` then raises TypeError | a flat slice such as `[0.0, 0.0, 0.0]` (after smoothing) | skip the slice, leaving zeros in both matrices, as the comment at line 354 says | not executed | Pca.SliceFeaturesAsWritten (Pca.FlatSliceRaises) | Pca.SliceFeatures (Pca.SliceFeaturesSkips), used by Pca.AreaExtremaMatrix |

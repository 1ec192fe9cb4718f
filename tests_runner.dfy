/** Model of GRAS/tests_runner.py: how the runs of the GRAS simulator are
    condensed into shadow plots. `plot_results` slims every test by averaging
    chunks of samples; `boxplot_shadows` turns the tests into one boxplot per
    time step, groups the steps into slices, and `boxplot_processing` reads
    off, per slice, the seven lines that are drawn (flier, whisker and box
    bounds and the median), lifted by the slice's offset. The boxplot itself
    (`plt.boxplot`) is a parameter, of which `Drawn` states the shape
    matplotlib gives it; the drawing and the files are not modelled. */
module TestsRunner {
  import opened Common

  // ---------------------------------------------------------------------------
  // boxplot_processing
  // ---------------------------------------------------------------------------

  /** A two-point line of a matplotlib boxplot, as `get_ydata()` gives it: a
      median is drawn across its box at height `y0`; a whisker runs from the
      box edge `y0` to its end `y1`. */
  datatype Line = Line(y0: real, y1: real)

  /** What `plt.boxplot` hands back, reduced to what boxplot_processing reads:
      the median lines, the whiskers (low and high alternately), and the
      flier points of each box. */
  datatype Artists = Artists(medians: seq<Line>, whiskers: seq<Line>, fliers: seq<seq<real>>)

  /** `plt.boxplot` over the steps of one slice. */
  type BoxplotArtists = seq<seq<real>> -> Artists

  /** The seven lists boxplot_processing returns, in its order. */
  datatype Shadow = Shadow(
    fliersLow: seq<real>, fliersHigh: seq<real>,
    whiskersLow: seq<real>, whiskersHigh: seq<real>,
    boxesLow: seq<real>, boxesHigh: seq<real>,
    medians: seq<real>)

  /** Vertical distance between two consecutive slices of the plot. */
  const SliceOffset: int := 30

  /** `s[::2]`. */
  function Evens<T>(s: seq<T>): (r: seq<T>)
    ensures |r| == (|s| + 1) / 2
    ensures forall k :: 0 <= k < |r| ==> r[k] == s[2 * k]
  {
    seq((|s| + 1) / 2, k requires 0 <= k < (|s| + 1) / 2 => s[2 * k])
  }

  /** `s[1::2]`. */
  function Odds<T>(s: seq<T>): (r: seq<T>)
    ensures |r| == |s| / 2
    ensures forall k :: 0 <= k < |r| ==> r[k] == s[2 * k + 1]
  {
    seq(|s| / 2, k requires 0 <= k < |s| / 2 => s[2 * k + 1])
  }

  /** Every element of `s` is in exactly one of its two halves, at half its
      position, and the halves are equally long exactly when `s` is. */
  lemma EvensOddsSplit<T>(s: seq<T>, p: nat)
    requires p < |s|
    ensures |Evens(s)| == |Odds(s)| <==> |s| % 2 == 0
    ensures p % 2 == 0 ==> p / 2 < |Evens(s)| && Evens(s)[p / 2] == s[p]
    ensures p % 2 == 1 ==> p / 2 < |Odds(s)| && Odds(s)[p / 2] == s[p]
  {
    var k := p / 2;
    assert p == 2 * k + p % 2;
  }

  /** `get_ydata()[0] + y_offset` of every line. */
  function Starts(lines: seq<Line>, offset: real): (ys: seq<real>)
    ensures |ys| == |lines|
  {
    seq(|lines|, k requires 0 <= k < |lines| => offset + lines[k].y0)
  }

  /** `get_ydata()[1] + y_offset` of every line. */
  function Ends(lines: seq<Line>, offset: real): (ys: seq<real>)
    ensures |ys| == |lines|
  {
    seq(|lines|, k requires 0 <= k < |lines| => offset + lines[k].y1)
  }

  /** Python's `max(a, b)` and `min(a, b)`: the first argument unless the
      second is strictly better. */
  function PyMax(a: real, b: real): real { if b > a then b else a }
  function PyMin(a: real, b: real): real { if b < a then b else a }

  /** One entry of `fliers_y_max`: the highest flier point, lifted by the
      offset, or the high whisker when no point lies above it. */
  function FlierHigh(points: seq<real>, whisker: real, offset: real): real
  {
    if |points| > 1 then
      var top := Max(points) + offset;
      if top < whisker then whisker else top
    else if |points| == 1 then PyMax(points[0] + offset, whisker)
    else whisker
  }

  /** One entry of `fliers_y_min`: the lowest flier point, lifted by the
      offset, or the low whisker when no point lies below it. */
  function FlierLow(points: seq<real>, whisker: real, offset: real): real
  {
    if |points| > 1 then
      var bottom := Min(points) + offset;
      if bottom > whisker then whisker else bottom
    else if |points| == 1 then PyMin(points[0] + offset, whisker)
    else whisker
  }

  /** `fliers_y_max` of a slice. */
  function FliersHigh(fliers: seq<seq<real>>, whiskersHigh: seq<real>, offset: real): (ys: seq<real>)
    requires |whiskersHigh| == |fliers|
    ensures |ys| == |fliers|
  {
    seq(|fliers|, k requires 0 <= k < |fliers| => FlierHigh(fliers[k], whiskersHigh[k], offset))
  }

  /** `fliers_y_min` of a slice. */
  function FliersLow(fliers: seq<seq<real>>, whiskersLow: seq<real>, offset: real): (ys: seq<real>)
    requires |whiskersLow| == |fliers|
    ensures |ys| == |fliers|
  {
    seq(|fliers|, k requires 0 <= k < |fliers| => FlierLow(fliers[k], whiskersLow[k], offset))
  }

  /** The shadow of the fliers encloses the whisker and every lifted flier
      point, and touches one of them: it is the whisker itself when there are
      no fliers. */
  lemma FlierHighEnvelope(points: seq<real>, whisker: real, offset: real)
    ensures whisker <= FlierHigh(points, whisker, offset)
    ensures forall x :: x in points ==> x + offset <= FlierHigh(points, whisker, offset)
    ensures FlierHigh(points, whisker, offset) == whisker
            || exists x :: x in points && FlierHigh(points, whisker, offset) == x + offset
    ensures points == [] ==> FlierHigh(points, whisker, offset) == whisker
  {
    if |points| == 1 {
      assert points[0] in points;
      assert forall x :: x in points ==> x == points[0];
    } else if |points| > 1 {
      assert Max(points) in points;
    }
  }

  /** The mirror image of FlierHighEnvelope for `fliers_y_min`. */
  lemma FlierLowEnvelope(points: seq<real>, whisker: real, offset: real)
    ensures FlierLow(points, whisker, offset) <= whisker
    ensures forall x :: x in points ==> FlierLow(points, whisker, offset) <= x + offset
    ensures FlierLow(points, whisker, offset) == whisker
            || exists x :: x in points && FlierLow(points, whisker, offset) == x + offset
    ensures points == [] ==> FlierLow(points, whisker, offset) == whisker
  {
    if |points| == 1 {
      assert points[0] in points;
      assert forall x :: x in points ==> x == points[0];
    } else if |points| > 1 {
      assert Min(points) in points;
    }
  }

  /** What boxplot_processing returns for slice `sliceIndex`: the assertions
      on the whisker and flier counts fail unless there are two whiskers per
      flier group; otherwise every list is lifted by `sliceIndex * 30`. */
  function Processing(sliceIndex: int, a: Artists): (r: Result<Shadow>)
    ensures r.Success? <==> |a.whiskers| % 2 == 0 && |a.whiskers| / 2 == |a.fliers|
    ensures r.Failure? ==> r.error == AssertionError
    ensures r.Success? ==>
      && |r.value.fliersLow| == |r.value.fliersHigh| == |a.fliers|
      && |r.value.whiskersLow| == |r.value.whiskersHigh| == |a.fliers|
      && |r.value.boxesLow| == |r.value.boxesHigh| == |a.fliers|
      && |r.value.medians| == |a.medians|
  {
    var high, low := Odds(a.whiskers), Evens(a.whiskers);
    if |low| != |high| || |low| != |a.fliers| then Failure(AssertionError)
    else
      var offset := (sliceIndex * SliceOffset) as real;
      var whiskersHigh, whiskersLow := Ends(high, offset), Ends(low, offset);
      Success(Shadow(
        FliersLow(a.fliers, whiskersLow, offset), FliersHigh(a.fliers, whiskersHigh, offset),
        whiskersLow, whiskersHigh,
        Starts(low, offset), Starts(high, offset),
        Starts(a.medians, offset)))
  }

  /** Seven lists of `n` entries each. */
  predicate AllOfLength(shadow: Shadow, n: int)
  {
    && |shadow.fliersLow| == |shadow.fliersHigh| == n
    && |shadow.whiskersLow| == |shadow.whiskersHigh| == n
    && |shadow.boxesLow| == |shadow.boxesHigh| == |shadow.medians| == n
  }

  /** What `plt.boxplot` draws for a slice of `n` steps: one box per step,
      so `n` medians, `n` flier groups and two whiskers per box. */
  predicate Drawn(a: Artists, n: nat)
  {
    |a.medians| == n && |a.fliers| == n && |a.whiskers| == 2 * n
  }

  /** With one box per step, the assertions hold and all seven lists have
      one entry per box. */
  lemma ProcessingDrawn(sliceIndex: int, a: Artists, n: nat)
    requires Drawn(a, n)
    ensures Processing(sliceIndex, a).Success?
    ensures AllOfLength(Processing(sliceIndex, a).value, n)
  {
  }

  /** Box `k` of a processed slice: its median, box edges and whisker ends
      are the artists' lifted by `sliceIndex * 30`, and its flier shadow
      encloses its whiskers (equal to them when the box has no fliers). */
  lemma ProcessingBox(sliceIndex: int, a: Artists, k: nat)
    requires Processing(sliceIndex, a).Success? && k < |a.fliers|
    ensures var s, offset := Processing(sliceIndex, a).value, (sliceIndex * 30) as real;
      && 2 * k + 1 < |a.whiskers|
      && s.boxesLow[k] == offset + a.whiskers[2 * k].y0
      && s.boxesHigh[k] == offset + a.whiskers[2 * k + 1].y0
      && s.whiskersLow[k] == offset + a.whiskers[2 * k].y1
      && s.whiskersHigh[k] == offset + a.whiskers[2 * k + 1].y1
      && s.fliersLow[k] <= s.whiskersLow[k]
      && s.whiskersHigh[k] <= s.fliersHigh[k]
      && (a.fliers[k] == [] ==> s.fliersLow[k] == s.whiskersLow[k] && s.fliersHigh[k] == s.whiskersHigh[k])
  {
    var s, offset := Processing(sliceIndex, a).value, (sliceIndex * 30) as real;
    FlierLowEnvelope(a.fliers[k], s.whiskersLow[k], offset);
    FlierHighEnvelope(a.fliers[k], s.whiskersHigh[k], offset);
  }

  /** Median `k` of a processed slice is the median line lifted by
      `sliceIndex * 30`. */
  lemma ProcessingMedian(sliceIndex: int, a: Artists, k: nat)
    requires Processing(sliceIndex, a).Success? && k < |a.medians|
    ensures Processing(sliceIndex, a).value.medians[k] == (sliceIndex * 30) as real + a.medians[k].y0
  {
  }

  /** The loop of boxplot_processing over `zip(fliers, whiskers_y_high,
      whiskers_y_low)`. */
  method FlierLimits(fliers: seq<seq<real>>, whiskersHigh: seq<real>, whiskersLow: seq<real>, offset: real)
    returns (fliersMax: seq<real>, fliersMin: seq<real>)
    requires |whiskersHigh| == |whiskersLow| == |fliers|
    ensures fliersMax == FliersHigh(fliers, whiskersHigh, offset)
    ensures fliersMin == FliersLow(fliers, whiskersLow, offset)
  {
    fliersMax, fliersMin := [], [];
    for k := 0 to |fliers|
      invariant |fliersMax| == |fliersMin| == k
      invariant forall q :: 0 <= q < k ==>
        fliersMax[q] == FlierHigh(fliers[q], whiskersHigh[q], offset)
        && fliersMin[q] == FlierLow(fliers[q], whiskersLow[q], offset)
    {
      var points, highest, lowest := fliers[k], whiskersHigh[k], whiskersLow[k];
      if |points| == 1 {
        assert Max(points) == Min(points) == points[0];
      }
      if |points| > 1 {
        var flierMax := Max(points) + offset;
        var flierMin := Min(points) + offset;
        fliersMax := fliersMax + [if flierMax < highest then highest else flierMax];
        fliersMin := fliersMin + [if flierMin > lowest then lowest else flierMin];
      } else if |points| == 1 {
        fliersMax := fliersMax + [PyMax(points[0] + offset, highest)];
        fliersMin := fliersMin + [PyMin(points[0] + offset, lowest)];
      } else {
        fliersMax := fliersMax + [highest];
        fliersMin := fliersMin + [lowest];
      }
    }
  }

  /** boxplot_processing on `(slice_index, slice_data)`, once the boxplot of
      `slice_data` is drawn. */
  method BoxplotProcessing(sliceIndex: int, a: Artists) returns (r: Result<Shadow>)
    ensures r == Processing(sliceIndex, a)
  {
    var offset := (sliceIndex * SliceOffset) as real;
    var high, low := Odds(a.whiskers), Evens(a.whiskers);
    if |low| != |high| || |low| != |a.fliers| {
      return Failure(AssertionError);
    }
    var medianY := Starts(a.medians, offset);
    var boxesHigh, boxesLow := Starts(high, offset), Starts(low, offset);
    var whiskersHigh, whiskersLow := Ends(high, offset), Ends(low, offset);
    var fliersMax, fliersMin := FlierLimits(a.fliers, whiskersHigh, whiskersLow, offset);
    r := Success(Shadow(fliersMin, fliersMax, whiskersLow, whiskersHigh, boxesLow, boxesHigh, medianY));
  }

  // ---------------------------------------------------------------------------
  // boxplot_shadows
  // ---------------------------------------------------------------------------

  /** `int(1 / ees_hz * 1000)`: the length of one slice in ms. */
  function SliceTimeLength(eesHz: real): int
    requires eesHz != 0.0
  {
    Trunc(1.0 / eesHz * 1000.0)
  }

  /** `int(len(data_per_test[0]) / slice_time_length * step)`. */
  function SlicesNumber(samples: nat, sliceTimeLength: int, step: real): int
    requires sliceTimeLength != 0
  {
    Trunc(samples as real / sliceTimeLength as real * step)
  }

  /** `int(slice_time_length / step)`. */
  function StepsInSlice(sliceTimeLength: int, step: real): int
    requires step != 0.0
  {
    Trunc(sliceTimeLength as real / step)
  }

  /** `zip(*[iter(steps)] * n)`: consecutive groups of `n` steps, read off one
      iterator; an incomplete tail is dropped, and `n <= 0` gives no group. */
  function StepGroups(steps: seq<seq<real>>, n: int): seq<seq<seq<real>>>
    decreases |steps|
  {
    if n <= 0 || |steps| < n then [] else [steps[..n]] + StepGroups(steps[n..], n)
  }

  lemma {:induction false} StepGroupsCount(steps: seq<seq<real>>, n: int)
    requires n > 0
    ensures |StepGroups(steps, n)| * n <= |steps| < |StepGroups(steps, n)| * n + n
  {
    if |steps| >= n {
      StepGroupsCount(steps[n..], n);
      var m := |StepGroups(steps[n..], n)|;
      assert (m + 1) * n == m * n + n;
    }
  }

  lemma {:induction false} StepGroupsAt(steps: seq<seq<real>>, n: int, k: nat)
    requires n > 0 && k < |StepGroups(steps, n)|
    ensures k * n + n <= |steps| && StepGroups(steps, n)[k] == steps[k * n .. k * n + n]
  {
    var rest := steps[n..];
    assert StepGroups(steps, n) == [steps[..n]] + StepGroups(rest, n);
    if k > 0 {
      StepGroupsAt(rest, n, k - 1);
      var start := (k - 1) * n;
      MulSucc(k - 1, n);
      DropSlice(steps, n, start, start + n);
    }
  }

  /** There are `len(steps) // n` groups, and group `k` holds steps
      `k * n` to `k * n + n - 1`, in order. */
  lemma StepGroupsSpec(steps: seq<seq<real>>, n: int)
    requires n > 0
    ensures |StepGroups(steps, n)| == |steps| / n
    ensures forall k :: 0 <= k < |StepGroups(steps, n)| ==>
      k * n + n <= |steps| && StepGroups(steps, n)[k] == steps[k * n .. k * n + n]
  {
    StepGroupsCount(steps, n);
    DivIs(|steps|, n, |StepGroups(steps, n)|);
    forall k | 0 <= k < |StepGroups(steps, n)|
      ensures k * n + n <= |steps| && StepGroups(steps, n)[k] == steps[k * n .. k * n + n]
    {
      StepGroupsAt(steps, n, k);
    }
  }

  /** `zip(range(slices_number), groups)`: the first `slices_number` groups,
      or all of them when there are fewer. */
  function Prepared(steps: seq<seq<real>>, slicesNumber: int, n: int): (prepared: seq<seq<seq<real>>>)
    ensures |prepared| <= |StepGroups(steps, n)|
    ensures |prepared| == if slicesNumber <= 0 then 0
                          else if slicesNumber < |StepGroups(steps, n)| then slicesNumber
                          else |StepGroups(steps, n)|
    ensures prepared == StepGroups(steps, n)[..|prepared|]
  {
    var groups := StepGroups(steps, n);
    groups[..if slicesNumber <= 0 then 0 else if slicesNumber < |groups| then slicesNumber else |groups|]
  }

  /** `pool.map(boxplot_processing, prepared)`, slice `k` processed with
      index `k`; the first failing slice, in slice order, raises. */
  function ProcessAll(prepared: seq<seq<seq<real>>>, artistsOf: BoxplotArtists): (r: Result<seq<Shadow>>)
    ensures r.Success? ==> |r.value| == |prepared|
  {
    if prepared == [] then Success([])
    else
      var last := |prepared| - 1;
      match ProcessAll(prepared[..last], artistsOf)
      case Failure(e) => Failure(e)
      case Success(done) =>
        match Processing(last, artistsOf(prepared[last]))
        case Failure(e) => Failure(e)
        case Success(s) => Success(done + [s])
  }

  /** The map succeeds exactly when every slice does, and then holds the
      slices' results in slice order; it can only fail on an assertion. */
  lemma {:induction false} ProcessAllSpec(prepared: seq<seq<seq<real>>>, artistsOf: BoxplotArtists)
    ensures ProcessAll(prepared, artistsOf).Success?
            <==> forall k :: 0 <= k < |prepared| ==> Processing(k, artistsOf(prepared[k])).Success?
    ensures ProcessAll(prepared, artistsOf).Failure? ==> ProcessAll(prepared, artistsOf).error == AssertionError
    ensures ProcessAll(prepared, artistsOf).Success? ==>
      forall k :: 0 <= k < |prepared| ==> Processing(k, artistsOf(prepared[k])) == Success(ProcessAll(prepared, artistsOf).value[k])
  {
    if prepared != [] {
      var last := |prepared| - 1;
      var init := prepared[..last];
      ProcessAllSpec(init, artistsOf);
      assert forall k :: 0 <= k < last ==> init[k] == prepared[k];
    }
  }

  /** Once a prefix of the slices fails, the whole map fails the same way. */
  lemma {:induction false} ProcessAllPrefixFails(prepared: seq<seq<seq<real>>>, k: nat, artistsOf: BoxplotArtists)
    requires k <= |prepared| && ProcessAll(prepared[..k], artistsOf).Failure?
    ensures ProcessAll(prepared, artistsOf) == ProcessAll(prepared[..k], artistsOf)
    decreases |prepared| - k
  {
    if k < |prepared| {
      assert prepared[..k + 1][..k] == prepared[..k];
      ProcessAllPrefixFails(prepared, k + 1, artistsOf);
    } else {
      assert prepared[..k] == prepared;
    }
  }

  /** boxplot_shadows up to what it draws: the per-slice shadows, or the
      exception it raises. `med[0]` of a slice without medians raises
      while the slices are drawn. */
  function ShadowsOf(dataPerTest: seq<seq<real>>, eesHz: real, step: real, artistsOf: BoxplotArtists): (r: Result<seq<Shadow>>)
    ensures dataPerTest == [] ==> r == Failure(Exception)
    ensures dataPerTest != [] && (eesHz == 0.0 || step == 0.0) ==> r == Failure(ZeroDivisionError)
  {
    if dataPerTest == [] then Failure(Exception)
    else if eesHz == 0.0 then Failure(ZeroDivisionError)
    else
      var sliceTimeLength := SliceTimeLength(eesHz);
      if sliceTimeLength == 0 then Failure(ZeroDivisionError)
      else
        var slicesNumber := SlicesNumber(|dataPerTest[0]|, sliceTimeLength, step);
        if step == 0.0 then Failure(ZeroDivisionError)
        else
          SlicedShadows(Transpose(dataPerTest), slicesNumber, StepsInSlice(sliceTimeLength, step), artistsOf)
  }

  /** The shadows of `steps` cut into slices of `n` steps, at most `s` of
      them: the map over the slices, then `med[0]` of every slice. */
  function SlicedShadows(steps: seq<seq<real>>, s: int, n: int, artistsOf: BoxplotArtists): Result<seq<Shadow>>
  {
    match ProcessAll(Prepared(steps, s, n), artistsOf)
    case Failure(e) => Failure(e)
    case Success(shadows) =>
      if exists k :: 0 <= k < |shadows| && shadows[k].medians == [] then Failure(IndexError)
      else Success(shadows)
  }

  /** The layout of successful sliced shadows: `min(s, len(steps) // n)`
      slices (none when `n <= 0` or `s <= 0`), slice `k` processed from
      steps `k * n` to `k * n + n - 1`, each with a first median. */
  lemma SlicedLayout(steps: seq<seq<real>>, s: int, n: int, artistsOf: BoxplotArtists)
    requires SlicedShadows(steps, s, n, artistsOf).Success?
    ensures var shadows := SlicedShadows(steps, s, n, artistsOf).value;
      && (n <= 0 || s <= 0 ==> shadows == [])
      && (n > 0 && s > 0 ==> |shadows| == if s < |steps| / n then s else |steps| / n)
      && forall k :: 0 <= k < |shadows| ==>
           && k * n + n <= |steps|
           && Processing(k, artistsOf(steps[k * n .. k * n + n])) == Success(shadows[k])
           && shadows[k].medians != []
  {
    var prepared := Prepared(steps, s, n);
    ProcessAllSpec(prepared, artistsOf);
    if n > 0 {
      StepGroupsSpec(steps, n);
    }
  }

  /** What a successful boxplot_shadows draws: with `n` steps per slice,
      `min(slices_number, len(steps) // n)` slices (none when `n <= 0`);
      slice `k` is boxplot_processing of steps `k * n` to `k * n + n - 1`
      with index `k`, and it has a first median for its tick. Every step
      holds one value per test, truncated to the shortest test. */
  lemma ShadowsLayout(dataPerTest: seq<seq<real>>, eesHz: real, step: real, artistsOf: BoxplotArtists)
    requires ShadowsOf(dataPerTest, eesHz, step, artistsOf).Success?
    ensures dataPerTest != [] && eesHz != 0.0 && step != 0.0 && SliceTimeLength(eesHz) != 0
    ensures var shadows, steps := ShadowsOf(dataPerTest, eesHz, step, artistsOf).value, Transpose(dataPerTest);
      var s, n := SlicesNumber(|dataPerTest[0]|, SliceTimeLength(eesHz), step), StepsInSlice(SliceTimeLength(eesHz), step);
      && (n <= 0 || s <= 0 ==> shadows == [])
      && (n > 0 && s > 0 ==> |shadows| == if s < |steps| / n then s else |steps| / n)
      && forall k :: 0 <= k < |shadows| ==>
           && k * n + n <= |steps|
           && Processing(k, artistsOf(steps[k * n .. k * n + n])) == Success(shadows[k])
           && shadows[k].medians != []
  {
    var steps := Transpose(dataPerTest);
    var n := StepsInSlice(SliceTimeLength(eesHz), step);
    var s := SlicesNumber(|dataPerTest[0]|, SliceTimeLength(eesHz), step);
    assert ShadowsOf(dataPerTest, eesHz, step, artistsOf) == SlicedShadows(steps, s, n, artistsOf);
    SlicedLayout(steps, s, n, artistsOf);
  }

  /** A `plt.boxplot` that draws one box per step of every slice. */
  ghost predicate OneBoxPerStep(artistsOf: BoxplotArtists)
  {
    forall steps :: Drawn(artistsOf(steps), |steps|)
  }

  /** Mapping slices of `n` steps each through a boxplot with one box per
      step succeeds, and every result has lists of `n` entries. */
  lemma ProcessAllDrawn(prepared: seq<seq<seq<real>>>, n: nat, artistsOf: BoxplotArtists)
    requires OneBoxPerStep(artistsOf)
    requires forall k :: 0 <= k < |prepared| ==> |prepared[k]| == n
    ensures ProcessAll(prepared, artistsOf).Success?
    ensures forall k :: 0 <= k < |prepared| ==> AllOfLength(ProcessAll(prepared, artistsOf).value[k], n)
  {
    forall k | 0 <= k < |prepared|
      ensures Processing(k, artistsOf(prepared[k])).Success?
      ensures AllOfLength(Processing(k, artistsOf(prepared[k])).value, n)
    {
      ProcessingDrawn(k, artistsOf(prepared[k]), n);
    }
    ProcessAllSpec(prepared, artistsOf);
  }

  /** Every prepared slice holds `n` steps. */
  lemma PreparedLengths(steps: seq<seq<real>>, s: int, n: int)
    requires n > 0
    ensures forall k :: 0 <= k < |Prepared(steps, s, n)| ==> |Prepared(steps, s, n)[k]| == n
  {
    var prepared := Prepared(steps, s, n);
    forall k | 0 <= k < |prepared|
      ensures |prepared[k]| == n
    {
      StepGroupsAt(steps, n, k);
    }
  }

  /** With one box per step, the sliced shadows always succeed, and every
      list of every slice has one entry per step of the slice. */
  lemma SlicedBoxes(steps: seq<seq<real>>, s: int, n: int, artistsOf: BoxplotArtists)
    requires OneBoxPerStep(artistsOf)
    ensures SlicedShadows(steps, s, n, artistsOf).Success?
    ensures var shadows := SlicedShadows(steps, s, n, artistsOf).value;
      forall k :: 0 <= k < |shadows| ==> AllOfLength(shadows[k], n)
  {
    var prepared := Prepared(steps, s, n);
    if n > 0 {
      PreparedLengths(steps, s, n);
      ProcessAllDrawn(prepared, n, artistsOf);
      var shadows := ProcessAll(prepared, artistsOf).value;
      assert forall k :: 0 <= k < |shadows| ==> shadows[k].medians != [] by {
        forall k | 0 <= k < |shadows|
          ensures shadows[k].medians != []
        {
          assert AllOfLength(shadows[k], n);
        }
      }
    } else {
      assert StepGroups(steps, n) == [];
    }
  }

  /** With one box per step, boxplot_shadows fails only on empty input or a
      zero divisor, and each of the seven lists of every slice has one entry
      per step of the slice. */
  lemma ShadowsWithBoxes(dataPerTest: seq<seq<real>>, eesHz: real, step: real, artistsOf: BoxplotArtists)
    requires OneBoxPerStep(artistsOf)
    ensures ShadowsOf(dataPerTest, eesHz, step, artistsOf).Failure?
            <==> dataPerTest == [] || eesHz == 0.0 || SliceTimeLength(eesHz) == 0 || step == 0.0
    ensures ShadowsOf(dataPerTest, eesHz, step, artistsOf).Success? ==>
      var shadows, n := ShadowsOf(dataPerTest, eesHz, step, artistsOf).value, StepsInSlice(SliceTimeLength(eesHz), step);
      forall k :: 0 <= k < |shadows| ==> AllOfLength(shadows[k], n)
  {
    if dataPerTest != [] && eesHz != 0.0 && SliceTimeLength(eesHz) != 0 && step != 0.0 {
      var steps := Transpose(dataPerTest);
      var sliceTimeLength := SliceTimeLength(eesHz);
      var s := SlicesNumber(|dataPerTest[0]|, sliceTimeLength, step);
      var n := StepsInSlice(sliceTimeLength, step);
      assert ShadowsOf(dataPerTest, eesHz, step, artistsOf) == SlicedShadows(steps, s, n, artistsOf);
      SlicedBoxes(steps, s, n, artistsOf);
    }
  }

  /** boxplot_shadows: the parallel map is run slice by slice, in order. */
  method BoxplotShadows(dataPerTest: seq<seq<real>>, eesHz: real, step: real, artistsOf: BoxplotArtists)
    returns (r: Result<seq<Shadow>>)
    ensures r == ShadowsOf(dataPerTest, eesHz, step, artistsOf)
  {
    if dataPerTest == [] {
      return Failure(Exception);
    }
    if eesHz == 0.0 {
      return Failure(ZeroDivisionError);
    }
    var sliceTimeLength := SliceTimeLength(eesHz);
    if sliceTimeLength == 0 {
      return Failure(ZeroDivisionError);
    }
    var slicesNumber := SlicesNumber(|dataPerTest[0]|, sliceTimeLength, step);
    if step == 0.0 {
      return Failure(ZeroDivisionError);
    }
    var stepsInSlice := StepsInSlice(sliceTimeLength, step);
    var dataPerStep := Transpose(dataPerTest);
    r := ShadowsOfSlices(dataPerStep, slicesNumber, stepsInSlice, artistsOf);
  }

  /** The map over the prepared slices, then the `med[0]` of every slice. */
  method ShadowsOfSlices(dataPerStep: seq<seq<real>>, slicesNumber: int, stepsInSlice: int, artistsOf: BoxplotArtists)
    returns (r: Result<seq<Shadow>>)
    ensures r == SlicedShadows(dataPerStep, slicesNumber, stepsInSlice, artistsOf)
  {
    var prepared := Prepared(dataPerStep, slicesNumber, stepsInSlice);
    var processed := ProcessSlices(prepared, artistsOf);
    if processed.Failure? {
      return Failure(processed.error);
    }
    var ticked := AllHaveMedians(processed.value);
    if !ticked {
      return Failure(IndexError);
    }
    return processed;
  }

  /** `pool.map(boxplot_processing, prepared)`, run slice after slice. */
  method ProcessSlices(prepared: seq<seq<seq<real>>>, artistsOf: BoxplotArtists) returns (r: Result<seq<Shadow>>)
    ensures r == ProcessAll(prepared, artistsOf)
  {
    var all: seq<Shadow> := [];
    for k := 0 to |prepared|
      invariant ProcessAll(prepared[..k], artistsOf) == Success(all)
    {
      assert prepared[..k + 1][..k] == prepared[..k];
      var shadow := BoxplotProcessing(k, artistsOf(prepared[k]));
      if shadow.Failure? {
        ProcessAllPrefixFails(prepared, k + 1, artistsOf);
        return Failure(shadow.error);
      }
      all := all + [shadow.value];
    }
    assert prepared[..|prepared|] == prepared;
    return Success(all);
  }

  /** The drawing loop reaches `med[0]` of every slice; it is there exactly
      when no slice lacks medians. */
  method AllHaveMedians(all: seq<Shadow>) returns (ok: bool)
    ensures ok <==> forall k :: 0 <= k < |all| ==> all[k].medians != []
  {
    for k := 0 to |all|
      invariant forall q :: 0 <= q < k ==> all[q].medians != []
    {
      if all[k].medians == [] {
        return false;
      }
    }
    return true;
  }

  // ---------------------------------------------------------------------------
  // plot_results
  // ---------------------------------------------------------------------------

  /** `int(step / 0.025)`: samples of the 0.025 ms simulation step per
      plotted step. */
  function ChunkSize(step: real): int
  {
    Trunc(step / 0.025)
  }

  /** `[np.mean(data[i:i+c]) for i in range(start, len(data), c)]`. */
  function ChunksFrom(data: seq<real>, c: nat, start: nat): seq<real>
    requires c > 0
    decreases |data| - start
  {
    if start >= |data| then []
    else [Mean(data[start .. SliceBound(start + c, |data|)])] + ChunksFrom(data, c, start + c)
  }

  /** The chunk means of one test; `range` with a zero step raises, and a
      negative step yields nothing. */
  function ChunkMeans(data: seq<real>, c: int): (r: Result<seq<real>>)
    ensures r.Failure? <==> c == 0
    ensures r.Failure? ==> r.error == ValueError
    ensures c < 0 ==> r == Success([])
  {
    if c == 0 then Failure(ValueError)
    else if c < 0 then Success([])
    else Success(ChunksFrom(data, c, 0))
  }

  lemma {:induction false} ChunksCount(data: seq<real>, c: nat, start: nat)
    requires c > 0
    ensures start >= |data| ==> |ChunksFrom(data, c, start)| == 0
    ensures start < |data| ==>
      (|ChunksFrom(data, c, start)| - 1) * c < |data| - start <= |ChunksFrom(data, c, start)| * c
    decreases |data| - start
  {
    if start < |data| {
      ChunksCount(data, c, start + c);
      var m := |ChunksFrom(data, c, start + c)|;
      assert |ChunksFrom(data, c, start)| == m + 1;
      MulSucc(m, c);
      if start + c < |data| {
        MulSucc(m - 1, c);
      } else {
        assert m == 0;
      }
    }
  }

  lemma {:induction false} ChunksAt(data: seq<real>, c: nat, start: nat, j: nat)
    requires c > 0 && j < |ChunksFrom(data, c, start)|
    ensures start + j * c < |data|
    ensures ChunksFrom(data, c, start)[j] == Mean(data[start + j * c .. SliceBound(start + j * c + c, |data|)])
    decreases j
  {
    var rest := ChunksFrom(data, c, start + c);
    assert ChunksFrom(data, c, start) == [Mean(data[start .. SliceBound(start + c, |data|)])] + rest;
    if j > 0 {
      ChunksAt(data, c, start + c, j - 1);
      assert start + c + (j - 1) * c == start + j * c;
      assert ChunksFrom(data, c, start)[j] == rest[j - 1];
    } else {
      assert j * c == 0;
    }
  }

  /** With a positive chunk size `c` there are `ceil(len(data) / c)` means,
      and mean `j` averages samples `j * c` up to `(j + 1) * c` or the end of
      the data. */
  lemma ChunkMeansSpec(data: seq<real>, c: int)
    requires c > 0
    ensures |ChunkMeans(data, c).value| == (|data| + c - 1) / c
    ensures forall j :: 0 <= j < |ChunkMeans(data, c).value| ==>
      j * c < |data| && ChunkMeans(data, c).value[j] == Mean(data[j * c .. SliceBound(j * c + c, |data|)])
  {
    var m := |ChunksFrom(data, c, 0)|;
    ChunksCount(data, c, 0);
    if |data| == 0 {
      DivIs(c - 1, c, 0);
    } else {
      assert (m - 1) * c + c == m * c;
      DivIs(|data| + c - 1, c, m);
    }
    forall j | 0 <= j < m
      ensures j * c < |data| && ChunksFrom(data, c, 0)[j] == Mean(data[j * c .. SliceBound(j * c + c, |data|)])
    {
      ChunksAt(data, c, 0, j);
    }
  }

  /** The slimming loop of plot_results over the tests of one file. */
  method SlimTests(tests: seq<seq<real>>, step: real) returns (r: Result<seq<seq<real>>>)
    ensures r.Failure? <==> tests != [] && ChunkSize(step) == 0
    ensures r.Failure? ==> r.error == ValueError
    ensures r.Success? ==> (|r.value| == |tests|
      && forall t :: 0 <= t < |tests| ==> ChunkMeans(tests[t], ChunkSize(step)) == Success(r.value[t]))
  {
    var chunkSize := ChunkSize(step);
    var slimmed: seq<seq<real>> := [];
    for t := 0 to |tests|
      invariant |slimmed| == t
      invariant chunkSize == 0 ==> t == 0
      invariant forall q :: 0 <= q < t ==> ChunkMeans(tests[q], chunkSize) == Success(slimmed[q])
    {
      var means := ChunkMeans(tests[t], chunkSize);
      if means.Failure? {
        return Failure(means.error);
      }
      slimmed := slimmed + [means.value];
    }
    return Success(slimmed);
  }
}

/** The helpers of the analysis package: interval normalisation, the search
    for slice starts in the stimulation trace, the latency search by
    widening windows, and the small transforms applied after reading data. */
module Functions {
  import opened Common

  // ---------------------------------------------------------------------------
  // normalization
  // ---------------------------------------------------------------------------

  /** `(x - lo) * (b - a) / (hi - lo) + a`: the linear map that sends `lo` to
      `a` and `hi` to `b`. */
  function Rescale(x: real, lo: real, hi: real, a: real, b: real): real
    requires hi != lo
  {
    (x - lo) * ((b - a) / (hi - lo)) + a
  }

  /** The inverse map, from `[a, b]` back to `[lo, hi]`. */
  function Unscale(y: real, lo: real, hi: real, a: real, b: real): real
    requires a != b
  {
    (y - a) * ((hi - lo) / (b - a)) + lo
  }

  /** normalization: `[a, b]` rescaling, or the zero-relative variant that
      subtracts the first sample and divides by `|min(data)|`. */
  function Normalization(data: seq<real>, a: real, b: real, zeroRelative: bool): (r: Result<seq<real>>)
    ensures a >= b ==> r == Failure(Exception)
    ensures a < b && data == [] ==> r == Failure(if zeroRelative then IndexError else ValueError)
    ensures a < b && data != [] && zeroRelative ==> (r.Failure? <==> Min(data) == 0.0)
    ensures a < b && data != [] && !zeroRelative ==> (r.Failure? <==> Min(data) == Max(data))
    ensures r.Failure? && a < b && data != [] ==> r.error == ZeroDivisionError
    ensures r.Success? ==> |r.value| == |data|
  {
    if a >= b then Failure(Exception)
    else if zeroRelative then
      if data == [] then Failure(IndexError)
      else
        var first, minimal := data[0], Abs(Min(data));
        if minimal == 0.0 then Failure(ZeroDivisionError)
        else Success(seq(|data|, i requires 0 <= i < |data| => (data[i] - first) / minimal))
    else
      if data == [] then Failure(ValueError)
      else
        var lo, hi := Min(data), Max(data);
        if hi == lo then Failure(ZeroDivisionError)
        else Success(seq(|data|, i requires 0 <= i < |data| => Rescale(data[i], lo, hi, a, b)))
  }

  lemma MulMonotone(x: real, y: real, c: real)
    requires c > 0.0
    ensures x <= y <==> x * c <= y * c
    ensures x == y <==> x * c == y * c
  {
    if x <= y {
      assert y * c - x * c == (y - x) * c;
    } else {
      assert x * c - y * c == (x - y) * c;
    }
  }

  /** Rescaling keeps the order of the samples, sends `lo` to `a`, `hi` to
      `b`, and everything in between into `[a, b]`. */
  lemma RescaleProperties(x: real, y: real, lo: real, hi: real, a: real, b: real)
    requires lo < hi && a < b
    ensures x <= y <==> Rescale(x, lo, hi, a, b) <= Rescale(y, lo, hi, a, b)
    ensures Rescale(lo, lo, hi, a, b) == a && Rescale(hi, lo, hi, a, b) == b
    ensures lo <= x <= hi ==> a <= Rescale(x, lo, hi, a, b) <= b
  {
    var c := (b - a) / (hi - lo);
    assert c > 0.0;
    MulMonotone(x - lo, y - lo, c);
    assert Rescale(x, lo, hi, a, b) == (x - lo) * c + a;
    assert Rescale(y, lo, hi, a, b) == (y - lo) * c + a;
    assert (hi - lo) * c == b - a;
    if lo <= x <= hi {
      MulMonotone(0.0, x - lo, c);
      MulMonotone(x - lo, hi - lo, c);
    }
  }

  /** In `[a, b]` mode the output keeps the order of the input, its minimum
      becomes `a`, its maximum `b`, and every value lies in `[a, b]`. */
  lemma NormalizationInInterval(data: seq<real>, a: real, b: real, i: nat, j: nat)
    requires Normalization(data, a, b, false).Success?
    requires i < |data| && j < |data|
    ensures var out := Normalization(data, a, b, false).value;
      && (data[i] <= data[j] <==> out[i] <= out[j])
      && (data[i] == Min(data) <==> out[i] == a)
      && (data[i] == Max(data) <==> out[i] == b)
      && a <= out[i] <= b
  {
    var lo, hi := Min(data), Max(data);
    assert data[i] in data && data[j] in data;
    RescaleProperties(data[i], data[j], lo, hi, a, b);
    RescaleProperties(data[i], lo, lo, hi, a, b);
    RescaleProperties(data[i], hi, lo, hi, a, b);
    RescaleProperties(lo, data[i], lo, hi, a, b);
    RescaleProperties(hi, data[i], lo, hi, a, b);
  }

  /** The `[a, b]` output determines the input: undoing the linear map
      recovers every sample from the minimum and maximum. */
  lemma NormalizationInvertible(data: seq<real>, a: real, b: real, i: nat)
    requires Normalization(data, a, b, false).Success?
    requires i < |data|
    ensures data[i] == Unscale(Normalization(data, a, b, false).value[i], Min(data), Max(data), a, b)
  {
    var out := Normalization(data, a, b, false).value;
    var lo, hi := Min(data), Max(data);
    RescaleInverse(data[i], out[i], lo, hi, a, b);
  }

  lemma RescaleInverse(x: real, y: real, lo: real, hi: real, a: real, b: real)
    requires lo < hi && a < b && y == Rescale(x, lo, hi, a, b)
    ensures Unscale(y, lo, hi, a, b) == x
  {
    var c, d := (b - a) / (hi - lo), (hi - lo) / (b - a);
    assert c * d == 1.0;
    calc {
      (y - a) * d;
      ((x - lo) * c) * d;
      (x - lo) * (c * d);
      x - lo;
    }
  }

  /** The zero-relative output starts at 0 and keeps the order of the input. */
  lemma ZeroRelativeStartsAtZero(data: seq<real>, a: real, b: real, i: nat, j: nat)
    requires Normalization(data, a, b, true).Success?
    requires i < |data| && j < |data|
    ensures var out := Normalization(data, a, b, true).value;
      && out[0] == 0.0
      && (data[i] <= data[j] <==> out[i] <= out[j])
  {
    var out := Normalization(data, a, b, true).value;
    var minimal := Abs(Min(data));
    DivOrder(data[i] - data[0], data[j] - data[0], minimal, out[i], out[j]);
  }

  /** Dividing by a positive number keeps the order. */
  lemma DivOrder(x: real, y: real, m: real, p: real, q: real)
    requires m > 0.0 && p == x / m && q == y / m
    ensures x <= y <==> p <= q
  {
    var c := 1.0 / m;
    assert p == x * c && q == y * c;
    MulMonotone(x, y, c);
  }

  // ---------------------------------------------------------------------------
  // find_mins
  // ---------------------------------------------------------------------------

  /** The criterion used when none is given. */
  const DefaultCriterion: real := -0.5

  function Criterion(matching: Option<real>): real
  {
    if matching.None? then DefaultCriterion else matching.value
  }

  /** A slice start: a sample below its left neighbour, not above its right
      one, and below the criterion, with both neighbours present. */
  predicate IsSliceStart(a: seq<real>, crit: real, i: int)
  {
    1 <= i < |a| - 1 && a[i - 1] > a[i] && a[i] <= a[i + 1] && a[i] < crit
  }

  /** The slice starts below index `n`, in increasing order (StartsBelowSpec). */
  function StartsBelow(a: seq<real>, crit: real, n: nat): (idx: seq<nat>)
    ensures forall k :: 0 <= k < |idx| ==> idx[k] < n && IsSliceStart(a, crit, idx[k])
  {
    if n == 0 then []
    else
      var below := StartsBelow(a, crit, n - 1);
      if IsSliceStart(a, crit, n - 1) then below + [n - 1] else below
  }

  /** Every slice start below `n` is listed, and the list is strictly
      increasing. */
  lemma {:induction false} StartsBelowSpec(a: seq<real>, crit: real, n: nat)
    ensures var idx := StartsBelow(a, crit, n);
      && (forall i :: 0 <= i < n && IsSliceStart(a, crit, i) ==> i in idx)
      && (forall k, m :: 0 <= k < m < |idx| ==> idx[k] < idx[m])
  {
    if n > 0 {
      StartsBelowSpec(a, crit, n - 1);
    }
  }

  /** find_mins: every slice start of `a` under the criterion, scanned from
      index 1 to `len - 2`, with its value. */
  method FindMins(a: seq<real>, matching: Option<real>) returns (minElems: seq<real>, indexes: seq<nat>)
    ensures indexes == StartsBelow(a, Criterion(matching), |a|)
    ensures minElems == ValuesAt(a, indexes)
  {
    var crit := Criterion(matching);
    indexes, minElems := [], [];
    var i := 1;
    while i < |a| - 1
      invariant if |a| >= 2 then 1 <= i <= |a| - 1 else i == 1
      invariant indexes == StartsBelow(a, crit, i)
      invariant minElems == ValuesAt(a, indexes)
    {
      if a[i - 1] > a[i] && a[i] <= a[i + 1] && a[i] < crit {
        assert IsSliceStart(a, crit, i);
        minElems := minElems + [a[i]];
        indexes := indexes + [i];
      } else {
        assert !IsSliceStart(a, crit, i);
      }
      i := i + 1;
    }
    // The edge samples are never slice starts.
    if |a| >= 2 {
      assert i == |a| - 1;
      assert !IsSliceStart(a, crit, |a| - 1);
      assert StartsBelow(a, crit, |a|) == StartsBelow(a, crit, |a| - 1);
    } else {
      assert !IsSliceStart(a, crit, 0);
      assert StartsBelow(a, crit, 1) == StartsBelow(a, crit, 0) == [];
    }
  }

  /** With no criterion, only minima below -0.5 count. */
  lemma DefaultCriterionUsed(a: seq<real>, i: int)
    ensures IsSliceStart(a, Criterion(None), i) <==> 1 <= i < |a| - 1 && a[i - 1] > a[i] && a[i] <= a[i + 1] && a[i] < -0.5
  {
  }

  // ---------------------------------------------------------------------------
  // read_bio_data after the file is read
  // ---------------------------------------------------------------------------

  /** The part of read_bio_data after the columns are read: the slice starts
      of the stimulation column, the muscle column cut from the first start
      up to (not including) the last one, and the starts shifted so that the
      first is 0. */
  method TrimBioData(raw: seq<real>, stim: seq<real>, matching: Option<real>)
    returns (r: Result<(seq<real>, seq<int>)>)
    ensures var starts := StartsBelow(stim, Criterion(matching), |stim|);
      && (r.Failure? <==> starts == [])
      && (r.Failure? ==> r.error == IndexError)
      && (r.Success? ==>
            var (data, shifted) := r.value;
            && data == PySlice(raw, starts[0], starts[|starts| - 1])
            && |shifted| == |starts|
            && forall k :: 0 <= k < |starts| ==> shifted[k] == starts[k] as int - starts[0])
  {
    var mins, indexes := FindMins(stim, matching);
    StartsBelowSpec(stim, Criterion(matching), |stim|);
    if |indexes| == 0 {
      return Failure(IndexError);
    }
    var first := indexes[0];
    var data := PySlice(raw, first, indexes[|indexes| - 1]);
    var shifted := seq(|indexes|, k requires 0 <= k < |indexes| => indexes[k] as int - first);
    return Success((data, shifted));
  }

  /** The shifted starts begin at 0, keep the gaps between starts, and, when
      the muscle column is as long as the stimulation column, the last one is
      the length of the cut data. */
  lemma TrimmedStartsAligned(raw: seq<real>, stim: seq<real>, crit: real, data: seq<real>, shifted: seq<int>)
    requires var starts := StartsBelow(stim, crit, |stim|);
      && starts != []
      && data == PySlice(raw, starts[0], starts[|starts| - 1])
      && |shifted| == |starts|
      && forall k :: 0 <= k < |starts| ==> shifted[k] == starts[k] as int - starts[0]
    ensures shifted[0] == 0
    ensures forall k :: 0 <= k < |shifted| - 1 ==> shifted[k] < shifted[k + 1]
    ensures |raw| == |stim| ==> shifted[|shifted| - 1] == |data|
  {
    var starts := StartsBelow(stim, crit, |stim|);
    StartsBelowSpec(stim, crit, |stim|);
    var last := starts[|starts| - 1];
    if |raw| == |stim| {
      assert starts[0] <= last < |raw|;
      assert SliceBound(starts[0], |raw|) == starts[0] && SliceBound(last, |raw|) == last;
    }
  }

  // ---------------------------------------------------------------------------
  // read_nest_data: the value transform
  // ---------------------------------------------------------------------------

  /** The extracellular form of a NEST test: every sample negated and shifted
      by the negated first sample, `-d - (-test[0])`. */
  function NestTransform(test: seq<real>): (r: Result<seq<real>>)
    ensures r.Failure? <==> test == []
    ensures r.Failure? ==> r.error == IndexError
    ensures r.Success? ==> |r.value| == |test| && r.value[0] == 0.0
  {
    if test == [] then Failure(IndexError)
    else
      var first := -test[0];
      Success(seq(|test|, i requires 0 <= i < |test| => -test[i] - first))
  }

  /** The transform reverses the order of the samples and loses only the
      first sample: from it and the output, the input is recovered. */
  lemma NestTransformInvertible(test: seq<real>)
    requires test != []
    ensures var out := NestTransform(test).value;
      && (forall i :: 0 <= i < |test| ==> test[i] == test[0] - out[i])
      && (forall i, j :: 0 <= i < |test| && 0 <= j < |test| ==> (test[i] <= test[j] <==> out[j] <= out[i]))
  {
  }

  // ---------------------------------------------------------------------------
  // list_to_dict
  // ---------------------------------------------------------------------------

  /** list_to_dict: the values of the dictionary, in its order, each copied
      element by element into a fresh list. */
  method ListToDict(values: seq<seq<real>>) returns (rows: seq<seq<real>>)
    ensures rows == values
  {
    rows := [];
    for i := 0 to |values|
      invariant rows == values[..i]
    {
      var row: seq<real> := [];
      for j := 0 to |values[i]|
        invariant row == values[i][..j]
      {
        row := row + [values[i][j]];
      }
      assert values[i][..|values[i]|] == values[i];
      rows := rows + [row];
    }
    assert values[..|values|] == values;
  }

  // ---------------------------------------------------------------------------
  // find_latencies
  // ---------------------------------------------------------------------------

  /** The widening step after which every window has stopped growing (see
      WindowSaturates and WindowEmptyForNegativeStep). */
  const MaxAdditionalBorder: nat := 13

  /** The four kinds of slices, each with its own window in milliseconds. */
  datatype Group = Early | Middle | Last | Other

  /** Slices before `n / 3` are early, those before `n / 2` middle, the last
      slice is last, and any other slice is ordinary. */
  function GroupOf(k: nat, n: nat): Group
  {
    if k < n / 3 then Early
    else if k < n / 2 then Middle
    else if k == n - 1 then Last
    else Other
  }

  /** The window borders in milliseconds, widened by `ab` on each side. */
  function Borders(g: Group, ab: nat): (real, real)
  {
    match g
    case Early => (0.0, 12.5 + ab as real)
    case Middle => (20.0 / 3.0 - ab as real, 20.0 / 3.0 * 2.0 + ab as real)
    case Last => (12.5 - ab as real, 22.0 + ab as real)
    case Other => (5.0 - ab as real, 20.0 + ab as real)
  }

  /** The window in steps: the left border clamped at 0 from below and the
      right one clamped at `25 / step` from above. */
  function Window(g: Group, ab: nat, step: real): (w: (real, real))
    requires step != 0.0
  {
    var (bl, br) := Borders(g, ab);
    (if bl / step >= 0.0 then bl / step else 0.0, if br / step <= 25.0 / step then br / step else 25.0 / step)
  }

  /** The minimum values whose time lies in the window, in their order. */
  function FoundPoints(times: seq<real>, values: seq<real>, w: (real, real)): (pts: seq<real>)
    requires |values| <= |times|
    ensures forall v :: v in pts ==> v in values
  {
    if values == [] then []
    else
      var n := |values| - 1;
      var before := FoundPoints(times, values[..n], w);
      before + if w.0 <= times[n] <= w.1 then [values[n]] else []
  }

  /** The found points are exactly the values whose time lies in the window. */
  lemma {:induction false} FoundPointsSpec(times: seq<real>, values: seq<real>, w: (real, real))
    requires |values| <= |times|
    ensures forall v :: v in FoundPoints(times, values, w) <==>
      exists i :: 0 <= i < |values| && w.0 <= times[i] <= w.1 && values[i] == v
  {
    if values != [] {
      var n := |values| - 1;
      FoundPointsSpec(times, values[..n], w);
      assert forall i :: 0 <= i < n ==> values[..n][i] == values[i];
    }
  }

  /** `list.index`: the first position holding `x`. */
  function FirstIndex(s: seq<real>, x: real): (i: nat)
    requires x in s
    ensures i < |s| && s[i] == x
    ensures forall j :: 0 <= j < i ==> s[j] != x
  {
    if s[0] == x then 0 else 1 + FirstIndex(s[1..], x)
  }

  /** The windows the search of one slice tries, widened by 0, 1, ...,
      MaxAdditionalBorder. */
  function Windows(g: Group, step: real): (ws: seq<(real, real)>)
    requires step != 0.0
    ensures |ws| == MaxAdditionalBorder + 1
    ensures forall b :: 0 <= b < |ws| ==> ws[b] == Window(g, b, step)
  {
    seq(MaxAdditionalBorder + 1, b requires 0 <= b => Window(g, b, step))
  }

  /** The search through the windows `ws[ab..]`: the time of the first
      sample equal to the minimum found in the first non-empty window.
      When the last one is empty too, the source loops forever, which is
      `Diverges` here. */
  function Search(times: seq<real>, values: seq<real>, ws: seq<(real, real)>, ab: nat): (r: Result<real>)
    requires |values| <= |times| && ab < |ws|
    ensures r.Failure? ==> r.error == Diverges
    ensures r.Success? ==> exists j :: 0 <= j < |values| && r.value == times[j]
    decreases |ws| - ab
  {
    var pts := FoundPoints(times, values, ws[ab]);
    if |pts| > 0 then
      var m := Min(pts);
      Success(times[FirstIndex(values, m)])
    else if ab == |ws| - 1 then Failure(Diverges)
    else Search(times, values, ws, ab + 1)
  }

  /** The latency of one slice, searching windows widened by `ab`, `ab + 1`,
      ... */
  function LatencyFrom(times: seq<real>, values: seq<real>, g: Group, step: real, ab: nat): (r: Result<real>)
    requires step != 0.0 && |values| <= |times| && ab <= MaxAdditionalBorder
  {
    Search(times, values, Windows(g, step), ab)
  }

  /** Every window stops growing once `ab` reaches MaxAdditionalBorder: the
      left border is clamped at 0 and the right one at `25 / step`. */
  lemma WindowSaturates(g: Group, ab: nat, step: real)
    requires step > 0.0 && ab >= MaxAdditionalBorder
    ensures Window(g, ab, step) == Window(g, MaxAdditionalBorder, step) == (0.0, 25.0 / step)
  {
    var (bl, br) := Borders(g, ab);
    var (bl', br') := Borders(g, MaxAdditionalBorder);
    DivSign(bl, step);
    DivSign(bl', step);
    DivMono(25.0, br, step);
    DivMono(25.0, br', step);
  }

  /** With a negative step every window is empty: its right end lies below
      0 and its left end at or above 0. */
  lemma WindowEmptyForNegativeStep(g: Group, ab: nat, step: real)
    requires step < 0.0
    ensures Window(g, ab, step).1 < 0.0 <= Window(g, ab, step).0
  {
    var (bl, br) := Borders(g, ab);
    assert 25.0 / step < 0.0;
  }

  lemma DivSign(x: real, step: real)
    requires step > 0.0
    ensures x <= 0.0 ==> x / step <= 0.0
    ensures x >= 0.0 ==> x / step >= 0.0
  {
  }

  lemma DivMono(x: real, y: real, step: real)
    requires step > 0.0 && x <= y
    ensures x / step <= y / step
  {
    assert y / step - x / step == (y - x) / step;
  }

  /** When the search through `ws[ab..]` reports `Diverges`, every one of
      those windows is empty. */
  lemma {:induction false} SearchDiverges(times: seq<real>, values: seq<real>, ws: seq<(real, real)>, ab: nat)
    requires |values| <= |times| && ab < |ws|
    requires Search(times, values, ws, ab) == Failure(Diverges)
    ensures forall b :: ab <= b < |ws| ==> FoundPoints(times, values, ws[b]) == []
    decreases |ws| - ab
  {
    if ab < |ws| - 1 {
      SearchDiverges(times, values, ws, ab + 1);
    }
  }

  /** When the search reports `Diverges`, no window the source ever tries,
      however wide, holds a point: its `while flag` loop never stops. */
  lemma DivergesOnlyWhenNoWindowHolds(times: seq<real>, values: seq<real>, g: Group, step: real,
                                      ab: nat, later: nat)
    requires step != 0.0 && |values| <= |times| && ab <= MaxAdditionalBorder && ab <= later
    requires LatencyFrom(times, values, g, step, ab) == Failure(Diverges)
    ensures FoundPoints(times, values, Window(g, later, step)) == []
  {
    var ws := Windows(g, step);
    SearchDiverges(times, values, ws, ab);
    if later <= MaxAdditionalBorder {
      assert ws[later] == Window(g, later, step);
    } else if step > 0.0 {
      WindowSaturates(g, later, step);
      assert ws[MaxAdditionalBorder] == Window(g, later, step);
    } else {
      WindowEmptyForNegativeStep(g, later, step);
      EmptyWindowFindsNothing(times, values, Window(g, later, step));
    }
  }

  /** A window whose right end lies left of its left end holds no point. */
  lemma {:induction false} EmptyWindowFindsNothing(times: seq<real>, values: seq<real>, w: (real, real))
    requires |values| <= |times| && w.1 < w.0
    ensures FoundPoints(times, values, w) == []
  {
    if values != [] {
      EmptyWindowFindsNothing(times, values[..|values| - 1], w);
    }
  }

  /** A successful search through `ws[ab..]` stops at the first non-empty
      window and reports the time at the first position of the whole slice
      holding that window's smallest value. */
  lemma {:induction false} SearchStopsAtFirstHit(times: seq<real>, values: seq<real>, ws: seq<(real, real)>, ab: nat)
    returns (found: nat, j: nat)
    requires |values| <= |times| && ab < |ws|
    requires Search(times, values, ws, ab).Success?
    ensures ab <= found < |ws|
    ensures forall b :: ab <= b < found ==> FoundPoints(times, values, ws[b]) == []
    ensures j < |values| && Search(times, values, ws, ab).value == times[j]
    ensures values[j] in FoundPoints(times, values, ws[found])
    ensures forall v :: v in FoundPoints(times, values, ws[found]) ==> values[j] <= v
    ensures forall i :: 0 <= i < j ==> values[i] != values[j]
    decreases |ws| - ab
  {
    var pts := FoundPoints(times, values, ws[ab]);
    if |pts| > 0 {
      found := ab;
      j := FirstIndex(values, Min(pts));
    } else {
      found, j := SearchStopsAtFirstHit(times, values, ws, ab + 1);
      forall b | ab <= b < found
        ensures FoundPoints(times, values, ws[b]) == []
      {
        if b == ab {
          assert FoundPoints(times, values, ws[b]) == pts;
        }
      }
    }
  }

  /** The smallest value of the window is looked up in the whole slice, so
      an earlier sample with the same value, outside the window, gives its
      time: here the window (15, 30) holds only the sample at time 20, and
      the latency is 0. */
  lemma LatencyOutsideWindow()
    ensures Search([0.0, 10.0, 20.0], [1.0, 5.0, 1.0], [(15.0, 30.0)], 0) == Success(0.0)
  {
    var times, values := [0.0, 10.0, 20.0], [1.0, 5.0, 1.0];
    assert values[..2][..1] == [1.0] && values[..2] == [1.0, 5.0];
    assert FoundPoints(times, values[..2][..1], (15.0, 30.0)) == [];
    assert FoundPoints(times, values[..2], (15.0, 30.0)) == [];
    assert FoundPoints(times, values, (15.0, 30.0)) == [1.0];
  }

  /** The latency is the time of a sample that is the smallest of the first
      non-empty window, and every narrower window was empty. */
  lemma LatencyIsWindowMinimum(times: seq<real>, values: seq<real>, g: Group, step: real, ab: nat)
    returns (found: nat, j: nat)
    requires step != 0.0 && |values| <= |times| && ab <= MaxAdditionalBorder
    requires LatencyFrom(times, values, g, step, ab).Success?
    ensures ab <= found <= MaxAdditionalBorder
    ensures forall b :: ab <= b < found ==> FoundPoints(times, values, Window(g, b, step)) == []
    ensures j < |values| && LatencyFrom(times, values, g, step, ab).value == times[j]
    ensures values[j] in FoundPoints(times, values, Window(g, found, step))
    ensures forall v :: v in FoundPoints(times, values, Window(g, found, step)) ==> values[j] <= v
    ensures forall i :: 0 <= i < j ==> values[i] != values[j]
  {
    var ws := Windows(g, step);
    found, j := SearchStopsAtFirstHit(times, values, ws, ab);
    forall b | ab <= b < found
      ensures FoundPoints(times, values, Window(g, b, step)) == []
    {
      assert ws[b] == Window(g, b, step);
    }
    assert ws[found] == Window(g, found, step);
  }

  /** One pass of the widening loop: the latency, if `window`, the window
      `ws[ab]`, holds a point; otherwise the search moves on. */
  method SearchWindow(times: seq<real>, values: seq<real>, ghost ws: seq<(real, real)>, ab: nat, window: (real, real))
    returns (found: bool, latency: real)
    requires |values| <= |times| && ab < |ws| && ws[ab] == window
    ensures found ==> Search(times, values, ws, ab) == Success(latency)
    ensures !found && ab < |ws| - 1 ==> Search(times, values, ws, ab) == Search(times, values, ws, ab + 1)
    ensures !found && ab == |ws| - 1 ==> Search(times, values, ws, ab) == Failure(Diverges)
  {
    var foundPoints := FoundPoints(times, values, window);
    if |foundPoints| > 0 {
      var minimal := Min(foundPoints);
      var indexOfVal := FirstIndex(values, minimal);
      return true, times[indexOfVal];
    }
    return false, 0.0;
  }

  /** The widening loop of find_latencies for one slice. */
  method WindowLatency(times: seq<real>, values: seq<real>, g: Group, step: real) returns (r: Result<real>)
    requires step != 0.0 && |values| <= |times|
    ensures r == LatencyFrom(times, values, g, step, 0)
  {
    ghost var ws := Windows(g, step);
    var additionalBorder: nat := 0;
    while true
      invariant additionalBorder <= MaxAdditionalBorder
      invariant Search(times, values, ws, additionalBorder) == Search(times, values, ws, 0)
      decreases MaxAdditionalBorder - additionalBorder
    {
      var window := Window(g, additionalBorder, step);
      var found, latency := SearchWindow(times, values, ws, additionalBorder, window);
      if found {
        return Success(latency);
      }
      if additionalBorder == MaxAdditionalBorder {
        return Failure(Diverges);
      }
      additionalBorder := additionalBorder + 1;
    }
  }

  /** What the search of slice `k` gives, the errors included: a missing
      value list, a zero step, or more values than times. */
  function SliceOutcome(minTimes: seq<seq<real>>, minValues: seq<seq<real>>, step: real, k: nat): Result<real>
    requires k < |minTimes|
  {
    if k >= |minValues| then Failure(IndexError)
    else if step == 0.0 then Failure(ZeroDivisionError)
    else if |minValues[k]| > |minTimes[k]| then Failure(IndexError)
    else LatencyFrom(minTimes[k], minValues[k], GroupOf(k, |minTimes|), step, 0)
  }

  /** `j` is the first position of the smallest value, the position
      `values.index(min(values))` names. */
  predicate FirstMinimumAt(values: seq<real>, j: int)
  {
    && 0 <= j < |values|
    && (forall v :: v in values ==> values[j] <= v)
    && forall i :: 0 <= i < j ==> values[i] != values[j]
  }

  /** At most one position is the first position of the smallest value. */
  lemma FirstMinimumUnique(values: seq<real>, j: int, j': int)
    requires FirstMinimumAt(values, j) && FirstMinimumAt(values, j')
    ensures j == j'
  {
    assert values[j] in values && values[j'] in values;
    assert values[j] == values[j'];
  }

  /** The Neuron variant for one slice: the time at the first position of
      the smallest value. `min` of an empty list raises ValueError, and a
      position past the time list raises IndexError. */
  function AfferentOutcome(times: seq<real>, values: seq<real>): (r: Result<real>)
    ensures values == [] <==> r == Failure(ValueError)
    ensures values != [] ==>
      exists j :: && FirstMinimumAt(values, j)
                  && (r.Success? <==> j < |times|)
                  && (r.Success? ==> r.value == times[j])
                  && (r.Failure? ==> r.error == IndexError)
  {
    if values == [] then Failure(ValueError)
    else
      var j := FirstIndex(values, Min(values));
      assert FirstMinimumAt(values, j);
      if j >= |times| then Failure(IndexError) else Success(times[j])
  }

  /** The Neuron variant over `zip(min times, min values)`: one latency per
      pair, and the first pair whose latency fails decides the error. */
  function AfferentLatencies(minTimes: seq<seq<real>>, minValues: seq<seq<real>>): (r: Result<seq<real>>)
    ensures r.Success? ==> |r.value| == if |minTimes| <= |minValues| then |minTimes| else |minValues|
    ensures r.Success? ==> forall k :: 0 <= k < |r.value| ==>
      AfferentOutcome(minTimes[k], minValues[k]) == Success(r.value[k])
    ensures r.Failure? <==>
      exists k :: 0 <= k < |minTimes| && k < |minValues| && AfferentOutcome(minTimes[k], minValues[k]).Failure?
    ensures r.Failure? ==>
      exists k :: && 0 <= k < |minTimes| && k < |minValues|
                  && AfferentOutcome(minTimes[k], minValues[k]) == Failure(r.error)
                  && forall k' :: 0 <= k' < k ==> AfferentOutcome(minTimes[k'], minValues[k']).Success?
  {
    if minTimes == [] || minValues == [] then Success([])
    else
      match AfferentOutcome(minTimes[0], minValues[0])
      case Failure(e) => Failure(e)
      case Success(lat) =>
        match AfferentLatencies(minTimes[1..], minValues[1..])
        case Failure(e) =>
          assert forall k :: 1 <= k < |minTimes| && k < |minValues| ==>
            minTimes[1..][k - 1] == minTimes[k] && minValues[1..][k - 1] == minValues[k];
          Failure(e)
        case Success(rest) =>
          assert forall k :: 1 <= k < |minTimes| && k < |minValues| ==>
            minTimes[1..][k - 1] == minTimes[k] && minValues[1..][k - 1] == minValues[k];
          Success([lat] + rest)
  }

  function ToMs(lat: real, step: real, normToMs: bool): real
  {
    if normToMs then lat * step else lat
  }

  /** The slice loop of find_latencies without the afferent variant: each
      slice gets the latency of its widening search, and the first failing
      slice stops the run. */
  method SliceLatencies(minTimes: seq<seq<real>>, minValues: seq<seq<real>>, step: real) returns (r: Result<seq<real>>)
    ensures r.Success? <==> forall k :: 0 <= k < |minTimes| ==> SliceOutcome(minTimes, minValues, step, k).Success?
    ensures r.Success? ==> |r.value| == |minTimes|
    ensures r.Success? ==> forall k :: 0 <= k < |minTimes| ==> SliceOutcome(minTimes, minValues, step, k) == Success(r.value[k])
    ensures r.Failure? ==> exists k :: (&& 0 <= k < |minTimes| && SliceOutcome(minTimes, minValues, step, k) == Failure(r.error)
                                        && forall k' :: 0 <= k' < k ==> SliceOutcome(minTimes, minValues, step, k').Success?)
  {
    var n := |minTimes|;
    var latencies := [];
    for k := 0 to n
      invariant |latencies| == k
      invariant forall k' :: 0 <= k' < k ==> SliceOutcome(minTimes, minValues, step, k') == Success(latencies[k'])
    {
      var outcome: Result<real>;
      if k >= |minValues| {
        outcome := Failure(IndexError);
      } else if step == 0.0 {
        outcome := Failure(ZeroDivisionError);
      } else if |minValues[k]| > |minTimes[k]| {
        outcome := Failure(IndexError);
      } else {
        outcome := WindowLatency(minTimes[k], minValues[k], GroupOf(k, n), step);
      }
      assert outcome == SliceOutcome(minTimes, minValues, step, k);
      if outcome.Failure? {
        return Failure(outcome.error);
      }
      latencies := latencies + [outcome.value];
    }
    return Success(latencies);
  }

  /** find_latencies: the latencies of the chosen variant, checked to be one
      per slice (a value list shorter than the time list fails the check in
      the afferent variant), then multiplied by the step when `norm_to_ms`. */
  method FindLatencies(minTimes: seq<seq<real>>, minValues: seq<seq<real>>, step: real, withAfferent: bool, normToMs: bool)
    returns (r: Result<seq<real>>)
    ensures r.Success? ==> |r.value| == |minTimes|
    ensures !withAfferent ==>
      && (r.Success? <==> forall k :: 0 <= k < |minTimes| ==> SliceOutcome(minTimes, minValues, step, k).Success?)
      && (r.Success? ==> forall k :: 0 <= k < |minTimes| ==>
            r.value[k] == ToMs(SliceOutcome(minTimes, minValues, step, k).value, step, normToMs))
      && (r.Failure? ==> exists k :: (&& 0 <= k < |minTimes| && SliceOutcome(minTimes, minValues, step, k) == Failure(r.error)
                                        && forall k' :: 0 <= k' < k ==> SliceOutcome(minTimes, minValues, step, k').Success?))
    ensures withAfferent ==>
      var all := AfferentLatencies(minTimes, minValues);
      && (all.Failure? ==> r == Failure(all.error))
      && (all.Success? ==> (r.Success? <==> |minValues| >= |minTimes|))
      && (all.Success? && r.Failure? ==> r.error == Exception)
      && (r.Success? ==> forall k :: 0 <= k < |minTimes| ==> r.value[k] == ToMs(all.value[k], step, normToMs))
  {
    var n := |minTimes|;
    var latencies: Result<seq<real>>;
    if !withAfferent {
      latencies := SliceLatencies(minTimes, minValues, step);
    } else {
      latencies := AfferentLatencies(minTimes, minValues);
    }
    r := CheckedLatencies(latencies, n, step, normToMs);
  }

  /** The tail of find_latencies: a failure passes through, a list that is
      not one latency per slice fails the check, and the rest is scaled to
      milliseconds when `norm_to_ms`. */
  method CheckedLatencies(latencies: Result<seq<real>>, n: nat, step: real, normToMs: bool) returns (r: Result<seq<real>>)
    ensures latencies.Failure? ==> r == Failure(latencies.error)
    ensures latencies.Success? ==> (r.Success? <==> |latencies.value| == n)
    ensures latencies.Success? && r.Failure? ==> r.error == Exception
    ensures r.Success? ==> |r.value| == n
    ensures r.Success? ==> forall k :: 0 <= k < n ==> r.value[k] == ToMs(latencies.value[k], step, normToMs)
  {
    if latencies.Failure? {
      return Failure(latencies.error);
    }
    var lats := latencies.value;
    if |lats| != n {
      return Failure(Exception);
    }
    if normToMs {
      lats := seq(n, i requires 0 <= i < n => lats[i] * step);
    }
    return Success(lats);
  }
}

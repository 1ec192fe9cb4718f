/** The shadows plot: every test's trace is cut into 25 ms slices, each
    slice's traces are normalised relative to their first sample, and per
    time step the minimum, mean and maximum across tests are taken and lifted
    by an offset of half a unit per slice. A dictionary keyed by test name is
    modelled by the position of the test in the dictionary's order, so a
    slice's bucket is a map from test position to that test's samples. */
module Shadows {
  import opened Common
  import Functions

  /** The length of one slice in milliseconds. */
  const SliceDuration: int := 25

  /** Python's `//` on integers: the quotient rounded toward minus infinity. */
  function FloorDiv(i: int, d: int): int
    requires d != 0
  {
    if d > 0 then i / d else (-i) / (-d)
  }

  lemma FloorDivBounds(i: int, d: int)
    requires d != 0
    ensures d > 0 ==> d * FloorDiv(i, d) <= i < d * FloorDiv(i, d) + d
    ensures d < 0 ==> d * FloorDiv(i, d) + d < i <= d * FloorDiv(i, d)
  {
    if d < 0 {
      var q := (-i) / (-d);
      assert -i == q * (-d) + (-i) % (-d);
    }
  }

  /** For a positive divisor, `i // n == k` exactly when `i` lies in
      `[k * n, k * n + n)`. */
  lemma FloorDivIs(i: int, n: int, k: int)
    requires n > 0
    ensures FloorDiv(i, n) == k <==> k * n <= i < k * n + n
  {
    var q := FloorDiv(i, n);
    FloorDivBounds(i, n);
    if k < q {
      assert k * n + n <= q * n by { MulLe(k + 1, q, n); }
    } else if k > q {
      assert q * n + n <= k * n by { MulLe(q + 1, k, n); }
    }
  }

  /** `int(25 / sim_step)`: the number of samples in one slice. */
  function SamplesPerSlice(step: real): int
    requires step != 0.0
  {
    Trunc(25.0 / step)
  }

  /** `int(len(first test) * sim_step) // 25`: the number of slices, taken
      from the first test alone. */
  function BucketCount(first: seq<real>, step: real): int
  {
    Trunc(|first| as real * step) / SliceDuration
  }

  /** Sample `i` falls into slice `k` when `i // n == k`. */
  predicate InBucket(i: int, n: int, k: int)
  {
    n != 0 && FloorDiv(i, n) == k
  }

  /** Sample `i` has a slice to go to: `i // n` is one of the existing keys. */
  predicate Fits(i: int, n: int, count: int)
  {
    n != 0 && 0 <= FloorDiv(i, n) < count
  }

  /** The samples of one test that fall into slice `k`, in their order. */
  function SamplesIn(values: seq<real>, n: int, k: int): seq<real>
  {
    if values == [] then []
    else
      var last := |values| - 1;
      SamplesIn(values[..last], n, k) + if InBucket(last, n, k) then [values[last]] else []
  }

  /** The bucket of slice `k` once the first `upto` tests are distributed: a
      test has an entry only when one of its samples fell into the slice
      (the dictionary is a `defaultdict(list)`). */
  function ExpectedBucket(tests: seq<seq<real>>, n: int, k: int, upto: nat): map<nat, seq<real>>
    requires upto <= |tests|
  {
    map t: nat | t < upto && SamplesIn(tests[t], n, k) != [] :: SamplesIn(tests[t], n, k)
  }

  /** The bucket while test `t` is being distributed, its first `i` samples
      done. */
  function PartialBucket(tests: seq<seq<real>>, n: int, k: int, t: nat, i: nat): map<nat, seq<real>>
    requires t < |tests| && i <= |tests[t]|
  {
    var done := ExpectedBucket(tests, n, k, t);
    var part := SamplesIn(tests[t][..i], n, k);
    if part == [] then done else done[t := part]
  }

  /** __restructure_data: every sample `i` of every test is appended, in
      order, to slice `i // n` under its test. There are `count` slices
      (BucketCount of the first test); a sample whose slice is not one of
      them makes the lookup fail. */
  method RestructureData(tests: seq<seq<real>>, step: real) returns (r: Result<seq<map<nat, seq<real>>>>)
    ensures tests == [] ==> r == Failure(StopIteration)
    ensures tests != [] && step == 0.0 ==> r == Failure(ZeroDivisionError)
    ensures tests != [] && step != 0.0 ==>
      var count, n := BucketCount(tests[0], step), SamplesPerSlice(step);
      && (r.Success? <==> forall t, i :: 0 <= t < |tests| && 0 <= i < |tests[t]| ==> Fits(i, n, count))
      && (r.Failure? ==> r.error == if n == 0 then ZeroDivisionError else KeyError)
      && (r.Success? ==>
            && |r.value| == (if count < 0 then 0 else count)
            && forall k :: 0 <= k < |r.value| ==> r.value[k] == ExpectedBucket(tests, n, k, |tests|))
  {
    if tests == [] {
      return Failure(StopIteration);
    }
    var count := BucketCount(tests[0], step);
    if step == 0.0 {
      return Failure(ZeroDivisionError);
    }
    var n := SamplesPerSlice(step);
    var slots := if count < 0 then 0 else count;
    var buckets: seq<map<nat, seq<real>>> := seq(slots, _ => map[]);
    for t := 0 to |tests|
      invariant |buckets| == slots
      invariant forall k :: 0 <= k < slots ==> buckets[k] == ExpectedBucket(tests, n, k, t)
      invariant forall t', i :: 0 <= t' < t && 0 <= i < |tests[t']| ==> Fits(i, n, count)
    {
      var next := DistributeTest(buckets, tests, t, n, count);
      if next.Failure? {
        return next;
      }
      buckets := next.value;
    }
    return Success(buckets);
  }

  /** The inner loop of __restructure_data: the samples of test `t`, in
      order, each appended to its slice under the test. */
  method DistributeTest(buckets: seq<map<nat, seq<real>>>, tests: seq<seq<real>>, t: nat, n: int, count: int)
    returns (r: Result<seq<map<nat, seq<real>>>>)
    requires t < |tests|
    requires |buckets| == if count < 0 then 0 else count
    requires forall k :: 0 <= k < |buckets| ==> buckets[k] == ExpectedBucket(tests, n, k, t)
    ensures r.Success? <==> forall i :: 0 <= i < |tests[t]| ==> Fits(i, n, count)
    ensures r.Failure? ==> r.error == if n == 0 then ZeroDivisionError else KeyError
    ensures r.Success? ==> |r.value| == |buckets|
    ensures r.Success? ==> forall k :: 0 <= k < |buckets| ==> r.value[k] == ExpectedBucket(tests, n, k, t + 1)
  {
    var values := tests[t];
    var current := buckets;
    for i := 0 to |values|
      invariant |current| == |buckets|
      invariant forall k :: 0 <= k < |buckets| ==> current[k] == PartialBucket(tests, n, k, t, i)
      invariant forall i' :: 0 <= i' < i ==> Fits(i', n, count)
    {
      if n == 0 {
        assert !Fits(i, n, count);
        return Failure(ZeroDivisionError);
      }
      var sliceIndex := FloorDiv(i, n);
      if !(0 <= sliceIndex < count) {
        assert !Fits(i, n, count);
        return Failure(KeyError);
      }
      var bucket: map<nat, seq<real>> := current[sliceIndex];
      var soFar := if t in bucket then bucket[t] else [];
      var updated: map<nat, seq<real>> := bucket[t := soFar + [values[i]]];
      AppendToBucket(tests, n, t, i, sliceIndex);
      OtherBucketsKept(tests, n, t, i, sliceIndex);
      current := current[sliceIndex := updated];
    }
    forall k | 0 <= k < |buckets|
      ensures PartialBucket(tests, n, k, t, |values|) == ExpectedBucket(tests, n, k, t + 1)
    {
      assert values[..|values|] == values;
    }
    return Success(current);
  }

  /** The bucket of the sample's slice gains the sample under its test. */
  lemma AppendToBucket(tests: seq<seq<real>>, n: int, t: nat, i: nat, sliceIndex: int)
    requires t < |tests| && i < |tests[t]| && n != 0 && sliceIndex == FloorDiv(i, n)
    ensures var bucket := PartialBucket(tests, n, sliceIndex, t, i);
      var soFar := if t in bucket then bucket[t] else [];
      bucket[t := soFar + [tests[t][i]]] == PartialBucket(tests, n, sliceIndex, t, i + 1)
  {
    Distribute(tests, n, t, i, sliceIndex);
    assert t !in ExpectedBucket(tests, n, sliceIndex, t);
  }

  /** The buckets of the other slices do not change. */
  lemma OtherBucketsKept(tests: seq<seq<real>>, n: int, t: nat, i: nat, sliceIndex: int)
    requires t < |tests| && i < |tests[t]| && n != 0 && sliceIndex == FloorDiv(i, n)
    ensures forall k :: k != sliceIndex ==> PartialBucket(tests, n, k, t, i + 1) == PartialBucket(tests, n, k, t, i)
  {
    Distribute(tests, n, t, i, sliceIndex);
  }

  /** One append step of RestructureData: the sample goes to its own slice
      and the other slices are unchanged. */
  lemma Distribute(tests: seq<seq<real>>, n: int, t: nat, i: nat, sliceIndex: int)
    requires t < |tests| && i < |tests[t]| && n != 0 && sliceIndex == FloorDiv(i, n)
    ensures var prefix := tests[t][..i + 1];
      && SamplesIn(prefix, n, sliceIndex) == SamplesIn(tests[t][..i], n, sliceIndex) + [tests[t][i]]
      && forall k :: k != sliceIndex ==> SamplesIn(prefix, n, k) == SamplesIn(tests[t][..i], n, k)
  {
    assert tests[t][..i + 1][..i] == tests[t][..i];
  }

  /** For a positive slice length the samples of slice `k` are the window
      `values[k*n .. (k+1)*n]`, cut at the end of the test. */
  lemma {:induction false} BucketIsWindow(values: seq<real>, n: int, k: nat)
    requires n > 0
    ensures var lo, hi := SliceBound(k * n, |values|), SliceBound(k * n + n, |values|);
      lo <= hi && SamplesIn(values, n, k) == values[lo..hi]
  {
    var kn := k * n;
    assert 0 <= kn;
    if values != [] {
      var last := |values| - 1;
      var p := values[..last];
      BucketIsWindow(p, n, k);
      FloorDivIs(last, n, k);
      if last < kn {
        assert SamplesIn(values, n, k) == SamplesIn(p, n, k) == [];
      } else if last < kn + n {
        assert SamplesIn(values, n, k) == p[kn..last] + [values[last]];
        assert values[kn..last + 1] == p[kn..last] + [values[last]];
      } else {
        assert SamplesIn(values, n, k) == p[kn..kn + n] == values[kn..kn + n];
      }
    }
  }

  /** Every sample of a test has a slice exactly when the test is no longer
      than `count` slices: a longer tail is not cut off, it fails. */
  lemma FitsIff(len: nat, n: int, count: int)
    requires n > 0 && len > 0
    ensures (forall i :: 0 <= i < len ==> Fits(i, n, count)) <==> len <= count * n
  {
    if forall i :: 0 <= i < len ==> Fits(i, n, count) {
      LastFits(len, n, count);
    }
    if len <= count * n {
      forall i | 0 <= i < len
        ensures Fits(i, n, count)
      {
        EarlierFits(i, len, n, count);
      }
    }
  }

  lemma LastFits(len: nat, n: int, count: int)
    requires n > 0 && len > 0 && Fits(len - 1, n, count)
    ensures len <= count * n
  {
    FloorDivBounds(len - 1, n);
    MulLe(FloorDiv(len - 1, n) + 1, count, n);
  }

  lemma EarlierFits(i: nat, len: nat, n: int, count: int)
    requires n > 0 && i < len <= count * n
    ensures Fits(i, n, count)
  {
    FloorDivBounds(i, n);
    if FloorDiv(i, n) >= count {
      MulLe(count, FloorDiv(i, n), n);
    }
  }

  /** The slices of one test, laid end to end, give back its first
      `count * n` samples: no sample is lost or repeated. */
  lemma {:induction false} NoSampleLost(values: seq<real>, n: int, count: nat)
    requires n > 0
    ensures Flatten(seq(count, k requires 0 <= k < count => SamplesIn(values, n, k))) == values[..SliceBound(count * n, |values|)]
  {
    var parts := seq(count, k requires 0 <= k < count => SamplesIn(values, n, k));
    if count > 0 {
      var c := count - 1;
      NoSampleLost(values, n, c);
      assert parts[..c] == seq(c, k requires 0 <= k < c => SamplesIn(values, n, k));
      BucketIsWindow(values, n, c);
      var lo, hi := SliceBound(c * n, |values|), SliceBound(count * n, |values|);
      assert c * n + n == count * n by { MulSucc(c, n); }
      assert Flatten(parts) == Flatten(parts[..c]) + parts[c];
      assert parts[c] == values[lo..hi];
      assert values[..lo] + values[lo..hi] == values[..hi];
    }
  }

  // ---------------------------------------------------------------------------
  // The envelope of one slice
  // ---------------------------------------------------------------------------

  /** The rows of a bucket in the dictionary's order, which is the order of
      the tests. */
  function Rows(bucket: map<nat, seq<real>>, upto: nat): (rows: seq<seq<real>>)
    ensures |rows| <= upto
  {
    if upto == 0 then []
    else
      var before := Rows(bucket, upto - 1);
      if upto - 1 in bucket then before + [bucket[upto - 1]] else before
  }

  /** The zero-relative normalisation of one test as __plot runs it. The
      samples are numpy scalars, so a zero minimum raises nothing: numpy
      divides by zero with a warning and the test turns into infinities and
      NaNs, written `None` here (those values are not modelled). An empty
      test still fails on `data[0]`. */
  function PlotNormalization(row: seq<real>): (r: Result<Option<seq<real>>>)
    ensures r.Failure? <==> row == []
    ensures r.Failure? ==> r.error == IndexError
    ensures r == Success(None) <==> row != [] && Min(row) == 0.0
    ensures r.Success? && r.value.Some? ==>
      && |r.value.value| == |row|
      && forall i :: 0 <= i < |row| ==> r.value.value[i] == (row[i] - row[0]) / Abs(Min(row))
  {
    var normalized := Functions.Normalization(row, 0.0, 1.0, true);
    if normalized.Success? then Success(Some(normalized.value))
    else if normalized.error == ZeroDivisionError then Success(None)
    else Failure(normalized.error)
  }

  /** Every row of a bucket replaced by its zero-relative normalisation; the
      first failing row stops it (NormalizedRowsSpec). */
  function NormalizedRows(rows: seq<seq<real>>): (r: Result<seq<Option<seq<real>>>>)
    ensures r.Success? ==> |r.value| == |rows|
  {
    if rows == [] then Success([])
    else
      var last := |rows| - 1;
      match NormalizedRows(rows[..last])
      case Failure(e) => Failure(e)
      case Success(done) =>
        match PlotNormalization(rows[last])
        case Failure(e) => Failure(e)
        case Success(row) => Success(done + [row])
  }

  /** The normalisation of a bucket succeeds exactly when no test is empty;
      each test is then replaced by its own normalisation, and otherwise the
      first empty test raises IndexError. */
  lemma {:induction false} NormalizedRowsSpec(rows: seq<seq<real>>)
    ensures var r := NormalizedRows(rows);
      && (r.Success? <==> forall k :: 0 <= k < |rows| ==> rows[k] != [])
      && (r.Success? ==> forall k :: 0 <= k < |rows| ==> Success(r.value[k]) == PlotNormalization(rows[k]))
      && (r.Failure? ==> r.error == IndexError)
  {
    if rows != [] {
      var last := |rows| - 1;
      NormalizedRowsSpec(rows[..last]);
      assert forall k :: 0 <= k < last ==> rows[..last][k] == rows[k];
    }
  }

  /** Once a prefix of the rows fails, the whole bucket fails the same way. */
  lemma {:induction false} NormalizedPrefixFails(rows: seq<seq<real>>, m: nat)
    requires m <= |rows| && NormalizedRows(rows[..m]).Failure?
    ensures NormalizedRows(rows) == NormalizedRows(rows[..m])
  {
    if m == |rows| {
      assert rows[..m] == rows;
    } else {
      var last := |rows| - 1;
      assert rows[..last][..m] == rows[..m];
      NormalizedPrefixFails(rows[..last], m);
    }
  }

  /** The loop of __plot that replaces each test of the slice by its
      normalisation. */
  method NormalizeTests(rows: seq<seq<real>>) returns (r: Result<seq<Option<seq<real>>>>)
    ensures r == NormalizedRows(rows)
  {
    var tests: seq<Option<seq<real>>> := [];
    for k := 0 to |rows|
      invariant NormalizedRows(rows[..k]) == Success(tests)
    {
      assert rows[..k + 1][..k] == rows[..k];
      var normalized := PlotNormalization(rows[k]);
      if normalized.Failure? {
        NormalizedPrefixFails(rows, k + 1);
        return Failure(normalized.error);
      }
      tests := tests + [normalized.value];
    }
    assert rows[..|rows|] == rows;
    return Success(tests);
  }

  /** The per-step mean line and the two envelope bounds of one slice. */
  datatype Envelope = Envelope(means: seq<real>, lows: seq<real>, highs: seq<real>)

  /** Mean, minimum and maximum of every step across the tests (`zip(*tests)`
      stops at the shortest test), each lifted by `offset`. */
  function EnvelopeOf(rows: seq<seq<real>>, offset: real): (e: Envelope)
    ensures |e.means| == |e.lows| == |e.highs| == Shortest(rows)
  {
    var cols := Transpose(rows);
    Envelope(seq(|cols|, j requires 0 <= j < |cols| => Mean(cols[j]) + offset),
             seq(|cols|, j requires 0 <= j < |cols| => Min(cols[j]) + offset),
             seq(|cols|, j requires 0 <= j < |cols| => Max(cols[j]) + offset))
  }

  /** At every step the lower bound is the smallest test value, the upper
      bound the largest, the mean lies between them, and all three carry the
      same offset. */
  lemma EnvelopeBounds(rows: seq<seq<real>>, offset: real, j: nat)
    requires j < Shortest(rows)
    ensures var e := EnvelopeOf(rows, offset);
      && e.lows[j] <= e.means[j] <= e.highs[j]
      && (forall t :: 0 <= t < |rows| ==> e.lows[j] <= rows[t][j] + offset <= e.highs[j])
      && (exists t :: 0 <= t < |rows| && e.lows[j] == rows[t][j] + offset)
      && (exists t :: 0 <= t < |rows| && e.highs[j] == rows[t][j] + offset)
  {
    var col := EnvelopeAt(rows, offset, j);
    var lo, hi := ColumnExtremes(col);
    assert col[lo] == rows[lo][j] && col[hi] == rows[hi][j];
  }

  /** Step `j` of the envelope is taken from column `j` of the tests. */
  lemma EnvelopeAt(rows: seq<seq<real>>, offset: real, j: nat) returns (col: seq<real>)
    requires j < Shortest(rows)
    ensures |col| == |rows| > 0
    ensures forall t :: 0 <= t < |rows| ==> col[t] == rows[t][j]
    ensures var e := EnvelopeOf(rows, offset);
      && e.means[j] == Mean(col) + offset && e.lows[j] == Min(col) + offset && e.highs[j] == Max(col) + offset
  {
    col := Transpose(rows)[j];
  }

  /** The minimum, mean and maximum of a column are ordered, bound every
      entry, and the extremes are taken at positions `lo` and `hi`. */
  lemma ColumnExtremes(col: seq<real>) returns (lo: nat, hi: nat)
    requires |col| > 0
    ensures Min(col) <= Mean(col) <= Max(col)
    ensures forall t :: 0 <= t < |col| ==> Min(col) <= col[t] <= Max(col)
    ensures lo < |col| && col[lo] == Min(col)
    ensures hi < |col| && col[hi] == Max(col)
  {
    MeanBetween(col);
    forall t | 0 <= t < |col|
      ensures Min(col) <= col[t] <= Max(col)
    {
      assert col[t] in col;
    }
    lo :| 0 <= lo < |col| && col[lo] == Min(col);
    hi :| 0 <= hi < |col| && col[hi] == Max(col);
  }

  /** What __plot draws for one slice: the envelope of its normalised tests,
      or, when some test has a zero minimum, lines of `steps` infinite or NaN
      values that the model does not compute. */
  datatype Shade = Drawn(envelope: Envelope) | NonFinite(steps: nat)

  /** The normalised tests of a slice when none of them is infinite or NaN. */
  function FiniteTests(normalized: seq<Option<seq<real>>>): seq<seq<real>>
    requires forall k :: 0 <= k < |normalized| ==> normalized[k].Some?
  {
    seq(|normalized|, k requires 0 <= k < |normalized| => normalized[k].value)
  }

  /** The shade of one slice's tests lifted by `offset`: the tests
      normalised, then their envelope. The first mean value labels the slice,
      so a slice without any step fails; normalising keeps each test's
      length, so the steps are those of the shortest raw test. */
  function ShadeOf(rows: seq<seq<real>>, offset: real): Result<Shade>
  {
    match NormalizedRows(rows)
    case Failure(e) => Failure(e)
    case Success(tests) =>
      if Shortest(rows) == 0 then Failure(IndexError)
      else if forall k :: 0 <= k < |tests| ==> tests[k].Some? then
        Success(Drawn(EnvelopeOf(FiniteTests(tests), offset)))
      else Success(NonFinite(Shortest(rows)))
  }

  /** One slice of the shadows plot: its tests, lifted by `slice * 0.5`. */
  function SliceShadow(bucket: map<nat, seq<real>>, testCount: nat, slice: nat): Result<Shade>
  {
    ShadeOf(Rows(bucket, testCount), slice as real * 0.5)
  }

  /** A slice fails only when it has no step, and then with IndexError. */
  lemma ShadeFails(rows: seq<seq<real>>, offset: real)
    ensures ShadeOf(rows, offset).Failure? <==> Shortest(rows) == 0
    ensures ShadeOf(rows, offset).Failure? ==> ShadeOf(rows, offset).error == IndexError
  {
    NormalizedRowsSpec(rows);
    if Shortest(rows) > 0 {
      assert forall k :: 0 <= k < |rows| ==> rows[k] != [];
    }
  }

  /** A slice with steps is drawn with non-finite values exactly when one of
      its tests has a zero minimum; otherwise its envelope covers every step
      of the shortest test. */
  lemma ShadeDrawn(rows: seq<seq<real>>, offset: real)
    requires Shortest(rows) > 0
    ensures ShadeOf(rows, offset).Success?
    ensures ShadeOf(rows, offset).value.NonFinite? <==> exists k :: 0 <= k < |rows| && Min(rows[k]) == 0.0
    ensures ShadeOf(rows, offset).value.NonFinite? ==> ShadeOf(rows, offset).value.steps == Shortest(rows)
    ensures ShadeOf(rows, offset).value.Drawn? ==> |ShadeOf(rows, offset).value.envelope.means| == Shortest(rows)
  {
    assert forall k :: 0 <= k < |rows| ==> rows[k] != [];
    NormalizedRowsSpec(rows);
    var tests := NormalizedRows(rows).value;
    assert forall k :: 0 <= k < |rows| ==> (tests[k].None? <==> Min(rows[k]) == 0.0);
    if forall k :: 0 <= k < |tests| ==> tests[k].Some? {
      var finite := FiniteTests(tests);
      assert forall k :: 0 <= k < |rows| ==> |finite[k]| == |rows[k]|;
      ShortestOfSameLengths(finite, rows);
    }
  }

  /** Rows of the same lengths have the same shortest length. */
  lemma {:induction false} ShortestOfSameLengths(a: seq<seq<real>>, b: seq<seq<real>>)
    requires |a| == |b| && forall k :: 0 <= k < |a| ==> |a[k]| == |b[k]|
    ensures Shortest(a) == Shortest(b)
  {
    if |a| > 1 {
      ShortestOfSameLengths(a[1..], b[1..]);
    }
  }

  /** The slice loop of __plot: one shade per slice, in slice order; the
      first failing slice stops it. */
  method PlotEnvelopes(buckets: seq<map<nat, seq<real>>>, testCount: nat) returns (r: Result<seq<Shade>>)
    ensures r.Success? <==> forall s :: 0 <= s < |buckets| ==> SliceShadow(buckets[s], testCount, s).Success?
    ensures r.Success? ==> |r.value| == |buckets|
    ensures r.Success? ==> forall s :: 0 <= s < |buckets| ==> SliceShadow(buckets[s], testCount, s) == Success(r.value[s])
    ensures r.Failure? ==> exists s :: 0 <= s < |buckets| && SliceShadow(buckets[s], testCount, s) == Failure(r.error)
  {
    var shades: seq<Shade> := [];
    for s := 0 to |buckets|
      invariant |shades| == s
      invariant forall s' :: 0 <= s' < s ==> SliceShadow(buckets[s'], testCount, s') == Success(shades[s'])
    {
      var offset := s as real * 0.5;
      var rows := Rows(buckets[s], testCount);
      var tests := NormalizeTests(rows);
      if tests.Failure? {
        assert SliceShadow(buckets[s], testCount, s) == Failure(tests.error);
        return Failure(tests.error);
      }
      if Shortest(rows) == 0 {
        assert SliceShadow(buckets[s], testCount, s) == Failure(IndexError);
        return Failure(IndexError);
      }
      var shade: Shade;
      if forall k :: 0 <= k < |tests.value| ==> tests.value[k].Some? {
        shade := Drawn(EnvelopeOf(FiniteTests(tests.value), offset));
      } else {
        shade := NonFinite(Shortest(rows));
      }
      assert SliceShadow(buckets[s], testCount, s) == Success(shade);
      shades := shades + [shade];
    }
    return Success(shades);
  }
}

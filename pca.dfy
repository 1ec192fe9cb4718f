/** The per-slice feature extraction of analysis/PCA.py: cutting a trace into
    slices, strict local extrema (`argrelextrema`) with the twin filter, the
    latency search on the gradient, the pairing of maxima with minima into
    peaks, and the per-slice peak count and amplitude area. The box
    smoothing (`np.convolve`) and `np.gradient` are modelled; `np.percentile`
    is a parameter. */
module Pca {
  import opened Common

  // ---------------------------------------------------------------------------
  // split_by_slices
  // ---------------------------------------------------------------------------

  /** `data[beg:beg + len]` for every `beg` in `range(0, len(data) + 1, len)`. */
  function Chunks(data: seq<real>, len: nat): (cs: seq<seq<real>>)
    requires len > 0
    ensures |cs| == |data| / len + 1
    ensures forall k :: 0 <= k < |cs| ==> k * len <= |data|
  {
    var count := |data| / len + 1;
    assert forall k :: 0 <= k < count ==> k * len <= |data| by {
      forall k | 0 <= k < count ensures k * len <= |data| {
        BlockFits(k, |data|, len);
      }
    }
    seq(count, k requires 0 <= k < count =>
      data[k * len .. if k * len + len <= |data| then k * len + len else |data|])
  }

  /** split_by_slices: cut `data` into slices of `len` samples and drop the
      last chunk when its length differs from the first one's. A zero step
      makes `range` raise; a negative one leaves no chunk to index. */
  function SplitBySlices(data: seq<real>, len: int): Result<seq<seq<real>>>
  {
    if len == 0 then Failure(ValueError)
    else if len < 0 then Failure(IndexError)
    else
      var chunks := Chunks(data, len);
      if |chunks[0]| != |chunks[|chunks| - 1]| then Success(chunks[..|chunks| - 1])
      else Success(chunks)
  }

  /** A trace at least one slice long is cut into exactly `|data| / len`
      slices of `len` samples, slice `k` being `data[k*len .. (k+1)*len]`. */
  lemma SplitBySlicesFull(data: seq<real>, len: int)
    requires 0 < len <= |data|
    ensures SplitBySlices(data, len).Success?
    ensures var slices := SplitBySlices(data, len).value;
      && |slices| == |data| / len
      && forall k :: 0 <= k < |slices| ==>
           (k + 1) * len <= |data| && |slices[k]| == len && slices[k] == data[k * len .. (k + 1) * len]
  {
    var chunks := Chunks(data, len);
    var n := |data| / len;
    ChunkFull(data, len, 0);
    LastChunkShort(data, len);
    assert |chunks[0]| == len > |chunks[n]|;
    var slices := chunks[..n];
    assert SplitBySlices(data, len) == Success(slices);
    forall k | 0 <= k < |slices|
      ensures (k + 1) * len <= |data| && |slices[k]| == len && slices[k] == data[k * len .. (k + 1) * len]
    {
      ChunkFull(data, len, k);
      assert slices[k] == chunks[k];
    }
  }

  /** Every chunk before the last one holds `len` samples. */
  lemma ChunkFull(data: seq<real>, len: nat, k: nat)
    requires 0 < len && k < |data| / len
    ensures (k + 1) * len <= |data|
    ensures Chunks(data, len)[k] == data[k * len .. (k + 1) * len]
  {
    BlockFits(k, |data|, len);
    MulSucc(k, len);
  }

  /** The last chunk holds the remainder, shorter than `len`. */
  lemma LastChunkShort(data: seq<real>, len: nat)
    requires 0 < len
    ensures |Chunks(data, len)[|data| / len]| < len
  {
    var n := |data| / len;
    var m := n * len;
    WholeBlocks(|data|, len);
    assert m <= |data| < m + len;
    assert Chunks(data, len)[n] == data[m..|data|];
  }

  /** A trace shorter than one slice is kept whole, as the single chunk. */
  lemma SplitBySlicesShort(data: seq<real>, len: int)
    requires 0 < len && |data| < len
    ensures SplitBySlices(data, len) == Success([data])
  {
    assert |data| / len == 0;
    var chunks := Chunks(data, len);
    assert |chunks| == 1;
    assert chunks[0] == data[0 .. |data|];
    assert data[0 .. |data|] == data;
    assert chunks == [data];
  }

  /** Joining the slices gives back a prefix of the trace: only the tail
      shorter than one slice is lost. */
  lemma SplitBySlicesPrefix(data: seq<real>, len: int)
    requires 0 < len
    ensures SplitBySlices(data, len).Success?
    ensures var joined := Flatten(SplitBySlices(data, len).value);
      joined <= data && |data| - |joined| < len
  {
    if |data| < len {
      SplitBySlicesShort(data, len);
      assert Flatten([data]) == Flatten([]) + data;
    } else {
      SplitBySlicesFull(data, len);
      var slices := SplitBySlices(data, len).value;
      forall k | 0 <= k < |slices|
        ensures 0 <= k * len && k * len + len <= |data| && slices[k] == data[k * len .. k * len + len]
      {
        MulSucc(k, len);
        MulMono(0, k, len);
      }
      JoinedSlices(data, len, slices);
      WholeBlocks(|data|, len);
      assert |slices| * len == (|data| / len) * len;
    }
  }

  lemma {:induction false} JoinedSlices(data: seq<real>, len: nat, slices: seq<seq<real>>)
    requires forall k :: 0 <= k < |slices| ==>
      0 <= k * len && k * len + len <= |data| && slices[k] == data[k * len .. k * len + len]
    ensures 0 <= |slices| * len <= |data|
    ensures Flatten(slices) == data[.. |slices| * len]
  {
    MulMono(0, |slices|, len);
    if slices != [] {
      var n := |slices| - 1;
      var prefix := slices[..n];
      forall k | 0 <= k < n
        ensures 0 <= k * len && k * len + len <= |data| && prefix[k] == data[k * len .. k * len + len]
      {
        assert prefix[k] == slices[k];
      }
      JoinedSlices(data, len, prefix);
      var m := n * len;
      MulSucc(n, len);
      assert |slices| * len == m + len;
      assert m + len <= |data| && slices[n] == data[m .. m + len];
      assert Flatten(slices) == Flatten(prefix) + slices[n];
      assert data[.. m + len] == data[.. m] + data[m .. m + len];
    }
  }

  // ---------------------------------------------------------------------------
  // argrelextrema and find_extrema
  // ---------------------------------------------------------------------------

  /** The comparator handed to `argrelextrema`: `np.greater` or `np.less`. */
  datatype Comparator = Greater | Less

  predicate Beats(cmp: Comparator, x: real, y: real)
  {
    match cmp
    case Greater => x > y
    case Less => x < y
  }

  /** A strict local extremum with both neighbours present (scipy's
      `argrelextrema` with `order=1`: the clipped edge samples compare with
      themselves and never qualify). */
  predicate IsStrictExtremum(a: seq<real>, cmp: Comparator, i: int)
  {
    0 < i < |a| - 1 && Beats(cmp, a[i], a[i - 1]) && Beats(cmp, a[i], a[i + 1])
  }

  predicate StrictlyIncreasing(idx: seq<nat>)
  {
    forall k, m :: 0 <= k < m < |idx| ==> idx[k] < idx[m]
  }

  /** The strict extrema of `a` below index `n`, in increasing order. */
  function ExtremaBelow(a: seq<real>, cmp: Comparator, n: nat): (idx: seq<nat>)
    ensures forall k :: 0 <= k < |idx| ==> idx[k] < n && IsStrictExtremum(a, cmp, idx[k])
    ensures forall i :: 0 <= i < n && IsStrictExtremum(a, cmp, i) ==> i in idx
  {
    if n == 0 then []
    else
      var below := ExtremaBelow(a, cmp, n - 1);
      if IsStrictExtremum(a, cmp, n - 1) then below + [n - 1] else below
  }

  /** The strict extrema are listed in increasing order. */
  lemma {:induction false} ExtremaBelowIncreasing(a: seq<real>, cmp: Comparator, n: nat)
    ensures StrictlyIncreasing(ExtremaBelow(a, cmp, n))
  {
    if n > 0 {
      var below := ExtremaBelow(a, cmp, n - 1);
      ExtremaBelowIncreasing(a, cmp, n - 1);
      if IsStrictExtremum(a, cmp, n - 1) {
        assert ExtremaBelow(a, cmp, n) == below + [n - 1];
        AppendIncreasing(below, n - 1);
      } else {
        assert ExtremaBelow(a, cmp, n) == below;
      }
    }
  }

  /** Appending an index above all others keeps a list increasing. */
  lemma AppendIncreasing(idx: seq<nat>, x: nat)
    requires StrictlyIncreasing(idx)
    requires forall k :: 0 <= k < |idx| ==> idx[k] < x
    ensures StrictlyIncreasing(idx + [x])
  {
    var longer := idx + [x];
    forall k, m | 0 <= k < m < |longer| ensures longer[k] < longer[m] {
      assert longer[k] == idx[k];
      if m < |idx| {
        assert longer[m] == idx[m];
      }
    }
  }

  /** Prepending an index below all others keeps a list increasing. */
  lemma PrependIncreasing(x: nat, idx: seq<nat>)
    requires StrictlyIncreasing(idx)
    requires forall k :: 0 <= k < |idx| ==> x < idx[k]
    ensures StrictlyIncreasing([x] + idx)
  {
    var longer := [x] + idx;
    forall k, m | 0 <= k < m < |longer| ensures longer[k] < longer[m] {
      assert longer[m] == idx[m - 1];
      if k > 0 {
        assert longer[k] == idx[k - 1];
      }
    }
  }

  /** `argrelextrema(a, cmp)[0]`. */
  function RawExtrema(a: seq<real>, cmp: Comparator): seq<nat>
  {
    ExtremaBelow(a, cmp, |a|)
  }

  /** The twin filter: keep an extremum when the next one has a different
      value, and always keep the last. */
  function DropTwins(idx: seq<nat>, vals: seq<real>): (kept: seq<nat>)
    requires |idx| == |vals| > 0
    ensures |kept| > 0 && kept[|kept| - 1] == idx[|idx| - 1]
  {
    var rest := if |idx| == 1 then [] else DropTwins(idx[1..], vals[1..]);
    if |idx| == 1 then idx
    else if Abs(vals[1] - vals[0]) > 0.0 then [idx[0]] + rest
    else rest
  }

  /** find_extrema: `None` when the raw extrema are empty, otherwise the
      filtered indexes and the samples at them. */
  function FindExtrema(a: seq<real>, cmp: Comparator): (r: Option<(seq<nat>, seq<real>)>)
    ensures r.None? <==> forall i :: !IsStrictExtremum(a, cmp, i)
    ensures r.Some? ==>
      var (idx, vals) := r.value;
      && |idx| > 0
      && |vals| == |idx|
      && forall k :: 0 <= k < |idx| ==> IsStrictExtremum(a, cmp, idx[k]) && vals[k] == a[idx[k]]
  {
    var raw := RawExtrema(a, cmp);
    if |raw| == 0 then
      None
    else
      var kept := DropTwins(raw, ValuesAt(a, raw));
      DropTwinsSubset(raw, ValuesAt(a, raw));
      Some((kept, ValuesAt(a, kept)))
  }

  /** find_extrema returns its indexes in increasing order. */
  lemma FindExtremaIncreasing(a: seq<real>, cmp: Comparator)
    requires FindExtrema(a, cmp).Some?
    ensures StrictlyIncreasing(FindExtrema(a, cmp).value.0)
  {
    var raw := RawExtrema(a, cmp);
    ExtremaBelowIncreasing(a, cmp, |a|);
    DropTwinsIncreasing(raw, ValuesAt(a, raw));
  }

  lemma {:induction false} DropTwinsIncreasing(idx: seq<nat>, vals: seq<real>)
    requires |idx| == |vals| > 0 && StrictlyIncreasing(idx)
    ensures StrictlyIncreasing(DropTwins(idx, vals))
    ensures forall k :: 0 <= k < |DropTwins(idx, vals)| ==> idx[0] <= DropTwins(idx, vals)[k]
  {
    if |idx| > 1 {
      var rest := DropTwins(idx[1..], vals[1..]);
      DropTwinsIncreasing(idx[1..], vals[1..]);
      assert idx[1..][0] == idx[1] && idx[0] < idx[1];
      var kept := DropTwins(idx, vals);
      if Abs(vals[1] - vals[0]) > 0.0 {
        assert kept == [idx[0]] + rest;
        PrependIncreasing(idx[0], rest);
      } else {
        assert kept == rest;
      }
    }
  }

  lemma {:induction false} DropTwinsSubset(idx: seq<nat>, vals: seq<real>)
    requires |idx| == |vals| > 0
    ensures forall k :: 0 <= k < |DropTwins(idx, vals)| ==> DropTwins(idx, vals)[k] in idx
  {
    if |idx| > 1 {
      DropTwinsSubset(idx[1..], vals[1..]);
      assert forall x :: x in idx[1..] ==> x in idx;
    }
  }

  /** The twin rule of find_extrema: raw extremum `k` survives exactly when it
      is the last one or the next raw extremum has a different value. */
  lemma {:induction false} DropTwinsKeeps(idx: seq<nat>, vals: seq<real>, k: nat)
    requires |idx| == |vals| > 0 && StrictlyIncreasing(idx) && k < |idx|
    ensures idx[k] in DropTwins(idx, vals) <==> (k == |idx| - 1 || vals[k] != vals[k + 1])
  {
    if |idx| > 1 {
      if k == 0 {
        DropTwinsHead(idx, vals);
      } else {
        DropTwinsTail(idx, vals, k);
        DropTwinsKeeps(idx[1..], vals[1..], k - 1);
        assert idx[1..][k - 1] == idx[k] && vals[1..][k - 1] == vals[k];
        if k < |idx| - 1 {
          assert vals[1..][k] == vals[k + 1];
        }
      }
    }
  }

  /** The first raw extremum survives exactly when the second has another value. */
  lemma DropTwinsHead(idx: seq<nat>, vals: seq<real>)
    requires |idx| == |vals| > 1 && StrictlyIncreasing(idx)
    ensures idx[0] in DropTwins(idx, vals) <==> vals[0] != vals[1]
  {
    var rest := DropTwins(idx[1..], vals[1..]);
    DropTwinsIncreasing(idx[1..], vals[1..]);
    assert idx[1..][0] == idx[1] && idx[0] < idx[1];
    assert idx[0] !in rest by {
      assert forall m :: 0 <= m < |rest| ==> idx[1] <= rest[m];
    }
    assert DropTwins(idx, vals) == (if vals[1] != vals[0] then [idx[0]] + rest else rest);
  }

  /** A later raw extremum survives exactly when it survives the filter of the
      tail. */
  lemma DropTwinsTail(idx: seq<nat>, vals: seq<real>, k: nat)
    requires |idx| == |vals| > 1 && StrictlyIncreasing(idx) && 0 < k < |idx|
    ensures StrictlyIncreasing(idx[1..])
    ensures idx[k] in DropTwins(idx, vals) <==> idx[k] in DropTwins(idx[1..], vals[1..])
  {
    var rest := DropTwins(idx[1..], vals[1..]);
    assert idx[0] < idx[k];
    assert DropTwins(idx, vals) == (if vals[1] != vals[0] then [idx[0]] + rest else rest);
  }

  /** The filter of find_extrema, stated on the raw extrema of `a`: a raw
      extremum is dropped only when the next raw extremum has the same value,
      and the last raw extremum is always kept. */
  lemma FindExtremaTwinRule(a: seq<real>, cmp: Comparator, k: nat)
    requires k < |RawExtrema(a, cmp)|
    ensures FindExtrema(a, cmp).Some?
    ensures var raw := RawExtrema(a, cmp);
      raw[k] in FindExtrema(a, cmp).value.0 <==> (k == |raw| - 1 || a[raw[k]] != a[raw[k + 1]])
  {
    var raw := RawExtrema(a, cmp);
    ExtremaBelowIncreasing(a, cmp, |a|);
    DropTwinsKeeps(raw, ValuesAt(a, raw), k);
  }

  // ---------------------------------------------------------------------------
  // list3d
  // ---------------------------------------------------------------------------

  /** list3d: `h` rows of `w` empty lists. */
  function List3d<T>(h: nat, w: nat): (r: seq<seq<seq<T>>>)
    ensures |r| == h
    ensures forall i :: 0 <= i < h ==> |r[i]| == w && forall j :: 0 <= j < w ==> r[i][j] == []
  {
    seq(h, _ => seq(w, _ => []))
  }

  // ---------------------------------------------------------------------------
  // The shape of a 3-D ndarray
  // ---------------------------------------------------------------------------

  /** The data is a rectangular [test][slice][sample] block, as an ndarray is;
      anything else is not an ndarray and the functions below raise TypeError. */
  predicate IsCube(d: seq<seq<seq<real>>>)
  {
    forall e :: 0 <= e < |d| ==>
      |d[e]| == |d[0]| && forall s :: 0 <= s < |d[e]| ==> |d[e][s]| == |d[0][0]|
  }

  function SlicesCount(d: seq<seq<seq<real>>>): nat
  {
    if |d| == 0 then 0 else |d[0]|
  }

  function SliceLength(d: seq<seq<seq<real>>>): nat
  {
    if |d| == 0 || |d[0]| == 0 then 0 else |d[0][0]|
  }

  // ---------------------------------------------------------------------------
  // smooth (np.convolve with a box) and np.gradient
  // ---------------------------------------------------------------------------

  /** Term `k` of the full discrete convolution of `a` with `v`, summed over
      the kernel positions below `upTo`: the sum of `a[k - i] * v[i]` over
      the `i` for which `k - i` indexes `a`. */
  function ConvolutionTerm(a: seq<real>, v: seq<real>, k: int, upTo: nat): real
    requires upTo <= |v|
  {
    if upTo == 0 then 0.0
    else
      var i := upTo - 1;
      ConvolutionTerm(a, v, k, i) + if 0 <= k - i < |a| then a[k - i] * v[i] else 0.0
  }

  /** `np.convolve(a, v, mode='same')`: of the `|a| + |v| - 1` terms of the
      full convolution it keeps `max(|a|, |v|)`, starting `(m - 1) - m // 2`
      terms in, `m` being the shorter length. An empty operand raises
      ValueError. */
  function Convolve(a: seq<real>, v: seq<real>): (r: Result<seq<real>>)
    ensures r.Failure? <==> a == [] || v == []
    ensures r.Failure? ==> r.error == ValueError
    ensures r.Success? ==> |r.value| == if |a| >= |v| then |a| else |v|
  {
    if a == [] || v == [] then Failure(ValueError)
    else
      var shorter := if |a| <= |v| then |a| else |v|;
      var longer := if |a| >= |v| then |a| else |v|;
      var offset := (shorter - 1) - shorter / 2;
      Success(seq(longer, j requires 0 <= j < longer => ConvolutionTerm(a, v, j + offset, |v|)))
  }

  /** `smooth(data, 2)`: the convolution with the box `np.ones(2) / 2`. */
  function Smooth(s: seq<real>): Result<seq<real>>
  {
    Convolve(s, [0.5, 0.5])
  }

  /** The two-point smoothing halves the first sample and averages every
      other sample with the one before it; a single sample becomes two
      halves. Only the empty slice is rejected. */
  lemma SmoothValues(s: seq<real>)
    ensures Smooth(s).Failure? <==> s == []
    ensures s != [] ==>
      var sm := Smooth(s).value;
      && |sm| == (if |s| == 1 then 2 else |s|)
      && sm[0] == s[0] / 2.0
      && (|s| == 1 ==> sm[1] == s[0] / 2.0)
      && forall k :: 1 <= k < |s| ==> sm[k] == (s[k - 1] + s[k]) / 2.0
  {
    if s != [] {
      var box := [0.5, 0.5];
      var sm := Smooth(s).value;
      assert forall k :: 0 <= k < |sm| ==> sm[k] == ConvolutionTerm(s, box, k, 2);
      forall k | 0 <= k < |sm|
        ensures sm[k] == (if k < |s| then s[k] * 0.5 else 0.0) + (if 1 <= k <= |s| then s[k - 1] * 0.5 else 0.0)
      {
        assert ConvolutionTerm(s, box, k, 1) == if k < |s| then s[k] * 0.5 else 0.0;
      }
      assert sm[0] == s[0] * 0.5;
    }
  }

  /** `np.gradient` with unit spacing: one-sided differences at both ends and
      central differences inside. Fewer than two samples raise ValueError. */
  function Gradient(f: seq<real>): (r: Result<seq<real>>)
    ensures r.Failure? <==> |f| < 2
    ensures r.Failure? ==> r.error == ValueError
    ensures r.Success? ==> |r.value| == |f|
  {
    if |f| < 2 then Failure(ValueError)
    else
      var n := |f|;
      Success(seq(n, k requires 0 <= k < n =>
        if k == 0 then f[1] - f[0]
        else if k == n - 1 then f[n - 1] - f[n - 2]
        else (f[k + 1] - f[k - 1]) / 2.0))
  }

  /** The gradient is exact on samples of a line: every entry is its slope. */
  lemma GradientOfLine(f: seq<real>, c: real, d: real)
    requires |f| >= 2
    requires forall k :: 0 <= k < |f| ==> f[k] == c + d * (k as real)
    ensures forall k :: 0 <= k < |f| ==> Gradient(f).value[k] == d
  {
    var g := Gradient(f).value;
    forall k | 0 <= k < |f|
      ensures g[k] == d
    {
      if k == 0 {
        assert f[1] - f[0] == d;
      } else if k == |f| - 1 {
        assert f[k] - f[k - 1] == d * (k as real) - d * ((k - 1) as real);
      } else {
        assert f[k + 1] - f[k - 1] == d * ((k + 1) as real) - d * ((k - 1) as real);
      }
    }
  }

  /** A constant signal has a zero gradient. */
  lemma GradientOfConstant(f: seq<real>)
    requires |f| >= 2
    requires forall k :: 0 <= k < |f| ==> f[k] == f[0]
    ensures forall k :: 0 <= k < |f| ==> Gradient(f).value[k] == 0.0
  {
    GradientOfLine(f, f[0], 0.0);
  }

  // ---------------------------------------------------------------------------
  // get_lat_matrix: the latency search
  // ---------------------------------------------------------------------------

  /** A gradient smaller than this in magnitude is noise and never marks the latency. */
  const MicroBorder: real := 0.005

  /** One side's percentile threshold, or the infinite bound (`np.inf` above,
      `-np.inf` below) used when the poly area holds no gradient of that sign. */
  datatype Threshold = Finite(value: real) | Infinite

  predicate Above(g: real, t: Threshold)
  {
    t.Finite? && g > t.value
  }

  predicate Below(g: real, t: Threshold)
  {
    t.Finite? && g < t.value
  }

  /** The crossing test of the latency loop. */
  predicate Crosses(g: real, upper: Threshold, lower: Threshold)
  {
    (Above(g, upper) || Below(g, lower)) && (g > MicroBorder || g < -MicroBorder)
  }

  /** The strictly positive gradients, in order. */
  function Positives(s: seq<real>): (r: seq<real>)
    ensures forall x :: x in r <==> x in s && x > 0.0
  {
    if s == [] then []
    else
      var last := s[|s| - 1];
      assert forall x :: x in s <==> x in s[..|s| - 1] || x == last;
      Positives(s[..|s| - 1]) + if last > 0.0 then [last] else []
  }

  /** The strictly negative gradients, in order. */
  function Negatives(s: seq<real>): (r: seq<real>)
    ensures forall x :: x in r <==> x in s && x < 0.0
  {
    if s == [] then []
    else
      var last := s[|s| - 1];
      assert forall x :: x in s <==> x in s[..|s| - 1] || x == last;
      Negatives(s[..|s| - 1]) + if last < 0.0 then [last] else []
  }

  /** The upper threshold: the 80th percentile of the positive gradients. */
  function UpperThreshold(poly: seq<real>, percentile: (seq<real>, real) -> real): Threshold
  {
    var pos := Positives(poly);
    if |pos| > 0 then Finite(percentile(pos, 80.0)) else Infinite
  }

  /** The lower threshold: the 20th percentile of the negative gradients. */
  function LowerThreshold(poly: seq<real>, percentile: (seq<real>, real) -> real): Threshold
  {
    var neg := Negatives(poly);
    if |neg| > 0 then Finite(percentile(neg, 20.0)) else Infinite
  }

  /** With no positive gradient in the poly area the upper threshold is
      infinite and no gradient passes it; likewise below. */
  lemma MissingSideNeverFires(poly: seq<real>, percentile: (seq<real>, real) -> real, g: real)
    ensures (forall x :: x in poly ==> x <= 0.0) ==> !Above(g, UpperThreshold(poly, percentile))
    ensures (forall x :: x in poly ==> x >= 0.0) ==> !Below(g, LowerThreshold(poly, percentile))
  {
    if forall x :: x in poly ==> x <= 0.0 {
      if |Positives(poly)| > 0 {
        assert Positives(poly)[0] in Positives(poly);
      }
    }
    if forall x :: x in poly ==> x >= 0.0 {
      if |Negatives(poly)| > 0 {
        assert Negatives(poly)[0] in Negatives(poly);
      }
    }
  }

  /** The first index from `from` at which the gradient crosses. */
  function FirstCrossing(g: seq<real>, from: nat, upper: Threshold, lower: Threshold): (r: Option<nat>)
    decreases |g| - from
    ensures r.Some? ==>
      && from <= r.value < |g| && Crosses(g[r.value], upper, lower)
      && forall i :: from <= i < r.value ==> !Crosses(g[i], upper, lower)
    ensures r.None? <==> forall i :: from <= i < |g| ==> !Crosses(g[i], upper, lower)
  {
    if from >= |g| then None
    else if Crosses(g[from], upper, lower) then Some(from)
    else FirstCrossing(g, from + 1, upper, lower)
  }

  /** The latency of a slice: the first index at or after `border` whose
      gradient crosses a threshold, or the last index when there is none. */
  function Latency(g: seq<real>, border: nat, upper: Threshold, lower: Threshold): (lat: int)
    ensures
      || (&& border <= lat < |g| && Crosses(g[lat], upper, lower)
          && forall i :: border <= i < lat ==> !Crosses(g[i], upper, lower))
      || (lat == |g| - 1 && forall i :: border <= i < |g| ==> !Crosses(g[i], upper, lower))
  {
    match FirstCrossing(g, border, upper, lower)
    case Some(i) => i
    case None => |g| - 1
  }

  /** For a non-empty gradient the latency is one of its indexes. */
  lemma LatencyInSlice(g: seq<real>, border: nat, upper: Threshold, lower: Threshold)
    requires |g| > 0
    ensures 0 <= Latency(g, border, upper, lower) < |g|
  {
  }

  /** A flat signal (zero gradient everywhere) takes the fallback: the last index. */
  lemma FlatGradientFallsBack(g: seq<real>, border: nat, upper: Threshold, lower: Threshold)
    requires forall i :: 0 <= i < |g| ==> g[i] == 0.0
    ensures Latency(g, border, upper, lower) == |g| - 1
  {
  }

  /** The for/else search of get_lat_matrix over `gradient[border:]`. */
  method FindLatency(g: seq<real>, border: nat, upper: Threshold, lower: Threshold) returns (lat: int)
    ensures lat == Latency(g, border, upper, lower)
  {
    var poly := PyTail(g, border);
    for index := 0 to |poly|
      invariant forall i :: border <= i < border + index ==> !Crosses(g[i], upper, lower)
    {
      assert poly[index] == g[index + border];
      if Crosses(poly[index], upper, lower) {
        return index + border;
      }
    }
    lat := |g| - 1;
  }

  /** `smoothed[:2] = raw[:2]` and `smoothed[-2:] = raw[-2:]`: the first and
      last two samples keep their raw values. A one-sample slice is smoothed
      into two samples, and numpy broadcasts its single raw value over both. */
  function PatchEdges(smoothed: seq<real>, raw: seq<real>): (r: seq<real>)
    requires |raw| > 0 && |smoothed| == if |raw| == 1 then 2 else |raw|
    ensures |r| == |smoothed|
    ensures |raw| == 1 ==> r == [raw[0], raw[0]]
    ensures |raw| >= 2 ==>
      forall i :: 0 <= i < |r| ==> r[i] == if i < 2 || i >= |raw| - 2 then raw[i] else smoothed[i]
  {
    var n := |raw|;
    if n == 1 then [raw[0], raw[0]]
    else
      var tail := if n - 2 < 2 then 2 else n - 2;
      raw[..2] + smoothed[2..tail] + raw[tail..]
  }

  /** The gradient get_lat_matrix searches: smooth the slice, restore its
      edges, differentiate. Only the empty slice fails, in the convolution. */
  function SliceGradient(slice: seq<real>): (r: Result<seq<real>>)
    ensures r.Failure? <==> slice == []
    ensures r.Failure? ==> r.error == ValueError
    ensures r.Success? ==> |r.value| == if |slice| == 1 then 2 else |slice|
  {
    match Smooth(slice)
    case Failure(e) => Failure(e)
    case Success(smoothed) => Gradient(PatchEdges(smoothed, slice))
  }

  /** The latency of one slice: the search over its gradient, with both
      thresholds derived from the poly area `gradient[border:]`. */
  function SliceLatency(slice: seq<real>, border: nat, percentile: (seq<real>, real) -> real): (r: Result<int>)
    ensures r.Failure? <==> slice == []
    ensures r.Failure? ==> r.error == ValueError
    ensures r.Success? ==> 0 <= r.value < if |slice| == 1 then 2 else |slice|
  {
    match SliceGradient(slice)
    case Failure(e) => Failure(e)
    case Success(g) =>
      var poly := PyTail(g, border);
      Success(Latency(g, border, UpperThreshold(poly, percentile), LowerThreshold(poly, percentile)))
  }

  /** A one-sample slice is smoothed into two halves, patched back into two
      copies of the sample, and has a zero gradient: its latency is the
      fallback `len(gradient) - 1`, which is 1, past the slice's only index. */
  lemma {:induction false} OneSampleSlice(x: real, border: nat, percentile: (seq<real>, real) -> real)
    ensures SliceLatency([x], border, percentile) == Success(1)
  {
    SmoothValues([x]);
    var patched := PatchEdges(Smooth([x]).value, [x]);
    assert patched == [x, x];
    GradientOfConstant(patched);
    var g := Gradient(patched).value;
    var poly := PyTail(g, border);
    FlatGradientFallsBack(g, border, UpperThreshold(poly, percentile), LowerThreshold(poly, percentile));
  }

  /** get_lat_matrix: the latency of every slice of every test, written into
      a preallocated tests-by-slices matrix. */
  method LatencyMatrix(data: seq<seq<seq<real>>>, border: nat, percentile: (seq<real>, real) -> real)
    returns (r: Result<array2<int>>)
    ensures !IsCube(data) ==> r == Failure(TypeError)
    ensures IsCube(data) && |data| == 0 ==> r == Failure(IndexError)
    ensures IsCube(data) && |data| > 0 && r.Failure? ==> r.error == ValueError
    ensures r.Success? <==>
      && IsCube(data) && |data| > 0
      && forall e, s :: 0 <= e < |data| && 0 <= s < |data[e]| ==>
           SliceLatency(data[e][s], border, percentile).Success?
    ensures r.Success? ==>
      && fresh(r.value) && r.value.Length0 == |data| && r.value.Length1 == |data[0]|
      && forall e, s :: 0 <= e < |data| && 0 <= s < |data[0]| ==>
           r.value[e, s] == SliceLatency(data[e][s], border, percentile).value
  {
    if !IsCube(data) {
      return Failure(TypeError);
    }
    if |data| == 0 {
      return Failure(IndexError);
    }
    var slicesNumber := |data[0]|;
    var matrix := new int[|data|, slicesNumber]((_, _) => 0);
    for e := 0 to |data|
      invariant forall e', s :: 0 <= e' < e && 0 <= s < slicesNumber ==>
        SliceLatency(data[e'][s], border, percentile) == Success(matrix[e', s])
    {
      ghost var expected := seq(slicesNumber, s requires 0 <= s < slicesNumber =>
        SliceLatency(data[e][s], border, percentile));
      var error := FillRow(matrix, e, data[e], border, percentile, expected);
      if error.Some? {
        return Failure(error.value);
      }
    }
    return Success(matrix);
  }

  /** The inner loop of get_lat_matrix: row `e` of the matrix receives the
      latencies of the slices of test `e`, and the first failing slice
      stops it. The other rows are left alone. `expected` names the outcome
      of every slice. */
  method FillRow(matrix: array2<int>, e: nat, slices: seq<seq<real>>, border: nat, percentile: (seq<real>, real) -> real,
                 ghost expected: seq<Result<int>>)
    returns (error: Option<Error>)
    requires e < matrix.Length0 && |slices| == matrix.Length1 == |expected|
    requires forall s :: 0 <= s < |slices| ==> expected[s] == SliceLatency(slices[s], border, percentile)
    modifies matrix
    ensures forall e', s :: 0 <= e' < matrix.Length0 && e' != e && 0 <= s < matrix.Length1 ==>
      matrix[e', s] == old(matrix[e', s])
    ensures error.None? ==> forall s :: 0 <= s < |slices| ==> expected[s] == Success(matrix[e, s])
    ensures error.Some? ==> exists s :: 0 <= s < |slices| && expected[s] == Failure(error.value)
  {
    for s := 0 to |slices|
      invariant forall e', s' :: 0 <= e' < matrix.Length0 && e' != e && 0 <= s' < matrix.Length1 ==>
        matrix[e', s'] == old(matrix[e', s'])
      invariant forall s' :: 0 <= s' < s ==> expected[s'] == Success(matrix[e, s'])
    {
      var failure := SetCell(matrix, e, s, slices[s], border, percentile, expected[s]);
      if failure.Some? {
        return failure;
      }
    }
    return None;
  }

  /** One step of the inner loop: the latency of the slice goes into
      `matrix[e, s]`, or its error is returned and the matrix is left alone. */
  method SetCell(matrix: array2<int>, e: nat, s: nat, slice: seq<real>, border: nat, percentile: (seq<real>, real) -> real, ghost want: Result<int>)
    returns (failure: Option<Error>)
    requires e < matrix.Length0 && s < matrix.Length1
    requires want == SliceLatency(slice, border, percentile)
    modifies matrix
    ensures failure.None? <==> want.Success?
    ensures failure.Some? ==> want == Failure(failure.value) && unchanged(matrix)
    ensures failure.None? ==> matrix[e, s] == want.value
    ensures forall e', s' :: 0 <= e' < matrix.Length0 && e' != e && 0 <= s' < matrix.Length1 ==>
      matrix[e', s'] == old(matrix[e', s'])
    ensures forall s' :: 0 <= s' < matrix.Length1 && s' != s ==> matrix[e, s'] == old(matrix[e, s'])
  {
    var lat := LatencyOfSlice(slice, border, percentile);
    if lat.Failure? {
      return Some(lat.error);
    }
    matrix[e, s] := lat.value;
    return None;
  }

  /** The body of get_lat_matrix's inner loop: smooth the slice, take the
      gradient of it with its edges patched, and search the latency. */
  method LatencyOfSlice(slice: seq<real>, border: nat, percentile: (seq<real>, real) -> real)
    returns (r: Result<int>)
    ensures r == SliceLatency(slice, border, percentile)
  {
    var smoothed := Smooth(slice);
    if smoothed.Failure? {
      return Failure(smoothed.error);
    }
    var patched := PatchEdges(smoothed.value, slice);
    var g := Gradient(patched).value;
    assert |g| == |patched|;
    var poly := PyTail(g, border);
    var lat := FindLatency(g, border, UpperThreshold(poly, percentile), LowerThreshold(poly, percentile));
    return Success(lat);
  }

  // ---------------------------------------------------------------------------
  // get_all_peak_amp_per_slice: pairing maxima with minima
  // ---------------------------------------------------------------------------

  /** Peaks with at least this amplitude are accepted whatever their duration. */
  const MinAmpl: real := 0.3

  /** Peaks of an accepted duration must still reach this amplitude. */
  const MicroPeak: real := 0.05

  /** A maximum and the minimum it is paired with. */
  datatype Pair = Pair(maxIndex: nat, maxValue: real, minIndex: nat, minValue: real)
  {
    /** `abs(max_index - min_index)` */
    function DeltaT(): nat
    {
      if maxIndex >= minIndex then maxIndex - minIndex else minIndex - maxIndex
    }

    /** `abs(max_value - min_value)` */
    function DeltaA(): real
    {
      Abs(maxValue - minValue)
    }
  }

  /** The two-criterion acceptance rule: a duration in `[minDist, maxDist]`
      with an amplitude above the micro-peak level, or a large amplitude alone. */
  predicate IsPeak(p: Pair, minDist: int, maxDist: int)
  {
    (minDist <= p.DeltaT() <= maxDist && p.DeltaA() >= MicroPeak) || p.DeltaA() >= MinAmpl
  }

  /** Indexes and samples of a list of extrema, as find_extrema returns them. */
  predicate WellFormed(ext: (seq<nat>, seq<real>))
  {
    |ext.0| == |ext.1| > 0
  }

  /** `zip(maxima, minima)`, from the first element of each list. */
  function ZipPairs(maxIdx: seq<nat>, maxVal: seq<real>, minIdx: seq<nat>, minVal: seq<real>): (ps: seq<Pair>)
    requires |maxIdx| == |maxVal| && |minIdx| == |minVal|
    ensures |ps| == if |maxIdx| <= |minIdx| then |maxIdx| else |minIdx|
    ensures forall k {:trigger ps[k]} :: 0 <= k < |ps| ==> ps[k] == Pair(maxIdx[k], maxVal[k], minIdx[k], minVal[k])
  {
    if |maxIdx| == 0 || |minIdx| == 0 then []
    else [Pair(maxIdx[0], maxVal[0], minIdx[0], minVal[0])]
         + ZipPairs(maxIdx[1..], maxVal[1..], minIdx[1..], minVal[1..])
  }

  /** The pairing of maxima with minima, started from a maximum: when the
      first minimum comes before the first maximum, the minima are taken from
      the second one on. */
  function Pairing(maxima: (seq<nat>, seq<real>), minima: (seq<nat>, seq<real>)): (ps: seq<Pair>)
    requires WellFormed(maxima) && WellFormed(minima)
    ensures var skip := if minima.0[0] < maxima.0[0] then 1 else 0;
      && |ps| == (if |maxima.0| <= |minima.0| - skip then |maxima.0| else |minima.0| - skip)
      && forall k {:trigger ps[k]} :: 0 <= k < |ps| ==>
           ps[k] == Pair(maxima.0[k], maxima.1[k], minima.0[k + skip], minima.1[k + skip])
  {
    if minima.0[0] < maxima.0[0] then ZipPairs(maxima.0, maxima.1, minima.0[1..], minima.1[1..])
    else ZipPairs(maxima.0, maxima.1, minima.0, minima.1)
  }

  /** The pairs of one test's joined slices, or `None` where find_extrema
      found no maximum or no minimum and indexing its result raises. */
  function ExperimentPairs(y: seq<real>): (r: Option<seq<Pair>>)
    ensures r.Some? <==> (exists i :: IsStrictExtremum(y, Greater, i)) && (exists i :: IsStrictExtremum(y, Less, i))
    ensures r.Some? ==> forall k :: 0 <= k < |r.value| ==>
      IsStrictExtremum(y, Greater, r.value[k].maxIndex) && r.value[k].maxValue == y[r.value[k].maxIndex]
  {
    var maxima := FindExtrema(y, Greater);
    var minima := FindExtrema(y, Less);
    if maxima.None? || minima.None? then None
    else Some(Pairing(maxima.value, minima.value))
  }

  /** The peak times of slice `s`: each accepted pair whose maximum falls in
      slice `s` contributes the maximum's offset inside the slice. */
  function PeakTimes(ps: seq<Pair>, len: nat, s: nat, minDist: int, maxDist: int): seq<int>
    requires len > 0
  {
    if ps == [] then []
    else
      var p := ps[|ps| - 1];
      var sliceIndex := p.maxIndex / len;
      PeakTimes(ps[..|ps| - 1], len, s, minDist, maxDist)
        + if IsPeak(p, minDist, maxDist) && sliceIndex == s then [p.maxIndex - len * sliceIndex] else []
  }

  /** The amplitudes `dA` of the same accepted pairs of slice `s`. */
  function PeakAmplitudes(ps: seq<Pair>, len: nat, s: nat, minDist: int, maxDist: int): seq<real>
    requires len > 0
  {
    if ps == [] then []
    else
      var p := ps[|ps| - 1];
      PeakAmplitudes(ps[..|ps| - 1], len, s, minDist, maxDist)
        + if IsPeak(p, minDist, maxDist) && p.maxIndex / len == s then [p.DeltaA()] else []
  }

  /** Every peak time is an offset inside its slice, every amplitude is
      non-negative, and a slice's time and amplitude lists have equal length. */
  lemma {:induction false} PeakListsAligned(ps: seq<Pair>, len: nat, s: nat, minDist: int, maxDist: int)
    requires len > 0
    ensures |PeakTimes(ps, len, s, minDist, maxDist)| == |PeakAmplitudes(ps, len, s, minDist, maxDist)|
    ensures forall t :: t in PeakTimes(ps, len, s, minDist, maxDist) ==> 0 <= t < len
    ensures forall a :: a in PeakAmplitudes(ps, len, s, minDist, maxDist) ==> a >= 0.0
  {
    if ps != [] {
      var q, p := ps[..|ps| - 1], ps[|ps| - 1];
      PeakListsAligned(q, len, s, minDist, maxDist);
      OffsetInBlock(p.maxIndex, len);
      var accepted := IsPeak(p, minDist, maxDist) && p.maxIndex / len == s;
      var times, amplitudes := PeakTimes(q, len, s, minDist, maxDist), PeakAmplitudes(q, len, s, minDist, maxDist);
      var newTimes: seq<int> := if accepted then [p.maxIndex - len * (p.maxIndex / len)] else [];
      var newAmplitudes := if accepted then [p.DeltaA()] else [];
      assert PeakTimes(ps, len, s, minDist, maxDist) == times + newTimes;
      assert PeakAmplitudes(ps, len, s, minDist, maxDist) == amplitudes + newAmplitudes;
    }
  }

  /** An accepted pair of a test of `slices` slices of `len` samples lands in
      one of those slices: `max_index // slice_length < slices_count`. */
  lemma PeakSliceInRange(slicesData: seq<seq<real>>, len: nat, p: Pair)
    requires forall s :: 0 <= s < |slicesData| ==> |slicesData[s]| == len
    requires IsStrictExtremum(Flatten(slicesData), Greater, p.maxIndex)
    ensures len > 0 && p.maxIndex / len < |slicesData|
  {
    FlattenLength(slicesData, len);
    BlockOfIndex(p.maxIndex, |slicesData|, len);
  }

  /** Every pair of a test whose slices all hold `len` samples files its
      maximum under one of the test's slices. */
  lemma PairsFitSlices(slicesData: seq<seq<real>>, len: nat, ps: seq<Pair>)
    requires forall s :: 0 <= s < |slicesData| ==> |slicesData[s]| == len
    requires ExperimentPairs(Flatten(slicesData)) == Some(ps)
    ensures len > 0
    ensures forall k :: 0 <= k < |ps| ==> ps[k].maxIndex / len < |slicesData|
  {
    var y := Flatten(slicesData);
    var i :| IsStrictExtremum(y, Greater, i);
    FlattenLength(slicesData, len);
    forall k | 0 <= k < |ps| ensures ps[k].maxIndex / len < |slicesData| {
      PeakSliceInRange(slicesData, len, ps[k]);
    }
  }

  /** The 3-D lists of peak times and amplitudes, [test][slice][peak]. */
  datatype PeakLists = PeakLists(times: seq<seq<seq<int>>>, amplitudes: seq<seq<seq<real>>>)

  /** The inner loop of get_all_peak_amp_per_slice for one test: every
      accepted pair is appended to the lists of the slice of its maximum. */
  method FilePeaks(ps: seq<Pair>, len: nat, slicesCount: nat, minDist: int, maxDist: int)
    returns (timesRow: seq<seq<int>>, amplitudesRow: seq<seq<real>>)
    requires len > 0
    requires forall k :: 0 <= k < |ps| ==> ps[k].maxIndex / len < slicesCount
    ensures |timesRow| == slicesCount && |amplitudesRow| == slicesCount
    ensures forall s :: 0 <= s < slicesCount ==>
      && timesRow[s] == PeakTimes(ps, len, s, minDist, maxDist)
      && amplitudesRow[s] == PeakAmplitudes(ps, len, s, minDist, maxDist)
  {
    timesRow := seq(slicesCount, _ => []);
    amplitudesRow := seq(slicesCount, _ => []);
    for k := 0 to |ps|
      invariant |timesRow| == slicesCount && |amplitudesRow| == slicesCount
      invariant forall s :: 0 <= s < slicesCount ==>
        && timesRow[s] == PeakTimes(ps[..k], len, s, minDist, maxDist)
        && amplitudesRow[s] == PeakAmplitudes(ps[..k], len, s, minDist, maxDist)
    {
      var p := ps[k];
      assert ps[..k + 1][..k] == ps[..k] && ps[..k + 1][k] == p;
      if IsPeak(p, minDist, maxDist) {
        var sliceIndex := p.maxIndex / len;
        var peakTime := p.maxIndex - len * sliceIndex;
        timesRow := timesRow[sliceIndex := timesRow[sliceIndex] + [peakTime]];
        amplitudesRow := amplitudesRow[sliceIndex := amplitudesRow[sliceIndex] + [p.DeltaA()]];
      }
    }
    assert ps[..|ps|] == ps;
  }

  /** Test `slicesData` has pairs, and its rows of peak times and amplitudes
      hold, slice by slice, the accepted pairs filed under that slice. */
  predicate RowFiled(slicesData: seq<seq<real>>, len: nat, timesRow: seq<seq<int>>, amplitudesRow: seq<seq<real>>,
                     minDist: int, maxDist: int)
  {
    && ExperimentPairs(Flatten(slicesData)).Some? && len > 0
    && |timesRow| == |slicesData| && |amplitudesRow| == |slicesData|
    && forall s :: 0 <= s < |slicesData| ==>
         && timesRow[s] == PeakTimes(ExperimentPairs(Flatten(slicesData)).value, len, s, minDist, maxDist)
         && amplitudesRow[s] == PeakAmplitudes(ExperimentPairs(Flatten(slicesData)).value, len, s, minDist, maxDist)
  }

  /** get_all_peak_amp_per_slice: for each test, join its slices, pair its
      maxima with its minima and file every accepted pair under the slice of
      its maximum, at the maximum's time inside that slice. */
  method AllPeakAmpPerSlice(data: seq<seq<seq<real>>>, minDist: int, maxDist: int) returns (r: Result<PeakLists>)
    ensures !IsCube(data) ==> r == Failure(TypeError)
    ensures r.Failure? ==> r.error == TypeError
    ensures r.Success? <==> IsCube(data) && forall e :: 0 <= e < |data| ==> ExperimentPairs(Flatten(data[e])).Some?
    ensures r.Success? ==>
      && |r.value.times| == |data| && |r.value.amplitudes| == |data|
      && forall e :: 0 <= e < |data| ==>
           RowFiled(data[e], SliceLength(data), r.value.times[e], r.value.amplitudes[e], minDist, maxDist)
  {
    if !IsCube(data) {
      return Failure(TypeError);
    }
    var testsCount, slicesCount, len := |data|, SlicesCount(data), SliceLength(data);
    var times: seq<seq<seq<int>>> := List3d(testsCount, slicesCount);
    var amplitudes: seq<seq<seq<real>>> := List3d(testsCount, slicesCount);
    for e := 0 to testsCount
      invariant |times| == testsCount && |amplitudes| == testsCount
      invariant forall e' :: 0 <= e' < e ==> RowFiled(data[e'], len, times[e'], amplitudes[e'], minDist, maxDist)
    {
      var y := Flatten(data[e]);
      var pairs := ExperimentPairs(y);
      if pairs.None? {
        return Failure(TypeError);
      }
      var ps := pairs.value;
      assert |data[e]| == slicesCount && forall s :: 0 <= s < slicesCount ==> |data[e][s]| == len;
      PairsFitSlices(data[e], len, ps);
      var timesRow, amplitudesRow := FilePeaks(ps, len, slicesCount, minDist, maxDist);
      assert RowFiled(data[e], len, timesRow, amplitudesRow, minDist, maxDist);
      times := times[e := timesRow];
      amplitudes := amplitudes[e := amplitudesRow];
    }
    return Success(PeakLists(times, amplitudes));
  }

  // ---------------------------------------------------------------------------
  // get_area_extrema_matrix
  // ---------------------------------------------------------------------------

  /** The pairing of get_area_extrema_matrix on one smoothed slice: `None`
      where find_extrema found no maximum or no minimum. */
  function SlicePairs(smoothed: seq<real>): (r: Option<seq<Pair>>)
    ensures r.Some? <==> (exists i :: IsStrictExtremum(smoothed, Greater, i)) && (exists i :: IsStrictExtremum(smoothed, Less, i))
    ensures r.Some? ==> forall k :: 0 <= k < |r.value| ==>
      && IsStrictExtremum(smoothed, Greater, r.value[k].maxIndex)
      && IsStrictExtremum(smoothed, Less, r.value[k].minIndex)
  {
    var maxima := FindExtrema(smoothed, Greater);
    var minima := FindExtrema(smoothed, Less);
    if maxima.None? || minima.None? then None
    else Some(Pairing(maxima.value, minima.value))
  }

  /** A pair is counted when both its extrema lie at or after the latency and
      it passes the two-criterion acceptance rule. */
  predicate CountedAfter(p: Pair, latency: int, minDist: int, maxDist: int)
  {
    p.maxIndex >= latency && p.minIndex >= latency && IsPeak(p, minDist, maxDist)
  }

  /** The number of counted pairs (`len(pair_indexes[filter_mask])`). */
  function PeaksAfter(ps: seq<Pair>, latency: int, minDist: int, maxDist: int): (n: nat)
    ensures n <= |ps|
  {
    if ps == [] then 0
    else PeaksAfter(ps[..|ps| - 1], latency, minDist, maxDist)
         + if CountedAfter(ps[|ps| - 1], latency, minDist, maxDist) then 1 else 0
  }

  /** The absolute values of the samples. */
  function Magnitudes(s: seq<real>): (r: seq<real>)
    ensures |r| == |s|
    ensures forall x :: x in r ==> x >= 0.0
  {
    seq(|s|, i requires 0 <= i < |s| => Abs(s[i]))
  }

  /** The cell values of a slice whose smoothed samples have pairs: twice the
      number of counted pairs, and the area `sum(|smoothed[latency:]|)`. */
  datatype Features = Features(peaks: int, area: real)

  function PairFeatures(smoothed: seq<real>, ps: seq<Pair>, latency: int, minDist: int, maxDist: int): Features
  {
    Features(2 * PeaksAfter(ps, latency, minDist, maxDist), Sum(Magnitudes(PyTail(smoothed, latency))))
  }

  /** One cell of get_area_extrema_matrix as the source is written: the guard
      `len(e_maxima_indexes) == 0` is applied to the `None` that find_extrema
      returns for a slice without extrema, and `len(None)` raises TypeError. */
  function SliceFeaturesAsWritten(smoothed: seq<real>, latency: int, minDist: int, maxDist: int): (r: Result<Features>)
    ensures r.Failure? <==> SlicePairs(smoothed).None?
    ensures r.Failure? ==> r.error == TypeError
  {
    match SlicePairs(smoothed)
    case None => Failure(TypeError)
    case Some(ps) => Success(PairFeatures(smoothed, ps, latency, minDist, maxDist))
  }

  /** One cell as the guard intends: a slice without a maximum or a minimum is
      skipped (`None`), and its cells keep their initial zeros. */
  function SliceFeatures(smoothed: seq<real>, latency: int, minDist: int, maxDist: int): Option<Features>
  {
    match SlicePairs(smoothed)
    case None => None
    case Some(ps) => Some(PairFeatures(smoothed, ps, latency, minDist, maxDist))
  }

  /** A slice is skipped exactly when it lacks a strict maximum or a strict
      minimum; otherwise at most two extrema per pair are counted. */
  lemma SliceFeaturesSkips(smoothed: seq<real>, latency: int, minDist: int, maxDist: int)
    ensures var r := SliceFeatures(smoothed, latency, minDist, maxDist);
      && (r.None? <==> (forall i :: !IsStrictExtremum(smoothed, Greater, i)) || (forall i :: !IsStrictExtremum(smoothed, Less, i)))
      && (r.Some? ==> 0 <= r.value.peaks <= 2 * |SlicePairs(smoothed).value|)
  {
  }

  /** The peak count of a slice is even: each counted pair adds two extrema. */
  lemma PeakCountEven(smoothed: seq<real>, latency: int, minDist: int, maxDist: int)
    requires SliceFeatures(smoothed, latency, minDist, maxDist).Some?
    ensures SliceFeatures(smoothed, latency, minDist, maxDist).value.peaks % 2 == 0
  {
    var n := PeaksAfter(SlicePairs(smoothed).value, latency, minDist, maxDist);
    assert SliceFeatures(smoothed, latency, minDist, maxDist).value.peaks == 2 * n;
    EvenDouble(n);
  }

  lemma EvenDouble(n: int)
    ensures (2 * n) % 2 == 0
  {
  }

  /** The two versions agree wherever the source does not raise. */
  lemma SliceFeaturesAgree(smoothed: seq<real>, latency: int, minDist: int, maxDist: int)
    ensures SliceFeaturesAsWritten(smoothed, latency, minDist, maxDist).Success?
        <==> SliceFeatures(smoothed, latency, minDist, maxDist).Some?
    ensures SliceFeatures(smoothed, latency, minDist, maxDist).Some? ==>
      SliceFeaturesAsWritten(smoothed, latency, minDist, maxDist).value == SliceFeatures(smoothed, latency, minDist, maxDist).value
  {
  }

  /** A flat slice has no strict extremum: the code as written raises
      TypeError where the guard meant to skip the slice. */
  lemma FlatSliceRaises(latency: int, minDist: int, maxDist: int)
    ensures SliceFeaturesAsWritten([0.0, 0.0, 0.0], latency, minDist, maxDist) == Failure(TypeError)
    ensures SliceFeatures([0.0, 0.0, 0.0], latency, minDist, maxDist) == None
  {
    var flat := [0.0, 0.0, 0.0];
    assert forall i :: !IsStrictExtremum(flat, Greater, i) by {
      forall i | 0 < i < |flat| - 1 ensures !IsStrictExtremum(flat, Greater, i) {
        assert flat[i] == 0.0;
      }
    }
  }

  lemma SumNonNegative(s: seq<real>)
    requires forall x :: x in s ==> x >= 0.0
    ensures Sum(s) >= 0.0
  {
    if s != [] {
      var hi := Max(s);
      SumBounds(s, 0.0, hi);
    }
  }

  /** The amplitude area of a slice is never negative. */
  lemma AreaNonNegative(smoothed: seq<real>, ps: seq<Pair>, latency: int, minDist: int, maxDist: int)
    ensures PairFeatures(smoothed, ps, latency, minDist, maxDist).area >= 0.0
  {
    SumNonNegative(Magnitudes(PyTail(smoothed, latency)));
  }

  /** A later latency never counts more pairs. */
  lemma {:induction false} PeaksAfterAntitone(ps: seq<Pair>, early: int, late: int, minDist: int, maxDist: int)
    requires early <= late
    ensures PeaksAfter(ps, late, minDist, maxDist) <= PeaksAfter(ps, early, minDist, maxDist)
  {
    if ps != [] {
      PeaksAfterAntitone(ps[..|ps| - 1], early, late, minDist, maxDist);
    }
  }

  /** A latency past every extremum counts no pair. */
  lemma {:induction false} PeaksAfterNone(ps: seq<Pair>, latency: int, minDist: int, maxDist: int)
    requires forall k :: 0 <= k < |ps| ==> ps[k].maxIndex < latency
    ensures PeaksAfter(ps, latency, minDist, maxDist) == 0
  {
    if ps != [] {
      var q := ps[..|ps| - 1];
      assert forall k :: 0 <= k < |q| ==> q[k] == ps[k];
      PeaksAfterNone(q, latency, minDist, maxDist);
    }
  }

  /** A slice whose latency is its last sample or later has no counted pair,
      and a latency at or past its end leaves an area of zero. */
  lemma LatencyAtEnd(smoothed: seq<real>, latency: int, minDist: int, maxDist: int)
    requires latency >= |smoothed| - 1
    requires SliceFeatures(smoothed, latency, minDist, maxDist).Some?
    ensures SliceFeatures(smoothed, latency, minDist, maxDist).value.peaks == 0
    ensures latency >= |smoothed| ==> SliceFeatures(smoothed, latency, minDist, maxDist).value.area == 0.0
  {
    var ps := SlicePairs(smoothed).value;
    PeaksAfterNone(ps, latency, minDist, maxDist);
    if latency >= |smoothed| {
      assert PyTail(smoothed, latency) == [];
    }
  }

  /** The inner loop of get_area_extrema_matrix for one test: the cell of
      each slice, `None` for a slice that is skipped. The work done on one
      slice is `cellOf`, applied to the slice and its latency. */
  method AreaRow(slices: seq<seq<real>>, lats: seq<int>, cellOf: (seq<real>, int) -> Option<Features>)
    returns (cells: seq<Option<Features>>)
    requires |lats| >= |slices|
    ensures |cells| == |slices|
    ensures forall s :: 0 <= s < |slices| ==> cells[s] == cellOf(slices[s], lats[s])
  {
    cells := [];
    for s := 0 to |slices|
      invariant |cells| == s
      invariant forall s' :: 0 <= s' < s ==> cells[s'] == cellOf(slices[s'], lats[s'])
    {
      var cell := cellOf(slices[s], lats[s]);
      cells := cells + [cell];
    }
  }

  /** The two preallocated matrices, zero where a cell is skipped and the
      cell's peak count and area elsewhere. */
  method FillMatrices(cells: seq<seq<Option<Features>>>, slicesCount: nat) returns (peaks: array2<int>, areas: array2<real>)
    requires forall e :: 0 <= e < |cells| ==> |cells[e]| == slicesCount
    ensures fresh(peaks) && fresh(areas)
    ensures peaks.Length0 == |cells| && peaks.Length1 == slicesCount
    ensures areas.Length0 == |cells| && areas.Length1 == slicesCount
    ensures forall e, s :: 0 <= e < |cells| && 0 <= s < slicesCount ==>
      && peaks[e, s] == (if cells[e][s].Some? then cells[e][s].value.peaks else 0)
      && areas[e, s] == (if cells[e][s].Some? then cells[e][s].value.area else 0.0)
  {
    peaks := new int[|cells|, slicesCount]((_, _) => 0);
    areas := new real[|cells|, slicesCount]((_, _) => 0.0);
    for e := 0 to |cells|
      invariant forall e', s :: 0 <= e' < e && 0 <= s < slicesCount ==>
        && peaks[e', s] == (if cells[e'][s].Some? then cells[e'][s].value.peaks else 0)
        && areas[e', s] == (if cells[e'][s].Some? then cells[e'][s].value.area else 0.0)
      invariant forall e', s :: e <= e' < |cells| && 0 <= s < slicesCount ==> peaks[e', s] == 0 && areas[e', s] == 0.0
    {
      for s := 0 to slicesCount
        invariant forall e', s' :: 0 <= e' < e && 0 <= s' < slicesCount ==>
          && peaks[e', s'] == (if cells[e'][s'].Some? then cells[e'][s'].value.peaks else 0)
          && areas[e', s'] == (if cells[e'][s'].Some? then cells[e'][s'].value.area else 0.0)
        invariant forall s' :: 0 <= s' < s ==>
          && peaks[e, s'] == (if cells[e][s'].Some? then cells[e][s'].value.peaks else 0)
          && areas[e, s'] == (if cells[e][s'].Some? then cells[e][s'].value.area else 0.0)
        invariant forall e', s' :: e <= e' < |cells| && 0 <= s' < slicesCount && (e' > e || s' >= s) ==>
          peaks[e', s'] == 0 && areas[e', s'] == 0.0
      {
        if cells[e][s].Some? {
          peaks[e, s] := cells[e][s].value.peaks;
          areas[e, s] := cells[e][s].value.area;
        }
      }
    }
  }

  /** The cell of one slice of get_area_extrema_matrix: the features of the
      smoothed slice, `None` when it is skipped. An empty slice, which the
      smoothing rejects, has none. */
  function SmoothedFeatures(slice: seq<real>, latency: int, minDist: int, maxDist: int): Option<Features>
  {
    match Smooth(slice)
    case Failure(_) => None
    case Success(smoothed) => SliceFeatures(smoothed, latency, minDist, maxDist)
  }

  /** get_area_extrema_matrix with the skip the guard intends: the peak
      matrix holds twice the number of counted pairs of each slice and the
      area matrix the sum of the smoothed magnitudes from the latency on;
      slices without extrema keep zeros. Empty slices make the smoothing of
      the first slice raise ValueError. */
  method AreaExtremaMatrix(data: seq<seq<seq<real>>>, latencies: seq<seq<int>>, minDist: int, maxDist: int)
    returns (r: Result<(array2<int>, array2<real>)>)
    requires |latencies| >= |data| && forall e :: 0 <= e < |data| ==> |latencies[e]| >= |data[e]|
    ensures !IsCube(data) ==> r == Failure(TypeError)
    ensures IsCube(data) ==> (r.Failure? <==> SlicesCount(data) > 0 && SliceLength(data) == 0)
    ensures IsCube(data) && r.Failure? ==> r.error == ValueError
    ensures r.Success? ==>
      var (peaks, areas) := r.value;
      && fresh(peaks) && fresh(areas)
      && peaks.Length0 == |data| && peaks.Length1 == SlicesCount(data)
      && areas.Length0 == |data| && areas.Length1 == SlicesCount(data)
      && forall e, s :: 0 <= e < |data| && 0 <= s < SlicesCount(data) ==>
           var cell := SmoothedFeatures(data[e][s], latencies[e][s], minDist, maxDist);
           && peaks[e, s] == (if cell.Some? then cell.value.peaks else 0)
           && areas[e, s] == (if cell.Some? then cell.value.area else 0.0)
  {
    if !IsCube(data) {
      return Failure(TypeError);
    }
    var slicesCount := SlicesCount(data);
    if slicesCount > 0 && SliceLength(data) == 0 {
      return Failure(Smooth(data[0][0]).error);
    }
    var table := AreaTable(data, latencies, slicesCount, (slice, lat) => SmoothedFeatures(slice, lat, minDist, maxDist));
    var peaks, areas := FillMatrices(table, slicesCount);
    return Success((peaks, areas));
  }

  /** The outer loop of get_area_extrema_matrix: one row of cells per test. */
  method AreaTable(data: seq<seq<seq<real>>>, latencies: seq<seq<int>>, slicesCount: nat,
                   cellOf: (seq<real>, int) -> Option<Features>)
    returns (table: seq<seq<Option<Features>>>)
    requires forall e :: 0 <= e < |data| ==> |data[e]| == slicesCount
    requires |latencies| >= |data| && forall e :: 0 <= e < |data| ==> |latencies[e]| >= |data[e]|
    ensures |table| == |data|
    ensures forall e :: 0 <= e < |data| ==> |table[e]| == slicesCount
    ensures forall e, s :: 0 <= e < |data| && 0 <= s < slicesCount ==>
      table[e][s] == cellOf(data[e][s], latencies[e][s])
  {
    table := [];
    for e := 0 to |data|
      invariant |table| == e
      invariant forall e' :: 0 <= e' < e ==> |table[e']| == slicesCount
      invariant forall e', s :: 0 <= e' < e && 0 <= s < slicesCount ==>
        table[e'][s] == cellOf(data[e'][s], latencies[e'][s])
    {
      var row := AreaRow(data[e], latencies[e], cellOf);
      table := table + [row];
    }
  }
}

/** Boxplot summaries of the GRAS results: per time step the quartiles of
    the test values, whiskers reaching to the furthest dot within 1.5 IQR of
    the box, and fliers reaching to the furthest dot beyond. `np.percentile`
    is a parameter. */
module ShadowsBoxplot {
  import opened Common

  /** `np.percentile(dots, p)`. */
  type Percentile = (seq<real>, real) -> real

  /** The 7-tuple of calc_boxplots, in its order. */
  datatype Boxplot = Boxplot(median: real, q3: real, q1: real,
                             highWhisker: real, lowWhisker: real,
                             highFlier: real, lowFlier: real)

  function HighFence(q1: real, q3: real): real { q3 + 1.5 * (q3 - q1) }

  function LowFence(q1: real, q3: real): real { q1 - 1.5 * (q3 - q1) }

  // ---------------------------------------------------------------------------
  // The two loops of calc_boxplots as folds over the dots
  // ---------------------------------------------------------------------------

  /** The high whisker after the dots are scanned: it starts at Q3 and takes
      every dot in `(Q3, fence]` above it. */
  function HighWhisker(dots: seq<real>, q3: real, fence: real): real
  {
    if dots == [] then q3
    else
      var w := HighWhisker(dots[..|dots| - 1], q3, fence);
      var dot := dots[|dots| - 1];
      if q3 < dot <= fence && dot > w then dot else w
  }

  /** The low whisker: it starts at Q1 and takes every dot in `[fence, Q1)`
      below it. */
  function LowWhisker(dots: seq<real>, q1: real, fence: real): real
  {
    if dots == [] then q1
    else
      var w := LowWhisker(dots[..|dots| - 1], q1, fence);
      var dot := dots[|dots| - 1];
      if fence <= dot < q1 && dot < w then dot else w
  }

  /** The high flier: it starts at the high whisker and takes every dot
      beyond the fence above it. */
  function HighFlier(dots: seq<real>, fence: real, start: real): real
  {
    if dots == [] then start
    else
      var f := HighFlier(dots[..|dots| - 1], fence, start);
      var dot := dots[|dots| - 1];
      if dot > fence && dot > f then dot else f
  }

  /** The low flier: it starts at the low whisker and takes every dot
      beyond the fence below it. */
  function LowFlier(dots: seq<real>, fence: real, start: real): real
  {
    if dots == [] then start
    else
      var f := LowFlier(dots[..|dots| - 1], fence, start);
      var dot := dots[|dots| - 1];
      if dot < fence && dot < f then dot else f
  }

  /** calc_boxplots of one time step, as a value. */
  function BoxplotOf(dots: seq<real>, percentile: Percentile): Boxplot
  {
    var q1, median, q3 := percentile(dots, 25.0), percentile(dots, 50.0), percentile(dots, 75.0);
    var hi, lo := HighFence(q1, q3), LowFence(q1, q3);
    var hw, lw := HighWhisker(dots, q3, hi), LowWhisker(dots, q1, lo);
    Boxplot(median, q3, q1, hw, lw, HighFlier(dots, hi, hw), LowFlier(dots, lo, lw))
  }

  /** calc_boxplots: the quartiles, then one pass for the whiskers and one
      for the fliers. */
  method CalcBoxplots(dots: seq<real>, percentile: Percentile) returns (b: Boxplot)
    ensures b == BoxplotOf(dots, percentile)
  {
    var lowBoxQ1, median, highBoxQ3 := percentile(dots, 25.0), percentile(dots, 50.0), percentile(dots, 75.0);
    var iqr := highBoxQ3 - lowBoxQ1;
    var q1Fence := lowBoxQ1 - 1.5 * iqr;
    var q3Fence := highBoxQ3 + 1.5 * iqr;
    var highWhisker, lowWhisker := WhiskerPass(dots, highBoxQ3, lowBoxQ1, q3Fence, q1Fence);
    var highFlier, lowFlier := FlierPass(dots, q3Fence, q1Fence, highWhisker, lowWhisker);
    return Boxplot(median, highBoxQ3, lowBoxQ1, highWhisker, lowWhisker, highFlier, lowFlier);
  }

  /** The first pass of calc_boxplots: the largest dot inside the upper
      fence and the smallest inside the lower one. */
  method WhiskerPass(dots: seq<real>, q3: real, q1: real, q3Fence: real, q1Fence: real)
    returns (highWhisker: real, lowWhisker: real)
    ensures highWhisker == HighWhisker(dots, q3, q3Fence)
    ensures lowWhisker == LowWhisker(dots, q1, q1Fence)
  {
    highWhisker, lowWhisker := q3, q1;
    for i := 0 to |dots|
      invariant highWhisker == HighWhisker(dots[..i], q3, q3Fence)
      invariant lowWhisker == LowWhisker(dots[..i], q1, q1Fence)
    {
      assert dots[..i + 1][..i] == dots[..i];
      var dot := dots[i];
      if q3 < dot <= q3Fence && dot > highWhisker {
        highWhisker := dot;
      }
      if q1Fence <= dot < q1 && dot < lowWhisker {
        lowWhisker := dot;
      }
    }
    assert dots[..|dots|] == dots;
  }

  /** The second pass of calc_boxplots: the extreme dots beyond the fences,
      starting from the whiskers. */
  method FlierPass(dots: seq<real>, q3Fence: real, q1Fence: real, highWhisker: real, lowWhisker: real)
    returns (highFlier: real, lowFlier: real)
    ensures highFlier == HighFlier(dots, q3Fence, highWhisker)
    ensures lowFlier == LowFlier(dots, q1Fence, lowWhisker)
  {
    highFlier, lowFlier := highWhisker, lowWhisker;
    for i := 0 to |dots|
      invariant highFlier == HighFlier(dots[..i], q3Fence, highWhisker)
      invariant lowFlier == LowFlier(dots[..i], q1Fence, lowWhisker)
    {
      assert dots[..i + 1][..i] == dots[..i];
      var dot := dots[i];
      if dot > q3Fence && dot > highFlier {
        highFlier := dot;
      }
      if dot < q1Fence && dot < lowFlier {
        lowFlier := dot;
      }
    }
    assert dots[..|dots|] == dots;
  }

  // ---------------------------------------------------------------------------
  // What the folds compute
  // ---------------------------------------------------------------------------

  /** `w` is the largest dot in `(q3, fence]`, or `q3` when there is none. */
  predicate IsHighWhisker(dots: seq<real>, q3: real, fence: real, w: real)
  {
    && q3 <= w
    && (forall d :: d in dots && q3 < d <= fence ==> d <= w)
    && (w == q3 || (w in dots && q3 < w <= fence))
  }

  /** `w` is the smallest dot in `[fence, q1)`, or `q1` when there is none. */
  predicate IsLowWhisker(dots: seq<real>, q1: real, fence: real, w: real)
  {
    && w <= q1
    && (forall d :: d in dots && fence <= d < q1 ==> w <= d)
    && (w == q1 || (w in dots && fence <= w < q1))
  }

  /** `f` is the larger of `start` and the largest dot beyond `fence`. */
  predicate IsHighFlier(dots: seq<real>, fence: real, start: real, f: real)
  {
    && start <= f
    && (forall d :: d in dots && d > fence ==> d <= f)
    && (f == start || (f in dots && f > fence))
  }

  /** `f` is the smaller of `start` and the smallest dot beyond `fence`. */
  predicate IsLowFlier(dots: seq<real>, fence: real, start: real, f: real)
  {
    && f <= start
    && (forall d :: d in dots && d < fence ==> f <= d)
    && (f == start || (f in dots && f < fence))
  }

  lemma {:induction false} HighWhiskerSpec(dots: seq<real>, q3: real, fence: real)
    ensures IsHighWhisker(dots, q3, fence, HighWhisker(dots, q3, fence))
  {
    if dots != [] {
      var p := dots[..|dots| - 1];
      HighWhiskerSpec(p, q3, fence);
      assert forall d :: d in dots ==> d in p || d == dots[|dots| - 1];
    }
  }

  lemma {:induction false} LowWhiskerSpec(dots: seq<real>, q1: real, fence: real)
    ensures IsLowWhisker(dots, q1, fence, LowWhisker(dots, q1, fence))
  {
    if dots != [] {
      var p := dots[..|dots| - 1];
      LowWhiskerSpec(p, q1, fence);
      assert forall d :: d in dots ==> d in p || d == dots[|dots| - 1];
    }
  }

  lemma {:induction false} HighFlierSpec(dots: seq<real>, fence: real, start: real)
    ensures IsHighFlier(dots, fence, start, HighFlier(dots, fence, start))
  {
    if dots != [] {
      var p := dots[..|dots| - 1];
      HighFlierSpec(p, fence, start);
      assert forall d :: d in dots ==> d in p || d == dots[|dots| - 1];
    }
  }

  lemma {:induction false} LowFlierSpec(dots: seq<real>, fence: real, start: real)
    ensures IsLowFlier(dots, fence, start, LowFlier(dots, fence, start))
  {
    if dots != [] {
      var p := dots[..|dots| - 1];
      LowFlierSpec(p, fence, start);
      assert forall d :: d in dots ==> d in p || d == dots[|dots| - 1];
    }
  }

  /** The boxplot of a time step: whiskers and fliers are what the
      predicates above describe, around the box given by the quartiles. */
  lemma BoxplotSpec(dots: seq<real>, percentile: Percentile)
    ensures var b := BoxplotOf(dots, percentile);
      var hi, lo := HighFence(b.q1, b.q3), LowFence(b.q1, b.q3);
      && b.q1 == percentile(dots, 25.0) && b.median == percentile(dots, 50.0) && b.q3 == percentile(dots, 75.0)
      && IsHighWhisker(dots, b.q3, hi, b.highWhisker)
      && IsLowWhisker(dots, b.q1, lo, b.lowWhisker)
      && IsHighFlier(dots, hi, b.highWhisker, b.highFlier)
      && IsLowFlier(dots, lo, b.lowWhisker, b.lowFlier)
  {
    var b := BoxplotOf(dots, percentile);
    var hi, lo := HighFence(b.q1, b.q3), LowFence(b.q1, b.q3);
    HighWhiskerSpec(dots, b.q3, hi);
    LowWhiskerSpec(dots, b.q1, lo);
    HighFlierSpec(dots, hi, b.highWhisker);
    LowFlierSpec(dots, lo, b.lowWhisker);
  }

  /** Whatever the quartiles, the fliers lie outside the whiskers and the
      whiskers outside the box. */
  lemma BoxplotOrdered(dots: seq<real>, percentile: Percentile)
    ensures var b := BoxplotOf(dots, percentile);
      b.lowFlier <= b.lowWhisker <= b.q1 && b.q3 <= b.highWhisker <= b.highFlier
  {
    BoxplotSpec(dots, percentile);
  }

  /** When Q1 <= Q3 both whiskers lie within the fences. */
  lemma WhiskersWithinFences(dots: seq<real>, percentile: Percentile)
    requires percentile(dots, 25.0) <= percentile(dots, 75.0)
    ensures var b := BoxplotOf(dots, percentile);
      LowFence(b.q1, b.q3) <= b.lowWhisker && b.highWhisker <= HighFence(b.q1, b.q3)
  {
    BoxplotSpec(dots, percentile);
  }

  /** The predicates pin their value down: two high whiskers of dots with the
      same elements are equal. */
  lemma HighWhiskerUnique(dots: seq<real>, other: seq<real>, q3: real, fence: real, w: real, w': real)
    requires forall d :: d in dots <==> d in other
    requires IsHighWhisker(dots, q3, fence, w) && IsHighWhisker(other, q3, fence, w')
    ensures w == w'
  {
  }

  /** Whiskers and fliers do not depend on the order of the dots: any
      rearrangement with the same quartiles gives the same boxplot. */
  lemma {:induction false} BoxplotOrderIndependent(dots: seq<real>, other: seq<real>, percentile: Percentile)
    requires multiset(dots) == multiset(other)
    requires percentile(dots, 25.0) == percentile(other, 25.0)
    requires percentile(dots, 50.0) == percentile(other, 50.0)
    requires percentile(dots, 75.0) == percentile(other, 75.0)
    ensures BoxplotOf(dots, percentile) == BoxplotOf(other, percentile)
  {
    var b, c := BoxplotOf(dots, percentile), BoxplotOf(other, percentile);
    assert forall d :: d in dots <==> d in multiset(dots);
    assert forall d :: d in other <==> d in multiset(other);
    BoxplotSpec(dots, percentile);
    BoxplotSpec(other, percentile);
    var hi, lo := HighFence(b.q1, b.q3), LowFence(b.q1, b.q3);
    HighWhiskerUnique(dots, other, b.q3, hi, b.highWhisker, c.highWhisker);
    assert b.lowWhisker == c.lowWhisker by {
      assert b.lowWhisker <= c.lowWhisker && c.lowWhisker <= b.lowWhisker;
    }
    assert b.highFlier == c.highFlier by {
      assert b.highFlier <= c.highFlier && c.highFlier <= b.highFlier;
    }
    assert b.lowFlier == c.lowFlier by {
      assert b.lowFlier <= c.lowFlier && c.lowFlier <= b.lowFlier;
    }
  }

  // ---------------------------------------------------------------------------
  // plot_shadows_boxplot
  // ---------------------------------------------------------------------------

  /** `data += offset` on one row of the boxplot array. */
  function Shift(b: Boxplot, offset: real): Boxplot
  {
    Boxplot(b.median + offset, b.q3 + offset, b.q1 + offset, b.highWhisker + offset,
            b.lowWhisker + offset, b.highFlier + offset, b.lowFlier + offset)
  }

  /** One boxplot per time step (per column of the tests). */
  function PerStep(steps: seq<seq<real>>, percentile: Percentile): (boxes: seq<Boxplot>)
    ensures |boxes| == |steps|
  {
    seq(|steps|, c requires 0 <= c < |steps| => BoxplotOf(steps[c], percentile))
  }

  /** The loop of plot_shadows_boxplot over the time steps. */
  method BoxplotsPerStep(steps: seq<seq<real>>, percentile: Percentile) returns (boxes: seq<Boxplot>)
    ensures boxes == PerStep(steps, percentile)
  {
    boxes := [];
    for c := 0 to |steps|
      invariant |boxes| == c
      invariant forall c' :: 0 <= c' < c ==> boxes[c'] == BoxplotOf(steps[c'], percentile)
    {
      var b := CalcBoxplots(steps[c], percentile);
      boxes := boxes + [b];
    }
  }

  /** `data += offset` on the rows `[lo, hi)` of the array, in place. */
  method ShiftRows(data: array<Boxplot>, lo: nat, hi: nat, offset: real)
    requires lo <= hi <= data.Length
    modifies data
    ensures forall p :: lo <= p < hi ==> data[p] == Shift(old(data[p]), offset)
    ensures forall p :: 0 <= p < data.Length && !(lo <= p < hi) ==> data[p] == old(data[p])
  {
    for p := lo to hi
      invariant forall q :: lo <= q < p ==> data[q] == Shift(old(data[q]), offset)
      invariant forall q :: 0 <= q < data.Length && !(lo <= q < p) ==> data[q] == old(data[q])
    {
      data[p] := Shift(data[p], offset);
    }
  }

  /** The loop of plot_shadows_boxplot over the groups: group `i` of `len`
      rows gets `i * 6` added, in place. */
  method ShiftGroups(data: array<Boxplot>, groups: nat, len: nat)
    requires data.Length == groups * len && len > 0
    modifies data
    ensures forall p :: 0 <= p < data.Length ==> data[p] == Shift(old(data[p]), (6 * (p / len)) as real)
  {
    var base := 0;
    for i := 0 to groups
      invariant base == i * len <= data.Length
      invariant forall p :: 0 <= p < base ==> data[p] == Shift(old(data[p]), (6 * (p / len)) as real)
      invariant forall p :: base <= p < data.Length ==> data[p] == old(data[p])
    {
      MulLe(i + 1, groups, len);
      ShiftRows(data, base, base + len, (6 * i) as real);
      forall p | base <= p < base + len
        ensures p / len == i
      {
        DivIs(p, len, i);
      }
      base := base + len;
    }
  }

  function Group(rows: seq<Boxplot>, groups: nat, len: nat, i: nat): (part: seq<Boxplot>)
    requires |rows| == groups * len && i < groups
    ensures |part| == len
    ensures forall j :: 0 <= j < len ==> i * len + j < |rows| && part[j] == rows[i * len + j]
  {
    if len == 0 then []
    else
      MulLe(i + 1, groups, len);
      rows[i * len .. i * len + len]
  }

  /** `np.split` into `groups` consecutive groups of `len` rows. */
  function Split(rows: seq<Boxplot>, groups: nat, len: nat): (parts: seq<seq<Boxplot>>)
    requires |rows| == groups * len
    ensures |parts| == groups
    ensures forall i :: 0 <= i < groups ==> parts[i] == Group(rows, groups, len, i)
  {
    seq(groups, i requires 0 <= i < groups => Group(rows, groups, len, i))
  }

  /** The boxplot array after the loop of plot_shadows_boxplot: row `p`
      belongs to group `p / len` and is lifted by six times that group's
      number. */
  function Lifted(boxes: seq<Boxplot>, len: nat): (r: seq<Boxplot>)
    requires len > 0
    ensures |r| == |boxes|
  {
    seq(|boxes|, p requires 0 <= p < |boxes| => Shift(boxes[p], (6 * (p / len)) as real))
  }

  /** Row `j` of group `i` of the split, lifted array is row `i * len + j` of
      the input lifted by `i * 6`: groups are consecutive, keep their order,
      and each is lifted by its own offset. */
  lemma LiftedGroups(boxes: seq<Boxplot>, groups: nat, len: nat, i: nat, j: nat)
    requires |boxes| == groups * len && len > 0 && i < groups && j < len
    ensures i * len + j < |boxes|
    ensures Split(Lifted(boxes, len), groups, len)[i][j] == Shift(boxes[i * len + j], (6 * i) as real)
  {
    MulLe(i + 1, groups, len);
    var shifted := Lifted(boxes, len);
    var part := Group(shifted, groups, len, i);
    assert Split(shifted, groups, len)[i] == part;
    DivIs(i * len + j, len, i);
  }

  /** The in-place lift followed by `np.split`: the boxplots are copied into
      an array, group `i` is lifted by `i * 6`, and the array is cut into
      `groups` groups of `len`. */
  method ShiftedGroups(boxes: seq<Boxplot>, groups: nat, len: nat) returns (parts: seq<seq<Boxplot>>)
    requires |boxes| == groups * len && len > 0
    ensures parts == Split(Lifted(boxes, len), groups, len)
  {
    var data := new Boxplot[|boxes|](p requires 0 <= p < |boxes| => boxes[p]);
    ShiftGroups(data, groups, len);
    var shifted := data[..];
    assert shifted == Lifted(boxes, len);
    parts := Split(shifted, groups, len);
  }

  /** The part of plot_shadows_boxplot that computes what is drawn: one
      boxplot per time step, split by `np.split` into `slicesNumber` equal
      groups, group `i` lifted in place by `i * 6`; the first median of each
      group labels it. Every group is drawn against `shared_x`, which has
      `stepsInSlice` points, so a group of another length makes
      `fill_between`/`plot` raise ValueError, and an empty group fails
      on `data[:, 6]` with IndexError. `slicesNumber` stands for
      `int(len(data_per_test[0]) / slice_length_ms * step)` and
      `stepsInSlice` for `int(slice_length_ms / step)`. */
  method PlotShadowsBoxplot(dataPerTest: seq<seq<real>>, slicesNumber: int, stepsInSlice: int, percentile: Percentile)
    returns (r: Result<seq<seq<Boxplot>>>)
    ensures dataPerTest == [] ==> r == Failure(IndexError)
    ensures dataPerTest != [] && slicesNumber == 0 ==> r == Failure(ZeroDivisionError)
    ensures dataPerTest != [] && slicesNumber < 0 ==> r == Failure(ValueError)
    ensures dataPerTest != [] && slicesNumber > 0 ==>
      var steps := Transpose(dataPerTest);
      && (r.Success? <==> |steps| % slicesNumber == 0 && |steps| > 0 && |steps| / slicesNumber == stepsInSlice)
      && (r.Failure? ==> r.error == if |steps| == 0 then IndexError else ValueError)
      && (r.Success? ==>
            && |steps| == slicesNumber * stepsInSlice
            && r.value == Split(Lifted(PerStep(steps, percentile), stepsInSlice), slicesNumber, stepsInSlice))
  {
    if dataPerTest == [] {
      return Failure(IndexError);
    }
    var steps := Transpose(dataPerTest);
    var boxes := BoxplotsPerStep(steps, percentile);
    var n := |boxes|;
    if slicesNumber == 0 {
      return Failure(ZeroDivisionError);
    }
    if slicesNumber < 0 || n % slicesNumber != 0 {
      return Failure(ValueError);
    }
    var g := n / slicesNumber;
    if g == 0 {
      return Failure(IndexError);
    }
    if g != stepsInSlice {
      return Failure(ValueError);
    }
    assert n == slicesNumber * g;
    var groups := ShiftedGroups(boxes, slicesNumber, g);
    return Success(groups);
  }
}

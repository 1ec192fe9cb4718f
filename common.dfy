/** Shared vocabulary of the trace post-processing model: the error outcomes of
    the Python code (its exceptions), optional values, and the reductions over
    sample sequences (`abs`, `sum`, `min`, `max`, `np.mean`, `zip(*rows)`) that
    every analysis module uses. Samples are mathematical reals. */
module Common {

  datatype Option<T> = None | Some(value: T)

  /** The exceptions the modelled code can raise (`Exception` is a bare
      `raise Exception(...)`), plus `Diverges` for a loop of the source that
      would never terminate. */
  datatype Error =
    | Exception
    | TypeError
    | IndexError
    | ValueError
    | KeyError
    | ZeroDivisionError
    | AssertionError
    | StopIteration
    | Diverges

  datatype Result<T> = Success(value: T) | Failure(error: Error)

  function Abs(x: real): (r: real)
    ensures r >= 0.0
    ensures r == x || r == -x
  {
    if x < 0.0 then -x else x
  }

  /** Sum of the samples, accumulated left to right as `np.sum` / `sum` does. */
  function Sum(s: seq<real>): real
  {
    if s == [] then 0.0 else Sum(s[..|s| - 1]) + s[|s| - 1]
  }

  /** Python's `min` on a non-empty sequence. */
  function Min(s: seq<real>): (m: real)
    requires |s| > 0
    ensures m in s
    ensures forall x :: x in s ==> m <= x
  {
    if |s| == 1 then s[0]
    else
      var rest := Min(s[1..]);
      assert forall x :: x in s ==> x == s[0] || x in s[1..];
      if s[0] <= rest then s[0] else rest
  }

  /** Python's `max` on a non-empty sequence. */
  function Max(s: seq<real>): (m: real)
    requires |s| > 0
    ensures m in s
    ensures forall x :: x in s ==> x <= m
  {
    if |s| == 1 then s[0]
    else
      var rest := Max(s[1..]);
      assert forall x :: x in s ==> x == s[0] || x in s[1..];
      if s[0] >= rest then s[0] else rest
  }

  /** `np.mean` of a non-empty sequence, as exact arithmetic. */
  function Mean(s: seq<real>): real
    requires |s| > 0
  {
    Sum(s) / (|s| as real)
  }

  lemma {:induction false} SumBounds(s: seq<real>, lo: real, hi: real)
    requires forall x :: x in s ==> lo <= x <= hi
    ensures (|s| as real) * lo <= Sum(s) <= (|s| as real) * hi
  {
    if s != [] {
      var p := s[..|s| - 1];
      assert forall x :: x in p ==> x in s;
      SumBounds(p, lo, hi);
      assert s[|s| - 1] in s;
    }
  }

  lemma QuotientBounds(a: real, n: real, lo: real, hi: real)
    requires n > 0.0
    requires n * lo <= a <= n * hi
    ensures lo <= a / n <= hi
  {
    var q := a / n;
    assert a == q * n;
    assert (q - lo) * n == a - n * lo;
    assert (hi - q) * n == n * hi - a;
  }

  /** The mean of samples that all lie in [lo, hi] lies in [lo, hi]. */
  lemma MeanWithin(s: seq<real>, lo: real, hi: real)
    requires |s| > 0
    requires forall x :: x in s ==> lo <= x <= hi
    ensures lo <= Mean(s) <= hi
  {
    SumBounds(s, lo, hi);
    QuotientBounds(Sum(s), |s| as real, lo, hi);
  }

  /** The mean of a non-empty sequence lies between its minimum and maximum. */
  lemma MeanBetween(s: seq<real>)
    requires |s| > 0
    ensures Min(s) <= Mean(s) <= Max(s)
  {
    MeanWithin(s, Min(s), Max(s));
  }

  /** Python's `int()` on a float: truncation toward zero. */
  function Trunc(x: real): int
  {
    if x >= 0.0 then x.Floor else -((-x).Floor)
  }

  /** A Python slice bound: a negative bound counts from the end, and the
      result is clamped to `[0, n]`. */
  function SliceBound(i: int, n: nat): (b: nat)
    ensures b <= n
    ensures 0 <= i <= n ==> b == i
  {
    var k := if i < 0 then i + n else i;
    if k < 0 then 0 else if k > n then n else k
  }

  /** Python's `s[i:j]`. */
  function PySlice<T>(s: seq<T>, i: int, j: int): seq<T>
  {
    var a, b := SliceBound(i, |s|), SliceBound(j, |s|);
    if a <= b then s[a..b] else []
  }

  /** Python's `s[i:]`. */
  function PyTail<T>(s: seq<T>, i: int): seq<T>
  {
    s[SliceBound(i, |s|)..]
  }

  /** Length of the shortest row; 0 when there are no rows (`zip()` is empty). */
  function Shortest<T>(rows: seq<seq<T>>): (n: nat)
    ensures rows == [] ==> n == 0
    ensures forall t :: 0 <= t < |rows| ==> n <= |rows[t]|
    ensures rows != [] ==> exists t :: 0 <= t < |rows| && n == |rows[t]|
  {
    if rows == [] then 0
    else if |rows| == 1 then |rows[0]|
    else
      var rest := Shortest(rows[1..]);
      assert forall t :: 1 <= t < |rows| ==> rows[t] == rows[1..][t - 1];
      if |rows[0]| <= rest then |rows[0]| else rest
  }

  /** `zip(*rows)`: column `i` holds element `i` of every row, and there are
      as many columns as the shortest row is long. */
  function Transpose(rows: seq<seq<real>>): (cols: seq<seq<real>>)
    ensures |cols| == Shortest(rows)
    ensures forall i :: 0 <= i < |cols| ==> |cols[i]| == |rows|
    ensures forall i, t :: 0 <= i < |cols| && 0 <= t < |rows| ==> cols[i][t] == rows[t][i]
  {
    var n := Shortest(rows);
    seq(n, i requires 0 <= i < n => seq(|rows|, t requires 0 <= t < |rows| => rows[t][i]))
  }

  /** The samples of `a` at the positions `idx`, in order (`a[idx]` on an
      ndarray). */
  function ValuesAt(a: seq<real>, idx: seq<nat>): (vs: seq<real>)
    requires forall k :: 0 <= k < |idx| ==> idx[k] < |a|
    ensures |vs| == |idx|
    ensures forall k :: 0 <= k < |idx| ==> vs[k] == a[idx[k]]
  {
    seq(|idx|, k requires 0 <= k < |idx| => a[idx[k]])
  }

  /** Concatenation of rows (`np.ravel` of a 2-D array, or joining slices). */
  function Flatten(rows: seq<seq<real>>): (r: seq<real>)
  {
    if rows == [] then [] else Flatten(rows[..|rows| - 1]) + rows[|rows| - 1]
  }

  lemma {:induction false} FlattenLength(rows: seq<seq<real>>, len: nat)
    requires forall k :: 0 <= k < |rows| ==> |rows[k]| == len
    ensures |Flatten(rows)| == |rows| * len
  {
    if rows != [] {
      var init := rows[..|rows| - 1];
      assert forall k :: 0 <= k < |init| ==> init[k] == rows[k];
      FlattenLength(init, len);
      MulSucc(|init|, len);
      assert Flatten(rows) == Flatten(init) + rows[|rows| - 1];
    }
  }

  lemma {:induction false} FlattenAt(rows: seq<seq<real>>, len: nat, k: nat, j: nat)
    requires forall q :: 0 <= q < |rows| ==> |rows[q]| == len
    requires k < |rows| && j < len
    ensures |Flatten(rows)| == |rows| * len
    ensures k * len + j < |rows| * len
    ensures Flatten(rows)[k * len + j] == rows[k][j]
  {
    FlattenLength(rows, len);
    var n := |rows| - 1;
    FlattenLength(rows[..n], len);
    MulLess(k, n + 1, len);
    if k < n {
      FlattenAt(rows[..n], len, k, j);
      MulLess(k, n, len);
    } else {
      assert k * len == |Flatten(rows[..n])|;
    }
  }

  /** `k < n` implies `k * len + len <= n * len`. */
  lemma MulLess(k: nat, n: nat, len: nat)
    requires k < n
    ensures k * len + len <= n * len
  {
    assert n * len == (n - k - 1) * len + k * len + len;
  }

  /** An index below `n * len` lies in one of the first `n` blocks of `len`. */
  lemma BlockOfIndex(i: nat, n: nat, len: nat)
    requires len > 0 && i < n * len
    ensures i / len < n
    ensures 0 <= i - len * (i / len) < len
  {
    var q := i / len;
    assert i == q * len + i % len;
    if q >= n {
      MulMono(n, q, len);
    }
  }

  /** `i - len * (i // len)` is the offset of `i` inside its block. */
  lemma OffsetInBlock(i: nat, len: nat)
    requires len > 0
    ensures 0 <= i - len * (i / len) < len
  {
    assert i == (i / len) * len + i % len;
  }

  /** Whole blocks of `len` cover `n` up to a remainder shorter than `len`. */
  lemma WholeBlocks(n: nat, len: nat)
    requires len > 0
    ensures (n / len) * len <= n < (n / len) * len + len
  {
    assert n == (n / len) * len + n % len;
  }

  /** Slicing after dropping `d` elements is slicing shifted by `d`. */
  lemma DropSlice<T>(s: seq<T>, d: nat, i: nat, j: nat)
    requires d <= |s| && i <= j <= |s| - d
    ensures s[d..][i..j] == s[d + i..d + j]
  {
  }

  lemma MulSucc(n: int, len: int)
    ensures (n + 1) * len == n * len + len
  {
  }

  lemma MulLe(a: int, b: int, n: int)
    requires a <= b && n > 0
    ensures a * n <= b * n
  {
    assert b * n - a * n == (b - a) * n;
  }

  /** `i * len <= p < i * len + len` puts `p` in block `i`. */
  lemma DivIs(p: int, len: int, i: int)
    requires len > 0 && i * len <= p < i * len + len
    ensures p / len == i
  {
    var q := p / len;
    assert q * len <= p < q * len + len;
    if q < i {
      MulLe(q + 1, i, len);
    } else if q > i {
      MulLe(i + 1, q, len);
    }
  }

  lemma MulMono(a: nat, b: nat, c: nat)
    requires a <= b
    ensures a * c <= b * c
  {
    assert b * c == a * c + (b - a) * c;
  }

  /** Block `k < n / len` of an `n`-long sequence fits inside it. */
  lemma BlockFits(k: nat, n: nat, len: nat)
    requires len > 0 && k <= n / len
    ensures k * len <= n
    ensures k < n / len ==> k * len + len <= n
  {
    assert n == (n / len) * len + n % len;
    MulMono(k, n / len, len);
    if k < n / len {
      MulMono(k + 1, n / len, len);
    }
  }
}

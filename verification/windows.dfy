/**
  * Trailing-window statistics as pandas computes `rolling(w).mean()`,
  * `rolling(w).std()` and `rolling(w).max()` with the default
  * `min_periods = w`: the value at row t looks at rows t-w+1 .. t and is
  * defined only when all w of them hold a finite value.  An infinite input
  * is treated like a missing one.
  */
module Windows {
  import opened Values

  function Sum(xs: seq<real>): real
  {
    if xs == [] then 0.0 else Sum(xs[..|xs| - 1]) + xs[|xs| - 1]
  }

  function Mean(xs: seq<real>): real
    requires |xs| > 0
  {
    Sum(xs) / |xs| as real
  }

  /** Sum of squared deviations from `m`. */
  function SquaredDeviation(xs: seq<real>, m: real): real
  {
    if xs == [] then 0.0
    else
      var d := xs[|xs| - 1] - m;
      SquaredDeviation(xs[..|xs| - 1], m) + d * d
  }

  /** Sample variance, denominator n - 1 (pandas' default `ddof=1`). */
  function SampleVariance(xs: seq<real>): real
    requires |xs| >= 2
  {
    SquaredDeviation(xs, Mean(xs)) / (|xs| - 1) as real
  }

  /** The largest element; it bounds every element and is one of them. */
  function Largest(xs: seq<real>): (m: real)
    requires |xs| > 0
    ensures forall i :: 0 <= i < |xs| ==> xs[i] <= m
    ensures exists i :: 0 <= i < |xs| && xs[i] == m
  {
    if |xs| == 1 then xs[0]
    else
      var p := Largest(xs[..|xs| - 1]);
      if xs[|xs| - 1] > p then xs[|xs| - 1] else p
  }

  /** The w rows ending at t exist and all hold a finite value. */
  predicate Full(xs: seq<Val>, w: nat, t: nat)
  {
    1 <= w <= t + 1 && t < |xs| && forall i :: t + 1 - w <= i <= t ==> xs[i].Fin?
  }

  /** The finite values of the w rows ending at t, oldest first. */
  function Window(xs: seq<Val>, w: nat, t: nat): (ws: seq<real>)
    requires Full(xs, w, t)
    ensures |ws| == w
    ensures forall j :: 0 <= j < w ==> xs[t + 1 - w + j] == Fin(ws[j])
  {
    seq(w, j requires 0 <= j < w => xs[t + 1 - w + j].r)
  }

  /** `rolling(w).mean()`. */
  function RollingMean(xs: seq<Val>, w: nat): (ys: seq<Val>)
    ensures |ys| == |xs|
  {
    seq(|xs|, t requires 0 <= t < |xs| =>
      if Full(xs, w, t) then Fin(Mean(Window(xs, w, t))) else Undef)
  }

  /** `rolling(w).std()`: the square root of the sample variance; undefined when w < 2. */
  function RollingStd(xs: seq<Val>, w: nat, sqrt: real -> real): (ys: seq<Val>)
    ensures |ys| == |xs|
  {
    seq(|xs|, t requires 0 <= t < |xs| =>
      if w >= 2 && Full(xs, w, t) then Fin(sqrt(SampleVariance(Window(xs, w, t)))) else Undef)
  }

  /** `rolling(w).max()`. */
  function RollingMax(xs: seq<Val>, w: nat): (ys: seq<Val>)
    ensures |ys| == |xs|
  {
    seq(|xs|, t requires 0 <= t < |xs| =>
      if Full(xs, w, t) then Fin(Largest(Window(xs, w, t))) else Undef)
  }

  /** `shift(1)`: every value moves one row down and the first row becomes undefined. */
  function Shift(xs: seq<Val>): (ys: seq<Val>)
    ensures |ys| == |xs|
    ensures forall t :: 0 < t < |xs| ==> ys[t] == xs[t - 1]
    ensures |xs| > 0 ==> ys[0] == Undef
  {
    if xs == [] then [] else [Undef] + xs[..|xs| - 1]
  }

  /** On a gap-free column a window is full exactly from row w-1 on. */
  lemma FullGapFree(xs: seq<real>, w: nat, t: nat)
    requires t < |xs|
    ensures Full(Lift(xs), w, t) <==> 1 <= w <= t + 1
    ensures Full(Lift(xs), w, t) ==> Window(Lift(xs), w, t) == xs[t + 1 - w .. t + 1]
  {
  }

  /** On a gap-free column the rolling maximum is the largest of the last w values, from row w-1 on. */
  lemma RollingMaxGapFree(xs: seq<real>, w: nat, t: nat)
    requires t < |xs|
    ensures RollingMax(Lift(xs), w)[t] ==
              if 1 <= w <= t + 1 then Fin(Largest(xs[t + 1 - w .. t + 1])) else Undef
  {
    FullGapFree(xs, w, t);
  }

  /** Bounds on the elements bound the sum. */
  lemma {:induction false} SumBetween(xs: seq<real>, lo: real, hi: real)
    requires forall i :: 0 <= i < |xs| ==> lo <= xs[i] <= hi
    ensures |xs| as real * lo <= Sum(xs) <= |xs| as real * hi
  {
    if xs != [] {
      var n := |xs| as real;
      SumBetween(xs[..|xs| - 1], lo, hi);
      assert (n - 1.0) * lo + lo == n * lo;
      assert (n - 1.0) * hi + hi == n * hi;
    }
  }

  /** A quotient by a positive number keeps a bound that holds after scaling. */
  lemma DivBetween(s: real, n: real, lo: real, hi: real)
    requires n > 0.0
    requires n * lo <= s <= n * hi
    ensures lo <= s / n <= hi
  {
    assert (s / n) * n == s;
  }

  /** The mean lies between any lower and upper bound of the elements. */
  lemma MeanBetween(xs: seq<real>, lo: real, hi: real)
    requires |xs| > 0
    requires forall i :: 0 <= i < |xs| ==> lo <= xs[i] <= hi
    ensures lo <= Mean(xs) <= hi
  {
    SumBetween(xs, lo, hi);
    DivBetween(Sum(xs), |xs| as real, lo, hi);
  }

  /** Squared deviations never sum to a negative number. */
  lemma {:induction false} SquaredDeviationNonNeg(xs: seq<real>, m: real)
    ensures SquaredDeviation(xs, m) >= 0.0
  {
    if xs != [] {
      SquaredDeviationNonNeg(xs[..|xs| - 1], m);
      var d := xs[|xs| - 1] - m;
      assert d * d >= 0.0;
    }
  }

  /** Around its own constant value a constant column has no deviation. */
  lemma {:induction false} SquaredDeviationConstant(xs: seq<real>, c: real)
    requires forall i :: 0 <= i < |xs| ==> xs[i] == c
    ensures SquaredDeviation(xs, c) == 0.0
  {
    if xs != [] {
      SquaredDeviationConstant(xs[..|xs| - 1], c);
    }
  }

  /** The sample variance is non-negative. */
  lemma VarianceNonNeg(xs: seq<real>)
    requires |xs| >= 2
    ensures SampleVariance(xs) >= 0.0
  {
    SquaredDeviationNonNeg(xs, Mean(xs));
    DivBetween(SquaredDeviation(xs, Mean(xs)), (|xs| - 1) as real, 0.0, SquaredDeviation(xs, Mean(xs)));
  }

  /** A constant window has mean c and variance 0. */
  lemma ConstantWindow(xs: seq<real>, c: real)
    requires |xs| >= 1
    requires forall i :: 0 <= i < |xs| ==> xs[i] == c
    ensures Mean(xs) == c
    ensures |xs| >= 2 ==> SampleVariance(xs) == 0.0
  {
    MeanBetween(xs, c, c);
    SquaredDeviationConstant(xs, c);
  }
}

/**
  * Exponential smoothing as pandas computes `ewm(..., adjust=False).mean()`
  * on a column without gaps: the first output is the first input, and every
  * later output mixes the new input with the previous output.
  */
module Smoothing {

  /** Smoothing factor of `ewm(span=s)`: 2 / (s + 1). */
  function SpanAlpha(span: nat): (a: real)
    requires span >= 1
    ensures 0.0 < a <= 1.0
    ensures span > 1 ==> a < 1.0
  {
    2.0 / (span as real + 1.0)
  }

  /** Smoothing factor of Wilder's average, `ewm(alpha=1/period)`. */
  function WilderAlpha(period: nat): (a: real)
    requires period >= 1
    ensures 0.0 < a <= 1.0
    ensures period > 1 ==> a < 1.0
  {
    1.0 / period as real
  }

  /** One step of the filter: the new output after `x` when the last output was `prev`. */
  function Blend(alpha: real, x: real, prev: real): real
  {
    alpha * x + (1.0 - alpha) * prev
  }

  /** The smoothed column, one output per input. */
  function Ema(xs: seq<real>, alpha: real): (ys: seq<real>)
    ensures |ys| == |xs|
    decreases |xs|
  {
    if |xs| <= 1 then xs
    else
      var prev := Ema(xs[..|xs| - 1], alpha);
      prev + [Blend(alpha, xs[|xs| - 1], prev[|xs| - 2])]
  }

  /** Smoothing a prefix gives the prefix of the smoothed column. */
  lemma {:induction false} EmaPrefix(xs: seq<real>, alpha: real, k: nat)
    requires k <= |xs|
    ensures Ema(xs, alpha)[..k] == Ema(xs[..k], alpha)
    decreases |xs|
  {
    if k < |xs| {
      var init := xs[..|xs| - 1];
      EmaPrefix(init, alpha, k);
      assert init[..k] == xs[..k];
      if |xs| > 1 {
        assert Ema(xs, alpha)[..k] == Ema(init, alpha)[..k];
      } else {
        assert k == 0;
      }
    } else {
      assert xs[..k] == xs;
    }
  }

  /** The recurrence of `adjust=False`: y[0] = x[0] and y[t] = a*x[t] + (1-a)*y[t-1]. */
  lemma EmaRecurrence(xs: seq<real>, alpha: real, t: nat)
    requires t < |xs|
    ensures t == 0 ==> Ema(xs, alpha)[0] == xs[0]
    ensures t > 0 ==> Ema(xs, alpha)[t] == Blend(alpha, xs[t], Ema(xs, alpha)[t - 1])
  {
    EmaPrefix(xs, alpha, t + 1);
    if t == 0 {
      assert Ema(xs, alpha)[0] == Ema(xs, alpha)[..1][0];
    } else {
      EmaPrefix(xs, alpha, t);
      var pre := xs[..t + 1];
      assert pre[..t] == xs[..t];
      assert Ema(xs, alpha)[t] == Ema(pre, alpha)[t];
      assert Ema(xs, alpha)[t - 1] == Ema(xs, alpha)[..t][t - 1];
    }
  }

  /** A product of two non-negative reals is non-negative. */
  lemma ProductNonNeg(a: real, b: real)
    requires 0.0 <= a && 0.0 <= b
    ensures 0.0 <= a * b
  {
  }

  /** A product of two positive reals is positive. */
  lemma ProductPos(a: real, b: real)
    requires 0.0 < a && 0.0 < b
    ensures 0.0 < a * b
  {
  }

  /** One step of the filter stays above a common lower bound of its two operands. */
  lemma BlendAtLeast(alpha: real, x: real, p: real, lo: real)
    requires 0.0 <= alpha <= 1.0
    requires lo <= x && lo <= p
    ensures lo <= Blend(alpha, x, p)
  {
    ProductNonNeg(alpha, x - lo);
    ProductNonNeg(1.0 - alpha, p - lo);
    assert Blend(alpha, x, p) - lo == alpha * (x - lo) + (1.0 - alpha) * (p - lo);
  }

  /** One step of the filter stays below a common upper bound of its two operands. */
  lemma BlendAtMost(alpha: real, x: real, p: real, hi: real)
    requires 0.0 <= alpha <= 1.0
    requires x <= hi && p <= hi
    ensures Blend(alpha, x, p) <= hi
  {
    ProductNonNeg(alpha, hi - x);
    ProductNonNeg(1.0 - alpha, hi - p);
    assert hi - Blend(alpha, x, p) == alpha * (hi - x) + (1.0 - alpha) * (hi - p);
  }

  /** With 0 <= alpha <= 1 the output never falls below a lower bound of the inputs. */
  lemma {:induction false} EmaAtLeast(xs: seq<real>, alpha: real, lo: real, t: nat)
    requires 0.0 <= alpha <= 1.0
    requires t < |xs|
    requires forall i :: 0 <= i <= t ==> lo <= xs[i]
    ensures lo <= Ema(xs, alpha)[t]
  {
    EmaRecurrence(xs, alpha, t);
    if t > 0 {
      EmaAtLeast(xs, alpha, lo, t - 1);
      BlendAtLeast(alpha, xs[t], Ema(xs, alpha)[t - 1], lo);
    }
  }

  /** With 0 <= alpha <= 1 the output never rises above an upper bound of the inputs. */
  lemma {:induction false} EmaAtMost(xs: seq<real>, alpha: real, hi: real, t: nat)
    requires 0.0 <= alpha <= 1.0
    requires t < |xs|
    requires forall i :: 0 <= i <= t ==> xs[i] <= hi
    ensures Ema(xs, alpha)[t] <= hi
  {
    EmaRecurrence(xs, alpha, t);
    if t > 0 {
      EmaAtMost(xs, alpha, hi, t - 1);
      BlendAtMost(alpha, xs[t], Ema(xs, alpha)[t - 1], hi);
    }
  }

  /** A constant column is a fixed point of the filter. */
  lemma EmaConstant(xs: seq<real>, alpha: real, c: real)
    requires 0.0 <= alpha <= 1.0
    requires forall i :: 0 <= i < |xs| ==> xs[i] == c
    ensures Ema(xs, alpha) == xs
  {
    forall t | 0 <= t < |xs|
      ensures Ema(xs, alpha)[t] == c
    {
      EmaAtLeast(xs, alpha, c, t);
      EmaAtMost(xs, alpha, c, t);
    }
  }

  /**
    * For non-negative inputs and 0 < alpha < 1 the output at t is zero
    * exactly when every input up to t is zero.
    */
  lemma {:induction false} EmaZeroIff(xs: seq<real>, alpha: real, t: nat)
    requires 0.0 < alpha < 1.0
    requires t < |xs|
    requires forall i :: 0 <= i < |xs| ==> 0.0 <= xs[i]
    ensures Ema(xs, alpha)[t] == 0.0 <==> forall i :: 0 <= i <= t ==> xs[i] == 0.0
  {
    EmaRecurrence(xs, alpha, t);
    if t > 0 {
      EmaZeroIff(xs, alpha, t - 1);
      EmaAtLeast(xs, alpha, 0.0, t - 1);
      var p := Ema(xs, alpha)[t - 1];
      var y := Ema(xs, alpha)[t];
      var a, b := alpha * xs[t], (1.0 - alpha) * p;
      assert y == a + b;
      ProductNonNeg(alpha, xs[t]);
      ProductNonNeg(1.0 - alpha, p);
      assert 0.0 <= a && 0.0 <= b;
      if xs[t] > 0.0 {
        ProductPos(alpha, xs[t]);
        assert y > 0.0;
      } else if p > 0.0 {
        ProductPos(1.0 - alpha, p);
        assert y > 0.0;
        assert !(forall i :: 0 <= i <= t - 1 ==> xs[i] == 0.0);
      } else {
        assert y == 0.0;
        assert forall i :: 0 <= i <= t ==> xs[i] == 0.0;
      }
    }
  }
}

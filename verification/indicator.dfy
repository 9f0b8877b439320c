/**
  * The technical indicators of the engine: RSI, MACD, historical volatility,
  * Bollinger bands, ATR, OBV, VWAP and the price/OBV divergence flag.  Each
  * takes whole columns of one table and returns one value per row.
  */
module Indicator {
  import opened Values
  import opened Results
  import opened Smoothing
  import opened Windows

  /** The parameters the engine calls every indicator with. */
  const RsiPeriod: nat := 14
  const MacdFast: nat := 12
  const MacdSlow: nat := 26
  const MacdSignal: nat := 9
  const HvWindow: nat := 20
  const TradingDays: nat := 252
  const BollingerWindow: nat := 20
  const BollingerWidth: real := 2.0
  const AtrPeriod: nat := 14
  const DivergenceWindow: nat := 20

  /** What the engine needs of the square-root function it is handed. */
  ghost predicate SqrtLike(sqrt: real -> real)
  {
    sqrt(0.0) == 0.0 && forall x :: 0.0 <= x ==> 0.0 <= sqrt(x)
  }

  // ---------------------------------------------------------------- RSI

  /** `series.diff()`: undefined in the first row. */
  function Diff(close: seq<real>): (d: seq<Val>)
    ensures |d| == |close|
  {
    seq(|close|, t requires 0 <= t < |close| =>
      if t == 0 then Undef else Fin(close[t] - close[t - 1]))
  }

  /** `delta.where(delta > 0, 0.0)`: the undefined first delta becomes 0.0. */
  function Gains(close: seq<real>): (g: seq<real>)
    ensures |g| == |close|
  {
    var d := Diff(close);
    seq(|close|, t requires 0 <= t < |close| =>
      if Greater(d[t], Fin(0.0)) then d[t].r else 0.0)
  }

  /** `-delta.where(delta < 0, 0.0)`. */
  function Losses(close: seq<real>): (l: seq<real>)
    ensures |l| == |close|
  {
    var d := Diff(close);
    seq(|close|, t requires 0 <= t < |close| =>
      -(if Greater(Fin(0.0), d[t]) then d[t].r else 0.0))
  }

  /** `100 - 100 / (1 + avg_gain / avg_loss)` in float arithmetic. */
  function RsiValue(avgGain: real, avgLoss: real): Val
  {
    Sub(Fin(100.0), Div(Fin(100.0), Add(Fin(1.0), Div(Fin(avgGain), Fin(avgLoss)))))
  }

  /** `calculate_rsi`: Wilder averages of gains and losses, then the RSI formula. */
  function Rsi(close: seq<real>, period: nat): (r: seq<Val>)
    requires period >= 1
    ensures |r| == |close|
  {
    var avgGain := Ema(Gains(close), WilderAlpha(period));
    var avgLoss := Ema(Losses(close), WilderAlpha(period));
    seq(|close|, t requires 0 <= t < |close| => RsiValue(avgGain[t], avgLoss[t]))
  }

  /** Gains and losses are non-negative, and both vanish exactly where the price did not move. */
  lemma GainLossAt(close: seq<real>, t: nat)
    requires t < |close|
    ensures 0.0 <= Gains(close)[t] && 0.0 <= Losses(close)[t]
    ensures t > 0 ==> Gains(close)[t] - Losses(close)[t] == close[t] - close[t - 1]
    ensures (Gains(close)[t] == 0.0 && Losses(close)[t] == 0.0) <==> (t == 0 || close[t] == close[t - 1])
  {
  }

  /** The three outcomes of the RSI formula for non-negative averages. */
  lemma RsiValueCases(g: real, l: real)
    requires 0.0 <= g && 0.0 <= l
    ensures l > 0.0 ==> RsiValue(g, l) == Fin(100.0 * g / (g + l))
    ensures l > 0.0 ==> 0.0 <= 100.0 * g / (g + l) < 100.0
    ensures l == 0.0 && g > 0.0 ==> RsiValue(g, l) == Fin(100.0)
    ensures l == 0.0 && g == 0.0 ==> RsiValue(g, l) == Undef
  {
    if l > 0.0 {
      var s := g + l;
      var rs := g / l;
      assert rs * l == g;
      var q := 100.0 / (1.0 + rs);
      assert q * (1.0 + rs) == 100.0;
      assert (1.0 + rs) * l == s;
      assert q * s == 100.0 * l by {
        calc {
          q * s;
          q * ((1.0 + rs) * l);
          (q * (1.0 + rs)) * l;
        }
      }
      assert (100.0 - q) * s == 100.0 * g;
      QuotientOf(100.0 - q, s, 100.0 * g);
      DivBetween(100.0 * g, s, 0.0, 100.0);
      assert 100.0 * g < 100.0 * s;
      assert 100.0 * g / s < 100.0 by {
        assert (100.0 * g / s) * s == 100.0 * g;
      }
    }
  }

  /** A number that multiplies back to y is the quotient y / s. */
  lemma QuotientOf(x: real, s: real, y: real)
    requires s != 0.0
    requires x * s == y
    ensures x == y / s
  {
  }

  /** Some price change happened in rows 1 .. t. */
  predicate PriceMoved(close: seq<real>, t: nat)
    requires t < |close|
  {
    exists i :: 1 <= i <= t && close[i] != close[i - 1]
  }

  /** Gains and losses are non-negative in every row. */
  lemma GainsLossesNonNeg(close: seq<real>)
    ensures forall i :: 0 <= i < |close| ==> 0.0 <= Gains(close)[i] && 0.0 <= Losses(close)[i]
  {
    forall i | 0 <= i < |close| ensures 0.0 <= Gains(close)[i] && 0.0 <= Losses(close)[i] {
      GainLossAt(close, i);
    }
  }

  /** Gains and losses vanish on rows 0 .. t exactly when the price did not move there. */
  lemma QuietIff(close: seq<real>, t: nat)
    requires t < |close|
    ensures (forall i :: 0 <= i <= t ==> Gains(close)[i] == 0.0) &&
            (forall i :: 0 <= i <= t ==> Losses(close)[i] == 0.0)
            <==> !PriceMoved(close, t)
  {
    if PriceMoved(close, t) {
      var i :| 1 <= i <= t && close[i] != close[i - 1];
      GainLossAt(close, i);
    } else {
      forall i | 0 <= i <= t ensures Gains(close)[i] == 0.0 && Losses(close)[i] == 0.0 {
        GainLossAt(close, i);
      }
    }
  }

  /** The two Wilder averages behind RSI at row t: non-negative, and both zero exactly while the price has not moved. */
  lemma RsiAverages(close: seq<real>, period: nat, t: nat)
    requires period >= 2
    requires t < |close|
    ensures var g, l := Ema(Gains(close), WilderAlpha(period))[t], Ema(Losses(close), WilderAlpha(period))[t];
            0.0 <= g && 0.0 <= l &&
            Rsi(close, period)[t] == RsiValue(g, l) &&
            ((g == 0.0 && l == 0.0) <==> !PriceMoved(close, t))
  {
    var alpha := WilderAlpha(period);
    GainsLossesNonNeg(close);
    EmaAtLeast(Gains(close), alpha, 0.0, t);
    EmaAtLeast(Losses(close), alpha, 0.0, t);
    EmaZeroIff(Gains(close), alpha, t);
    EmaZeroIff(Losses(close), alpha, t);
    QuietIff(close, t);
  }

  /**
    * RSI is undefined in row 0 (both averages start at 0.0) and afterwards
    * exactly until the price first moves; every defined value lies in [0, 100].
    */
  lemma RsiDefinedIff(close: seq<real>, period: nat, t: nat)
    requires period >= 2
    requires t < |close|
    ensures Rsi(close, period)[t] != Undef <==> PriceMoved(close, t)
    ensures Rsi(close, period)[t] != Undef ==>
              Rsi(close, period)[t].Fin? && 0.0 <= Rsi(close, period)[t].r <= 100.0
  {
    RsiAverages(close, period, t);
    var alpha := WilderAlpha(period);
    RsiValueCases(Ema(Gains(close), alpha)[t], Ema(Losses(close), alpha)[t]);
  }

  /** With no falling step up to row t and at least one rise, RSI is exactly 100. */
  lemma RsiAllGains(close: seq<real>, period: nat, t: nat)
    requires period >= 2
    requires t < |close|
    requires forall i :: 1 <= i <= t ==> close[i - 1] <= close[i]
    requires PriceMoved(close, t)
    ensures Rsi(close, period)[t] == Fin(100.0)
  {
    var alpha := WilderAlpha(period);
    var ls := Losses(close);
    GainsLossesNonNeg(close);
    forall i | 0 <= i <= t ensures ls[i] == 0.0 {
      GainLossAt(close, i);
    }
    EmaZeroIff(ls, alpha, t);
    RsiAverages(close, period, t);
    RsiValueCases(Ema(Gains(close), alpha)[t], Ema(ls, alpha)[t]);
  }

  // --------------------------------------------------------------- MACD

  datatype MacdLines = MacdLines(line: seq<real>, signal: seq<real>, hist: seq<real>)

  /** `calculate_macd`: fast EMA minus slow EMA, its signal EMA, and their difference. */
  function Macd(close: seq<real>, fast: nat, slow: nat, signal: nat): (m: MacdLines)
    requires fast >= 1 && slow >= 1 && signal >= 1
    ensures |m.line| == |m.signal| == |m.hist| == |close|
  {
    var emaFast := Ema(close, SpanAlpha(fast));
    var emaSlow := Ema(close, SpanAlpha(slow));
    var line := seq(|close|, t requires 0 <= t < |close| => emaFast[t] - emaSlow[t]);
    var sig := Ema(line, SpanAlpha(signal));
    MacdLines(line, sig, seq(|close|, t requires 0 <= t < |close| => line[t] - sig[t]))
  }

  /** On a constant price column all three MACD lines are zero everywhere. */
  lemma MacdConstant(close: seq<real>, c: real, fast: nat, slow: nat, signal: nat)
    requires fast >= 1 && slow >= 1 && signal >= 1
    requires forall i :: 0 <= i < |close| ==> close[i] == c
    ensures var m := Macd(close, fast, slow, signal);
            forall t :: 0 <= t < |close| ==> m.line[t] == 0.0 && m.signal[t] == 0.0 && m.hist[t] == 0.0
  {
    EmaConstant(close, SpanAlpha(fast), c);
    EmaConstant(close, SpanAlpha(slow), c);
    var m := Macd(close, fast, slow, signal);
    EmaConstant(m.line, SpanAlpha(signal), 0.0);
  }

  /** All three lines start at zero: every EMA is anchored at the first price. */
  lemma MacdFirstRow(close: seq<real>, fast: nat, slow: nat, signal: nat)
    requires fast >= 1 && slow >= 1 && signal >= 1
    requires |close| > 0
    ensures var m := Macd(close, fast, slow, signal);
            m.line[0] == 0.0 && m.signal[0] == 0.0 && m.hist[0] == 0.0
  {
    EmaRecurrence(close, SpanAlpha(fast), 0);
    EmaRecurrence(close, SpanAlpha(slow), 0);
    var m := Macd(close, fast, slow, signal);
    EmaRecurrence(m.line, SpanAlpha(signal), 0);
  }

  /** When prices stay within [lo, hi], the MACD line stays within the width of that range. */
  lemma MacdLineBounded(close: seq<real>, lo: real, hi: real, fast: nat, slow: nat, signal: nat, t: nat)
    requires fast >= 1 && slow >= 1 && signal >= 1
    requires t < |close|
    requires forall i :: 0 <= i < |close| ==> lo <= close[i] <= hi
    ensures var m := Macd(close, fast, slow, signal);
            lo - hi <= m.line[t] <= hi - lo
  {
    EmaAtLeast(close, SpanAlpha(fast), lo, t);
    EmaAtMost(close, SpanAlpha(fast), hi, t);
    EmaAtLeast(close, SpanAlpha(slow), lo, t);
    EmaAtMost(close, SpanAlpha(slow), hi, t);
  }

  // ------------------------------------------------ Historical volatility

  /** `np.log(series / series.shift(1))`. */
  function LogReturns(close: seq<real>, ln: real -> real): (lr: seq<Val>)
    ensures |lr| == |close|
  {
    var c := Lift(close);
    var prev := Shift(c);
    seq(|close|, t requires 0 <= t < |close| => LogVal(Div(c[t], prev[t]), ln))
  }

  /** `calculate_hv`: rolling sample deviation of log returns, scaled by sqrt(days). */
  function Hv(close: seq<real>, window: nat, days: nat, ln: real -> real, sqrt: real -> real): (hv: seq<Val>)
    ensures |hv| == |close|
  {
    var sd := RollingStd(LogReturns(close, ln), window, sqrt);
    seq(|close|, t requires 0 <= t < |close| => Mul(sd[t], Fin(sqrt(days as real))))
  }

  /**
    * The log return of row 0 is undefined, so HV needs `window` returns
    * after it: it is undefined before row `window`, and with positive prices
    * defined from row `window` on.
    */
  lemma HvDefinedIff(close: seq<real>, window: nat, days: nat, ln: real -> real, sqrt: real -> real, t: nat)
    requires t < |close|
    ensures t < window ==> Hv(close, window, days, ln, sqrt)[t] == Undef
    ensures window >= 2 && window <= t && (forall i :: 0 <= i < |close| ==> close[i] > 0.0) ==>
              Hv(close, window, days, ln, sqrt)[t].Fin?
  {
    var lr := LogReturns(close, ln);
    var sd := RollingStd(lr, window, sqrt);
    if |close| > 0 {
      assert lr[0] == Undef;
    }
    if t < window {
      assert !Full(lr, window, t);
    }
    if window >= 2 && window <= t && (forall i :: 0 <= i < |close| ==> close[i] > 0.0) {
      forall i | t + 1 - window <= i <= t ensures lr[i].Fin? {
        assert close[i] / close[i - 1] > 0.0;
      }
      assert Full(lr, window, t);
    }
  }

  // ---------------------------------------------------- Bollinger bands

  datatype Bands = Bands(mid: seq<Val>, upper: seq<Val>, lower: seq<Val>)

  /** `calculate_bollinger`: rolling mean, plus and minus k rolling deviations. */
  function Bollinger(close: seq<real>, window: nat, k: real, sqrt: real -> real): (b: Bands)
    ensures |b.mid| == |b.upper| == |b.lower| == |close|
  {
    var mid := RollingMean(Lift(close), window);
    var sd := RollingStd(Lift(close), window, sqrt);
    Bands(mid,
          seq(|close|, t requires 0 <= t < |close| => Add(mid[t], Mul(Fin(k), sd[t]))),
          seq(|close|, t requires 0 <= t < |close| => Sub(mid[t], Mul(Fin(k), sd[t]))))
  }

  /**
    * The bands are defined from row window-1 on, the middle band is the mean
    * of the window, both outer bands lie k deviations away from it, and the
    * deviation is non-negative when sqrt is.
    */
  lemma BollingerShape(close: seq<real>, window: nat, k: real, sqrt: real -> real, t: nat)
    requires window >= 2
    requires t < |close|
    ensures var b := Bollinger(close, window, k, sqrt);
            (b.mid[t].Fin? <==> t + 1 >= window) &&
            (b.upper[t].Fin? <==> t + 1 >= window) &&
            (b.lower[t].Fin? <==> t + 1 >= window)
    ensures var b := Bollinger(close, window, k, sqrt);
            var sd := RollingStd(Lift(close), window, sqrt);
            t + 1 >= window ==>
              b.mid[t].r == Mean(close[t + 1 - window .. t + 1]) &&
              b.upper[t].r - b.mid[t].r == k * sd[t].r &&
              b.mid[t].r - b.lower[t].r == k * sd[t].r &&
              (SqrtLike(sqrt) ==> 0.0 <= sd[t].r)
  {
    var mid := RollingMean(Lift(close), window);
    var sd := RollingStd(Lift(close), window, sqrt);
    BandsAt(close, window, k, sqrt, t);
    FullGapFree(close, window, t);
    if t + 1 >= window {
      var w := close[t + 1 - window .. t + 1];
      assert mid[t] == Fin(Mean(w)) && sd[t] == Fin(sqrt(SampleVariance(w)));
      VarianceNonNeg(w);
    } else {
      assert mid[t] == Undef && sd[t] == Undef;
    }
  }

  /** Each outer band at row t is the middle band plus or minus k deviations of that row. */
  lemma BandsAt(close: seq<real>, window: nat, k: real, sqrt: real -> real, t: nat)
    requires t < |close|
    ensures var b := Bollinger(close, window, k, sqrt);
            var mid := RollingMean(Lift(close), window);
            var sd := RollingStd(Lift(close), window, sqrt);
            b.mid == mid &&
            b.upper[t] == Add(mid[t], Mul(Fin(k), sd[t])) &&
            b.lower[t] == Sub(mid[t], Mul(Fin(k), sd[t]))
  {
  }

  /** On a constant price column the three bands coincide with the price from row window-1 on. */
  lemma BollingerConstant(close: seq<real>, c: real, window: nat, k: real, sqrt: real -> real, t: nat)
    requires window >= 2
    requires SqrtLike(sqrt)
    requires window - 1 <= t < |close|
    requires forall i :: 0 <= i < |close| ==> close[i] == c
    ensures var b := Bollinger(close, window, k, sqrt);
            b.mid[t] == Fin(c) && b.upper[t] == Fin(c) && b.lower[t] == Fin(c)
  {
    FullGapFree(close, window, t);
    ConstantWindow(close[t + 1 - window .. t + 1], c);
  }

  // ---------------------------------------------------------------- ATR

  /** The true range: the row-wise maximum of three spreads, skipping undefined ones. */
  function TrueRange(high: seq<real>, low: seq<real>, close: seq<real>): (tr: seq<Val>)
    requires |high| == |close| && |low| == |close|
    ensures |tr| == |close|
  {
    var prev := Shift(Lift(close));
    seq(|close|, t requires 0 <= t < |close| =>
      RowMax([Sub(Fin(high[t]), Fin(low[t])),
              Abs(Sub(Fin(high[t]), prev[t])),
              Abs(Sub(Fin(low[t]), prev[t]))]))
  }

  /** `calculate_atr`: the simple rolling mean of the true range. */
  function Atr(high: seq<real>, low: seq<real>, close: seq<real>, period: nat): (atr: seq<Val>)
    requires |high| == |close| && |low| == |close|
    ensures |atr| == |close|
  {
    RollingMean(TrueRange(high, low, close), period)
  }

  function AbsReal(x: real): real
  {
    if x < 0.0 then -x else x
  }

  /**
    * Row 0 has no previous close, so its true range is high - low; later
    * rows take the largest of the three spreads.  Every true range is defined.
    */
  lemma TrueRangeAt(high: seq<real>, low: seq<real>, close: seq<real>, t: nat)
    requires |high| == |close| && |low| == |close|
    requires t < |close|
    ensures var tr := TrueRange(high, low, close);
            tr[t].Fin? && high[t] - low[t] <= tr[t].r
    ensures t == 0 ==> TrueRange(high, low, close)[0] == Fin(high[0] - low[0])
    ensures t > 0 ==>
              var tr := TrueRange(high, low, close)[t].r;
              var a, b := AbsReal(high[t] - close[t - 1]), AbsReal(low[t] - close[t - 1]);
              a <= tr && b <= tr && (tr == high[t] - low[t] || tr == a || tr == b)
  {
    var prev := Shift(Lift(close));
    var row := [Sub(Fin(high[t]), Fin(low[t])),
                Abs(Sub(Fin(high[t]), prev[t])),
                Abs(Sub(Fin(low[t]), prev[t]))];
    assert TrueRange(high, low, close)[t] == RowMax(row);
    var m := RowMax(row);
    assert !Greater(row[0], m);
    if t == 0 {
      assert row[1] == Undef && row[2] == Undef;
    } else {
      assert !Greater(row[1], m) && !Greater(row[2], m);
    }
  }

  /** A row with high >= low has a non-negative true range. */
  lemma TrueRangeNonNeg(high: seq<real>, low: seq<real>, close: seq<real>, k: nat)
    requires |high| == |close| && |low| == |close|
    requires k < |close| && low[k] <= high[k]
    ensures TrueRange(high, low, close)[k].Fin? && TrueRange(high, low, close)[k].r >= 0.0
  {
    TrueRangeAt(high, low, close, k);
  }

  /** ATR is defined exactly from row period-1 on, where it is the mean of the last `period` true ranges. */
  lemma AtrDefinedIff(high: seq<real>, low: seq<real>, close: seq<real>, period: nat, t: nat)
    requires |high| == |close| && |low| == |close|
    requires period >= 1
    requires t < |close|
    ensures Atr(high, low, close, period)[t].Fin? <==> t + 1 >= period
    ensures t + 1 >= period ==>
              var tr := TrueRange(high, low, close);
              Full(tr, period, t) && Atr(high, low, close, period)[t] == Fin(Mean(Window(tr, period, t)))
  {
    var tr := TrueRange(high, low, close);
    forall i | 0 <= i < |close| ensures tr[i].Fin? {
      TrueRangeAt(high, low, close, i);
    }
  }

  /** With high >= low in every row, every defined ATR value is non-negative. */
  lemma AtrNonNeg(high: seq<real>, low: seq<real>, close: seq<real>, period: nat, t: nat)
    requires |high| == |close| && |low| == |close|
    requires period >= 1
    requires period - 1 <= t < |close|
    requires forall i :: 0 <= i < |close| ==> low[i] <= high[i]
    ensures Atr(high, low, close, period)[t].Fin? && Atr(high, low, close, period)[t].r >= 0.0
  {
    var tr := TrueRange(high, low, close);
    AtrDefinedIff(high, low, close, period, t);
    var ws := Window(tr, period, t);
    forall j | 0 <= j < period ensures 0.0 <= ws[j] {
      var k := t + 1 - period + j;
      TrueRangeNonNeg(high, low, close, k);
      assert tr[k] == Fin(ws[j]);
    }
    MeanBetween(ws, 0.0, Largest(ws));
  }

  /** Flat bars (high = low = close = c) have zero true range, so ATR is 0 from row period-1 on. */
  lemma AtrFlatBars(high: seq<real>, low: seq<real>, close: seq<real>, c: real, period: nat, t: nat)
    requires |high| == |close| && |low| == |close|
    requires period >= 1
    requires period - 1 <= t < |close|
    requires forall i :: 0 <= i < |close| ==> high[i] == c && low[i] == c && close[i] == c
    ensures Atr(high, low, close, period)[t] == Fin(0.0)
  {
    var tr := TrueRange(high, low, close);
    AtrDefinedIff(high, low, close, period, t);
    var ws := Window(tr, period, t);
    forall j | 0 <= j < period ensures ws[j] == 0.0 {
      TrueRangeAt(high, low, close, t + 1 - period + j);
    }
    ConstantWindow(ws, 0.0);
  }

  // ---------------------------------------------------------------- OBV

  /** The volume a row adds to OBV: +vol on a rise, -vol on a fall, 0 otherwise. */
  function Flow(close: seq<real>, vol: seq<real>, i: nat): real
    requires 1 <= i < |close| && |vol| == |close|
  {
    if close[i] > close[i - 1] then vol[i]
    else if close[i] < close[i - 1] then -vol[i]
    else 0.0
  }

  /**
    * The list `obv` that `calculate_obv` builds: it starts as [0] and gets
    * one entry per row after the first, so it has one entry even for an
    * empty table.
    */
  function ObvList(close: seq<real>, vol: seq<real>): (obv: seq<real>)
    requires |vol| == |close|
    ensures |obv| == if |close| == 0 then 1 else |close|
    decreases |close|
  {
    if |close| <= 1 then [0.0]
    else
      var n := |close|;
      var prev := ObvList(close[..n - 1], vol[..n - 1]);
      var last := prev[n - 2];
      prev + [if close[n - 1] > close[n - 2] then last + vol[n - 1]
              else if close[n - 1] < close[n - 2] then last - vol[n - 1]
              else last]
  }

  /** `calculate_obv`: the explicit loop, and the Series construction that rejects a length mismatch. */
  method CalculateObv(close: seq<real>, vol: seq<real>) returns (r: Result<seq<real>, Failure>)
    requires |vol| == |close|
    ensures r.Err? <==> |close| == 0
    ensures r.Err? ==> r.error == LengthMismatch
    ensures r.Ok? ==> r.value == ObvList(close, vol)
  {
    var obv := [0.0];
    var i := 1;
    while i < |close|
      invariant |close| == 0 ==> i == 1 && obv == [0.0]
      invariant |close| > 0 ==> 1 <= i <= |close| && obv == ObvList(close[..i], vol[..i])
    {
      assert close[..i + 1][..i] == close[..i] && vol[..i + 1][..i] == vol[..i];
      if close[i] > close[i - 1] {
        obv := obv + [obv[|obv| - 1] + vol[i]];
      } else if close[i] < close[i - 1] {
        obv := obv + [obv[|obv| - 1] - vol[i]];
      } else {
        obv := obv + [obv[|obv| - 1]];
      }
      i := i + 1;
    }
    if |obv| != |close| {
      return Err(LengthMismatch);
    }
    assert close[..i] == close && vol[..i] == vol;
    return Ok(obv);
  }

  /** Taking a prefix of the rows takes a prefix of OBV. */
  lemma {:induction false} ObvPrefix(close: seq<real>, vol: seq<real>, k: nat)
    requires |vol| == |close|
    requires 1 <= k <= |close|
    ensures ObvList(close, vol)[..k] == ObvList(close[..k], vol[..k])
    decreases |close|
  {
    var n := |close|;
    if k < n {
      ObvPrefix(close[..n - 1], vol[..n - 1], k);
      assert close[..n - 1][..k] == close[..k] && vol[..n - 1][..k] == vol[..k];
    } else {
      assert close[..k] == close && vol[..k] == vol;
    }
  }

  /** OBV starts at 0 and each later row adds that row's flow to the previous value. */
  lemma ObvStep(close: seq<real>, vol: seq<real>, t: nat)
    requires |vol| == |close|
    requires t < |close|
    ensures t == 0 ==> ObvList(close, vol)[0] == 0.0
    ensures t > 0 ==> ObvList(close, vol)[t] == ObvList(close, vol)[t - 1] + Flow(close, vol, t)
  {
    if t == 0 {
      ObvFirst(close, vol);
    } else {
      ObvNext(close, vol, t);
    }
  }

  lemma ObvFirst(close: seq<real>, vol: seq<real>)
    requires |vol| == |close| && |close| > 0
    ensures ObvList(close, vol)[0] == 0.0
  {
    ObvPrefix(close, vol, 1);
    assert ObvList(close, vol)[0] == ObvList(close, vol)[..1][0];
  }

  lemma ObvNext(close: seq<real>, vol: seq<real>, t: nat)
    requires |vol| == |close| && 0 < t < |close|
    ensures ObvList(close, vol)[t] == ObvList(close, vol)[t - 1] + Flow(close, vol, t)
  {
    ObvPrefix(close, vol, t + 1);
    var c, v := close[..t + 1], vol[..t + 1];
    assert c[..t] == close[..t] && v[..t] == vol[..t];
    ObvPrefix(close, vol, t);
    assert ObvList(close, vol)[t - 1] == ObvList(close, vol)[..t][t - 1];
    assert ObvList(close, vol)[t] == ObvList(c, v)[t];
  }

  /** The flows of rows 1 .. t. */
  function Flows(close: seq<real>, vol: seq<real>, t: nat): (fs: seq<real>)
    requires t < |close| && |vol| == |close|
    ensures |fs| == t
  {
    seq(t, j requires 0 <= j < t => Flow(close, vol, j + 1))
  }

  /** OBV in closed form: the sum of the signed volumes of rows 1 .. t. */
  lemma {:induction false} ObvIsSignedVolume(close: seq<real>, vol: seq<real>, t: nat)
    requires |vol| == |close|
    requires t < |close|
    ensures ObvList(close, vol)[t] == Sum(Flows(close, vol, t))
  {
    ObvStep(close, vol, t);
    if t > 0 {
      ObvIsSignedVolume(close, vol, t - 1);
      assert Flows(close, vol, t)[..t - 1] == Flows(close, vol, t - 1);
    }
  }

  /** Over rows where the price never falls and volumes are non-negative, OBV never falls. */
  lemma {:induction false} ObvMonotone(close: seq<real>, vol: seq<real>, a: nat, b: nat)
    requires |vol| == |close|
    requires a <= b < |close|
    requires forall i :: a < i <= b ==> close[i - 1] <= close[i] && 0.0 <= vol[i]
    ensures ObvList(close, vol)[a] <= ObvList(close, vol)[b]
    decreases b - a
  {
    if a < b {
      ObvMonotone(close, vol, a, b - 1);
      ObvStep(close, vol, b);
    }
  }

  // --------------------------------------------------------------- VWAP

  /** `cumsum()`: a left-to-right running total. */
  function CumSum(xs: seq<real>): (ys: seq<real>)
    ensures |ys| == |xs|
    decreases |xs|
  {
    if xs == [] then []
    else
      var prev := CumSum(xs[..|xs| - 1]);
      prev + [(if prev == [] then 0.0 else prev[|prev| - 1]) + xs[|xs| - 1]]
  }

  /** The running total at row t is the sum of rows 0 .. t: there is no reset. */
  lemma {:induction false} CumSumIsPrefixSum(xs: seq<real>, t: nat)
    requires t < |xs|
    ensures CumSum(xs)[t] == Sum(xs[..t + 1])
    decreases |xs|
  {
    var init := xs[..|xs| - 1];
    if t < |xs| - 1 {
      CumSumIsPrefixSum(init, t);
      assert init[..t + 1] == xs[..t + 1];
    } else if t > 0 {
      CumSumIsPrefixSum(init, t - 1);
      assert init[..t] == xs[..t + 1][..t];
    } else {
      assert xs[..1][..0] == [];
    }
  }

  /** `calculate_vwap`: cumulative price*volume over cumulative volume. */
  function Vwap(close: seq<real>, vol: seq<real>): (v: seq<Val>)
    requires |vol| == |close|
    ensures |v| == |close|
  {
    var cumPv := CumSum(Turnover(close, vol));
    var cumV := CumSum(vol);
    seq(|close|, t requires 0 <= t < |close| => Div(Fin(cumPv[t]), Fin(cumV[t])))
  }

  /** The price*volume column. */
  function Turnover(close: seq<real>, vol: seq<real>): (pv: seq<real>)
    requires |vol| == |close|
    ensures |pv| == |close|
  {
    seq(|close|, i requires 0 <= i < |close| => close[i] * vol[i])
  }

  /** The turnover of a prefix of the rows is the prefix of the turnover. */
  lemma TurnoverPrefix(close: seq<real>, vol: seq<real>, k: nat)
    requires |vol| == |close|
    requires k <= |close|
    ensures Turnover(close, vol)[..k] == Turnover(close[..k], vol[..k])
  {
    var a, b := Turnover(close, vol)[..k], Turnover(close[..k], vol[..k]);
    forall i | 0 <= i < k ensures a[i] == b[i] {
      assert a[i] == close[i] * vol[i];
    }
  }

  lemma VwapAt(close: seq<real>, vol: seq<real>, t: nat)
    requires |vol| == |close|
    requires t < |close|
    ensures Vwap(close, vol)[t] == Div(Fin(Sum(Turnover(close, vol)[..t + 1])), Fin(Sum(vol[..t + 1])))
  {
    CumSumIsPrefixSum(Turnover(close, vol), t);
    CumSumIsPrefixSum(vol, t);
  }

  /** Scaling every element scales the sum. */
  lemma {:induction false} SumScaled(xs: seq<real>, ys: seq<real>, v: real)
    requires |ys| == |xs|
    requires forall i :: 0 <= i < |xs| ==> ys[i] == xs[i] * v
    ensures Sum(ys) == Sum(xs) * v
  {
    if xs != [] {
      SumScaled(xs[..|xs| - 1], ys[..|ys| - 1], v);
    }
  }

  /** With a constant non-zero volume, VWAP is the running mean of the close. */
  lemma VwapConstantVolume(close: seq<real>, vol: seq<real>, v: real, t: nat)
    requires |vol| == |close|
    requires t < |close|
    requires v != 0.0
    requires forall i :: 0 <= i < |vol| ==> vol[i] == v
    ensures Vwap(close, vol)[t] == Fin(Mean(close[..t + 1]))
  {
    ConstantVolumeSums(close, vol, v, t);
    var s, n := Sum(close[..t + 1]), (t + 1) as real;
    VwapOfSums(close, vol, t, s, n, v);
    assert Mean(close[..t + 1]) == s / n;
  }

  /** When the running sums are common multiples of s and n, VWAP is s / n. */
  lemma VwapOfSums(close: seq<real>, vol: seq<real>, t: nat, s: real, n: real, v: real)
    requires |vol| == |close|
    requires t < |close|
    requires v != 0.0 && n != 0.0
    requires Sum(Turnover(close, vol)[..t + 1]) == s * v && Sum(vol[..t + 1]) == n * v
    ensures Vwap(close, vol)[t] == Fin(s / n)
  {
    VwapAt(close, vol, t);
    CancelFactor(Sum(Turnover(close, vol)[..t + 1]), Sum(vol[..t + 1]), s, n, v);
  }

  /** With a constant volume v, the running sums are v times the close total and v times the row count. */
  lemma ConstantVolumeSums(close: seq<real>, vol: seq<real>, v: real, t: nat)
    requires |vol| == |close|
    requires t < |close|
    requires forall i :: 0 <= i < |vol| ==> vol[i] == v
    ensures Sum(Turnover(close, vol)[..t + 1]) == Sum(close[..t + 1]) * v
    ensures Sum(vol[..t + 1]) == (t + 1) as real * v
  {
    var cs, pv := close[..t + 1], Turnover(close, vol)[..t + 1];
    assert forall i :: 0 <= i < |cs| ==> pv[i] == cs[i] * v;
    SumScaled(cs, pv, v);
    SumBetween(vol[..t + 1], v, v);
  }

  /** Multiplication distributes over addition. */
  lemma Distribute(a: real, b: real, c: real)
    ensures a * (b + c) == a * b + a * c
  {
  }

  /** A common non-zero factor cancels in a quotient. */
  lemma CancelFactor(p: real, q: real, s: real, n: real, v: real)
    requires n != 0.0 && v != 0.0
    requires p == s * v && q == n * v
    ensures q != 0.0
    ensures p / q == s / n
  {
    var r := s / n;
    assert r * n == s;
    assert r * q == p;
    QuotientOf(r, q, p);
  }

  /** While no volume has accumulated, VWAP has no finite value. */
  lemma VwapNoVolume(close: seq<real>, vol: seq<real>, t: nat)
    requires |vol| == |close|
    requires t < |close|
    requires Sum(vol[..t + 1]) == 0.0
    ensures !Vwap(close, vol)[t].Fin?
  {
    VwapAt(close, vol, t);
  }

  /**
    * With non-negative weights, the weighted sum of the first k terms lies
    * between lo and hi times their total weight.
    */
  lemma {:induction false} WeightedSumBetween(xs: seq<real>, ws: seq<real>, lo: real, hi: real, k: nat)
    requires |ws| == |xs| && k <= |xs|
    requires forall i :: 0 <= i < k ==> lo <= xs[i] <= hi && 0.0 <= ws[i]
    ensures lo * Sum(ws[..k]) <= Sum(Turnover(xs, ws)[..k]) <= hi * Sum(ws[..k])
  {
    if k == 0 {
      WeightedSumEmpty(xs, ws, lo, hi);
    } else {
      WeightedSumBetween(xs, ws, lo, hi, k - 1);
      WeightedSumSnoc(xs, ws, lo, hi, k);
    }
  }

  lemma WeightedSumEmpty(xs: seq<real>, ws: seq<real>, lo: real, hi: real)
    requires |ws| == |xs|
    ensures lo * Sum(ws[..0]) <= Sum(Turnover(xs, ws)[..0]) <= hi * Sum(ws[..0])
  {
    assert ws[..0] == [] && Turnover(xs, ws)[..0] == [];
    assert lo * 0.0 == 0.0 == hi * 0.0;
  }

  /** The bounds on the first k - 1 terms extend to the first k. */
  lemma WeightedSumSnoc(xs: seq<real>, ws: seq<real>, lo: real, hi: real, k: nat)
    requires |ws| == |xs| && 0 < k <= |xs|
    requires lo <= xs[k - 1] <= hi && 0.0 <= ws[k - 1]
    requires lo * Sum(ws[..k - 1]) <= Sum(Turnover(xs, ws)[..k - 1]) <= hi * Sum(ws[..k - 1])
    ensures lo * Sum(ws[..k]) <= Sum(Turnover(xs, ws)[..k]) <= hi * Sum(ws[..k])
  {
    var ps := Turnover(xs, ws);
    var n := k - 1;
    var sw, sp := Sum(ws[..n]), Sum(ps[..n]);
    assert Sum(ws[..k]) == sw + ws[n] by {
      assert ws[..k][..n] == ws[..n];
    }
    assert Sum(ps[..k]) == sp + ps[n] by {
      assert ps[..k][..n] == ps[..n];
    }
    WeightedStep(Sum(ws[..k]), Sum(ps[..k]), sw, sp, xs[n], ws[n], ps[n], lo, hi);
  }

  /** Adding one weighted term keeps the bounds of a weighted sum. */
  lemma WeightedStep(total: real, weighted: real, sw: real, sp: real, x: real, w: real, xw: real, lo: real, hi: real)
    requires lo * sw <= sp <= hi * sw
    requires lo <= x <= hi && 0.0 <= w
    requires xw == x * w && total == sw + w && weighted == sp + xw
    ensures lo * total <= weighted <= hi * total
  {
    ProductNonNeg(x - lo, w);
    ProductNonNeg(hi - x, w);
    Distribute(lo, sw, w);
    Distribute(hi, sw, w);
    assert (x - lo) * w == x * w - lo * w;
    assert (hi - x) * w == hi * w - x * w;
  }

  /**
    * With non-negative volumes and some volume traded by row t, VWAP lies
    * between the lowest and highest close of rows 0 .. t.
    */
  lemma VwapBetween(close: seq<real>, vol: seq<real>, lo: real, hi: real, t: nat)
    requires |vol| == |close|
    requires t < |close|
    requires forall i :: 0 <= i <= t ==> lo <= close[i] <= hi && 0.0 <= vol[i]
    requires Sum(vol[..t + 1]) > 0.0
    ensures Vwap(close, vol)[t].Fin? && lo <= Vwap(close, vol)[t].r <= hi
  {
    VwapAt(close, vol, t);
    WeightedSumBetween(close, vol, lo, hi, t + 1);
    DivBetween(Sum(Turnover(close, vol)[..t + 1]), Sum(vol[..t + 1]), lo, hi);
  }

  // --------------------------------------------------------- Divergence

  /** `detect_divergence`: price above the previous window's high while OBV is below its previous high. */
  function Divergence(close: seq<real>, obv: seq<real>, window: nat): (d: seq<bool>)
    requires |obv| == |close|
    ensures |d| == |close|
  {
    var priceHigh := PriorHighs(close, window);
    var obvHigh := PriorHighs(obv, window);
    seq(|close|, t requires 0 <= t < |close| =>
      Greater(Fin(close[t]), priceHigh[t]) && Greater(obvHigh[t], Fin(obv[t])))
  }

  /** `rolling(window).max().shift(1)`: the high of the `window` rows before each row. */
  function PriorHighs(xs: seq<real>, window: nat): (hs: seq<Val>)
    ensures |hs| == |xs|
  {
    Shift(RollingMax(Lift(xs), window))
  }

  /**
    * The comparison windows are rows t-window .. t-1, so the flag is false
    * before row `window`; after that it holds exactly when the close breaks
    * the previous high and OBV stays below its previous high.
    */
  lemma DivergenceIff(close: seq<real>, obv: seq<real>, window: nat, t: nat)
    requires |obv| == |close|
    requires window >= 1
    requires t < |close|
    ensures Divergence(close, obv, window)[t] <==>
              window <= t &&
              close[t] > Largest(close[t - window .. t]) &&
              obv[t] < Largest(obv[t - window .. t])
  {
    DivergenceAt(close, obv, window, t);
    AbovePriorHigh(close, window, t);
    BelowPriorHigh(obv, window, t);
  }

  /** A row breaks the previous high exactly when there is a full window before it and it exceeds that window's largest value. */
  lemma AbovePriorHigh(xs: seq<real>, window: nat, t: nat)
    requires window >= 1
    requires t < |xs|
    ensures Greater(Fin(xs[t]), PriorHighs(xs, window)[t]) <==>
              window <= t && xs[t] > Largest(xs[t - window .. t])
  {
    PriorHigh(xs, window, t);
  }

  /** A row stays below the previous high exactly when there is a full window before it and it is under that window's largest value. */
  lemma BelowPriorHigh(xs: seq<real>, window: nat, t: nat)
    requires window >= 1
    requires t < |xs|
    ensures Greater(PriorHighs(xs, window)[t], Fin(xs[t])) <==>
              window <= t && xs[t] < Largest(xs[t - window .. t])
  {
    PriorHigh(xs, window, t);
  }

  /** The flag at row t compares the row with the two previous highs. */
  lemma DivergenceAt(close: seq<real>, obv: seq<real>, window: nat, t: nat)
    requires |obv| == |close|
    requires t < |close|
    ensures Divergence(close, obv, window)[t] ==
              (Greater(Fin(close[t]), PriorHighs(close, window)[t]) &&
               Greater(PriorHighs(obv, window)[t], Fin(obv[t])))
  {
  }

  /** The previous window's high at row t covers rows t-window .. t-1 and exists once there are that many rows. */
  lemma PriorHigh(xs: seq<real>, window: nat, t: nat)
    requires window >= 1
    requires t < |xs|
    ensures PriorHighs(xs, window)[t] ==
              if window <= t then Fin(Largest(xs[t - window .. t])) else Undef
  {
    if t > 0 {
      var maxes := RollingMax(Lift(xs), window);
      assert PriorHighs(xs, window)[t] == maxes[t - 1];
      RollingMaxGapFree(xs, window, t - 1);
    }
  }

  /** OBV at or above each of its previous `window` values rules out a divergence. */
  lemma NoDivergenceAtObvHigh(close: seq<real>, obv: seq<real>, window: nat, t: nat)
    requires |obv| == |close|
    requires window >= 1
    requires t < |close|
    requires forall i :: 0 <= i < t && t - window <= i ==> obv[i] <= obv[t]
    ensures !Divergence(close, obv, window)[t]
  {
    DivergenceIff(close, obv, window, t);
    if window <= t {
      WindowHighAtMost(obv, window, t);
    }
  }

  /** A value at or above each of the previous `window` values is at or above their high. */
  lemma WindowHighAtMost(xs: seq<real>, window: nat, t: nat)
    requires 1 <= window <= t < |xs|
    requires forall i :: 0 <= i < t && t - window <= i ==> xs[i] <= xs[t]
    ensures Largest(xs[t - window .. t]) <= xs[t]
  {
    var prior := xs[t - window .. t];
    var j :| 0 <= j < |prior| && prior[j] == Largest(prior);
    assert prior[j] == xs[t - window + j];
  }

  /** With volumes non-negative and prices never falling, OBV keeps up with every high: no divergence. */
  lemma NoDivergenceOnRisingPrices(close: seq<real>, vol: seq<real>, window: nat, t: nat)
    requires |vol| == |close|
    requires window >= 1
    requires t < |close|
    requires forall i :: 0 < i < |close| ==> close[i - 1] <= close[i] && 0.0 <= vol[i]
    ensures !Divergence(close, ObvList(close, vol), window)[t]
  {
    var obv := ObvList(close, vol);
    forall i | 0 <= i < t && t - window <= i ensures obv[i] <= obv[t] {
      ObvMonotone(close, vol, i, t);
    }
    NoDivergenceAtObvHigh(close, obv, window, t);
  }

  /** With prices never rising there is no breakout: no divergence. */
  lemma NoDivergenceOnFallingPrices(close: seq<real>, obv: seq<real>, window: nat, t: nat)
    requires |obv| == |close|
    requires window >= 1
    requires t < |close|
    requires forall i :: 0 < i < |close| ==> close[i] <= close[i - 1]
    ensures !Divergence(close, obv, window)[t]
  {
    DivergenceIff(close, obv, window, t);
    if window <= t {
      var prior := close[t - window .. t];
      assert prior[window - 1] == close[t - 1];
    }
  }

  /** `detect_divergence` recomputes OBV with `calculate_obv` before comparing. */
  method DetectDivergence(close: seq<real>, vol: seq<real>, window: nat) returns (r: Result<seq<bool>, Failure>)
    requires |vol| == |close|
    ensures r.Err? <==> |close| == 0
    ensures r.Ok? ==> r.value == Divergence(close, ObvList(close, vol), window)
  {
    var obv := CalculateObv(close, vol);
    if obv.Err? {
      return Err(obv.error);
    }
    return Ok(Divergence(close, obv.value, window));
  }
}

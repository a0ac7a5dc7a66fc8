/** The signal rules. Each rule takes the close column (and, for the pullback rule, the
    trend column an earlier call added) and produces new columns; every signal and trend
    value is -1 (short), 0 (flat) or 1 (long). A masked write `df.loc[mask, col] = v`
    becomes a per-bar choice in which the later write wins, and a comparison with an
    undefined (NaN) value is false. */
module Strategies {
  import opened Wrappers
  import opened Indicators

  predicate IsSignal(v: int)
  {
    v == -1 || v == 0 || v == 1
  }

  // ---------------------------------------------------------------------------------
  // add_trend_filter

  datatype TrendColumns = TrendColumns(slowTrend: seq<real>, fastTrend: seq<real>, trend: seq<int>)

  /** The trend of one bar: 1 when the fast mean is above the slow one, -1 when below. */
  function TrendOf(fast: real, slow: real): (r: int)
    ensures r == 1 <==> fast > slow
    ensures r == -1 <==> fast < slow
    ensures r == 0 <==> fast == slow
  {
    if fast < slow then -1 else if fast > slow then 1 else 0
  }

  /** `add_trend_filter`: slow and fast exponential means of the close, and their trend. */
  function AddTrendFilter(close: seq<real>, slowWindow: int, fastWindow: int): (r: TrendColumns)
    requires slowWindow >= 1 && fastWindow >= 1
    ensures |r.slowTrend| == |r.fastTrend| == |r.trend| == |close|
    ensures r.slowTrend == Ema(close, slowWindow) && r.fastTrend == Ema(close, fastWindow)
    ensures forall t :: 0 <= t < |close| ==>
              IsSignal(r.trend[t])
              && (r.trend[t] == 1 <==> r.fastTrend[t] > r.slowTrend[t])
              && (r.trend[t] == -1 <==> r.fastTrend[t] < r.slowTrend[t])
  {
    var slow := Ema(close, slowWindow);
    var fast := Ema(close, fastWindow);
    TrendColumns(slow, fast, seq(|close|, t requires 0 <= t < |close| => TrendOf(fast[t], slow[t])))
  }

  /** A flat close has no trend, whatever the two windows. */
  lemma FlatCloseHasNoTrend(close: seq<real>, slowWindow: int, fastWindow: int, c: real)
    requires slowWindow >= 1 && fastWindow >= 1
    requires forall i :: 0 <= i < |close| ==> close[i] == c
    ensures forall t :: 0 <= t < |close| ==> AddTrendFilter(close, slowWindow, fastWindow).trend[t] == 0
  {
    EmaOfConstant(close, slowWindow, c);
    EmaOfConstant(close, fastWindow, c);
  }

  // ---------------------------------------------------------------------------------
  // trend_pullback_strategy

  datatype PullbackColumns = PullbackColumns(ema: seq<real>, rsi: seq<Option<real>>, signal: seq<int>)

  /** Long on a pullback to the mean in an up-trend with a low RSI, short on a rally to the
      mean in a down-trend with a high RSI. */
  function PullbackSignal(trend: int, close: real, ema: real, rsi: Option<real>, rsiBuy: int, rsiSell: int): (r: int)
    ensures IsSignal(r)
    ensures r == 1 <==> trend == 1 && close <= ema && rsi.Some? && rsi.value < rsiBuy as real
    ensures r == -1 <==> trend == -1 && close >= ema && rsi.Some? && rsi.value > rsiSell as real
  {
    var longCond := trend == 1 && close <= ema && rsi.Some? && rsi.value < rsiBuy as real;
    var shortCond := trend == -1 && close >= ema && rsi.Some? && rsi.value > rsiSell as real;
    if shortCond then -1 else if longCond then 1 else 0
  }

  /** `trend_pullback_strategy` over the close and the trend column. */
  function TrendPullbackStrategy(close: seq<real>, trend: seq<int>, emaWindow: int, rsiWindow: int, rsiBuy: int, rsiSell: int)
    : (r: PullbackColumns)
    requires |trend| == |close| && emaWindow >= 1 && rsiWindow >= 1
    ensures |r.ema| == |r.rsi| == |r.signal| == |close|
    ensures r.ema == Ema(close, emaWindow) && r.rsi == Rsi(close, rsiWindow)
    ensures forall t :: 0 <= t < |close| ==>
              IsSignal(r.signal[t])
              && (r.signal[t] == 1 <==>
                    trend[t] == 1 && close[t] <= r.ema[t] && r.rsi[t].Some? && r.rsi[t].value < rsiBuy as real)
              && (r.signal[t] == -1 <==>
                    trend[t] == -1 && close[t] >= r.ema[t] && r.rsi[t].Some? && r.rsi[t].value > rsiSell as real)
              && (r.rsi[t].None? ==> r.signal[t] == 0)
    ensures |close| > 0 ==> r.signal[0] == 0
  {
    var ema := Ema(close, emaWindow);
    var rsi := Rsi(close, rsiWindow);
    PullbackColumns(ema, rsi,
      seq(|close|, t requires 0 <= t < |close| => PullbackSignal(trend[t], close[t], ema[t], rsi[t], rsiBuy, rsiSell)))
  }

  // ---------------------------------------------------------------------------------
  // mean_reversion_strategy

  datatype ReversionColumns = ReversionColumns(rsi: seq<Option<real>>, signal: seq<int>)

  /** Long when RSI is below `low`, short when above `high`; the short write comes second,
      so it wins when both hold (possible only when `low > high`). */
  function ReversionSignal(rsi: Option<real>, low: int, high: int): (r: int)
    ensures IsSignal(r)
    ensures r == -1 <==> rsi.Some? && rsi.value > high as real
    ensures r == 1 <==> rsi.Some? && rsi.value < low as real && !(rsi.value > high as real)
    ensures rsi.None? ==> r == 0
  {
    if rsi.Some? && rsi.value > high as real then -1
    else if rsi.Some? && rsi.value < low as real then 1
    else 0
  }

  /** `mean_reversion_strategy` over the close. */
  function MeanReversionStrategy(close: seq<real>, rsiWindow: int, low: int, high: int): (r: ReversionColumns)
    requires rsiWindow >= 1
    ensures |r.rsi| == |r.signal| == |close|
    ensures r.rsi == Rsi(close, rsiWindow)
    ensures forall t :: 0 <= t < |close| ==>
              IsSignal(r.signal[t])
              && (r.signal[t] == -1 <==> r.rsi[t].Some? && r.rsi[t].value > high as real)
              && (r.signal[t] == 1 <==> r.rsi[t].Some? && r.rsi[t].value < low as real && !(r.rsi[t].value > high as real))
    ensures |close| > 0 ==> r.signal[0] == 0
  {
    var rsi := Rsi(close, rsiWindow);
    ReversionColumns(rsi, seq(|close|, t requires 0 <= t < |close| => ReversionSignal(rsi[t], low, high)))
  }

  /** With the usual thresholds (`low <= high`) the two conditions cannot both hold, so
      the long signal is exactly "RSI below `low`". */
  lemma ReversionLongExactly(close: seq<real>, rsiWindow: int, low: int, high: int, t: nat)
    requires rsiWindow >= 1 && low <= high && t < |close|
    ensures var r := MeanReversionStrategy(close, rsiWindow, low, high);
            r.signal[t] == 1 <==> r.rsi[t].Some? && r.rsi[t].value < low as real
  {
  }

  // ---------------------------------------------------------------------------------
  // hybrid_swing_strategy

  /** `round()` of a float: to the nearest integer, ties to the even one. */
  function RoundHalfEven(x: real): (r: int)
    ensures -0.5 <= r as real - x <= 0.5
    ensures (r as real - x == 0.5 || r as real - x == -0.5) ==> r % 2 == 0
  {
    var f := x.Floor;
    var d := x - f as real;
    if d < 0.5 then f
    else if d > 0.5 then f + 1
    else if f % 2 == 0 then f else f + 1
  }

  /** The raw crossover signal of one bar: 0 while either mean is undefined. */
  function CrossSignal(fast: Option<real>, slow: Option<real>): (r: int)
    ensures IsSignal(r)
    ensures r == 1 <==> fast.Some? && slow.Some? && fast.value > slow.value
    ensures r == -1 <==> fast.Some? && slow.Some? && fast.value < slow.value
  {
    if fast.Some? && slow.Some? then TrendOf(fast.value, slow.value) else 0
  }

  datatype SwingColumns = SwingColumns(
    smaFast: seq<Option<real>>,
    smaSlow: seq<Option<real>>,
    signalRaw: seq<int>,
    signalFinal: seq<real>)

  /** `hybrid_swing_strategy`: the 3/5-bar moving-average crossover, smoothed by rounding
      the two-bar mean of the raw signal (the first bar, with no two-bar mean, gets 0). */
  function HybridSwingStrategy(close: seq<real>): (r: SwingColumns)
    ensures |r.smaFast| == |r.smaSlow| == |r.signalRaw| == |r.signalFinal| == |close|
    ensures r.smaFast == Sma(close, 3) && r.smaSlow == Sma(close, 5)
    ensures forall t :: 0 <= t < |close| ==>
              IsSignal(r.signalRaw[t])
              && (r.signalRaw[t] == 1 <==> r.smaFast[t].Some? && r.smaSlow[t].Some? && r.smaFast[t].value > r.smaSlow[t].value)
              && (r.signalRaw[t] == -1 <==> r.smaFast[t].Some? && r.smaSlow[t].Some? && r.smaFast[t].value < r.smaSlow[t].value)
    ensures r.signalFinal == Smooth(r.signalRaw)
  {
    var fast := Sma(close, 3);
    var slow := Sma(close, 5);
    var raw := seq(|close|, t requires 0 <= t < |close| => CrossSignal(fast[t], slow[t]));
    SwingColumns(fast, slow, raw, Smooth(raw))
  }

  /** `rolling(window = 2).mean().round().fillna(0)` on the raw signal. */
  function Smooth(raw: seq<int>): (r: seq<real>)
    ensures |r| == |raw|
    ensures |raw| > 0 ==> r[0] == 0.0
  {
    seq(|raw|, t requires 0 <= t < |raw| =>
      if t == 0 then 0.0 else RoundHalfEven((raw[t - 1] as real + raw[t] as real) / 2.0) as real)
  }

  /** The rounded two-bar mean of two signals is their common value when they agree and 0
      when they differ (a mean of ±0.5 rounds to the even 0). */
  lemma RoundedPairMean(a: int, b: int)
    requires IsSignal(a) && IsSignal(b)
    ensures RoundHalfEven((a as real + b as real) / 2.0) == if a == b then a else 0
  {
    var x := (a as real + b as real) / 2.0;
    var r := RoundHalfEven(x);
    if a == b {
      assert x == a as real;
    } else if a + b == 0 {
      assert x == 0.0;
    } else {
      assert x == 0.5 || x == -0.5;
      assert r == 0 || r == 1 || r == -1;
    }
  }

  /** The smoothing rule: from the second bar on, a smoothed signal is the raw signal when it
      repeats the previous bar's, and 0 otherwise; so every smoothed value is a signal. */
  lemma SmoothingRule(raw: seq<int>, t: nat)
    requires 1 <= t < |raw| && IsSignal(raw[t - 1]) && IsSignal(raw[t])
    ensures Smooth(raw)[t] == if raw[t - 1] == raw[t] then raw[t] as real else 0.0
  {
    RoundedPairMean(raw[t - 1], raw[t]);
  }

  /** The slow mean needs five bars, so the raw signal is 0 on the first four bars and the
      final signal on the first five. */
  lemma QuietStart(close: seq<real>, t: nat)
    requires t < |close| && t < 5
    ensures t < 4 ==> HybridSwingStrategy(close).signalRaw[t] == 0
    ensures HybridSwingStrategy(close).signalFinal[t] == 0.0
  {
    var r := HybridSwingStrategy(close);
    if t >= 1 {
      assert r.smaSlow[t - 1].None?;
      SmoothingRule(r.signalRaw, t);
    }
  }

  /** Every smoothed value is -1, 0 or 1. */
  lemma SwingFinalIsSignal(close: seq<real>, t: nat)
    requires t < |close|
    ensures var v := HybridSwingStrategy(close).signalFinal[t];
            v == -1.0 || v == 0.0 || v == 1.0
  {
    var r := HybridSwingStrategy(close);
    if t >= 1 {
      SmoothingRule(r.signalRaw, t);
    }
  }
}

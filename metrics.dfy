/** The summary metrics of `trading/metrics.py`: the maximum drawdown of an equity curve
    in full, and the early-return guards of the Sharpe ratio and of the compound annual
    growth rate, whose square root and power are kept symbolic. An undefined (NaN or
    infinite) value is `None`. */
module Metrics {
  import opened Wrappers
  import opened Frame
  import Arith
  import Backtester
  import Indicators

  /** The drawdown of one bar written as `equity / peak - 1`; NaN or infinite when the
      peak is 0. */
  function RatioDrawdownAt(equity: real, peak: real): Option<real>
  {
    if peak != 0.0 then Some(equity / peak - 1.0) else None
  }

  /** `equity_curve / equity_curve.cummax() - 1.0`. */
  function RatioDrawdown(curve: seq<real>): (r: seq<Option<real>>)
    ensures |r| == |curve|
    ensures forall t :: 0 <= t < |curve| ==> r[t] == RatioDrawdownAt(curve[t], CumMax(curve)[t])
  {
    var peak := CumMax(curve);
    seq(|curve|, t requires 0 <= t < |curve| => RatioDrawdownAt(curve[t], peak[t]))
  }

  /** The two ways of writing one bar's drawdown agree: `e / p - 1 == (e - p) / p`. */
  lemma RatioFormsAgree(equity: real, peak: real)
    ensures RatioDrawdownAt(equity, peak) == DrawdownAt(equity, peak)
  {
    if peak != 0.0 {
      calc {
        equity / peak - 1.0;
        equity / peak - peak / peak;
        (equity - peak) / peak;
      }
    }
  }

  /** `max_drawdown`: the least defined entry of the ratio drawdown. It is the least entry
      of the drawdown column the current engine computes on the same equity. */
  function MaxDrawdown(curve: seq<real>): (r: Option<real>)
    ensures r == MinSkipNa(Drawdown(curve))
  {
    var ratio := RatioDrawdown(curve);
    var dd := Drawdown(curve);
    assert ratio == dd by {
      forall t | 0 <= t < |curve|
        ensures ratio[t] == dd[t]
      {
        RatioFormsAgree(curve[t], CumMax(curve)[t]);
      }
    }
    MinSkipNa(ratio)
  }

  /** On a curve that starts positive the maximum drawdown is defined and at most 0. */
  lemma MaxDrawdownNonPositive(curve: seq<real>)
    requires curve != [] && curve[0] > 0.0
    ensures MaxDrawdown(curve).Some? && MaxDrawdown(curve).value <= 0.0
  {
    DrawdownOfPositiveStart(curve);
  }

  /** While a curve that starts positive stays non-negative, its maximum drawdown is at
      least -1: no more than everything is lost. */
  lemma MaxDrawdownAtLeastMinusOne(curve: seq<real>)
    requires curve != [] && curve[0] > 0.0
    requires forall t :: 0 <= t < |curve| ==> curve[t] >= 0.0
    ensures MaxDrawdown(curve).Some? && MaxDrawdown(curve).value >= -1.0
  {
    DrawdownOfPositiveStart(curve);
    var dd := Drawdown(curve);
    var t :| 0 <= t < |dd| && dd[t] == MinSkipNa(dd);
    var peak := CumMax(curve)[t];
    assert curve[0] <= peak;
    DrawdownBounds(curve[t], peak);
  }

  /** Every later point of the curve is at least every earlier one. */
  predicate NonDecreasing(curve: seq<real>)
  {
    forall i, j :: 0 <= i <= j < |curve| ==> curve[i] <= curve[j]
  }

  /** On a curve that starts positive the maximum drawdown is exactly 0 if and only if the
      curve never falls. */
  lemma NoDrawdownIffNonDecreasing(curve: seq<real>)
    requires curve != [] && curve[0] > 0.0
    ensures MaxDrawdown(curve) == Some(0.0) <==> NonDecreasing(curve)
  {
    DrawdownOfPositiveStart(curve);
    var dd := Drawdown(curve);
    var peak := CumMax(curve);
    if NonDecreasing(curve) {
      forall t | 0 <= t < |curve|
        ensures dd[t] == Some(0.0)
      {
        var j :| 0 <= j <= t && peak[t] == curve[j];
        assert curve[j] <= curve[t];
      }
      assert dd[0] == Some(0.0);
    }
    if MaxDrawdown(curve) == Some(0.0) {
      forall i, j | 0 <= i <= j < |curve|
        ensures curve[i] <= curve[j]
      {
        assert dd[j].value >= 0.0;
        assert curve[i] <= peak[j];
      }
    }
  }

  /** The deepest drawdown the current engine stores on its frame is `max_drawdown` of its
      own equity column. */
  lemma EngineMaxDrawdownIsMetric(index: seq<int>, bars: seq<Bar>, signalFinal: seq<real>,
                                  config: Backtester.BacktestConfig, teaching: bool)
    requires |index| == |bars| == |signalFinal| && Backtester.ClosesUsable(config, bars)
    ensures var r := Backtester.Backtest(index, bars, signalFinal, config, teaching);
            r.Ok? ==> r.value.0.maxDrawdown == MaxDrawdown(r.value.0.equity)
  {
  }

  // ---------------------------------------------------------------------------------
  // Sharpe ratio

  /** `a * b`, kept as a function so that its sign facts are stated once. */
  function Product(a: real, b: real): real
  {
    a * b
  }

  lemma ProductOfPositives(a: real, b: real)
    requires a > 0.0 && b > 0.0
    ensures Product(a, b) > 0.0
  {
  }

  lemma ProductOfNegations(a: real, b: real)
    ensures Product(-a, -b) == Product(a, b)
  {
  }

  /** `d * d`. */
  function Square(d: real): real
  {
    Product(d, d)
  }

  /** A nonzero number has a positive square. */
  lemma SquarePositive(d: real)
    requires d != 0.0
    ensures Square(d) > 0.0
  {
    if d > 0.0 {
      ProductOfPositives(d, d);
    } else {
      ProductOfPositives(-d, -d);
      ProductOfNegations(d, d);
    }
  }

  /** The sum of squared deviations from `m`. */
  function SquaredDeviations(xs: seq<real>, m: real): real
  {
    if xs == [] then 0.0 else Square(xs[0] - m) + SquaredDeviations(xs[1..], m)
  }

  /** `std()` squared: the sample variance (one degree of freedom), defined from two
      observations on. */
  function SampleVariance(xs: seq<real>): real
    requires |xs| >= 2
  {
    SquaredDeviations(xs, Indicators.Mean(xs)) / ((|xs| - 1) as real)
  }

  /** Every entry of the series equals the first. */
  predicate Constant(xs: seq<real>)
  {
    forall i :: 0 <= i < |xs| ==> xs[i] == xs[0]
  }

  /** A sum of squares is never negative, and is 0 only when every term is. */
  lemma {:induction false} SquaredDeviationsZero(xs: seq<real>, m: real)
    ensures SquaredDeviations(xs, m) >= 0.0
    ensures SquaredDeviations(xs, m) == 0.0 <==> forall i :: 0 <= i < |xs| ==> xs[i] == m
  {
    if xs != [] {
      var rest := xs[1..];
      SquaredDeviationsZero(rest, m);
      assert forall i :: 1 <= i < |xs| ==> xs[i] == rest[i - 1];
      var d := xs[0] - m;
      assert SquaredDeviations(xs, m) == Square(d) + SquaredDeviations(rest, m);
      if d != 0.0 {
        SquarePositive(d);
        assert SquaredDeviations(xs, m) > 0.0;
      } else {
        assert Square(d) == 0.0;
        if forall i :: 0 <= i < |xs| ==> xs[i] == m {
          assert forall i :: 0 <= i < |rest| ==> rest[i] == xs[i + 1];
        }
      }
    }
  }

  /** The sample variance is never negative, and it is 0 exactly when the series is
      constant, which is when `returns.std() == 0`. */
  lemma VarianceZeroIffConstant(xs: seq<real>)
    ensures |xs| >= 2 ==> SampleVariance(xs) >= 0.0 && (SampleVariance(xs) == 0.0 <==> Constant(xs))
  {
    if |xs| < 2 { return; }
    var m := Indicators.Mean(xs);
    var n := (|xs| - 1) as real;
    SquaredDeviationsZero(xs, m);
    Arith.DivNonNegative(SquaredDeviations(xs, m), n);
    if SampleVariance(xs) == 0.0 {
      assert SquaredDeviations(xs, m) == SampleVariance(xs) * n;
    }
    if Constant(xs) {
      Indicators.SumBounds(xs, xs[0], xs[0]);
      Arith.DivBetween(Indicators.Sum(xs), |xs| as real, xs[0], xs[0]);
    }
  }

  /** The series with `c` subtracted from every entry. */
  function Shifted(xs: seq<real>, c: real): (r: seq<real>)
    ensures |r| == |xs| && forall i :: 0 <= i < |xs| ==> r[i] == xs[i] - c
  {
    seq(|xs|, i requires 0 <= i < |xs| => xs[i] - c)
  }

  lemma {:induction false} SumShifted(xs: seq<real>, c: real)
    ensures Indicators.Sum(Shifted(xs, c)) == Indicators.Sum(xs) - (|xs| as real) * c
    decreases |xs|
  {
    if xs != [] {
      var init := xs[..|xs| - 1];
      assert Shifted(xs, c)[..|xs| - 1] == Shifted(init, c);
      SumShifted(init, c);
      assert (|init| as real + 1.0) * c == (|init| as real) * c + c;
    }
  }

  lemma {:induction false} SquaredDeviationsShifted(xs: seq<real>, m: real, c: real)
    ensures SquaredDeviations(Shifted(xs, c), m - c) == SquaredDeviations(xs, m)
  {
    if xs != [] {
      assert Shifted(xs, c)[1..] == Shifted(xs[1..], c);
      SquaredDeviationsShifted(xs[1..], m, c);
    }
  }

  /** Subtracting the per-period risk-free rate moves the mean by that rate and leaves the
      variance unchanged. */
  lemma ExcessMoments(xs: seq<real>, c: real)
    requires |xs| >= 2
    ensures Indicators.Mean(Shifted(xs, c)) == Indicators.Mean(xs) - c
    ensures SampleVariance(Shifted(xs, c)) == SampleVariance(xs)
  {
    var n := |xs| as real;
    SumShifted(xs, c);
    var shifted := Shifted(xs, c);
    assert |shifted| as real == n;
    assert Indicators.Sum(shifted) == Indicators.Sum(xs) - n * c;
    Arith.DivShift(Indicators.Sum(xs), n, c);
    assert Indicators.Mean(shifted) == (Indicators.Sum(xs) - n * c) / n;
    SquaredDeviationsShifted(xs, Indicators.Mean(xs), c);
  }

  /** What `sharpe_ratio` can return: 0 from the guard, NaN, or the annualised ratio
      `sqrt(periodsPerYear) * excessMean / sqrt(excessVariance)`, kept symbolic. */
  datatype SharpeValue = SharpeZero | SharpeNaN | SharpeRatio(excessMean: real, excessVariance: real, periodsPerYear: int)

  /** `risk_free_rate / periods_per_year` on Python numbers raises on a zero divisor. */
  datatype MetricError = ZeroDivision

  /** `sharpe_ratio`. `std()` is the square root of the sample variance, so it is 0 exactly
      when the variance is 0; with fewer than two returns it is NaN, which is not 0, and
      the NaN carries through to the result. */
  function Sharpe(periodReturns: seq<real>, riskFreeRate: real, periodsPerYear: int): (r: Result<SharpeValue, MetricError>)
    ensures r == Ok(SharpeZero) <==> |periodReturns| >= 2 && Constant(periodReturns)
    ensures r.Err? <==> periodsPerYear == 0 && !(|periodReturns| >= 2 && Constant(periodReturns))
    ensures r == Ok(SharpeNaN) <==> periodsPerYear != 0 && (|periodReturns| < 2 || (periodsPerYear < 0 && !Constant(periodReturns)))
    ensures r.Ok? && r.value.SharpeRatio? ==>
              && r.value.excessVariance > 0.0 && r.value.excessVariance == SampleVariance(periodReturns)
              && r.value.excessMean == Indicators.Mean(periodReturns) - riskFreeRate / (periodsPerYear as real)
              && r.value.periodsPerYear > 0
  {
    VarianceZeroIffConstant(periodReturns);
    if |periodReturns| >= 2 && SampleVariance(periodReturns) == 0.0 then Ok(SharpeZero)
    else if periodsPerYear == 0 then Err(ZeroDivision)
    else
      var excess := Shifted(periodReturns, riskFreeRate / (periodsPerYear as real));
      if |excess| < 2 || periodsPerYear < 0 then Ok(SharpeNaN)
      else
        ExcessMoments(periodReturns, riskFreeRate / (periodsPerYear as real));
        Ok(SharpeRatio(Indicators.Mean(excess), SampleVariance(excess), periodsPerYear))
  }

  // ---------------------------------------------------------------------------------
  // Compound annual growth rate

  /** What `cagr` can return: 0 from a guard, or `totalReturn ** (1 / years) - 1`, kept
      symbolic; an undefined total return (a curve starting at 0) is `None`. */
  datatype CagrValue = CagrZero | Growth(totalReturn: Option<real>, years: real)

  /** `cagr`. `len(equity_curve) / periods_per_year` is a division of Python integers,
      which raises on a zero divisor. */
  function Cagr(curve: seq<real>, periodsPerYear: int): (r: Result<CagrValue, MetricError>)
    ensures r == Ok(CagrZero) <==> |curve| < 2 || periodsPerYear < 0
    ensures r.Err? <==> |curve| >= 2 && periodsPerYear == 0
    ensures r.Ok? && r.value.Growth? ==>
              && r.value.years > 0.0
              && r.value.years * (periodsPerYear as real) == |curve| as real
              && (r.value.totalReturn.Some? <==> curve[0] != 0.0)
              && (r.value.totalReturn.Some? ==> r.value.totalReturn.value * curve[0] == curve[|curve| - 1])
  {
    if |curve| < 2 then Ok(CagrZero)
    else if periodsPerYear == 0 then Err(ZeroDivision)
    else
      var years := (|curve| as real) / (periodsPerYear as real);
      if years <= 0.0 then Ok(CagrZero)
      else
        Ok(Growth(if curve[0] != 0.0 then Some(curve[|curve| - 1] / curve[0]) else None, years))
  }

  /** With a positive number of periods per year, every curve of two or more points gets
      past the `years <= 0` guard: that guard is reached only for a negative count. */
  lemma CagrYearsGuardUnreachable(curve: seq<real>, periodsPerYear: int)
    requires |curve| >= 2 && periodsPerYear > 0
    ensures Cagr(curve, periodsPerYear).Ok? && Cagr(curve, periodsPerYear).value.Growth?
  {
    var years := (|curve| as real) / (periodsPerYear as real);
    Arith.DivNonNegative(|curve| as real, periodsPerYear as real);
    assert years * (periodsPerYear as real) == |curve| as real;
  }
}

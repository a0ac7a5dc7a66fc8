/** The indicator library: rolling mean, span-based exponential mean, RSI and ATR over a
    price column. The exponential mean is pandas' `ewm(span = n, adjust = False)`: it is
    seeded by the first value and uses the smoothing factor 2 / (n + 1), also inside RSI
    and ATR (not Wilder's 1 / n). */
module Indicators {
  import opened Wrappers
  import opened Frame
  import opened Arith

  function Sum(xs: seq<real>): real
    decreases |xs|
  {
    if xs == [] then 0.0 else Sum(xs[..|xs| - 1]) + xs[|xs| - 1]
  }

  function Mean(xs: seq<real>): real
    requires xs != []
  {
    Sum(xs) / |xs| as real
  }

  lemma {:induction false} SumBounds(xs: seq<real>, lo: real, hi: real)
    requires forall i :: 0 <= i < |xs| ==> lo <= xs[i] <= hi
    ensures |xs| as real * lo <= Sum(xs) <= |xs| as real * hi
    decreases |xs|
  {
    if xs != [] {
      var init := xs[..|xs| - 1];
      assert forall i :: 0 <= i < |init| ==> init[i] == xs[i];
      SumBounds(init, lo, hi);
      var n := |init| as real;
      var x := xs[|xs| - 1];
      assert lo <= x <= hi;
      assert Sum(xs) == Sum(init) + x;
      assert |xs| as real == n + 1.0;
      assert (n + 1.0) * lo == n * lo + lo;
      assert (n + 1.0) * hi == n * hi + hi;
      assert n * lo + lo <= Sum(init) + x <= n * hi + hi;
    }
  }

  /** `rolling(window).mean()`: undefined on the first `window - 1` bars, afterwards the
      mean of the last `window` values. */
  function Sma(xs: seq<real>, window: int): (r: seq<Option<real>>)
    requires window >= 1
    ensures |r| == |xs|
    ensures forall t :: 0 <= t < |xs| ==> (r[t].None? <==> t < window - 1)
  {
    seq(|xs|, t requires 0 <= t < |xs| =>
      if t < window - 1 then None else Some(Mean(xs[t - window + 1 .. t + 1])))
  }

  /** A defined rolling mean lies between any bounds of the values in its window; in
      particular a constant window gives that constant. */
  lemma SmaWithinWindowRange(xs: seq<real>, window: int, t: nat, lo: real, hi: real)
    requires window >= 1 && window - 1 <= t < |xs|
    requires forall i :: t - window < i <= t ==> lo <= xs[i] <= hi
    ensures Sma(xs, window)[t].Some?
    ensures lo <= Sma(xs, window)[t].value <= hi
  {
    var w := xs[t - window + 1 .. t + 1];
    assert forall i :: 0 <= i < |w| ==> w[i] == xs[t - window + 1 + i];
    SumBounds(w, lo, hi);
    DivBetween(Sum(w), window as real, lo, hi);
  }

  /** The smoothing factor of a span-`window` exponential mean. */
  function Alpha(window: int): (a: real)
    requires window >= 1
    ensures 0.0 < a <= 1.0
  {
    2.0 / (window as real + 1.0)
  }

  /** `ewm(span = window, adjust = False).mean()`. */
  function Ema(xs: seq<real>, window: int): (r: seq<real>)
    requires window >= 1
    ensures |r| == |xs|
    ensures |xs| > 0 ==> r[0] == xs[0]
    decreases |xs|
  {
    if |xs| <= 1 then xs
    else
      var prev := Ema(xs[..|xs| - 1], window);
      var a := Alpha(window);
      prev + [a * xs[|xs| - 1] + (1.0 - a) * prev[|xs| - 2]]
  }

  /** The exponential mean is causal: its first k values depend only on the first k inputs. */
  lemma {:induction false} EmaPrefix(xs: seq<real>, window: int, k: nat)
    requires window >= 1 && k <= |xs|
    ensures Ema(xs[..k], window) == Ema(xs, window)[..k]
    decreases |xs|
  {
    if k == |xs| {
      assert xs[..k] == xs;
    } else if |xs| == 1 {
      assert xs[..k] == [];
    } else {
      var init := xs[..|xs| - 1];
      EmaPrefix(init, window, k);
      assert init[..k] == xs[..k];
    }
  }

  lemma EmaLast(xs: seq<real>, window: int)
    requires window >= 1 && |xs| >= 2
    ensures Ema(xs, window)[|xs| - 1] ==
            Alpha(window) * xs[|xs| - 1] + (1.0 - Alpha(window)) * Ema(xs, window)[|xs| - 2]
  {
    var prev := Ema(xs[..|xs| - 1], window);
    assert Ema(xs, window)[|xs| - 2] == prev[|xs| - 2];
  }

  /** Every value after the first is the weighted step from the previous value. */
  lemma {:induction false} EmaRecurrence(xs: seq<real>, window: int, t: nat)
    requires window >= 1 && 1 <= t < |xs|
    ensures Ema(xs, window)[t] == Alpha(window) * xs[t] + (1.0 - Alpha(window)) * Ema(xs, window)[t - 1]
    decreases |xs|
  {
    if t == |xs| - 1 {
      EmaLast(xs, window);
    } else {
      var init := xs[..|xs| - 1];
      var e := Ema(xs, window);
      var ei := Ema(init, window);
      EmaRecurrence(init, window, t);
      assert |ei| == |init| == |xs| - 1;
      assert e[..|xs| - 1] == ei;
      assert init[t] == xs[t] && e[t] == ei[t] && e[t - 1] == ei[t - 1];
    }
  }


  lemma ConvexAtLeast(a: real, x: real, y: real, lo: real)
    requires 0.0 < a <= 1.0 && lo <= x && lo <= y
    ensures lo <= a * x + (1.0 - a) * y
  {
    MulNonNegative(a, x - lo);
    MulNonNegative(1.0 - a, y - lo);
  }

  lemma ConvexAtMost(a: real, x: real, y: real, hi: real)
    requires 0.0 < a <= 1.0 && x <= hi && y <= hi
    ensures a * x + (1.0 - a) * y <= hi
  {
    MulNonNegative(a, hi - x);
    MulNonNegative(1.0 - a, hi - y);
  }

  /** The exponential mean at bar t is at least any lower bound of the inputs up to t. */
  lemma {:induction false} EmaAtLeast(xs: seq<real>, window: int, t: nat, lo: real)
    requires window >= 1 && t < |xs|
    requires forall i :: 0 <= i <= t ==> lo <= xs[i]
    ensures lo <= Ema(xs, window)[t]
  {
    if t > 0 {
      EmaAtLeast(xs, window, t - 1, lo);
      EmaRecurrence(xs, window, t);
      ConvexAtLeast(Alpha(window), xs[t], Ema(xs, window)[t - 1], lo);
    }
  }

  /** The exponential mean at bar t is at most any upper bound of the inputs up to t. */
  lemma {:induction false} EmaAtMost(xs: seq<real>, window: int, t: nat, hi: real)
    requires window >= 1 && t < |xs|
    requires forall i :: 0 <= i <= t ==> xs[i] <= hi
    ensures Ema(xs, window)[t] <= hi
  {
    if t > 0 {
      EmaAtMost(xs, window, t - 1, hi);
      EmaRecurrence(xs, window, t);
      ConvexAtMost(Alpha(window), xs[t], Ema(xs, window)[t - 1], hi);
    }
  }

  /** A constant series has a constant exponential mean. */
  lemma EmaOfConstant(xs: seq<real>, window: int, c: real)
    requires window >= 1
    requires forall i :: 0 <= i < |xs| ==> xs[i] == c
    ensures forall t :: 0 <= t < |xs| ==> Ema(xs, window)[t] == c
  {
    forall t | 0 <= t < |xs|
      ensures Ema(xs, window)[t] == c
    {
      EmaAtLeast(xs, window, t, c);
      EmaAtMost(xs, window, t, c);
    }
  }

  /** `diff().clip(lower = 0)` without its undefined first entry: the gain into bar k + 1. */
  function Gains(xs: seq<real>): (r: seq<real>)
    requires xs != []
    ensures |r| == |xs| - 1
    ensures forall k :: 0 <= k < |r| ==> r[k] >= 0.0
  {
    seq(|xs| - 1, k requires 0 <= k < |xs| - 1 => Max(xs[k + 1] - xs[k], 0.0))
  }

  /** `-diff().clip(upper = 0)` without its undefined first entry: the loss into bar k + 1. */
  function Losses(xs: seq<real>): (r: seq<real>)
    requires xs != []
    ensures |r| == |xs| - 1
    ensures forall k :: 0 <= k < |r| ==> r[k] >= 0.0
  {
    seq(|xs| - 1, k requires 0 <= k < |xs| - 1 => Max(xs[k] - xs[k + 1], 0.0))
  }

  /** `100 - 100 / (1 + gain / loss)`, undefined where the smoothed loss is 0 (the source
      replaces a zero loss by NaN) and where the denominator vanishes (an infinity). */
  function RsiFrom(avgGain: real, avgLoss: real): Option<real>
  {
    if avgLoss == 0.0 then None
    else
      var rs := avgGain / avgLoss;
      if 1.0 + rs == 0.0 then None else Some(100.0 - 100.0 / (1.0 + rs))
  }

  /** RSI from span-smoothed gains and losses. The first bar has no change and is undefined;
      the smoothing of the changes starts at bar 1. */
  function Rsi(xs: seq<real>, window: int): (r: seq<Option<real>>)
    requires window >= 1
    ensures |r| == |xs|
    ensures |xs| > 0 ==> r[0].None?
  {
    if xs == [] then []
    else
      var up := Ema(Gains(xs), window);
      var down := Ema(Losses(xs), window);
      [None] + seq(|xs| - 1, k requires 0 <= k < |xs| - 1 => RsiFrom(up[k], down[k]))
  }

  lemma RsiFromRange(g: real, l: real)
    requires g >= 0.0 && l > 0.0
    ensures RsiFrom(g, l).Some?
    ensures 0.0 <= RsiFrom(g, l).value < 100.0
  {
    var rs := g / l;
    assert rs * l == g;
    assert rs >= 0.0;
    var q := 100.0 / (1.0 + rs);
    assert q * (1.0 + rs) == 100.0;
    assert 0.0 < q <= 100.0;
  }

  /** After the first bar, RSI is undefined exactly where the smoothed loss is 0, and
      otherwise lies in [0, 100). */
  lemma RsiRange(xs: seq<real>, window: int, t: nat)
    requires window >= 1 && 1 <= t < |xs|
    ensures Rsi(xs, window)[t].None? <==> Ema(Losses(xs), window)[t - 1] == 0.0
    ensures Rsi(xs, window)[t].Some? ==> 0.0 <= Rsi(xs, window)[t].value < 100.0
  {
    var g := Gains(xs);
    var l := Losses(xs);
    EmaAtLeast(g, window, t - 1, 0.0);
    EmaAtLeast(l, window, t - 1, 0.0);
    var up := Ema(g, window)[t - 1];
    var down := Ema(l, window)[t - 1];
    assert Rsi(xs, window)[t] == RsiFrom(up, down);
    if down != 0.0 {
      RsiFromRange(up, down);
    }
  }

  /** While the price has not fallen since the first bar, RSI is undefined. */
  lemma RsiUndefinedWithoutLosses(xs: seq<real>, window: int, t: nat)
    requires window >= 1 && t < |xs|
    requires forall i :: 1 <= i <= t ==> xs[i - 1] <= xs[i]
    ensures Rsi(xs, window)[t].None?
  {
    if t >= 1 {
      var l := Losses(xs);
      assert forall k :: 0 <= k <= t - 1 ==> l[k] <= 0.0 by {
        forall k | 0 <= k <= t - 1
          ensures l[k] <= 0.0
        {
          assert xs[k] <= xs[k + 1];
        }
      }
      EmaAtMost(l, window, t - 1, 0.0);
      EmaAtLeast(l, window, t - 1, 0.0);
      RsiRange(xs, window, t);
    }
  }

  /** The exponential mean of non-negative values is positive on a bar whose value is. */
  lemma EmaPositiveAt(xs: seq<real>, window: int, t: nat)
    requires window >= 1 && t < |xs|
    requires forall i :: 0 <= i <= t ==> xs[i] >= 0.0
    requires xs[t] > 0.0
    ensures Ema(xs, window)[t] > 0.0
  {
    if t >= 1 {
      var a := Alpha(window);
      var e := Ema(xs, window)[t - 1];
      EmaRecurrence(xs, window, t);
      assert Ema(xs, window)[t] == a * xs[t] + (1.0 - a) * e;
      EmaAtLeast(xs, window, t - 1, 0.0);
      MulPositive(a, xs[t]);
      MulNonNegative(1.0 - a, e);
    }
  }

  /** On a bar where the price fell, RSI is defined. */
  lemma RsiDefinedAfterFall(xs: seq<real>, window: int, t: nat)
    requires window >= 1 && 1 <= t < |xs|
    requires xs[t] < xs[t - 1]
    ensures Rsi(xs, window)[t].Some?
  {
    var l := Losses(xs);
    assert l[t - 1] == Max(xs[t - 1] - xs[t], 0.0);
    EmaPositiveAt(l, window, t - 1);
    RsiRange(xs, window, t);
  }

  function Abs(x: real): real { if x >= 0.0 then x else -x }

  /** The true range: `high - low` on the first bar (the other two terms are NaN there and
      the row maximum skips them), afterwards the largest of `high - low`,
      `|high - previous close|` and `|low - previous close|`. */
  function TrueRange(high: seq<real>, low: seq<real>, close: seq<real>): (r: seq<real>)
    requires |high| == |low| == |close|
    ensures |r| == |high|
    ensures |high| > 0 ==> r[0] == high[0] - low[0]
    ensures forall t {:trigger r[t]} :: 0 <= t < |r| ==> r[t] >= high[t] - low[t]
    ensures forall t {:trigger r[t]} :: 1 <= t < |r| ==>
              r[t] >= Abs(high[t] - close[t - 1]) && r[t] >= Abs(low[t] - close[t - 1])
    ensures forall t {:trigger r[t]} :: 1 <= t < |r| ==>
              r[t] == high[t] - low[t] || r[t] == Abs(high[t] - close[t - 1]) || r[t] == Abs(low[t] - close[t - 1])
  {
    seq(|high|, t requires 0 <= t < |high| =>
      if t == 0 then high[0] - low[0]
      else Max(Max(high[t] - low[t], Abs(high[t] - close[t - 1])), Abs(low[t] - close[t - 1])))
  }

  /** ATR: the span-`window` exponential mean of the true range. */
  function Atr(high: seq<real>, low: seq<real>, close: seq<real>, window: int): (r: seq<real>)
    requires |high| == |low| == |close| && window >= 1
    ensures |r| == |high|
    ensures |high| > 0 ==> r[0] == high[0] - low[0]
  {
    Ema(TrueRange(high, low, close), window)
  }

  /** ATR is never negative when the first bar has `high >= low`: every later true range
      is at least an absolute value. */
  lemma AtrNonNegative(high: seq<real>, low: seq<real>, close: seq<real>, window: int)
    requires |high| == |low| == |close| && window >= 1
    requires |high| > 0 ==> high[0] >= low[0]
    ensures forall t :: 0 <= t < |high| ==> Atr(high, low, close, window)[t] >= 0.0
  {
    var tr := TrueRange(high, low, close);
    assert forall i :: 0 <= i < |tr| ==> tr[i] >= 0.0 by {
      forall i | 0 <= i < |tr|
        ensures tr[i] >= 0.0
      {
        if i >= 1 {
          assert tr[i] >= Abs(high[i] - close[i - 1]);
        }
      }
    }
    forall t | 0 <= t < |high|
      ensures Atr(high, low, close, window)[t] >= 0.0
    {
      EmaAtLeast(tr, window, t, 0.0);
    }
  }
}

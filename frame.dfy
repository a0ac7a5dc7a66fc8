/** The column operations of the data-frame library that the backtest engines and the
    metrics apply to whole series: `shift(1).fillna(0)`, `pct_change().fillna(0)`,
    `cummax()`, the drawdown column, and the NaN-skipping `min()` / `idxmin()`.
    An undefined (NaN or infinite) entry is `None`. */
module Frame {
  import opened Wrappers

  /** One OHLCV row of a price frame. */
  datatype Bar = Bar(open: real, high: real, low: real, close: real, volume: real)

  function Highs(bars: seq<Bar>): (r: seq<real>)
    ensures |r| == |bars| && forall i :: 0 <= i < |bars| ==> r[i] == bars[i].high
  {
    seq(|bars|, i requires 0 <= i < |bars| => bars[i].high)
  }

  function Lows(bars: seq<Bar>): (r: seq<real>)
    ensures |r| == |bars| && forall i :: 0 <= i < |bars| ==> r[i] == bars[i].low
  {
    seq(|bars|, i requires 0 <= i < |bars| => bars[i].low)
  }

  function Closes(bars: seq<Bar>): (r: seq<real>)
    ensures |r| == |bars| && forall i :: 0 <= i < |bars| ==> r[i] == bars[i].close
  {
    seq(|bars|, i requires 0 <= i < |bars| => bars[i].close)
  }

  function Max(a: real, b: real): real { if a >= b then a else b }

  function Min(a: real, b: real): real { if a <= b then a else b }

  /** The sign of a share count, as the engine writes it to the exposure column. */
  function Sign(x: real): (r: int)
    ensures r == 1 <==> x > 0.0
    ensures r == -1 <==> x < 0.0
    ensures r == 0 <==> x == 0.0
  {
    if x > 0.0 then 1 else if x < 0.0 then -1 else 0
  }

  /** `shift(1).fillna(0)`: bar t sees the value of bar t-1, and the first bar sees 0. */
  function ShiftFillZero(xs: seq<real>): (r: seq<real>)
    ensures |r| == |xs|
    ensures |xs| > 0 ==> r[0] == 0.0
    ensures forall t :: 1 <= t < |xs| ==> r[t] == xs[t - 1]
  {
    if xs == [] then [] else [0.0] + xs[..|xs| - 1]
  }

  /** One entry of `pct_change()`: `cur / prev - 1`. A zero denominator gives NaN when
      the numerator is also zero (which `fillna(0)` then turns into 0) and an infinity
      otherwise (None). */
  function Change(prev: real, cur: real): (r: Option<real>)
    ensures prev != 0.0 ==> r.Some? && prev * (1.0 + r.value) == cur
    ensures prev == 0.0 ==> (r.None? <==> cur != 0.0) && (r.Some? ==> r.value == 0.0)
  {
    if prev != 0.0 then CompoundStep(prev, cur); Some(cur / prev - 1.0)
    else if cur == 0.0 then Some(0.0)
    else None
  }

  /** `pct_change().fillna(0)` of an equity column: the first return is 0 and every later
      one is the change from the previous bar (see `Change` for what it means). */
  function PctChange(xs: seq<real>): (r: seq<Option<real>>)
    ensures |r| == |xs|
    ensures |xs| > 0 ==> r[0] == Some(0.0)
    ensures forall t :: 1 <= t < |xs| ==> r[t] == Change(xs[t - 1], xs[t])
  {
    if xs == [] then [] else [Some(0.0)] + seq(|xs| - 1, k requires 0 <= k < |xs| - 1 => Change(xs[k], xs[k + 1]))
  }

  lemma CompoundStep(prev: real, cur: real)
    requires prev != 0.0
    ensures prev * (1.0 + (cur / prev - 1.0)) == cur
  {
    calc {
      prev * (1.0 + (cur / prev - 1.0));
      prev * (cur / prev);
      cur;
    }
  }

  /** `cummax()`: the running maximum. Every entry dominates all values up to it and is
      one of them. */
  function CumMax(xs: seq<real>): (r: seq<real>)
    ensures |r| == |xs|
    ensures forall t, j :: 0 <= j <= t < |xs| ==> xs[j] <= r[t]
    ensures forall t :: 0 <= t < |xs| ==> exists j :: 0 <= j <= t && r[t] == xs[j]
    decreases |xs|
  {
    if xs == [] then []
    else
      var p := CumMax(xs[..|xs| - 1]);
      var last := xs[|xs| - 1];
      var r := p + [if p == [] then last else Max(p[|p| - 1], last)];
      assert forall t :: 0 <= t < |p| ==> r[t] == p[t];
      assert forall j :: 0 <= j < |p| ==> xs[j] == xs[..|xs| - 1][j];
      r
  }

  /** The drawdown of one bar, `(equity - peak) / peak`; NaN or infinite when the peak is 0. */
  function DrawdownAt(equity: real, peak: real): Option<real>
  {
    if peak != 0.0 then Some((equity - peak) / peak) else None
  }

  /** The drawdown column computed from the equity column and its running peak. */
  function Drawdown(equity: seq<real>): (r: seq<Option<real>>)
    ensures |r| == |equity|
    ensures forall t :: 0 <= t < |equity| ==> r[t] == DrawdownAt(equity[t], CumMax(equity)[t])
  {
    var peak := CumMax(equity);
    seq(|equity|, t requires 0 <= t < |equity| => DrawdownAt(equity[t], peak[t]))
  }

  /** Where the peak is positive, the drawdown is defined, at most 0, exactly 0 at a new
      peak, and at least -1 while equity is not negative. */
  lemma DrawdownBounds(equity: real, peak: real)
    requires peak > 0.0 && equity <= peak
    ensures DrawdownAt(equity, peak).Some?
    ensures DrawdownAt(equity, peak).value <= 0.0
    ensures DrawdownAt(equity, peak).value == 0.0 <==> equity == peak
    ensures equity >= 0.0 ==> DrawdownAt(equity, peak).value >= -1.0
  {
    var d := (equity - peak) / peak;
    assert d * peak == equity - peak;
  }

  /** An equity column that starts positive has a positive peak on every bar, so every
      drawdown is defined, at most 0 and exactly 0 at a new peak; the peak is never below
      the equity, and the least drawdown is defined and at most 0. */
  lemma DrawdownOfPositiveStart(equity: seq<real>)
    requires equity != [] && equity[0] > 0.0
    ensures var peak := CumMax(equity);
            var dd := Drawdown(equity);
            && (forall t :: 0 <= t < |dd| ==>
                  equity[t] <= peak[t] && dd[t].Some? && dd[t].value <= 0.0
                  && (dd[t].value == 0.0 <==> equity[t] == peak[t]))
            && MinSkipNa(dd).Some? && MinSkipNa(dd).value <= 0.0
  {
    var peak := CumMax(equity);
    var dd := Drawdown(equity);
    forall t | 0 <= t < |dd|
      ensures equity[t] <= peak[t] && dd[t].Some? && dd[t].value <= 0.0
              && (dd[t].value == 0.0 <==> equity[t] == peak[t])
    {
      assert equity[0] <= peak[t];
      DrawdownBounds(equity[t], peak[t]);
    }
    assert dd[0].Some?;
  }

  /** `min()` with NaN skipped: undefined exactly when no entry is defined, otherwise the
      least defined entry. */
  function MinSkipNa(xs: seq<Option<real>>): (r: Option<real>)
    ensures r.None? <==> forall t :: 0 <= t < |xs| ==> xs[t].None?
    ensures r.Some? ==> forall t :: 0 <= t < |xs| && xs[t].Some? ==> r.value <= xs[t].value
    ensures r.Some? ==> exists t :: 0 <= t < |xs| && xs[t] == r
    decreases |xs|
  {
    if xs == [] then None
    else
      var rest := MinSkipNa(xs[1..]);
      assert forall t :: 1 <= t < |xs| ==> xs[t] == xs[1..][t - 1];
      match xs[0]
      case None => rest
      case Some(v) =>
        match rest
        case None => Some(v)
        case Some(w) => Some(Min(v, w))
  }

  /** The first position at or after `from` whose entry equals `v`. */
  function FirstIndexOf(xs: seq<Option<real>>, v: Option<real>, from: nat): (r: Option<nat>)
    requires from <= |xs|
    ensures r.Some? ==> from <= r.value < |xs| && xs[r.value] == v
    ensures r.Some? ==> forall j :: from <= j < r.value ==> xs[j] != v
    ensures r.None? ==> forall j :: from <= j < |xs| ==> xs[j] != v
    decreases |xs| - from
  {
    if from == |xs| then None
    else if xs[from] == v then Some(from)
    else FirstIndexOf(xs, v, from + 1)
  }

  /** `idxmin()` with NaN skipped, as a position: the first position holding the minimum. */
  function IdxMinSkipNa(xs: seq<Option<real>>): (r: Option<nat>)
    ensures r.Some? <==> MinSkipNa(xs).Some?
    ensures r.Some? ==> r.value < |xs| && xs[r.value] == MinSkipNa(xs)
    ensures r.Some? ==> forall j :: 0 <= j < r.value ==> xs[j] != MinSkipNa(xs)
  {
    var m := MinSkipNa(xs);
    if m.None? then None else FirstIndexOf(xs, m, 0)
  }
}

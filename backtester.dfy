/** The current backtest engine (trading/backtester.py): four position-sizing modes, the
    bar-by-bar loop acting on the previous bar's signal, the per-bar output columns, and
    the return, running-peak and drawdown post-processing. */
module Backtester {
  import opened Wrappers
  import opened Arith
  import opened Frame
  import opened EngineCore
  import Indicators

  datatype BacktestConfig = BacktestConfig(
    initialCapital: real,
    riskPerTrade: real,
    atrWindow: int,
    atrMultiplier: real,
    commissionPerTrade: real,
    sizingMode: string,
    volTarget: real,
    fixedFraction: real,
    kellyFraction: real)

  /** The dataclass defaults. */
  const DefaultConfig := BacktestConfig(100000.0, 0.01, 14, 2.0, 0.0, "atr", 0.02, 0.5, 0.25)

  /** The per-unit volatility the "vol" mode assumes. */
  const AssumedVolatility: real := 0.02

  predicate KnownMode(mode: string)
  {
    mode == "atr" || mode == "vol" || mode == "fixed_fraction" || mode == "kelly_fraction"
  }

  /** The modes whose size divides by the close. */
  predicate DividesByPrice(mode: string)
  {
    mode == "vol" || mode == "fixed_fraction" || mode == "kelly_fraction"
  }

  predicate PriceUsable(config: BacktestConfig, price: real)
  {
    DividesByPrice(config.sizingMode) ==> price != 0.0
  }

  /** The stop distance `atr_multiplier * atr`, undefined when the ATR is. */
  function StopDistance(config: BacktestConfig, atrValue: Option<real>): Option<real>
  {
    if atrValue.Some? then Some(config.atrMultiplier * atrValue.value) else None
  }

  /** Share count (before the signal's sign) for one entry. Under "atr" a move of one stop
      distance against the position loses exactly `equity * risk_per_trade`, and a stop
      distance that is not positive (or undefined) gives size 0; "vol" targets
      `equity * vol_target` of assumed volatility; the two fraction modes buy that fraction of
      equity at the close; any other mode name gives size 0 without an error. */
  function PositionSizeFromMode(equity: real, atrValue: Option<real>, price: real, config: BacktestConfig): (size: real)
    requires PriceUsable(config, price)
    ensures config.sizingMode == "atr" ==>
              var stop := StopDistance(config, atrValue);
              if stop.Some? && stop.value > 0.0 then size * stop.value == equity * config.riskPerTrade
              else size == 0.0
    ensures config.sizingMode == "vol" ==> size * (price * AssumedVolatility) == equity * config.volTarget
    ensures config.sizingMode == "fixed_fraction" ==> size * price == equity * config.fixedFraction
    ensures config.sizingMode == "kelly_fraction" ==> size * price == equity * config.kellyFraction
    ensures !KnownMode(config.sizingMode) ==> size == 0.0
  {
    if config.sizingMode == "atr" then
      var riskAmount := equity * config.riskPerTrade;
      var stop := StopDistance(config, atrValue);
      if stop.Some? && stop.value > 0.0 then DivCancels(riskAmount, stop.value); riskAmount / stop.value
      else 0.0
    else if config.sizingMode == "vol" then
      DivCancels(equity * config.volTarget, price * AssumedVolatility);
      (equity * config.volTarget) / (price * AssumedVolatility)
    else if config.sizingMode == "fixed_fraction" then
      DivCancels(equity * config.fixedFraction, price);
      (equity * config.fixedFraction) / price
    else if config.sizingMode == "kelly_fraction" then
      DivCancels(equity * config.kellyFraction, price);
      (equity * config.kellyFraction) / price
    else 0.0
  }

  /** With non-negative equity, parameters and a positive close, no mode sizes negatively. */
  lemma SizeNonNegative(equity: real, atrValue: Option<real>, price: real, config: BacktestConfig)
    requires equity >= 0.0 && price > 0.0
    requires config.riskPerTrade >= 0.0 && config.volTarget >= 0.0
    requires config.fixedFraction >= 0.0 && config.kellyFraction >= 0.0
    ensures PositionSizeFromMode(equity, atrValue, price, config) >= 0.0
  {
    var size := PositionSizeFromMode(equity, atrValue, price, config);
    if config.sizingMode == "atr" {
      var stop := StopDistance(config, atrValue);
      if stop.Some? && stop.value > 0.0 {
        MulNonNegative(equity, config.riskPerTrade);
        DivNonNegative(equity * config.riskPerTrade, stop.value);
      }
    } else if config.sizingMode == "vol" {
      MulNonNegative(equity, config.volTarget);
      MulPositive(price, AssumedVolatility);
      DivNonNegative(equity * config.volTarget, price * AssumedVolatility);
    } else if config.sizingMode == "fixed_fraction" {
      MulNonNegative(equity, config.fixedFraction);
      DivNonNegative(equity * config.fixedFraction, price);
    } else if config.sizingMode == "kelly_fraction" {
      MulNonNegative(equity, config.kellyFraction);
      DivNonNegative(equity * config.kellyFraction, price);
    }
  }

  /** One bar of the loop: the ENTRY branch, the EXIT branch, or nothing. Valued at the
      bar's close, no transition changes the book except by the commission an EXIT pays. */
  function Step(config: BacktestConfig, s: EngineState, tick: Tick): (r: Transition)
    requires PriceUsable(config, tick.price)
    ensures MarkToMarket(r.next, tick.price)
            == MarkToMarket(s, tick.price) - (if r.event.Some? && r.event.value.Exit? then config.commissionPerTrade else 0.0)
  {
    if s.sharesHeld == 0.0 && tick.signal != 0.0 then
      Enter(s, tick, PositionSizeFromMode(s.equity, tick.atr, tick.price, config))
    else if s.sharesHeld != 0.0 && ExitSignal(s.sharesHeld, tick.signal) then
      Close(s, tick, config.commissionPerTrade)
    else
      Hold(s)
  }

  /** ENTRY happens exactly when flat with a nonzero signal (even when the size comes out 0,
      which logs an ENTRY and stays flat); EXIT happens exactly when holding and the signal
      is 0 or opposite, realises the P&L net of commission and goes flat in the same bar;
      otherwise nothing changes. Realised equity moves only on EXIT. */
  lemma StepFacts(config: BacktestConfig, s: EngineState, tick: Tick)
    requires PriceUsable(config, tick.price)
    ensures var r := Step(config, s, tick);
            var size := PositionSizeFromMode(s.equity, tick.atr, tick.price, config);
            && (r.event.Some? && r.event.value.Entry? <==> s.sharesHeld == 0.0 && tick.signal != 0.0)
            && (r.event.Some? && r.event.value.Exit? <==> s.sharesHeld != 0.0 && ExitSignal(s.sharesHeld, tick.signal))
            && (r.event.None? ==> r.next == s)
            && (r.event.Some? && r.event.value.Entry? ==>
                  r.next.equity == s.equity && r.next.entryPrice == tick.price
                  && r.next.sharesHeld == tick.signal * size
                  && (r.next.sharesHeld == 0.0 <==> size == 0.0))
            && (r.event.Some? && r.event.value.Exit? ==>
                  r.next.sharesHeld == 0.0 && r.next.entryPrice == 0.0
                  && r.next.equity == s.equity + s.sharesHeld * (tick.price - s.entryPrice) - config.commissionPerTrade)
            && (r.next.equity != s.equity ==> r.event.Some? && r.event.value.Exit?)
  {
  }

  /** The columns the loop appends to, the loop variables after the last bar, and the log. */
  datatype Trace = Trace(
    state: EngineState,
    equity: seq<real>,
    position: seq<real>,
    exposure: seq<int>,
    tradeEquity: seq<Option<real>>,
    log: seq<TradeEvent>)

  predicate PricesUsable(config: BacktestConfig, ticks: seq<Tick>)
  {
    forall i :: 0 <= i < |ticks| ==> PriceUsable(config, ticks[i].price)
  }

  /** The loop as a fold over the rows: one entry per bar in every output column. */
  function Simulate(config: BacktestConfig, ticks: seq<Tick>, teaching: bool): (r: Trace)
    requires PricesUsable(config, ticks)
    ensures |r.equity| == |ticks| && |r.position| == |ticks|
    ensures |r.exposure| == |ticks| && |r.tradeEquity| == |ticks|
    ensures !teaching ==> r.log == []
    decreases |ticks|
  {
    if ticks == [] then Trace(Start(config.initialCapital), [], [], [], [], [])
    else Extend(config, Simulate(config, ticks[..|ticks| - 1], teaching), ticks[|ticks| - 1], teaching)
  }

  /** One pass of the loop body: the bar's transition, then the four appends. Earlier
      bars are left as they were; the new bar reports the new state. */
  function Extend(config: BacktestConfig, prev: Trace, tick: Tick, teaching: bool): (r: Trace)
    requires PriceUsable(config, tick.price)
    ensures r.state == Step(config, prev.state, tick).next
    ensures |r.equity| == |prev.equity| + 1 && |r.position| == |prev.position| + 1
    ensures |r.exposure| == |prev.exposure| + 1 && |r.tradeEquity| == |prev.tradeEquity| + 1
    ensures r.equity[|prev.equity|] == MarkToMarket(r.state, tick.price)
    ensures r.position[|prev.position|] == r.state.sharesHeld
    ensures r.exposure[|prev.exposure|] == Sign(r.state.sharesHeld)
    ensures r.tradeEquity[|prev.tradeEquity|].Some? <==> r.state.sharesHeld == 0.0
    ensures prev.log <= r.log
  {
    var tr := Step(config, prev.state, tick);
    var s := tr.next;
    Trace(s,
          prev.equity + [MarkToMarket(s, tick.price)],
          prev.position + [s.sharesHeld],
          prev.exposure + [Sign(s.sharesHeld)],
          prev.tradeEquity + [if s.sharesHeld == 0.0 then Some(s.equity) else None],
          Append(prev.log, teaching, tr.event))
  }

  lemma SimulateSnoc(config: BacktestConfig, ticks: seq<Tick>, teaching: bool, i: nat)
    requires PricesUsable(config, ticks) && i < |ticks|
    ensures Simulate(config, ticks[..i + 1], teaching)
            == Extend(config, Simulate(config, ticks[..i], teaching), ticks[i], teaching)
  {
    assert ticks[..i + 1][..i] == ticks[..i];
  }

  /** The per-bar columns agree with each other: the exposure is the sign of the position;
      `trade_equity` is defined exactly on flat bars, where it equals the output equity; the
      last position is the final share count. */
  lemma {:induction false} SimulateColumns(config: BacktestConfig, ticks: seq<Tick>, teaching: bool)
    requires PricesUsable(config, ticks)
    ensures var r := Simulate(config, ticks, teaching);
            && (ticks != [] ==> r.position[|ticks| - 1] == r.state.sharesHeld)
            && (forall t :: 0 <= t < |ticks| ==> r.exposure[t] == Sign(r.position[t]))
            && (forall t :: 0 <= t < |ticks| ==> (r.tradeEquity[t].Some? <==> r.position[t] == 0.0))
            && (forall t :: 0 <= t < |ticks| && r.position[t] == 0.0 ==> r.tradeEquity[t] == Some(r.equity[t]))
    decreases |ticks|
  {
    if ticks != [] {
      var init := ticks[..|ticks| - 1];
      SimulateColumns(config, init, teaching);
      ExtendKeepsColumnsAgreeing(config, Simulate(config, init, teaching), ticks[|ticks| - 1], teaching);
    }
  }

  /** The column agreement of `SimulateColumns` on the first n bars of a trace. */
  predicate ColumnsAgree(r: Trace, n: nat)
    requires |r.equity| == |r.position| == |r.exposure| == |r.tradeEquity| == n
  {
    && (n > 0 ==> r.position[n - 1] == r.state.sharesHeld)
    && (forall t :: 0 <= t < n ==> r.exposure[t] == Sign(r.position[t]))
    && (forall t :: 0 <= t < n ==> (r.tradeEquity[t].Some? <==> r.position[t] == 0.0))
    && (forall t :: 0 <= t < n && r.position[t] == 0.0 ==> r.tradeEquity[t] == Some(r.equity[t]))
  }

  /** One more pass of the loop body keeps the columns in agreement. */
  lemma ExtendKeepsColumnsAgreeing(config: BacktestConfig, prev: Trace, tick: Tick, teaching: bool)
    requires PriceUsable(config, tick.price)
    requires |prev.equity| == |prev.position| == |prev.exposure| == |prev.tradeEquity|
    requires ColumnsAgree(prev, |prev.equity|)
    ensures ColumnsAgree(Extend(config, prev, tick, teaching), |prev.equity| + 1)
  {
    var r := Extend(config, prev, tick, teaching);
    var s := r.state;
    assert r.exposure == prev.exposure + [Sign(s.sharesHeld)];
    assert r.position == prev.position + [s.sharesHeld];
    assert r.equity == prev.equity + [MarkToMarket(s, tick.price)];
    assert r.tradeEquity == prev.tradeEquity + [if s.sharesHeld == 0.0 then Some(s.equity) else None];
  }

  /** Running the loop on the first k rows gives the first k entries of every column and a
      prefix of the log: no bar's output depends on a later bar. */
  lemma {:induction false} SimulatePrefix(config: BacktestConfig, ticks: seq<Tick>, teaching: bool, k: nat)
    requires PricesUsable(config, ticks) && k <= |ticks|
    ensures var p := Simulate(config, ticks[..k], teaching);
            var r := Simulate(config, ticks, teaching);
            p.equity == r.equity[..k] && p.position == r.position[..k]
            && p.exposure == r.exposure[..k] && p.tradeEquity == r.tradeEquity[..k]
            && p.log <= r.log
    decreases |ticks|
  {
    if k == |ticks| {
      assert ticks[..k] == ticks;
    } else {
      var init := ticks[..|ticks| - 1];
      SimulatePrefix(config, init, teaching, k);
      assert init[..k] == ticks[..k];
      SimulateKeepsEarlierBars(config, ticks, teaching, k);
    }
  }

  /** Running one more row leaves the first k entries of every column as they were and
      extends the log. */
  lemma SimulateKeepsEarlierBars(config: BacktestConfig, ticks: seq<Tick>, teaching: bool, k: nat)
    requires PricesUsable(config, ticks) && k < |ticks|
    ensures var p := Simulate(config, ticks[..|ticks| - 1], teaching);
            var r := Simulate(config, ticks, teaching);
            p.equity[..k] == r.equity[..k] && p.position[..k] == r.position[..k]
            && p.exposure[..k] == r.exposure[..k] && p.tradeEquity[..k] == r.tradeEquity[..k]
            && p.log <= r.log
  {
    var p := Simulate(config, ticks[..|ticks| - 1], teaching);
    ExtendKeepsEarlierBars(config, p, ticks[|ticks| - 1], teaching, k);
  }

  /** Appending a bar leaves the first k entries of every column as they were. */
  lemma ExtendKeepsEarlierBars(config: BacktestConfig, prev: Trace, tick: Tick, teaching: bool, k: nat)
    requires PriceUsable(config, tick.price)
    requires k <= |prev.equity| && k <= |prev.position| && k <= |prev.exposure| && k <= |prev.tradeEquity|
    ensures var r := Extend(config, prev, tick, teaching);
            && r.equity[..k] == prev.equity[..k] && r.position[..k] == prev.position[..k]
            && r.exposure[..k] == prev.exposure[..k] && r.tradeEquity[..k] == prev.tradeEquity[..k]
  {
    var r := Extend(config, prev, tick, teaching);
    assert r.equity[..k] == prev.equity[..k];
    assert r.position[..k] == prev.position[..k];
    assert r.exposure[..k] == prev.exposure[..k];
    assert r.tradeEquity[..k] == prev.tradeEquity[..k];
  }

  /** With teaching on, the log obeys the ledger discipline and agrees with the final state. */
  lemma {:induction false} SimulateKeepsLedger(config: BacktestConfig, ticks: seq<Tick>)
    requires PricesUsable(config, ticks)
    ensures var r := Simulate(config, ticks, true);
            Ledger(r.log, config.initialCapital, config.commissionPerTrade)
            && AgreesWithLog(r.state, r.log, config.initialCapital)
    decreases |ticks|
  {
    if ticks != [] {
      var init := ticks[..|ticks| - 1];
      SimulateKeepsLedger(config, init);
      var prev := Simulate(config, init, true);
      var tick := ticks[|ticks| - 1];
      var s := prev.state;
      if s.sharesHeld == 0.0 && tick.signal != 0.0 {
        LedgerAfterEnter(prev.log, s, tick, PositionSizeFromMode(s.equity, tick.atr, tick.price, config),
                         config.initialCapital, config.commissionPerTrade);
      } else if s.sharesHeld != 0.0 && ExitSignal(s.sharesHeld, tick.signal) {
        LedgerAfterClose(prev.log, s, tick, config.initialCapital, config.commissionPerTrade);
      }
    }
  }

  /** Realised equity after a run is the initial capital plus the P&L net of commission of
      every EXIT in the teaching log. */
  lemma RealisedEquityBalances(config: BacktestConfig, ticks: seq<Tick>)
    requires PricesUsable(config, ticks)
    ensures var r := Simulate(config, ticks, true);
            r.state.equity == config.initialCapital + NetRealised(r.log, config.commissionPerTrade)
  {
    var r := Simulate(config, ticks, true);
    SimulateKeepsLedger(config, ticks);
    LedgerBalances(r.log, config.initialCapital, config.commissionPerTrade);
  }

  /** The teaching log alternates ENTRY, EXIT, ... from ENTRY whenever no ENTRY record has zero
      shares (a zero-size entry is logged yet leaves the engine flat, so the next entry is
      logged as a second ENTRY). */
  lemma LogAlternatesWithoutEmptyEntries(config: BacktestConfig, ticks: seq<Tick>)
    requires PricesUsable(config, ticks)
    requires var log := Simulate(config, ticks, true).log;
             forall i :: 0 <= i < |log| && log[i].Entry? ==> log[i].shares != 0.0
    ensures Alternates(Simulate(config, ticks, true).log)
  {
    SimulateKeepsLedger(config, ticks);
    LedgerAlternates(Simulate(config, ticks, true).log, config.initialCapital, config.commissionPerTrade);
  }

  /** The teaching log can hold two ENTRY records in a row: with a zero risk budget the first
      entry sizes to 0 shares and the engine stays flat. */
  lemma RepeatedEntryExample()
    ensures var config := DefaultConfig.(riskPerTrade := 0.0);
            var ticks := [Tick(0, 0.0, 10.0, Some(1.0)), Tick(1, 1.0, 10.0, Some(1.0)), Tick(2, 1.0, 10.0, Some(1.0))];
            var log := Simulate(config, ticks, true).log;
            |log| == 2 && log[0].Entry? && log[1].Entry?
  {
    var config := DefaultConfig.(riskPerTrade := 0.0);
    var ticks := [Tick(0, 0.0, 10.0, Some(1.0)), Tick(1, 1.0, 10.0, Some(1.0)), Tick(2, 1.0, 10.0, Some(1.0))];
    assert ticks[..0] == [] && ticks[..3] == ticks;
    SimulateSnoc(config, ticks, true, 0);
    SimulateSnoc(config, ticks, true, 1);
    SimulateSnoc(config, ticks, true, 2);
    var s1 := Simulate(config, ticks[..1], true);
    assert s1.state == Start(100000.0) && s1.log == [];
    var s2 := Simulate(config, ticks[..2], true);
    assert PositionSizeFromMode(100000.0, Some(1.0), 10.0, config) == 0.0;
    assert s2.state.sharesHeld == 0.0 && |s2.log| == 1 && s2.log[0].Entry?;
  }

  /** Bar 0 sees a zero signal, so it never trades: equity starts at the initial capital,
      the engine is flat, and nothing is logged. */
  lemma FirstBarIsFlat(config: BacktestConfig, ticks: seq<Tick>, teaching: bool)
    requires PricesUsable(config, ticks) && ticks != [] && ticks[0].signal == 0.0
    ensures var r := Simulate(config, ticks, teaching);
            r.equity[0] == config.initialCapital && r.position[0] == 0.0 && r.exposure[0] == 0
            && r.tradeEquity[0] == Some(config.initialCapital)
            && Simulate(config, ticks[..1], teaching).log == []
  {
    SimulatePrefix(config, ticks, teaching, 1);
    SimulateColumns(config, ticks, teaching);
    assert ticks[..1][..0] == [];
  }

  /** With a positive initial capital and a flat first bar, every bar's peak is positive,
      so every drawdown is defined, at most 0, exactly 0 at a new peak, and the worst
      drawdown is defined and at most 0. */
  lemma DrawdownNonPositive(config: BacktestConfig, ticks: seq<Tick>, teaching: bool)
    requires PricesUsable(config, ticks) && ticks != [] && ticks[0].signal == 0.0
    requires config.initialCapital > 0.0
    ensures var equity := Simulate(config, ticks, teaching).equity;
            var peak := CumMax(equity);
            var dd := Drawdown(equity);
            && (forall t :: 0 <= t < |dd| ==>
                  dd[t].Some? && dd[t].value <= 0.0 && (dd[t].value == 0.0 <==> equity[t] == peak[t]))
            && MinSkipNa(dd).Some? && MinSkipNa(dd).value <= 0.0
  {
    FirstBarIsFlat(config, ticks, teaching);
    DrawdownOfPositiveStart(Simulate(config, ticks, teaching).equity);
  }

  /** The rows the loop reads, zipped from the index, the lagged signal, the close and the
      ATR columns. */
  function Ticks(index: seq<int>, dir: seq<real>, close: seq<real>, atr: seq<real>): (r: seq<Tick>)
    requires |index| == |dir| == |close| == |atr|
    ensures |r| == |index|
    ensures forall i :: 0 <= i < |r| ==> r[i] == Tick(index[i], dir[i], close[i], Some(atr[i]))
  {
    seq(|index|, i requires 0 <= i < |index| => Tick(index[i], dir[i], close[i], Some(atr[i])))
  }

  /** The rows of a frame: the signal of the previous bar (0 on the first) and the ATR
      computed from the frame. */
  function Rows(index: seq<int>, bars: seq<Bar>, signalFinal: seq<real>, atrWindow: int): (r: seq<Tick>)
    requires |index| == |bars| == |signalFinal| && atrWindow >= 1
    ensures |r| == |bars|
    ensures bars != [] ==> r[0].signal == 0.0
  {
    Ticks(index, ShiftFillZero(signalFinal), Closes(bars), Indicators.Atr(Highs(bars), Lows(bars), Closes(bars), atrWindow))
  }

  /** The frame `apply_position_sizing` returns (its new columns and attributes). */
  datatype BacktestFrame = BacktestFrame(
    atr: seq<real>,
    positionDir: seq<real>,
    position: seq<real>,
    equity: seq<real>,
    returnsColumn: seq<Option<real>>,
    exposure: seq<int>,
    tradeEquity: seq<Option<real>>,
    peakEquity: seq<real>,
    drawdown: seq<Option<real>>,
    maxDrawdown: Option<real>,
    maxDrawdownDate: Option<int>)

  /** `ewm` rejects a span below 1; `idxmin` rejects an empty column. */
  datatype BacktestError = InvalidAtrWindow | EmptyFrame

  predicate ClosesUsable(config: BacktestConfig, bars: seq<Bar>)
  {
    forall i :: 0 <= i < |bars| ==> PriceUsable(config, bars[i].close)
  }

  lemma RowsUsable(index: seq<int>, bars: seq<Bar>, signalFinal: seq<real>, config: BacktestConfig)
    requires |index| == |bars| == |signalFinal| && config.atrWindow >= 1 && ClosesUsable(config, bars)
    ensures PricesUsable(config, Rows(index, bars, signalFinal, config.atrWindow))
  {
  }

  /** The result of `apply_position_sizing` as a function of its inputs. */
  function Backtest(index: seq<int>, bars: seq<Bar>, signalFinal: seq<real>, config: BacktestConfig, teaching: bool)
    : (r: Result<(BacktestFrame, seq<TradeEvent>), BacktestError>)
    requires |index| == |bars| == |signalFinal| && ClosesUsable(config, bars)
    ensures r.Err? <==> config.atrWindow < 1 || bars == []
    ensures r.Ok? ==> r.value.0.positionDir == ShiftFillZero(signalFinal)
    ensures r.Ok? ==> |r.value.0.equity| == |r.value.0.position| == |r.value.0.returnsColumn| == |bars|
    ensures r.Ok? ==> |r.value.0.exposure| == |bars|
    ensures r.Ok? ==> r.value.0.peakEquity == CumMax(r.value.0.equity) && r.value.0.drawdown == Drawdown(r.value.0.equity)
  {
    if config.atrWindow < 1 then Err(InvalidAtrWindow)
    else if bars == [] then Err(EmptyFrame)
    else
      var rows := Rows(index, bars, signalFinal, config.atrWindow);
      RowsUsable(index, bars, signalFinal, config);
      var r := Simulate(config, rows, teaching);
      var dd := Drawdown(r.equity);
      var date := IdxMinSkipNa(dd);
      Ok((BacktestFrame(
            Indicators.Atr(Highs(bars), Lows(bars), Closes(bars), config.atrWindow),
            ShiftFillZero(signalFinal),
            r.position, r.equity, PctChange(r.equity), r.exposure, r.tradeEquity,
            CumMax(r.equity), dd, MinSkipNa(dd),
            if date.Some? then Some(index[date.value]) else None),
          r.log))
  }

  /** The result frame of a run over `n >= 1` bars: every column has one entry per bar;
      bar 0 is flat at the initial capital with return 0; returns compound to the next
      equity; the exposure is the sign of the position; the peak is the running maximum of
      the equity and the drawdown is measured from it; and with a positive initial capital
      the deepest drawdown and its date are defined and the drawdown is at most 0. */
  predicate FrameShaped(f: BacktestFrame, n: nat, capital: real)
  {
    && n >= 1
    && |f.atr| == |f.positionDir| == |f.position| == |f.equity| == n
    && |f.returnsColumn| == |f.exposure| == |f.tradeEquity| == |f.peakEquity| == |f.drawdown| == n
    && f.equity[0] == capital && f.position[0] == 0.0
    && f.returnsColumn[0] == Some(0.0)
    && (forall t :: 1 <= t < n ==> f.returnsColumn[t] == Change(f.equity[t - 1], f.equity[t]))
    && (forall t :: 0 <= t < n ==> f.exposure[t] == Sign(f.position[t]))
    && f.peakEquity == CumMax(f.equity) && f.drawdown == Drawdown(f.equity)
    && (capital > 0.0 ==> f.maxDrawdown.Some? && f.maxDrawdown.value <= 0.0 && f.maxDrawdownDate.Some?)
  }

  /** What `apply_position_sizing` returns: `ewm` rejects a window below 1 and `idxmin` an
      empty frame; otherwise the frame is shaped as `FrameShaped` says. Nothing is logged
      outside teaching mode. */
  lemma BacktestShape(index: seq<int>, bars: seq<Bar>, signalFinal: seq<real>, config: BacktestConfig, teaching: bool)
    requires |index| == |bars| == |signalFinal| && ClosesUsable(config, bars)
    ensures var r := Backtest(index, bars, signalFinal, config, teaching);
            && (r == Err(InvalidAtrWindow) <==> config.atrWindow < 1)
            && (r == Err(EmptyFrame) <==> config.atrWindow >= 1 && bars == [])
            && (r.Ok? ==> FrameShaped(r.value.0, |bars|, config.initialCapital) && (!teaching ==> r.value.1 == []))
  {
    if config.atrWindow >= 1 && bars != [] {
      var rows := Rows(index, bars, signalFinal, config.atrWindow);
      RowsUsable(index, bars, signalFinal, config);
      FirstBarIsFlat(config, rows, teaching);
      SimulateColumns(config, rows, teaching);
      if config.initialCapital > 0.0 {
        DrawdownNonPositive(config, rows, teaching);
      }
    }
  }

  /** The ENTRY / EXIT branches of one iteration of the loop of `apply_position_sizing`, on
      the three mutable variables and the log. */
  method Trade(config: BacktestConfig, teachingMode: bool, equity0: real, sharesHeld0: real, entryPrice0: real,
               logs0: seq<TradeEvent>, tick: Tick)
    returns (equity: real, sharesHeld: real, entryPrice: real, logs: seq<TradeEvent>)
    requires PriceUsable(config, tick.price)
    ensures var tr := Step(config, EngineState(equity0, sharesHeld0, entryPrice0), tick);
            EngineState(equity, sharesHeld, entryPrice) == tr.next && logs == Append(logs0, teachingMode, tr.event)
  {
    ghost var s0 := EngineState(equity0, sharesHeld0, entryPrice0);
    equity, sharesHeld, entryPrice, logs := equity0, sharesHeld0, entryPrice0, logs0;
    var signal := tick.signal;
    var price := tick.price;
    if sharesHeld == 0.0 && signal != 0.0 {
      var shares := PositionSizeFromMode(equity, tick.atr, price, config);
      assert Step(config, s0, tick) == Enter(s0, tick, shares);
      sharesHeld := signal * shares;
      entryPrice := price;
      if teachingMode {
        logs := logs + [Entry(tick.timestamp, signal, sharesHeld, price, equity)];
      }
    } else if sharesHeld != 0.0 && (signal == 0.0 || (sharesHeld > 0.0 && signal < 0.0) || (sharesHeld < 0.0 && signal > 0.0)) {
      assert Step(config, s0, tick) == Close(s0, tick, config.commissionPerTrade);
      var pnl := sharesHeld * (price - entryPrice);
      equity := equity + (pnl - config.commissionPerTrade);
      if teachingMode {
        logs := logs + [Exit(tick.timestamp, signal, sharesHeld, price, pnl, equity)];
      }
      sharesHeld := 0.0;
      entryPrice := 0.0;
    }
  }

  /** One iteration of the loop of `apply_position_sizing`: the ENTRY / EXIT branches, then
      the mark-to-market equity, position, exposure and trade-equity appends. */
  method OnBar(config: BacktestConfig, teachingMode: bool, equity0: real, sharesHeld0: real, entryPrice0: real,
               equitySeries0: seq<real>, positionSeries0: seq<real>, exposureSeries0: seq<int>,
               tradeEquitySeries0: seq<Option<real>>, logs0: seq<TradeEvent>, tick: Tick)
    returns (equity: real, sharesHeld: real, entryPrice: real,
             equitySeries: seq<real>, positionSeries: seq<real>, exposureSeries: seq<int>,
             tradeEquitySeries: seq<Option<real>>, logs: seq<TradeEvent>)
    requires PriceUsable(config, tick.price)
    ensures Trace(EngineState(equity, sharesHeld, entryPrice),
                  equitySeries, positionSeries, exposureSeries, tradeEquitySeries, logs)
            == Extend(config,
                      Trace(EngineState(equity0, sharesHeld0, entryPrice0),
                            equitySeries0, positionSeries0, exposureSeries0, tradeEquitySeries0, logs0),
                      tick, teachingMode)
  {
    equity, sharesHeld, entryPrice, logs := Trade(config, teachingMode, equity0, sharesHeld0, entryPrice0, logs0, tick);
    var price := tick.price;
    var equityMt := equity + (if sharesHeld != 0.0 then sharesHeld * (price - entryPrice) else 0.0);
    equitySeries := equitySeries0 + [equityMt];
    positionSeries := positionSeries0 + [sharesHeld];
    exposureSeries := exposureSeries0 + [if sharesHeld > 0.0 then 1 else if sharesHeld < 0.0 then -1 else 0];
    tradeEquitySeries := tradeEquitySeries0 + [if sharesHeld == 0.0 then Some(equity) else None];
    assert equityMt == MarkToMarket(EngineState(equity, sharesHeld, entryPrice), price);
    assert exposureSeries[|exposureSeries| - 1] == Sign(sharesHeld);
  }

  /** The loop of `apply_position_sizing` over the rows. */
  method RunBars(index: seq<int>, dir: seq<real>, close: seq<real>, atr: seq<real>, config: BacktestConfig, teachingMode: bool)
    returns (equitySeries: seq<real>, positionSeries: seq<real>, exposureSeries: seq<int>,
             tradeEquitySeries: seq<Option<real>>, logs: seq<TradeEvent>)
    requires |index| == |dir| == |close| == |atr|
    requires forall i :: 0 <= i < |close| ==> PriceUsable(config, close[i])
    ensures var t := Simulate(config, Ticks(index, dir, close, atr), teachingMode);
            equitySeries == t.equity && positionSeries == t.position && exposureSeries == t.exposure
            && tradeEquitySeries == t.tradeEquity && logs == t.log
  {
    ghost var rows := Ticks(index, dir, close, atr);
    var equity := config.initialCapital;
    var sharesHeld := 0.0;
    var entryPrice := 0.0;
    equitySeries, positionSeries, tradeEquitySeries, exposureSeries, logs := [], [], [], [], [];

    var i := 0;
    while i < |close|
      invariant 0 <= i <= |close|
      invariant Simulate(config, rows[..i], teachingMode) ==
                Trace(EngineState(equity, sharesHeld, entryPrice),
                      equitySeries, positionSeries, exposureSeries, tradeEquitySeries, logs)
    {
      var tick := Tick(index[i], dir[i], close[i], Some(atr[i]));
      assert rows[i] == tick;
      equity, sharesHeld, entryPrice, equitySeries, positionSeries, exposureSeries, tradeEquitySeries, logs :=
        OnBar(config, teachingMode, equity, sharesHeld, entryPrice,
              equitySeries, positionSeries, exposureSeries, tradeEquitySeries, logs, tick);
      SimulateSnoc(config, rows, teachingMode, i);
      i := i + 1;
    }
    assert rows[..|close|] == rows;
  }

  /** `apply_position_sizing`: the ATR and lagged-signal columns, the loop, then the column
      post-processing (returns, peak, drawdown, and the date of the deepest drawdown). */
  method ApplyPositionSizing(index: seq<int>, bars: seq<Bar>, signalFinal: seq<real>, config: BacktestConfig, teachingMode: bool)
    returns (r: Result<(BacktestFrame, seq<TradeEvent>), BacktestError>)
    requires |index| == |bars| == |signalFinal| && ClosesUsable(config, bars)
    ensures r == Backtest(index, bars, signalFinal, config, teachingMode)
  {
    if config.atrWindow < 1 {
      return Err(InvalidAtrWindow);
    }
    var atr := Indicators.Atr(Highs(bars), Lows(bars), Closes(bars), config.atrWindow);
    var positionDir := ShiftFillZero(signalFinal);
    var equitySeries, positionSeries, exposureSeries, tradeEquitySeries, logs :=
      RunBars(index, positionDir, Closes(bars), atr, config, teachingMode);
    if equitySeries == [] {
      return Err(EmptyFrame);
    }
    var returnSeries := PctChange(equitySeries);
    var peakEquity := CumMax(equitySeries);
    var drawdown := Drawdown(equitySeries);
    var maxDrawdown := MinSkipNa(drawdown);
    var position := IdxMinSkipNa(drawdown);
    var maxDrawdownDate := if position.Some? then Some(index[position.value]) else None;
    r := Ok((BacktestFrame(atr, positionDir, positionSeries, equitySeries, returnSeries, exposureSeries,
                           tradeEquitySeries, peakEquity, drawdown, maxDrawdown, maxDrawdownDate),
             logs));
  }
}

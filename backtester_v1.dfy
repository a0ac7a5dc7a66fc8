/** The earlier engine (`trading/backtester_v1.py`): ATR-only sizing, and an entry that is
    refused unless the ATR is defined and positive and the stop distance is positive. Its
    loop is the one `trading/002backtester.py` runs as well; the two files differ only in
    the columns added after the loop. */
module BacktesterV1 {
  import opened Wrappers
  import opened Arith
  import opened Frame
  import opened EngineCore
  import Indicators
  import Backtester

  datatype BacktestConfig = BacktestConfig(
    initialCapital: real,
    riskPerTrade: real,
    atrWindow: int,
    atrMultiplier: real,
    commissionPerTrade: real)

  /** The dataclass defaults. */
  const DefaultConfig := BacktestConfig(100000.0, 0.01, 14, 2.0, 0.0)

  /** The entry guard: flat, a nonzero signal, an ATR that is defined and positive, and a
      positive stop distance. */
  predicate CanEnter(config: BacktestConfig, s: EngineState, tick: Tick)
    ensures CanEnter(config, s, tick) ==> config.atrMultiplier > 0.0 && s.sharesHeld == 0.0 && tick.signal != 0.0
  {
    s.sharesHeld == 0.0 && tick.signal != 0.0 && tick.atr.Some? && tick.atr.value > 0.0
    && config.atrMultiplier * tick.atr.value > 0.0
  }

  /** `risk_amount / stop_distance`: losing one stop distance per share costs exactly the
      risk budget `equity * risk_per_trade`; the size is 0 exactly when that budget is. */
  function SharesForRisk(config: BacktestConfig, equity: real, atrValue: real): (shares: real)
    requires config.atrMultiplier * atrValue > 0.0
    ensures shares * (config.atrMultiplier * atrValue) == equity * config.riskPerTrade
    ensures shares == 0.0 <==> equity * config.riskPerTrade == 0.0
  {
    var stop := config.atrMultiplier * atrValue;
    DivCancels(equity * config.riskPerTrade, stop);
    (equity * config.riskPerTrade) / stop
  }

  /** One bar of the loop: the guarded ENTRY, the EXIT, or nothing. Valued at the bar's
      close, no transition changes the book except by the commission an EXIT pays. */
  function GuardedStep(config: BacktestConfig, s: EngineState, tick: Tick): (r: Transition)
    ensures MarkToMarket(r.next, tick.price)
            == MarkToMarket(s, tick.price) - (if r.event.Some? && r.event.value.Exit? then config.commissionPerTrade else 0.0)
  {
    if s.sharesHeld == 0.0 then
      if CanEnter(config, s, tick) then Enter(s, tick, SharesForRisk(config, s.equity, tick.atr.value))
      else Hold(s)
    else if ExitSignal(s.sharesHeld, tick.signal) then Close(s, tick, config.commissionPerTrade)
    else Hold(s)
  }

  /** ENTRY happens exactly when the guard holds, buys `signal * risk_amount / stop_distance`
      at the close and keeps equity; otherwise a flat engine is left as it is. EXIT happens
      exactly when holding and the signal is 0 or opposite, realises the P&L net of
      commission and goes flat. Realised equity moves only on EXIT. */
  lemma GuardedStepFacts(config: BacktestConfig, s: EngineState, tick: Tick)
    ensures var r := GuardedStep(config, s, tick);
            && (r.event.Some? && r.event.value.Entry? <==> CanEnter(config, s, tick))
            && (r.event.Some? && r.event.value.Exit? <==> s.sharesHeld != 0.0 && ExitSignal(s.sharesHeld, tick.signal))
            && (r.event.None? ==> r.next == s)
            && (CanEnter(config, s, tick) ==>
                  r.next.equity == s.equity && r.next.entryPrice == tick.price
                  && r.next.sharesHeld * (config.atrMultiplier * tick.atr.value)
                     == tick.signal * (s.equity * config.riskPerTrade))
            && (r.event.Some? && r.event.value.Exit? ==>
                  r.next.sharesHeld == 0.0 && r.next.entryPrice == 0.0
                  && r.next.equity == s.equity + s.sharesHeld * (tick.price - s.entryPrice) - config.commissionPerTrade)
            && (r.next.equity != s.equity ==> r.event.Some? && r.event.value.Exit?)
  {
    if CanEnter(config, s, tick) {
      var stop := config.atrMultiplier * tick.atr.value;
      var shares := SharesForRisk(config, s.equity, tick.atr.value);
      assert (tick.signal * shares) * stop == tick.signal * (shares * stop);
    }
  }

  /** The columns the loop appends to, the loop variables after the last bar, and the log. */
  datatype Run = Run(state: EngineState, position: seq<real>, equity: seq<real>, log: seq<TradeEvent>)

  /** The loop as a fold over the rows. */
  function SimulateGuarded(config: BacktestConfig, ticks: seq<Tick>, teaching: bool): (r: Run)
    ensures |r.position| == |ticks| && |r.equity| == |ticks|
    ensures !teaching ==> r.log == []
    decreases |ticks|
  {
    if ticks == [] then Run(Start(config.initialCapital), [], [], [])
    else ExtendGuarded(config, SimulateGuarded(config, ticks[..|ticks| - 1], teaching), ticks[|ticks| - 1], teaching)
  }

  /** One pass of the loop body: the bar's transition, then the two appends. Earlier bars
      are left as they were; the new bar reports the new state. */
  function ExtendGuarded(config: BacktestConfig, prev: Run, tick: Tick, teaching: bool): (r: Run)
    ensures r.state == GuardedStep(config, prev.state, tick).next
    ensures |r.position| == |prev.position| + 1 && |r.equity| == |prev.equity| + 1
    ensures r.position[|prev.position|] == r.state.sharesHeld
    ensures r.equity[|prev.equity|] == MarkToMarket(r.state, tick.price)
    ensures prev.log <= r.log
  {
    var tr := GuardedStep(config, prev.state, tick);
    Run(tr.next,
        prev.position + [tr.next.sharesHeld],
        prev.equity + [MarkToMarket(tr.next, tick.price)],
        Append(prev.log, teaching, tr.event))
  }

  lemma SimulateGuardedSnoc(config: BacktestConfig, ticks: seq<Tick>, teaching: bool, i: nat)
    requires i < |ticks|
    ensures SimulateGuarded(config, ticks[..i + 1], teaching)
            == ExtendGuarded(config, SimulateGuarded(config, ticks[..i], teaching), ticks[i], teaching)
  {
    assert ticks[..i + 1][..i] == ticks[..i];
  }

  /** Every bar's output is the state after that bar: its position is the share count, and
      its equity is the realised equity plus the open position's unrealised P&L, which is
      the realised equity itself on a flat bar. */
  lemma {:induction false} OutputsFollowState(config: BacktestConfig, ticks: seq<Tick>, teaching: bool, t: nat)
    requires t < |ticks|
    ensures var r := SimulateGuarded(config, ticks, teaching);
            var s := SimulateGuarded(config, ticks[..t + 1], teaching).state;
            r.position[t] == s.sharesHeld && r.equity[t] == MarkToMarket(s, ticks[t].price)
            && (s.sharesHeld == 0.0 ==> r.equity[t] == s.equity)
    decreases |ticks|
  {
    if t < |ticks| - 1 {
      var init := ticks[..|ticks| - 1];
      OutputsFollowState(config, init, teaching, t);
      assert init[..t + 1] == ticks[..t + 1];
    } else {
      assert ticks[..t + 1] == ticks;
    }
  }

  /** With teaching on, the log obeys the ledger discipline and agrees with the final state. */
  lemma {:induction false} GuardedKeepsLedger(config: BacktestConfig, ticks: seq<Tick>)
    ensures var r := SimulateGuarded(config, ticks, true);
            Ledger(r.log, config.initialCapital, config.commissionPerTrade)
            && AgreesWithLog(r.state, r.log, config.initialCapital)
    decreases |ticks|
  {
    if ticks != [] {
      var init := ticks[..|ticks| - 1];
      GuardedKeepsLedger(config, init);
      var prev := SimulateGuarded(config, init, true);
      var tick := ticks[|ticks| - 1];
      var s := prev.state;
      if CanEnter(config, s, tick) {
        LedgerAfterEnter(prev.log, s, tick, SharesForRisk(config, s.equity, tick.atr.value),
                         config.initialCapital, config.commissionPerTrade);
      } else if s.sharesHeld != 0.0 && ExitSignal(s.sharesHeld, tick.signal) {
        LedgerAfterClose(prev.log, s, tick, config.initialCapital, config.commissionPerTrade);
      }
    }
  }

  /** With a nonzero risk fraction, a logged ENTRY has zero shares exactly when it was made
      at zero equity. */
  lemma {:induction false} EntriesSizedByRisk(config: BacktestConfig, ticks: seq<Tick>)
    requires config.riskPerTrade != 0.0
    ensures var log := SimulateGuarded(config, ticks, true).log;
            forall i :: 0 <= i < |log| && log[i].Entry? ==> (log[i].shares == 0.0 <==> log[i].equity == 0.0)
    decreases |ticks|
  {
    if ticks != [] {
      var init := ticks[..|ticks| - 1];
      EntriesSizedByRisk(config, init);
      assert var log := SimulateGuarded(config, init, true).log;
            forall i :: 0 <= i < |log| && log[i].Entry? ==> (log[i].shares == 0.0 <==> log[i].equity == 0.0);
      var prev := SimulateGuarded(config, init, true);
      var tick := ticks[|ticks| - 1];
      var s := prev.state;
      var log := SimulateGuarded(config, ticks, true).log;
      var tr := GuardedStep(config, s, tick);
      assert log == Append(prev.log, true, tr.event);
      if CanEnter(config, s, tick) {
        var shares := SharesForRisk(config, s.equity, tick.atr.value);
        assert tr == Enter(s, tick, shares);
        if s.equity != 0.0 {
          MulNonZero(s.equity, config.riskPerTrade);
          MulNonZero(tick.signal, shares);
        }
        assert log[|prev.log|].shares == 0.0 <==> s.equity == 0.0;
      } else {
        assert tr.event.None? || tr.event.value.Exit?;
      }
      assert forall i :: 0 <= i < |prev.log| ==> log[i] == prev.log[i];
    }
  }

  /** With a nonzero risk budget per unit of equity, the teaching log alternates ENTRY,
      EXIT, ENTRY, ... from ENTRY, unless some entry was made at zero equity. */
  lemma GuardedLogAlternates(config: BacktestConfig, ticks: seq<Tick>)
    requires config.riskPerTrade != 0.0
    ensures var log := SimulateGuarded(config, ticks, true).log;
            Alternates(log) || exists i :: 0 <= i < |log| && log[i].Entry? && log[i].equity == 0.0
  {
    var log := SimulateGuarded(config, ticks, true).log;
    GuardedKeepsLedger(config, ticks);
    EntriesSizedByRisk(config, ticks);
    if forall i :: 0 <= i < |log| && log[i].Entry? ==> log[i].equity != 0.0 {
      LedgerAlternates(log, config.initialCapital, config.commissionPerTrade);
    }
  }

  /** Bar 0 sees a zero signal, so with a positive initial capital every peak is positive,
      `peak_equity >= equity` on every bar, and every drawdown is defined and at most 0. */
  lemma GuardedDrawdownNonPositive(config: BacktestConfig, ticks: seq<Tick>, teaching: bool)
    requires ticks != [] && ticks[0].signal == 0.0 && config.initialCapital > 0.0
    ensures var equity := SimulateGuarded(config, ticks, teaching).equity;
            forall t :: 0 <= t < |equity| ==>
              equity[t] <= CumMax(equity)[t] && Drawdown(equity)[t].Some? && Drawdown(equity)[t].value <= 0.0
  {
    OutputsFollowState(config, ticks, teaching, 0);
    assert ticks[..1][..0] == [];
    DrawdownOfPositiveStart(SimulateGuarded(config, ticks, teaching).equity);
  }

  // ---------------------------------------------------------------------------------
  // Agreement with the current engine in "atr" mode

  /** The current engine's configuration with the same parameters and "atr" sizing. */
  function AsCurrent(config: BacktestConfig): (c: Backtester.BacktestConfig)
    ensures c.sizingMode == "atr" && !Backtester.DividesByPrice(c.sizingMode)
  {
    Backtester.BacktestConfig(config.initialCapital, config.riskPerTrade, config.atrWindow, config.atrMultiplier,
                              config.commissionPerTrade, "atr", 0.02, 0.5, 0.25)
  }

  /** Two engine states that hold the same book: same realised equity and share count, and
      the same entry price while a position is open (a flat engine's entry price is never
      read). */
  predicate SameBook(a: EngineState, b: EngineState)
  {
    a.equity == b.equity && a.sharesHeld == b.sharesHeld && (a.sharesHeld != 0.0 ==> a.entryPrice == b.entryPrice)
  }

  /** Where the guard refuses an entry, the current engine sizes it to 0 shares and stays
      flat; where it admits one, both engines buy the same size; exits are identical. */
  lemma StepsAgree(config: BacktestConfig, a: EngineState, b: EngineState, tick: Tick)
    requires config.atrMultiplier >= 0.0 && SameBook(a, b)
    ensures SameBook(GuardedStep(config, a, tick).next, Backtester.Step(AsCurrent(config), b, tick).next)
  {
    var c := AsCurrent(config);
    if a.sharesHeld == 0.0 && tick.signal != 0.0 && !CanEnter(config, a, tick) {
      if tick.atr.Some? && tick.atr.value <= 0.0 {
        MulNonPositive(config.atrMultiplier, tick.atr.value);
      }
      assert Backtester.PositionSizeFromMode(b.equity, tick.atr, tick.price, c) == 0.0;
    }
  }

  /** With a non-negative ATR multiplier the guarded engine produces the same position and
      equity columns as the current engine in "atr" mode; its realised state holds the same
      book. (The logs can differ: the current engine logs an ENTRY of 0 shares where this
      one refuses the entry.) */
  lemma {:induction false} MatchesCurrentEngine(config: BacktestConfig, ticks: seq<Tick>, teaching: bool)
    requires config.atrMultiplier >= 0.0
    ensures Backtester.PricesUsable(AsCurrent(config), ticks)
    ensures var a := SimulateGuarded(config, ticks, teaching);
            var b := Backtester.Simulate(AsCurrent(config), ticks, teaching);
            a.position == b.position && a.equity == b.equity && SameBook(a.state, b.state)
    decreases |ticks|
  {
    var c := AsCurrent(config);
    if ticks != [] {
      var init := ticks[..|ticks| - 1];
      MatchesCurrentEngine(config, init, teaching);
      var pa := SimulateGuarded(config, init, teaching);
      var pb := Backtester.Simulate(c, init, teaching);
      var tick := ticks[|ticks| - 1];
      StepsAgree(config, pa.state, pb.state, tick);
      var na := GuardedStep(config, pa.state, tick).next;
      var nb := Backtester.Step(c, pb.state, tick).next;
      assert MarkToMarket(na, tick.price) == MarkToMarket(nb, tick.price);
    }
  }

  /** With a positive ATR and multiplier the two engines take the same step. */
  lemma StepsCoincide(config: BacktestConfig, s: EngineState, tick: Tick)
    requires config.atrMultiplier > 0.0 && tick.atr.Some? && tick.atr.value > 0.0
    ensures GuardedStep(config, s, tick) == Backtester.Step(AsCurrent(config), s, tick)
  {
    MulPositive(config.atrMultiplier, tick.atr.value);
    assert Backtester.PositionSizeFromMode(s.equity, tick.atr, tick.price, AsCurrent(config))
           == SharesForRisk(config, s.equity, tick.atr.value);
  }

  /** When every bar has a positive ATR and the multiplier is positive, the guard never
      refuses an entry the current engine would make, so the two engines in "atr" mode run
      identically, teaching log included. */
  lemma {:induction false} SameRunWhenAtrPositive(config: BacktestConfig, ticks: seq<Tick>, teaching: bool)
    requires config.atrMultiplier > 0.0
    requires forall i :: 0 <= i < |ticks| ==> ticks[i].atr.Some? && ticks[i].atr.value > 0.0
    ensures Backtester.PricesUsable(AsCurrent(config), ticks)
    ensures var a := SimulateGuarded(config, ticks, teaching);
            var b := Backtester.Simulate(AsCurrent(config), ticks, teaching);
            a.state == b.state && a.position == b.position && a.equity == b.equity && a.log == b.log
    decreases |ticks|
  {
    var c := AsCurrent(config);
    if ticks != [] {
      var init := ticks[..|ticks| - 1];
      SameRunWhenAtrPositive(config, init, teaching);
      var pa := SimulateGuarded(config, init, teaching);
      var tick := ticks[|ticks| - 1];
      StepsCoincide(config, pa.state, tick);
    }
  }

  // ---------------------------------------------------------------------------------
  // apply_position_sizing

  /** The frame `apply_position_sizing` returns (its new columns). */
  datatype BacktestFrame = BacktestFrame(
    atr: seq<real>,
    positionDir: seq<real>,
    position: seq<real>,
    equity: seq<real>,
    returnsColumn: seq<Option<real>>,
    peakEquity: seq<real>,
    drawdown: seq<Option<real>>)

  /** The result of `apply_position_sizing` as a function of its inputs: only `ewm`'s
      rejection of a span below 1 can fail; otherwise every column has one entry per bar,
      returns start at 0 and compound to the next equity, the peak dominates the equity, and
      nothing is logged outside teaching mode. */
  function Backtest(index: seq<int>, bars: seq<Bar>, signalFinal: seq<real>, config: BacktestConfig, teaching: bool)
    : (r: Result<(BacktestFrame, seq<TradeEvent>), Backtester.BacktestError>)
    requires |index| == |bars| == |signalFinal|
    ensures r.Err? <==> config.atrWindow < 1
    ensures r.Err? ==> r.error == Backtester.InvalidAtrWindow
    ensures r.Ok? ==>
              var f := r.value.0;
              && |f.atr| == |f.positionDir| == |f.position| == |f.equity| == |f.returnsColumn| == |bars|
              && |f.peakEquity| == |f.drawdown| == |bars|
              && (bars != [] ==> f.returnsColumn[0] == Some(0.0) && f.positionDir[0] == 0.0)
              && (forall t :: 1 <= t < |bars| ==> f.returnsColumn[t] == Change(f.equity[t - 1], f.equity[t]))
              && (forall t :: 0 <= t < |bars| ==> f.equity[t] <= f.peakEquity[t])
              && (!teaching ==> r.value.1 == [])
  {
    if config.atrWindow < 1 then Err(Backtester.InvalidAtrWindow)
    else
      var rows := Backtester.Rows(index, bars, signalFinal, config.atrWindow);
      var r := SimulateGuarded(config, rows, teaching);
      assert |r.equity| == |r.position| == |bars|;
      var peak := CumMax(r.equity);
      assert forall t :: 0 <= t < |bars| ==> r.equity[t] <= peak[t];
      Ok((BacktestFrame(
            Indicators.Atr(Highs(bars), Lows(bars), Closes(bars), config.atrWindow),
            ShiftFillZero(signalFinal),
            r.position, r.equity, PctChange(r.equity), peak, Drawdown(r.equity)),
          r.log))
  }

  /** One iteration of the loop: the guarded ENTRY and the EXIT on the three mutable
      variables and the log, then the mark-to-market equity and position appends. */
  method OnBar(config: BacktestConfig, teachingMode: bool, equity0: real, sharesHeld0: real, entryPrice0: real,
               positionSize0: seq<real>, equitySeries0: seq<real>, logs0: seq<TradeEvent>, tick: Tick)
    returns (equity: real, sharesHeld: real, entryPrice: real,
             positionSize: seq<real>, equitySeries: seq<real>, logs: seq<TradeEvent>)
    ensures Run(EngineState(equity, sharesHeld, entryPrice), positionSize, equitySeries, logs)
            == ExtendGuarded(config, Run(EngineState(equity0, sharesHeld0, entryPrice0), positionSize0, equitySeries0, logs0),
                             tick, teachingMode)
  {
    ghost var tr := GuardedStep(config, EngineState(equity0, sharesHeld0, entryPrice0), tick);
    equity, sharesHeld, entryPrice, logs := equity0, sharesHeld0, entryPrice0, logs0;
    var signal := tick.signal;
    var price := tick.price;
    if sharesHeld == 0.0 {
      if signal != 0.0 && tick.atr.Some? && tick.atr.value > 0.0 {
        var riskAmount := equity * config.riskPerTrade;
        var stopDistance := config.atrMultiplier * tick.atr.value;
        if stopDistance > 0.0 {
          var shares := riskAmount / stopDistance;
          assert shares == SharesForRisk(config, equity, tick.atr.value);
          sharesHeld := signal * shares;
          entryPrice := price;
          if teachingMode {
            logs := logs + [Entry(tick.timestamp, signal, sharesHeld, price, equity)];
          }
        }
      }
    } else {
      if signal == 0.0 || (sharesHeld > 0.0 && signal < 0.0) || (sharesHeld < 0.0 && signal > 0.0) {
        var pnl := sharesHeld * (price - entryPrice);
        equity := equity + (pnl - config.commissionPerTrade);
        if teachingMode {
          logs := logs + [Exit(tick.timestamp, signal, sharesHeld, price, pnl, equity)];
        }
        sharesHeld := 0.0;
        entryPrice := 0.0;
      }
    }
    assert tr.next == EngineState(equity, sharesHeld, entryPrice) && logs == Append(logs0, teachingMode, tr.event);

    var equityMt := equity;
    if sharesHeld != 0.0 {
      equityMt := equityMt + sharesHeld * (price - entryPrice);
    }
    assert equityMt == MarkToMarket(tr.next, price);
    equitySeries := equitySeries0 + [equityMt];
    positionSize := positionSize0 + [sharesHeld];
  }

  /** The loop over the rows, shared by `trading/backtester_v1.py` and
      `trading/002backtester.py`. */
  method RunBars(index: seq<int>, dir: seq<real>, close: seq<real>, atr: seq<real>, config: BacktestConfig, teachingMode: bool)
    returns (positionSize: seq<real>, equitySeries: seq<real>, logs: seq<TradeEvent>)
    requires |index| == |dir| == |close| == |atr|
    ensures var r := SimulateGuarded(config, Backtester.Ticks(index, dir, close, atr), teachingMode);
            positionSize == r.position && equitySeries == r.equity && logs == r.log
  {
    ghost var rows := Backtester.Ticks(index, dir, close, atr);
    var equity := config.initialCapital;
    var sharesHeld := 0.0;
    var entryPrice := 0.0;
    positionSize, equitySeries, logs := [], [], [];

    var i := 0;
    while i < |close|
      invariant 0 <= i <= |close|
      invariant SimulateGuarded(config, rows[..i], teachingMode)
                == Run(EngineState(equity, sharesHeld, entryPrice), positionSize, equitySeries, logs)
    {
      var tick := Tick(index[i], dir[i], close[i], Some(atr[i]));
      assert rows[i] == tick;
      equity, sharesHeld, entryPrice, positionSize, equitySeries, logs :=
        OnBar(config, teachingMode, equity, sharesHeld, entryPrice, positionSize, equitySeries, logs, tick);
      SimulateGuardedSnoc(config, rows, teachingMode, i);
      i := i + 1;
    }
    assert rows[..|close|] == rows;
  }

  /** `apply_position_sizing` of `trading/backtester_v1.py`: the ATR and lagged-signal
      columns, the loop, then returns, running peak and drawdown. */
  method ApplyPositionSizing(index: seq<int>, bars: seq<Bar>, signalFinal: seq<real>, config: BacktestConfig, teachingMode: bool)
    returns (r: Result<(BacktestFrame, seq<TradeEvent>), Backtester.BacktestError>)
    requires |index| == |bars| == |signalFinal|
    ensures r == Backtest(index, bars, signalFinal, config, teachingMode)
  {
    if config.atrWindow < 1 {
      return Err(Backtester.InvalidAtrWindow);
    }
    var atr := Indicators.Atr(Highs(bars), Lows(bars), Closes(bars), config.atrWindow);
    var positionDir := ShiftFillZero(signalFinal);
    var positionSize, equitySeries, logs := RunBars(index, positionDir, Closes(bars), atr, config, teachingMode);
    var returnSeries := PctChange(equitySeries);
    var peakEquity := CumMax(equitySeries);
    var drawdown := Drawdown(equitySeries);
    r := Ok((BacktestFrame(atr, positionDir, positionSize, equitySeries, returnSeries, peakEquity, drawdown), logs));
  }
}

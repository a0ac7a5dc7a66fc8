/** The engine of `trading/002backtester.py`: the loop of `trading/backtester_v1.py`
    (ATR-guarded entry, exit on a zero or opposite signal, mark-to-market) followed by the
    position, equity and returns columns only, without peak or drawdown. */
module Backtester002 {
  import opened Wrappers
  import opened Frame
  import opened EngineCore
  import Indicators
  import Backtester
  import BacktesterV1

  /** The frame `apply_position_sizing` returns (its new columns). */
  datatype BacktestFrame = BacktestFrame(
    atr: seq<real>,
    positionDir: seq<real>,
    position: seq<real>,
    equity: seq<real>,
    returnsColumn: seq<Option<real>>)

  /** The result of `apply_position_sizing` as a function of its inputs: it fails only on
      an ATR window below 1; otherwise every column has one entry per bar, returns start at
      0 and compound to the next equity, and nothing is logged outside teaching mode. */
  function Backtest(index: seq<int>, bars: seq<Bar>, signalFinal: seq<real>, config: BacktesterV1.BacktestConfig, teaching: bool)
    : (r: Result<(BacktestFrame, seq<TradeEvent>), Backtester.BacktestError>)
    requires |index| == |bars| == |signalFinal|
    ensures r.Err? <==> config.atrWindow < 1
    ensures r.Err? ==> r.error == Backtester.InvalidAtrWindow
    ensures r.Ok? ==>
              var f := r.value.0;
              && |f.atr| == |f.positionDir| == |f.position| == |f.equity| == |f.returnsColumn| == |bars|
              && (bars != [] ==> f.returnsColumn[0] == Some(0.0) && f.positionDir[0] == 0.0)
              && (forall t :: 1 <= t < |bars| ==> f.returnsColumn[t] == Change(f.equity[t - 1], f.equity[t]))
              && (!teaching ==> r.value.1 == [])
  {
    if config.atrWindow < 1 then Err(Backtester.InvalidAtrWindow)
    else
      var r := BacktesterV1.SimulateGuarded(config, Backtester.Rows(index, bars, signalFinal, config.atrWindow), teaching);
      Ok((BacktestFrame(
            Indicators.Atr(Highs(bars), Lows(bars), Closes(bars), config.atrWindow),
            ShiftFillZero(signalFinal),
            r.position, r.equity, PctChange(r.equity)),
          r.log))
  }

  /** With a nonzero risk fraction the teaching log alternates ENTRY, EXIT, ... from ENTRY,
      unless some entry was made at zero equity. */
  lemma LogAlternates(index: seq<int>, bars: seq<Bar>, signalFinal: seq<real>, config: BacktesterV1.BacktestConfig)
    requires |index| == |bars| == |signalFinal| && config.atrWindow >= 1 && config.riskPerTrade != 0.0
    ensures var r := Backtest(index, bars, signalFinal, config, true);
            r.Ok? && (Alternates(r.value.1) || exists i :: 0 <= i < |r.value.1| && r.value.1[i].Entry? && r.value.1[i].equity == 0.0)
  {
    BacktesterV1.GuardedLogAlternates(config, Backtester.Rows(index, bars, signalFinal, config.atrWindow));
  }

  /** `apply_position_sizing` of `trading/002backtester.py`. */
  method ApplyPositionSizing(index: seq<int>, bars: seq<Bar>, signalFinal: seq<real>, config: BacktesterV1.BacktestConfig, teachingMode: bool)
    returns (r: Result<(BacktestFrame, seq<TradeEvent>), Backtester.BacktestError>)
    requires |index| == |bars| == |signalFinal|
    ensures r == Backtest(index, bars, signalFinal, config, teachingMode)
  {
    if config.atrWindow < 1 {
      return Err(Backtester.InvalidAtrWindow);
    }
    var atr := Indicators.Atr(Highs(bars), Lows(bars), Closes(bars), config.atrWindow);
    var positionDir := ShiftFillZero(signalFinal);
    var positionSize, equitySeries, logs := BacktesterV1.RunBars(index, positionDir, Closes(bars), atr, config, teachingMode);
    var returnSeries := PctChange(equitySeries);
    r := Ok((BacktestFrame(atr, positionDir, positionSize, equitySeries, returnSeries), logs));
  }
}

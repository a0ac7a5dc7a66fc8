# trading_framework — a Dafny model of the backtest core

This project models the single-instrument backtest engine of `trading_framework` and the
numeric and signal logic that feeds it:

- **The current engine** (`trading/backtester.py`) has two parts.
  - `position_size_from_mode` dispatches over the four sizing modes "atr", "vol", "fixed_fraction" and "kelly_fraction".
  - `apply_position_sizing` walks the bars and acts on the previous bar's signal. It threads the realised equity, the signed share count and the entry price through an ENTRY / EXIT / hold state machine. On each bar it emits the mark-to-market equity, the position, the exposure and the trade equity. In teaching mode it also writes an ENTRY/EXIT log. After the loop come returns, running peak, drawdown, and the depth and date of the worst drawdown.
- **The two earlier engines** (`trading/backtester_v1.py`, `trading/002backtester.py`) run the same loop as each other. Sizing is ATR-only. An entry is refused unless the ATR is defined and positive and the stop distance is positive.
- **The indicators** (`trading/indicators.py`):
  - rolling mean;
  - span exponential mean (α = 2/(n+1), seeded by the first value);
  - RSI from span-smoothed gains and losses;
  - ATR as the span mean of the true range.
- **The signal rules** (`trading/strategies.py`): trend filter, trend pullback, mean reversion, and the 3/5-bar crossover with two-bar smoothing.
- **The summary metrics** (`trading/metrics.py`): `max_drawdown` in full. Of `sharpe_ratio` and `cagr`, the guards and branches are modelled, while the square root and the power stay symbolic.
- **The loader's column handling** (`trading/data_loader.py`):
  - lower-casing the header;
  - choosing the timestamp column;
  - renaming the one-letter aliases;
  - the required-column check;
  - the per-bucket OHLCV fold of `resample_ohlcv`.

## How the model is built

All prices and amounts are `real`. A pandas NaN, and an infinity from a division by zero, is `Option.None`. An exception is the `Err` case of a `Result`.

Each engine is modelled twice:

- **As a pure fold.** `Simulate` / `SimulateGuarded` run the rows one at a time through `Step` / `GuardedStep`, the ENTRY, EXIT and hold branches. The properties of a run are proved as lemmas about this fold:
  - the per-bar column facts;
  - the ledger discipline of the teaching log;
  - equity balancing against the logged P&L;
  - alternation of the log;
  - drawdown bounds;
  - agreement between the engines.
- **As the source's imperative loop.** `RunBars` runs a `while` loop over the rows with local variables `equity`, `sharesHeld` and `entryPrice` and the appended columns. Each iteration is `OnBar`: `Trade` runs the source's own ENTRY and EXIT branches, then the bar's values are appended to the columns. The loop invariant says the locals equal the fold over the rows seen so far. `ApplyPositionSizing` is proved equal to `Backtest`, the function form of the whole call.

The v1 and 002 loops are textually the same, so `BacktesterV1.RunBars` serves both files. `BacktesterV1.MatchesCurrentEngine` and `BacktesterV1.SameRunWhenAtrPositive` relate the guarded loop to the current engine in "atr" mode.

### Behaviour worth knowing

- **Unknown sizing mode.** `position_size_from_mode` returns size 0 for a mode it does not know (`trading/backtester.py:37`). The engine then logs a zero-share ENTRY and stays flat.
- **Trade equity.** The comment at `trading/backtester.py:103` speaks of exits only, but line 104 fills the column on every flat bar, whether or not a position was just closed.
- **Undefined ATR in the current engine.** When the ATR is undefined or the stop is not positive, the current engine still takes the ENTRY branch, with size 0 (`trading/backtester.py:26,62-75`). It logs an ENTRY and stays flat. Only the two earlier engines skip the entry (`trading/backtester_v1.py:47-52`).
- **Empty time buckets.** `resample_ohlcv` applies `ohlcv` to every bucket of the rule, empty ones included, and `group["open"].iloc[0]` raises `IndexError` on an empty one (`trading/data_loader.py:58,65`). A gap in the timestamps as wide as the rule therefore makes the call fail. The `dropna()` never sees a row from an empty bucket, and with total reals it removes nothing.
- **The `years <= 0` guard of `cagr`.** It is taken only for a negative `periods_per_year`. For a positive count it is never reached (`Metrics.CagrYearsGuardUnreachable`). A zero count raises `ZeroDivisionError` in the division `len / periods_per_year`.

## Model

| member | source | states |
|---|---|---|
| Frame.Sign | trading/backtester.py:101 | exposure is 1, -1 or 0 exactly when the position is positive, negative or zero |
| Frame.ShiftFillZero | trading/backtester.py:43 | `shift(1).fillna(0)`: the first bar sees 0, bar t sees the input of bar t-1 |
| Frame.Change | trading/backtester.py:108 | one `pct_change` step: a nonzero previous value compounds to the current one; from 0 it is undefined unless the current value is also 0, when `fillna` makes it 0 |
| Frame.PctChange | trading/backtester.py:108 | one return per bar, 0 on the first bar, then the change from the previous equity |
| Frame.CompoundStep | trading/backtester.py:108 | (proof helper) `prev * (1 + (cur/prev - 1)) == cur`: returns compound back to the equity |
| Frame.CumMax | trading/backtester.py:113 | the running peak dominates every earlier value and is one of them |
| Frame.Drawdown | trading/backtester.py:114 | one drawdown per bar, `(equity - peak)/peak` against the running peak |
| Frame.DrawdownBounds | trading/backtester.py:114 | with a positive peak the drawdown is defined and at most 0, is 0 exactly at the peak, and is at least -1 for non-negative equity |
| Frame.DrawdownOfPositiveStart | trading/backtester.py:113-116 | a curve that starts positive has every drawdown defined, at most 0 and 0 exactly at a new peak; its minimum is defined and at most 0 |
| Frame.MinSkipNa | trading/backtester.py:116 | `min()` skipping NaN: undefined exactly when all entries are, otherwise the least defined entry |
| Frame.IdxMinSkipNa | trading/backtester.py:117 | `idxmin()`: the first position holding the NaN-skipping minimum, defined exactly when the minimum is |
| Indicators.Sma | trading/indicators.py:4-5 | one value per bar, undefined exactly on the first `window - 1` bars |
| Indicators.SmaWithinWindowRange | trading/indicators.py:4-5 | a defined rolling mean lies between any bounds of its window's values |
| Indicators.Alpha | trading/indicators.py:7-8 | the span smoothing factor lies in (0, 1] |
| Indicators.Ema | trading/indicators.py:7-8 | one value per bar, seeded by the first input |
| Indicators.EmaRecurrence | trading/indicators.py:7-8 | `ema[t] = α·x[t] + (1-α)·ema[t-1]` for every later bar |
| Indicators.EmaLast | trading/indicators.py:7-8 | (proof helper) the recurrence at the last bar |
| Indicators.EmaPrefix | trading/indicators.py:7-8 | the mean is causal: the first k values depend only on the first k inputs |
| Indicators.EmaAtLeast | trading/indicators.py:7-8 | `ema[t]` is at least any lower bound of `x[0..t]` |
| Indicators.EmaAtMost | trading/indicators.py:7-8 | `ema[t]` is at most any upper bound of `x[0..t]` |
| Indicators.EmaOfConstant | trading/indicators.py:7-8 | a constant series has that constant as its exponential mean |
| Indicators.EmaPositiveAt | trading/indicators.py:7-8 | over non-negative inputs the mean is positive on a bar whose input is positive |
| Indicators.Gains | trading/indicators.py:11-12 | the clipped upward changes, never negative |
| Indicators.Losses | trading/indicators.py:11-13 | the clipped downward changes as positive amounts, never negative |
| Indicators.Rsi | trading/indicators.py:10-20 | one value per bar, undefined on bar 0 |
| Indicators.RsiFromRange | trading/indicators.py:18-19 | with a positive smoothed loss RSI is defined and in [0, 100) |
| Indicators.RsiRange | trading/indicators.py:10-20 | after bar 0, RSI is undefined exactly where the smoothed loss is 0, otherwise in [0, 100) |
| Indicators.RsiUndefinedWithoutLosses | trading/indicators.py:10-20 | while the price has never fallen, RSI stays undefined |
| Indicators.RsiDefinedAfterFall | trading/indicators.py:10-20 | RSI is defined on any bar where the price fell |
| Indicators.TrueRange | trading/indicators.py:22-29 | `high - low` on bar 0; afterwards the largest of `high - low`, `|high - prev close|` and `|low - prev close|` |
| Indicators.Atr | trading/indicators.py:22-30 | one value per bar, `atr[0] = high[0] - low[0]` |
| Indicators.AtrNonNegative | trading/indicators.py:22-30 | ATR is never negative when the first bar has `high >= low` |
| Strategies.TrendOf | trading/strategies.py:9-11 | trend is 1 iff fast > slow, -1 iff fast < slow, 0 on a tie |
| Strategies.AddTrendFilter | trading/strategies.py:4-13 | the two exponential means of the close, and a trend in {-1, 0, 1} that is 1 / -1 exactly when fast is above / below slow |
| Strategies.FlatCloseHasNoTrend | trading/strategies.py:4-13 | a constant close has trend 0 on every bar, whatever the windows |
| Strategies.PullbackSignal | trading/strategies.py:25-31 | long exactly on up-trend, close ≤ ema and rsi < buy; short exactly on down-trend, close ≥ ema and rsi > sell; else 0 |
| Strategies.TrendPullbackStrategy | trading/strategies.py:15-33 | the ema and rsi columns, and a signal in {-1, 0, 1} with both iffs on every bar, 0 where rsi is undefined and on bar 0 |
| Strategies.ReversionSignal | trading/strategies.py:45-46 | short exactly when rsi > high; long exactly when rsi < low and the short write does not override it; 0 when rsi is undefined |
| Strategies.MeanReversionStrategy | trading/strategies.py:35-48 | the rsi column and the per-bar reversion signal in {-1, 0, 1}, 0 on bar 0 |
| Strategies.ReversionLongExactly | trading/strategies.py:45-46 | with `low <= high` the long signal is exactly "rsi below low" |
| Strategies.RoundHalfEven | trading/strategies.py:63 | `round()` lands within 0.5 of its argument, and on ties on the even integer |
| Strategies.CrossSignal | trading/strategies.py:58-60 | raw crossover signal: 1 / -1 exactly when both means are defined and fast is above / below slow |
| Strategies.HybridSwingStrategy | trading/strategies.py:50-65 | 3- and 5-bar means, the raw crossover signal with both iffs, and the smoothed final signal |
| Strategies.Smooth | trading/strategies.py:63 | the smoothed column has one value per bar and is 0 on bar 0 |
| Strategies.RoundedPairMean | trading/strategies.py:63 | the rounded mean of two signals is their common value when equal and 0 when they differ |
| Strategies.SmoothingRule | trading/strategies.py:63 | from bar 1 on, the final signal is the raw signal when it repeats the previous one, else 0 |
| Strategies.QuietStart | trading/strategies.py:54-63 | the raw signal is 0 on the first four bars and the final signal on the first five |
| Strategies.SwingFinalIsSignal | trading/strategies.py:63 | every final signal is -1, 0 or 1 |
| EngineCore.Enter | trading/backtester.py:62-75 | the ENTRY branch: logs an ENTRY at the current equity, holds `signal * shares`, and leaves the mark-to-market equity at the close where it was |
| EngineCore.Close | trading/backtester.py:78-94 | the EXIT branch: goes flat, realises the mark-to-market equity less the commission, and logs an EXIT at that equity |
| EngineCore.Hold | trading/backtester.py:61-94 | when neither branch is taken, the state is kept and nothing is logged |
| EngineCore.MarkToMarket | trading/backtester.py:97 | realised equity plus the open position's gain since entry; the realised equity when flat |
| EngineCore.Append | trading/backtester.py:67-91 | the log grows by exactly the event, at its end, when teaching mode is on and the bar has an event; otherwise it is unchanged |
| EngineCore.LedgerAfterEnter | trading/backtester.py:62-75 | an ENTRY from flat keeps the ledger discipline and the log's agreement with the state |
| EngineCore.LedgerAfterClose | trading/backtester.py:78-94 | an EXIT from a held position keeps the ledger discipline and the agreement |
| EngineCore.LedgerAlternates | trading/backtester.py:62-94 | a ledger whose entries all open a nonzero position alternates ENTRY, EXIT, ... from ENTRY |
| EngineCore.LedgerBalances | trading/backtester.py:79-90 | the last logged equity is the initial capital plus the net P&L of all EXIT records |
| Backtester.PositionSizeFromMode | trading/backtester.py:21-37 | "atr": one stop distance of loss costs `equity*risk`, size 0 when the stop is not positive; "vol", "fixed_fraction", "kelly_fraction" size to their formulas; any other mode 0 |
| Backtester.SizeNonNegative | trading/backtester.py:21-37 | non-negative equity and parameters and a positive close never give a negative size |
| Backtester.Step | trading/backtester.py:61-94 | one bar's branches leave the book at the close unchanged except for the commission of an EXIT |
| Backtester.StepFacts | trading/backtester.py:61-94 | ENTRY iff flat with a nonzero signal (even at size 0); EXIT iff holding with a 0 or opposite signal, realising `shares*(price-entry) - commission` and going flat; otherwise nothing changes; realised equity moves only on EXIT |
| Backtester.Simulate | trading/backtester.py:56-104 | one entry per bar in every column; no log without teaching mode |
| Backtester.Extend | trading/backtester.py:56-104 | one pass of the loop body: the state steps, and each column gains the entry the new state reports (mark-to-market equity, shares, their sign, trade equity exactly when flat); the log only grows |
| Backtester.SimulateSnoc | trading/backtester.py:56-104 | (proof helper) running one more row is one more pass of the loop body |
| Backtester.SimulateColumns | trading/backtester.py:97-104 | exposure is the sign of the position; trade equity is defined exactly on flat bars, where it equals the equity; the last position is the final share count |
| Backtester.SimulatePrefix | trading/backtester.py:56-104 | no bar's output depends on later bars; the log of a prefix is a prefix of the log |
| Backtester.ExtendKeepsEarlierBars | trading/backtester.py:99-104 | (proof helper) appending a bar leaves the earlier entries of every column unchanged |
| Backtester.SimulateKeepsEarlierBars | trading/backtester.py:56-104 | (proof helper) one more row leaves the earlier entries of every column unchanged and extends the log |
| Backtester.ExtendKeepsColumnsAgreeing | trading/backtester.py:97-104 | (proof helper) one more pass keeps exposure, trade equity and position in agreement |
| Backtester.SimulateKeepsLedger | trading/backtester.py:61-94 | the teaching log obeys the ledger discipline and agrees with the final state |
| Backtester.RealisedEquityBalances | trading/backtester.py:79-80 | final realised equity is the initial capital plus the net P&L of the logged exits |
| Backtester.LogAlternatesWithoutEmptyEntries | trading/backtester.py:62-94 | the log alternates ENTRY, EXIT, ... whenever no ENTRY has zero shares |
| Backtester.RepeatedEntryExample | trading/backtester.py:62-75 | with zero risk the log holds two ENTRY records in a row |
| Backtester.FirstBarIsFlat | trading/backtester.py:43-104 | bar 0 sees signal 0: equity is the initial capital, flat, exposure 0, trade equity defined, nothing logged |
| Backtester.DrawdownNonPositive | trading/backtester.py:113-116 | with positive capital every drawdown is defined, at most 0 and 0 exactly at a new peak; the worst is defined and at most 0 |
| Backtester.Ticks | trading/backtester.py:56-59 | the rows the loop reads, bar by bar |
| Backtester.Rows | trading/backtester.py:42-43 | one row per bar, and the first row's signal is 0 |
| Backtester.Backtest | trading/backtester.py:40-119 | fails exactly for an ATR window below 1 or an empty frame; otherwise the direction column is the shifted signal, equity, position, returns and exposure have one entry per bar, and the peak and drawdown columns are the running maximum of the equity and the drawdown from it |
| Backtester.BacktestShape | trading/backtester.py:40-119 | errors exactly for window < 1 or an empty frame; otherwise (`FrameShaped`) per-bar columns, bar 0 flat at the initial capital with return 0, compounding returns, exposure = sign(position), peak = running maximum of the equity and drawdown measured from it, worst drawdown and its date defined for positive capital; no log without teaching |
| Backtester.Trade | trading/backtester.py:61-94 | the ENTRY / EXIT branches on the three mutable variables and the log do what one `Step` does |
| Backtester.OnBar | trading/backtester.py:56-104 | one loop iteration on the mutable variables and the appended columns equals one step of the fold |
| Backtester.RunBars | trading/backtester.py:56-104 | the loop produces the fold's equity, position, exposure, trade-equity columns and log |
| Backtester.ApplyPositionSizing | trading/backtester.py:40-119 | the whole call returns what `Backtest` describes |
| BacktesterV1.AsCurrent | trading/backtester_v1.py:11-16 | the earlier configuration read as the current one with "atr" sizing |
| BacktesterV1.CanEnter | trading/backtester_v1.py:47-52 | the entry guard; when it holds the engine is flat, the signal is nonzero and the ATR multiplier is positive |
| BacktesterV1.SharesForRisk | trading/backtester_v1.py:49-53 | `shares * stop_distance == equity * risk`; zero shares exactly when the risk budget is 0 |
| BacktesterV1.GuardedStep | trading/backtester_v1.py:46-85 | one bar's branches leave the book at the close unchanged except for the commission of an EXIT |
| BacktesterV1.GuardedStepFacts | trading/backtester_v1.py:46-85 | ENTRY iff flat, nonzero signal, ATR defined and positive, stop positive, at `signal*risk/stop` and the close; EXIT iff holding with a 0 or opposite signal, realising P&L net of commission; otherwise unchanged; equity moves only on EXIT |
| BacktesterV1.SimulateGuarded | trading/backtester_v1.py:41-93 | one position and one equity per bar; no log without teaching mode |
| BacktesterV1.ExtendGuarded | trading/backtester_v1.py:41-93 | one pass of the loop body: the state takes a guarded step, position and equity gain the new share count and mark-to-market equity, the log only grows |
| BacktesterV1.SimulateGuardedSnoc | trading/backtester_v1.py:41-93 | (proof helper) running one more row is one more pass of the loop body |
| BacktesterV1.OutputsFollowState | trading/backtester_v1.py:87-93 | each bar outputs the share count and the mark-to-market equity, which is the realised equity on a flat bar |
| BacktesterV1.GuardedKeepsLedger | trading/backtester_v1.py:46-85 | the teaching log obeys the ledger discipline and agrees with the final state |
| BacktesterV1.EntriesSizedByRisk | trading/backtester_v1.py:49-54 | with nonzero risk, a logged ENTRY has zero shares exactly when its equity is 0 |
| BacktesterV1.GuardedLogAlternates | trading/backtester_v1.py:47-85 | with nonzero risk the log alternates ENTRY, EXIT, ... from ENTRY unless some entry was made at zero equity |
| BacktesterV1.GuardedDrawdownNonPositive | trading/backtester_v1.py:103-104 | with positive capital, peak ≥ equity and the drawdown is defined and at most 0 on every bar |
| BacktesterV1.StepsAgree | trading/backtester_v1.py:46-85 | one guarded step and one current-engine "atr" step keep the same book |
| BacktesterV1.MatchesCurrentEngine | trading/backtester_v1.py:41-93 | with a non-negative multiplier, position and equity columns equal the current engine's in "atr" mode |
| BacktesterV1.StepsCoincide | trading/backtester_v1.py:47-65 | with a positive ATR and multiplier, the guarded and current steps are identical |
| BacktesterV1.SameRunWhenAtrPositive | trading/backtester_v1.py:41-93 | with ATR and multiplier positive on every bar, the two engines run identically, log included |
| BacktesterV1.Backtest | trading/backtester_v1.py:19-106 | fails exactly for window < 1; per-bar columns, return 0 then compounding, peak ≥ equity, no log without teaching |
| BacktesterV1.OnBar | trading/backtester_v1.py:41-93 | one loop iteration equals one step of the guarded fold |
| BacktesterV1.RunBars | trading/backtester_v1.py:41-93 | the loop produces the fold's position and equity columns and log |
| BacktesterV1.ApplyPositionSizing | trading/backtester_v1.py:19-106 | the whole call returns what `Backtest` describes |
| Backtester002.Backtest | trading/002backtester.py:18-90 | fails exactly for window < 1; per-bar columns, lagged signal 0 on bar 0, return 0 then compounding, no log without teaching |
| Backtester002.LogAlternates | trading/002backtester.py:41-77 | with nonzero risk the log alternates from ENTRY unless some entry was made at zero equity |
| Backtester002.ApplyPositionSizing | trading/002backtester.py:18-90 | the whole call returns what `Backtest` describes |
| Metrics.RatioDrawdown | trading/metrics.py:25-26 | one `equity/runmax - 1` per bar |
| Metrics.RatioFormsAgree | trading/metrics.py:26 | `e/p - 1` and `(e - p)/p` agree, both undefined at a zero peak |
| Metrics.MaxDrawdown | trading/metrics.py:21-27 | `max_drawdown` is the minimum of the engine's drawdown column on the same curve |
| Metrics.MaxDrawdownNonPositive | trading/metrics.py:21-27 | defined and at most 0 for a curve that starts positive |
| Metrics.MaxDrawdownAtLeastMinusOne | trading/metrics.py:21-27 | at least -1 while the curve stays non-negative |
| Metrics.NoDrawdownIffNonDecreasing | trading/metrics.py:25-27 | for a curve that starts positive, 0 exactly when the curve never falls |
| Metrics.EngineMaxDrawdownIsMetric | trading/metrics.py:21-27 | the engine's stored worst drawdown is `max_drawdown` of its equity |
| Metrics.SquaredDeviationsZero | trading/metrics.py:14 | (proof helper) a sum of squared deviations is non-negative and 0 exactly when every value equals the centre |
| Metrics.VarianceZeroIffConstant | trading/metrics.py:14-15 | `std() == 0` exactly when all returns are equal |
| Metrics.SumShifted | trading/metrics.py:17 | (proof helper) subtracting a rate from every return lowers the sum by n times that rate |
| Metrics.SquaredDeviationsShifted | trading/metrics.py:17-18 | shifting values and centre together keeps the squared deviations |
| Metrics.ExcessMoments | trading/metrics.py:17-18 | excess returns have the mean lowered by the per-period rate and the same variance |
| Metrics.Sharpe | trading/metrics.py:6-18 | 0 exactly for two or more equal returns; `ZeroDivisionError` exactly for zero periods otherwise; NaN for fewer than two returns or negative periods; otherwise a ratio with positive variance and the excess mean |
| Metrics.Cagr | trading/metrics.py:30-44 | 0 exactly for fewer than two points or negative periods; error for zero periods; otherwise positive years with `years * periods == len` and the total return `last/first`, undefined when first is 0 |
| Metrics.CagrYearsGuardUnreachable | trading/metrics.py:41-43 | with positive periods and two or more points the `years <= 0` guard is never taken |
| DataLoader.LowerChar | trading/data_loader.py:13 | lower-cases a letter by 32 code points and keeps every other character |
| DataLoader.Lower | trading/data_loader.py:13 | same length, no upper-case letter left, other characters kept in place |
| DataLoader.LowerIdempotent | trading/data_loader.py:13 | a lower-case name is unchanged; lower-casing twice is lower-casing once |
| DataLoader.LowerAll | trading/data_loader.py:13 | every header name lower-cased, in place |
| DataLoader.Rename | trading/data_loader.py:27-40 | an alias becomes a price name; any other name is kept |
| DataLoader.RenameFacts | trading/data_loader.py:27-40 | aliases become price names, other names are kept, renaming is idempotent and keeps lower case |
| DataLoader.RenameAll | trading/data_loader.py:40 | every column renamed in place |
| DataLoader.WithoutTimestamp | trading/data_loader.py:24 | `set_index` removes exactly the timestamp name from the columns |
| DataLoader.FirstMissing | trading/data_loader.py:43-46 | none missing exactly when all required names are present; otherwise the first absent one in check order |
| DataLoader.TimestampChoice | trading/data_loader.py:16-21 | the index comes from "timestamp" if present, else "date"; with neither, `KeyError` |
| DataLoader.NormalisedColumns | trading/data_loader.py:13-40 | a column survives exactly when a header name lower-cases and renames to it; all are lower case and none is an alias |
| DataLoader.LoadColumns | trading/data_loader.py:13-46 | `KeyError` for the timestamp exactly when neither "timestamp" nor "date" is a lower-cased header; on success every required column is present; a reported missing column is one of open, high, low, close |
| DataLoader.LoadSucceedsIff | trading/data_loader.py:13-46 | loading succeeds exactly with a timestamp or date column and open, high, low, close provided; volume is optional |
| DataLoader.MissingColumnReported | trading/data_loader.py:43-46 | the reported column is the first of open, high, low, close that no header name provides |
| DataLoader.HighestHigh | trading/data_loader.py:59 | the bucket high dominates every high and is one of them |
| DataLoader.LowestLow | trading/data_loader.py:60 | the bucket low is below every low and is one of them |
| DataLoader.AggregateBucket | trading/data_loader.py:56-63 | defined exactly for a non-empty bucket (on an empty one `iloc[0]` raises): open first, high max, low min, close last, volume sum |
| DataLoader.AggregateConsistent | trading/data_loader.py:58-61 | bars whose open and close lie between their low and high aggregate to such a bar |
| DataLoader.TotalVolumeAppend | trading/data_loader.py:62 | the volume of two runs is the sum of their volumes |
| DataLoader.Resample | trading/data_loader.py:56-65 | raises exactly when some bucket is empty; otherwise one bar per bucket, the bucket's aggregate, in bucket order |
| DataLoader.ResampleOne | trading/data_loader.py:56-65 | one bucket gives its aggregate, and raises when it is empty |
| DataLoader.ResampleConcat | trading/data_loader.py:65 | resampling works bucket by bucket in order: two runs of buckets succeed together exactly when each does, and the bars are those of each run, concatenated |
| DataLoader.ResampleStep | trading/data_loader.py:65 | (proof helper) one more bucket: some bucket is empty exactly when the first or a later one is, and otherwise its aggregate comes first |
| DataLoader.ResampleConsistent | trading/data_loader.py:56-65 | every resampled bar is consistent when the bars of its bucket are |

## Left out

- Reading files, `read_csv`, datetime parsing, `sort_index`, and cutting rows into time buckets are I/O or library work. `DataLoader.Resample` takes the buckets as given, and the index is an integer label per row.
- IEEE floating point is not modelled: rounding, and the difference between NaN, +inf and -inf. A division by a zero peak or zero equity is simply undefined (`None`).
- NaN inside the input columns (close, high, low, signal) is not modelled; those columns are total reals.
- `Backtester.PositionSizeFromMode`: for "vol", "fixed_fraction" and "kelly_fraction" it requires a nonzero close. The source's float division would give an infinity or NaN there.
- `Indicators.Sma`, `Indicators.Ema`, `Indicators.Rsi`, `Indicators.Atr`: a window below 1 is excluded by the requires. `ewm` raises for a span below 1, and `rolling(0)` yields only undefined means; no caller in the core passes such a window, and the engines turn an ATR window below 1 into the `InvalidAtrWindow` error.
- `Strategies.AddTrendFilter`, `Strategies.TrendPullbackStrategy`, `Strategies.MeanReversionStrategy`: their windows must be at least 1, for the same reason as the indicators they call.
- `Metrics.Sharpe`: the value `sqrt(periods_per_year) * mean / std` is returned as its operands. The square root is kept symbolic.
- `Metrics.Cagr`: the value `total_return ** (1 / years) - 1` is returned as its operands. The power is kept symbolic.
- `DataLoader.Lower`: only ASCII letters are lower-cased. Python's Unicode case mapping is not modelled.
- Duplicate column names, and the columns the engines and strategies copy through unchanged (`df.copy()`), are not modelled.
- `resample_ohlcv` needs a volume column; a frame without one fails in pandas. Bars in this model always carry a volume.
- The console formatting of the teaching log, the plotting and report modules, the portfolio averaging, and the entry scripts are outside the core.

/** What the three backtest engines (trading/backtester.py, trading/backtester_v1.py and
    trading/002backtester.py) share: the row the loop reads, the three loop variables
    (realised equity, signed share count, entry price), the ENTRY and EXIT branches, the
    mark-to-market value, and the teaching log with the ledger discipline it follows. */
module EngineCore {
  import opened Wrappers

  /** One row as the loop reads it: the index label, the lagged signal (`position_dir`),
      the close and the ATR value (None for NaN). */
  datatype Tick = Tick(timestamp: int, signal: real, price: real, atr: Option<real>)

  /** The loop variables `equity`, `shares_held` and `entry_price`. */
  datatype EngineState = EngineState(equity: real, sharesHeld: real, entryPrice: real)

  /** One teaching-log record. */
  datatype TradeEvent =
    | Entry(timestamp: int, signal: real, shares: real, price: real, equity: real)
    | Exit(timestamp: int, signal: real, shares: real, price: real, pnl: real, equity: real)

  datatype Transition = Transition(next: EngineState, event: Option<TradeEvent>)

  /** The state before the first bar. */
  function Start(initialCapital: real): EngineState
  {
    EngineState(initialCapital, 0.0, 0.0)
  }

  /** The exit test: a zero signal, or one opposite to the held direction. */
  predicate ExitSignal(sharesHeld: real, signal: real)
  {
    signal == 0.0 || (sharesHeld > 0.0 && signal < 0.0) || (sharesHeld < 0.0 && signal > 0.0)
  }

  /** The ENTRY branch: `shares_held = signal * shares`, `entry_price = price`, and the log
      record carries the pre-trade equity. */
  function Enter(s: EngineState, tick: Tick, shares: real): (r: Transition)
    ensures r.event.Some? && r.event.value.Entry? && r.event.value.equity == s.equity
    ensures r.next.equity == s.equity && r.next.sharesHeld == tick.signal * shares
    ensures MarkToMarket(r.next, tick.price) == s.equity
  {
    var held := tick.signal * shares;
    Transition(EngineState(s.equity, held, tick.price),
               Some(Entry(tick.timestamp, tick.signal, held, tick.price, s.equity)))
  }

  /** The EXIT branch: realise `shares_held * (price - entry_price)`, pay the commission,
      log the post-trade equity, and go flat. */
  function Close(s: EngineState, tick: Tick, commission: real): (r: Transition)
    ensures r.event.Some? && r.event.value.Exit? && r.event.value.equity == r.next.equity
    ensures r.next.sharesHeld == 0.0
    ensures r.next.equity == MarkToMarket(s, tick.price) - commission
  {
    var pnl := s.sharesHeld * (tick.price - s.entryPrice);
    var equity := s.equity + (pnl - commission);
    Transition(EngineState(equity, 0.0, 0.0),
               Some(Exit(tick.timestamp, tick.signal, s.sharesHeld, tick.price, pnl, equity)))
  }

  /** Neither branch: the state is kept and nothing is logged. */
  function Hold(s: EngineState): (r: Transition)
    ensures r.event.None? && r.next == s
  {
    Transition(s, None)
  }

  /** Mark-to-market equity: realised equity plus the open position's unrealised P&L. */
  function MarkToMarket(s: EngineState, price: real): (r: real)
    ensures r == s.equity + s.sharesHeld * (price - s.entryPrice)
    ensures s.sharesHeld == 0.0 ==> r == s.equity
  {
    s.equity + (if s.sharesHeld != 0.0 then s.sharesHeld * (price - s.entryPrice) else 0.0)
  }

  /** The log only grows when teaching mode is on. */
  function Append(log: seq<TradeEvent>, teaching: bool, event: Option<TradeEvent>): (r: seq<TradeEvent>)
    ensures log <= r
    ensures |r| == |log| + 1 <==> teaching && event.Some?
    ensures |r| != |log| + 1 ==> r == log
    ensures |r| == |log| + 1 ==> r[|log|] == event.value
  {
    if teaching && event.Some? then log + [event.value] else log
  }

  /** Whether record `e` may follow the teaching log `log`: the first record is an ENTRY
      made at the initial capital; an EXIT closes the nonzero position opened by the ENTRY
      just before it, with pnl = shares * (exit price - entry price) and equity moved by pnl
      minus the commission; an ENTRY follows an EXIT or an ENTRY of zero shares, at
      unchanged equity. */
  ghost predicate Fits(log: seq<TradeEvent>, e: TradeEvent, initialCapital: real, commission: real)
  {
    if log == [] then e.Entry? && e.equity == initialCapital
    else
      var p := log[|log| - 1];
      if e.Exit? then
        && p.Entry? && p.shares != 0.0 && e.shares == p.shares
        && e.pnl == e.shares * (e.price - p.price)
        && e.equity == p.equity + (e.pnl - commission)
      else
        (p.Entry? ==> p.shares == 0.0) && e.equity == p.equity
  }

  /** The ledger discipline of a teaching log: every record fits after the ones before it. */
  ghost predicate Ledger(log: seq<TradeEvent>, initialCapital: real, commission: real)
    decreases |log|
  {
    log == [] ||
    (Ledger(log[..|log| - 1], initialCapital, commission)
     && Fits(log[..|log| - 1], log[|log| - 1], initialCapital, commission))
  }

  /** The equity the log last reports (the initial capital for an empty log). */
  function LoggedEquity(log: seq<TradeEvent>, initialCapital: real): real
  {
    if log == [] then initialCapital else log[|log| - 1].equity
  }

  /** How the engine state after a run agrees with the teaching log it wrote. */
  ghost predicate AgreesWithLog(s: EngineState, log: seq<TradeEvent>, initialCapital: real)
  {
    && s.equity == LoggedEquity(log, initialCapital)
    && (log == [] ==> s.sharesHeld == 0.0)
    && (log != [] && log[|log| - 1].Exit? ==> s.sharesHeld == 0.0)
    && (log != [] && log[|log| - 1].Entry? ==>
          s.sharesHeld == log[|log| - 1].shares
          && (s.sharesHeld != 0.0 ==> s.entryPrice == log[|log| - 1].price))
  }

  lemma LedgerAppend(log: seq<TradeEvent>, e: TradeEvent, initialCapital: real, commission: real)
    requires Ledger(log, initialCapital, commission) && Fits(log, e, initialCapital, commission)
    ensures Ledger(log + [e], initialCapital, commission)
  {
    assert (log + [e])[..|log|] == log;
  }

  /** An ENTRY from a flat state keeps the ledger and the agreement. */
  lemma LedgerAfterEnter(log: seq<TradeEvent>, s: EngineState, tick: Tick, shares: real, initialCapital: real, commission: real)
    requires Ledger(log, initialCapital, commission) && AgreesWithLog(s, log, initialCapital)
    requires s.sharesHeld == 0.0
    ensures Ledger(log + [Enter(s, tick, shares).event.value], initialCapital, commission)
    ensures AgreesWithLog(Enter(s, tick, shares).next, log + [Enter(s, tick, shares).event.value], initialCapital)
  {
    var e := Enter(s, tick, shares).event.value;
    LedgerAppend(log, e, initialCapital, commission);
  }

  /** An EXIT from a held position keeps the ledger and the agreement. */
  lemma LedgerAfterClose(log: seq<TradeEvent>, s: EngineState, tick: Tick, initialCapital: real, commission: real)
    requires Ledger(log, initialCapital, commission) && AgreesWithLog(s, log, initialCapital)
    requires s.sharesHeld != 0.0
    ensures Ledger(log + [Close(s, tick, commission).event.value], initialCapital, commission)
    ensures AgreesWithLog(Close(s, tick, commission).next, log + [Close(s, tick, commission).event.value], initialCapital)
  {
    var e := Close(s, tick, commission).event.value;
    LedgerAppend(log, e, initialCapital, commission);
  }

  /** Strict alternation ENTRY, EXIT, ENTRY, ... starting with ENTRY. */
  ghost predicate Alternates(log: seq<TradeEvent>)
  {
    forall i :: 0 <= i < |log| ==> (log[i].Entry? <==> i % 2 == 0)
  }

  /** A ledger whose ENTRY records all open a nonzero position alternates strictly. */
  lemma {:induction false} LedgerAlternates(log: seq<TradeEvent>, initialCapital: real, commission: real)
    requires Ledger(log, initialCapital, commission)
    requires forall i :: 0 <= i < |log| && log[i].Entry? ==> log[i].shares != 0.0
    ensures Alternates(log)
    decreases |log|
  {
    if log != [] {
      var p := log[..|log| - 1];
      assert forall i :: 0 <= i < |p| ==> p[i] == log[i];
      LedgerAlternates(p, initialCapital, commission);
      if |p| > 0 && log[|log| - 1].Entry? {
        assert p[|p| - 1].Exit?;
      }
    }
  }

  /** Realised P&L net of commissions, summed over the EXIT records. */
  function NetRealised(log: seq<TradeEvent>, commission: real): real
    decreases |log|
  {
    if log == [] then 0.0
    else
      var last := log[|log| - 1];
      NetRealised(log[..|log| - 1], commission) + (if last.Exit? then last.pnl - commission else 0.0)
  }

  /** The equity a ledger last reports is the initial capital plus the net realised P&L of
      its EXIT records. */
  lemma {:induction false} LedgerBalances(log: seq<TradeEvent>, initialCapital: real, commission: real)
    requires Ledger(log, initialCapital, commission)
    ensures LoggedEquity(log, initialCapital) == initialCapital + NetRealised(log, commission)
    decreases |log|
  {
    if log != [] {
      var p := log[..|log| - 1];
      LedgerBalances(p, initialCapital, commission);
    }
  }
}

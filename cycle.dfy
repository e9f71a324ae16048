/** One pass of the main loop, from the trading-window check to the
    break-even pass, as a step from what the terminal and the clock report
    to what the bot sends back. The loop, its sleeps and its retries are
    not modelled; how a cycle ends says which of them follows. */
module Cycle {
  import opened Outcomes
  import opened Config
  import opened Signals
  import opened Gates
  import opened BreakEven
  import opened Trade

  /** What one cycle reads from its collaborators:
      - `now`: the local time of day in the configured time zone;
      - `account`: the balance of `account_info()`, or None when that fails;
      - `newsClear`: what `check_major_news_events` answered;
      - `rates`: the closes `get_rates` fetched, empty when it fetched nothing;
      - `fast`, `slow`: the 50- and 200-bar averages over those closes, which
        have one value per bar and start at the first close;
      - `openPositions`: the number of positions `max_open_positions` counted;
      - `ask`, `bid`: the tick `trade` prices the order at;
      - `positions`: the open positions the break-even pass walks through. */
  datatype Observation = Observation(
    now: TimeOfDay,
    account: Option<real>,
    newsClear: bool,
    rates: seq<real>,
    fast: seq<real>,
    slow: seq<real>,
    openPositions: nat,
    ask: real,
    bid: real,
    positions: seq<Position>)
  {
    /** The averages are those `calculate_ema` computes over the fetched closes. */
    predicate WellFormed() {
      SeededAverages(rates, fast, slow)
    }
  }

  /** How the cycle ends, which decides what the loop does next. */
  datatype CycleEnd =
    | OutsideHours    // nothing done; the loop sleeps four hours
    | NoAccountInfo   // `continue`: the rest of the cycle and the sleep are skipped
    | Completed       // the loop sleeps four hours
    | Raised(error: Error)  // caught by the loop, which backs off for a minute

  /** What the cycle sent: the order `trade` submitted, if any, and the
      break-even requests, followed by how it ended. */
  datatype CycleOutcome = CycleOutcome(order: Option<TradeRequest>, stops: seq<StopLossRequest>, end: CycleEnd)

  /** The body of the `while True` loop in `main`. */
  function RunCycle(settings: Settings, obs: Observation): (r: CycleOutcome)
    requires obs.WellFormed()
    ensures r.end == OutsideHours <==> !IsWithinTradingHours(obs.now)
    ensures r.end == NoAccountInfo <==> IsWithinTradingHours(obs.now) && obs.account.None?
    ensures r.end in {OutsideHours, NoAccountInfo} ==> r.order == None && r.stops == []
  {
    if !IsWithinTradingHours(obs.now) then CycleOutcome(None, [], OutsideHours)
    else if obs.account.None? then CycleOutcome(None, [], NoAccountInfo)
    else
      var balance := obs.account.value;
      var signal := if obs.newsClear && |obs.rates| > 0 then EvaluateSignal(obs.fast, obs.slow) else Success(None);
      // On well-formed observations this never fails (`SeededSignalNeverRaises`).
      if signal.Failure? then CycleOutcome(None, [], Raised(signal.error))
      else
        var order :=
          if signal.value.Some? && BelowPositionCap(obs.openPositions, settings.maxPositions)
          then Some(TradeRequestFor(settings, signal.value.value, balance, obs.ask, obs.bid))
          else None;
        var pass := BreakEvenPass(obs.positions);
        CycleOutcome(order, pass.sent, if pass.error.Some? then Raised(pass.error.value) else Completed)
  }

  /** Every gate a trade must pass, stated at once: inside the window, the
      account read, no news, some rates, a signal, and room under the cap. */
  predicate TradeGatesPass(settings: Settings, obs: Observation) {
    && IsWithinTradingHours(obs.now)
    && obs.account.Some?
    && obs.newsClear
    && |obs.rates| > 0
    && |obs.fast| >= 2 && |obs.slow| >= 2
    && Crossover(obs.fast, obs.slow).Some?
    && BelowPositionCap(obs.openPositions, settings.maxPositions)
  }

  /** A cycle submits an order exactly when every gate passes, and then the
      order is the one `trade` builds for the signal, the balance and the tick. */
  lemma TradeExactlyWhenGatesPass(settings: Settings, obs: Observation)
    requires obs.WellFormed()
    ensures RunCycle(settings, obs).order.Some? <==> TradeGatesPass(settings, obs)
    ensures TradeGatesPass(settings, obs) ==>
      RunCycle(settings, obs).order
        == Some(TradeRequestFor(settings, Crossover(obs.fast, obs.slow).value, obs.account.value, obs.ask, obs.bid))
  {
  }

  /** When the gates pass, the order submitted never breaks the cap, and
      its levels bracket its price on the side its direction calls for. */
  lemma OrderIsWellFormed(settings: Settings, obs: Observation)
    requires obs.WellFormed()
    requires settings.LevelsWellPlaced() && TradeGatesPass(settings, obs)
    ensures RunCycle(settings, obs).order.Some?
    ensures var t := RunCycle(settings, obs).order.value;
      && obs.openPositions + 1 <= settings.maxPositions
      && (t.price > 0.0 && t.direction == Buy ==> 0.0 < t.sl < t.price < t.tp)
      && (t.price > 0.0 && t.direction == Sell ==> t.tp < t.price < t.sl)
  {
    TradeExactlyWhenGatesPass(settings, obs);
  }

  /** Stops are moved only inside the trading window and only once the
      account has been read. */
  lemma StopsOnlyInTradingHours(settings: Settings, obs: Observation)
    requires obs.WellFormed()
    requires |RunCycle(settings, obs).stops| > 0
    ensures IsWithinTradingHours(obs.now) && obs.account.Some?
  {
  }

  /** Inside the window, once the account is read, the break-even pass
      runs whatever the news, the signal and the cap say: reading the
      signal from the fetched rates never raises, so the cycle ends early
      only when the pass itself meets a zero volume. */
  lemma BreakEvenPassAlwaysRuns(settings: Settings, obs: Observation)
    requires obs.WellFormed()
    requires IsWithinTradingHours(obs.now) && obs.account.Some?
    ensures var r := RunCycle(settings, obs);
      && r.stops == BreakEvenPass(obs.positions).sent
      && (r.end == Completed <==> BreakEvenPass(obs.positions).error == None)
      && (r.end != Completed ==> r.end == Raised(ZeroDivisionError))
  {
    if obs.newsClear && |obs.rates| > 0 {
      SeededSignalNeverRaises(obs.rates, obs.fast, obs.slow);
    }
    PassFailsOnZeroVolume(obs.positions);
  }

  /** A flagged news event blocks the trade but not the break-even pass. */
  lemma NewsBlocksOnlyTheTrade(settings: Settings, obs: Observation)
    requires obs.WellFormed()
    requires !obs.newsClear
    ensures RunCycle(settings, obs).order == None
    ensures IsWithinTradingHours(obs.now) && obs.account.Some? ==>
      RunCycle(settings, obs).stops == BreakEvenPass(obs.positions).sent
  {
  }

  /** The stops a cycle sends are break-even requests of fired positions,
      and when it completes none that fired is missed. */
  lemma {:induction false} CycleStopsAreBreakEven(settings: Settings, obs: Observation)
    requires obs.WellFormed()
    ensures var r := RunCycle(settings, obs);
      forall k :: 0 <= k < |r.stops| ==> IsBreakEvenRequestOf(obs.positions, r.stops[k])
    ensures var r := RunCycle(settings, obs);
      r.end == Completed ==>
        forall i :: 0 <= i < |obs.positions| && ReachedBreakEven(obs.positions[i]) ==>
          BreakEvenRequest(obs.positions[i]) in r.stops
  {
    PassSendsOnlyBreakEven(obs.positions);
    if RunCycle(settings, obs).end == Completed {
      PassMissesNoBreakEven(obs.positions);
    }
  }
}

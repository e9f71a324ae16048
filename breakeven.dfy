/** `adjust_stop_loss` and the pass over the open positions that calls it:
    a position whose profit per unit of volume has reached two percent of
    its open price gets its stop-loss moved to the open price. */
module BreakEven {
  import opened Outcomes

  /** The fraction of the open price the per-unit profit must reach. */
  const BreakEvenFraction: real := 0.02

  /** An open position as the terminal reports it. */
  datatype Position = Position(ticket: int, volume: real, priceOpen: real, profit: real)

  /** A `TRADE_ACTION_SLTP` request: set the stop-loss of one position. */
  datatype StopLossRequest = StopLossRequest(position: int, sl: real)

  /** The break-even request for a position: its own ticket, its own open price. */
  function BreakEvenRequest(p: Position): StopLossRequest {
    StopLossRequest(p.ticket, p.priceOpen)
  }

  /** `adjust_stop_loss` up to the `order_send` call: the request it would
      send, nothing, or the ZeroDivisionError of `profit / volume`. For a
      positive volume the trigger is profit >= 2% of the open price times
      the volume; for a negative one the division turns it around. */
  function AdjustStopLoss(p: Position): (r: Result<Option<StopLossRequest>>)
    ensures r.Failure? <==> p.volume == 0.0
    ensures r.Failure? ==> r.error == ZeroDivisionError
    ensures r.Success? && r.value.Some? ==> r.value.value == BreakEvenRequest(p)
    ensures p.volume > 0.0 ==>
      (r == Success(Some(BreakEvenRequest(p))) <==> p.profit >= BreakEvenFraction * p.priceOpen * p.volume)
    ensures p.volume < 0.0 ==>
      (r == Success(Some(BreakEvenRequest(p))) <==> p.profit <= BreakEvenFraction * p.priceOpen * p.volume)
  {
    if p.volume == 0.0 then Failure(ZeroDivisionError)
    else
      DivisionThreshold(p.profit, p.volume, p.priceOpen * BreakEvenFraction);
      if p.profit / p.volume >= p.priceOpen * BreakEvenFraction then Success(Some(BreakEvenRequest(p)))
      else Success(None)
  }

  /** Comparing a quotient with a bound is comparing the dividend with the
      bound scaled by the divisor, the comparison reversing for a negative divisor. */
  lemma DivisionThreshold(a: real, v: real, t: real)
    requires v != 0.0
    ensures v > 0.0 ==> (a / v >= t <==> a >= t * v)
    ensures v < 0.0 ==> (a / v >= t <==> a <= t * v)
  {
  }

  /** The position's trigger fires: a request is built for it. */
  predicate ReachedBreakEven(p: Position) {
    AdjustStopLoss(p) == Success(Some(BreakEvenRequest(p)))
  }

  /** For a position of positive volume and open price the trigger is
      monotone in the profit and needs a strictly positive profit, so a
      losing or flat position never has its stop moved. */
  lemma BreakEvenNeedsProfit(p: Position, more: real)
    requires p.volume > 0.0 && p.priceOpen > 0.0
    ensures ReachedBreakEven(p) ==> p.profit > 0.0
    ensures ReachedBreakEven(p) && more >= p.profit ==> ReachedBreakEven(p.(profit := more))
  {
  }

  /** What the pass over the positions did: the requests sent, in order,
      and the exception that stopped it, if any. */
  datatype PassResult = PassResult(sent: seq<StopLossRequest>, error: Option<Error>)

  /** The `for position in positions` loop of the main cycle, as a
      specification: each position in turn, until the first exception,
      which ends the pass with the requests already sent. */
  function BreakEvenPass(ps: seq<Position>): (r: PassResult)
    ensures |r.sent| <= |ps|
    decreases |ps|
  {
    if ps == [] then PassResult([], None)
    else
      var before := BreakEvenPass(ps[..|ps| - 1]);
      if before.error.Some? then before
      else match AdjustStopLoss(ps[|ps| - 1])
        case Failure(e) => PassResult(before.sent, Some(e))
        case Success(None) => before
        case Success(Some(req)) => PassResult(before.sent + [req], None)
  }

  /** Once the pass has stopped, later positions change nothing. */
  lemma {:induction false} PassStopsAtFirstError(ps: seq<Position>, k: nat)
    requires k <= |ps| && BreakEvenPass(ps[..k]).error.Some?
    ensures BreakEvenPass(ps) == BreakEvenPass(ps[..k])
    decreases |ps| - k
  {
    if k < |ps| {
      var init := ps[..|ps| - 1];
      assert init[..k] == ps[..k];
      PassStopsAtFirstError(init, k);
    } else {
      assert ps[..k] == ps;
    }
  }

  /** The pass ends without an exception exactly when no position has a
      zero volume; the only exception it can end with is ZeroDivisionError. */
  lemma {:induction false} PassFailsOnZeroVolume(ps: seq<Position>)
    ensures BreakEvenPass(ps).error == None <==> forall i :: 0 <= i < |ps| ==> ps[i].volume != 0.0
    ensures BreakEvenPass(ps).error.Some? ==> BreakEvenPass(ps).error == Some(ZeroDivisionError)
    decreases |ps|
  {
    if ps != [] {
      var init := ps[..|ps| - 1];
      PassFailsOnZeroVolume(init);
      assert forall i :: 0 <= i < |init| ==> init[i] == ps[i];
    }
  }

  /** `req` is the break-even request of a position of `ps` whose trigger fired. */
  predicate IsBreakEvenRequestOf(ps: seq<Position>, req: StopLossRequest) {
    exists i :: 0 <= i < |ps| && ReachedBreakEven(ps[i]) && req == BreakEvenRequest(ps[i])
  }

  /** Every request the pass sends is the break-even request of a position
      whose trigger fired. */
  lemma {:induction false} PassSendsOnlyBreakEven(ps: seq<Position>)
    ensures forall k :: 0 <= k < |BreakEvenPass(ps).sent| ==> IsBreakEvenRequestOf(ps, BreakEvenPass(ps).sent[k])
    decreases |ps|
  {
    if ps != [] {
      var init := ps[..|ps| - 1];
      PassSendsOnlyBreakEven(init);
      var sent := BreakEvenPass(ps).sent;
      var before := BreakEvenPass(init).sent;
      forall k | 0 <= k < |sent|
        ensures IsBreakEvenRequestOf(ps, sent[k])
      {
        if k < |before| {
          assert sent[k] == before[k];
          assert IsBreakEvenRequestOf(init, before[k]);
          var i :| 0 <= i < |init| && ReachedBreakEven(init[i]) && before[k] == BreakEvenRequest(init[i]);
          assert ps[i] == init[i];
        } else {
          assert ReachedBreakEven(ps[|ps| - 1]) && sent[k] == BreakEvenRequest(ps[|ps| - 1]);
        }
      }
    }
  }

  /** When the pass runs to the end, every position whose trigger fired has
      its break-even request among those sent. */
  lemma {:induction false} PassMissesNoBreakEven(ps: seq<Position>)
    requires BreakEvenPass(ps).error == None
    ensures forall i :: 0 <= i < |ps| && ReachedBreakEven(ps[i]) ==> BreakEvenRequest(ps[i]) in BreakEvenPass(ps).sent
    decreases |ps|
  {
    if ps != [] {
      var init := ps[..|ps| - 1];
      PassMissesNoBreakEven(init);
      assert forall i :: 0 <= i < |init| ==> init[i] == ps[i];
    }
  }

  /** The break-even requests of the positions whose trigger fires, in
      the order of the positions, read from the front. */
  function FiredRequests(ps: seq<Position>): seq<StopLossRequest> {
    if ps == [] then []
    else (if ReachedBreakEven(ps[0]) then [BreakEvenRequest(ps[0])] else []) + FiredRequests(ps[1..])
  }

  lemma {:induction false} FiredRequestsAppend(ps: seq<Position>, p: Position)
    ensures FiredRequests(ps + [p]) == FiredRequests(ps) + (if ReachedBreakEven(p) then [BreakEvenRequest(p)] else [])
    decreases |ps|
  {
    if ps != [] {
      assert (ps + [p])[1..] == ps[1..] + [p];
      FiredRequestsAppend(ps[1..], p);
    } else {
      assert [p][1..] == [];
    }
  }

  /** A pass over positions none of which has a zero volume sends exactly
      the fired positions' requests, in order. */
  lemma {:induction false} PassWithoutZeroVolume(ps: seq<Position>)
    requires forall i :: 0 <= i < |ps| ==> ps[i].volume != 0.0
    ensures BreakEvenPass(ps) == PassResult(FiredRequests(ps), None)
    decreases |ps|
  {
    if ps != [] {
      var init := ps[..|ps| - 1];
      assert forall i :: 0 <= i < |init| ==> init[i] == ps[i];
      PassWithoutZeroVolume(init);
      assert init + [ps[|ps| - 1]] == ps;
      FiredRequestsAppend(init, ps[|ps| - 1]);
    }
  }

  /** The pass sends exactly the requests of the fired positions, in order,
      among those before the first zero volume, and it raises exactly when
      there is a zero volume. */
  lemma PassSendsExactly(ps: seq<Position>, k: nat)
    requires k <= |ps| && (forall i :: 0 <= i < k ==> ps[i].volume != 0.0)
    requires k == |ps| || ps[k].volume == 0.0
    ensures BreakEvenPass(ps).sent == FiredRequests(ps[..k])
    ensures BreakEvenPass(ps).error == (if k == |ps| then None else Some(ZeroDivisionError))
  {
    PassWithoutZeroVolume(ps[..k]);
    if k < |ps| {
      assert ps[..k + 1][..k] == ps[..k];
      PassStopsAtFirstError(ps, k + 1);
    } else {
      assert ps[..k] == ps;
    }
  }

  /** The loop itself: positions are handled one by one, a request is sent
      for each one that reached break-even, and the first exception leaves
      the loop. */
  method AdjustStops(positions: seq<Position>) returns (sent: seq<StopLossRequest>, error: Option<Error>)
    ensures PassResult(sent, error) == BreakEvenPass(positions)
  {
    sent, error := [], None;
    var i := 0;
    while i < |positions| && error.None?
      invariant 0 <= i <= |positions|
      invariant PassResult(sent, error) == BreakEvenPass(positions[..i])
    {
      assert positions[..i + 1][..i] == positions[..i];
      match AdjustStopLoss(positions[i]) {
        case Failure(e) =>
          error := Some(e);
        case Success(None) =>
        case Success(Some(req)) =>
          sent := sent + [req];
      }
      i := i + 1;
    }
    if error.Some? {
      PassStopsAtFirstError(positions, i);
    } else {
      assert positions[..i] == positions;
    }
  }
}

/** The EMA crossover rule of `get_signals`: the fast (50-bar) and slow
    (200-bar) averages are compared at the last two bars only. */
module Signals {
  import opened Outcomes

  /** The two signals `get_signals` can emit; the source spells them 'buy' and 'sell'. */
  datatype Direction = Buy | Sell

  /** The string the source uses for a direction. */
  function Label(d: Direction): string {
    match d
    case Buy => "buy"
    case Sell => "sell"
  }

  /** The other direction. */
  function Opposite(d: Direction): Direction {
    match d
    case Buy => Sell
    case Sell => Buy
  }

  /** Where the fast average stands relative to the slow one at one bar. */
  datatype Side = Above | Level | Below

  function SideOf(fast: real, slow: real): Side {
    if fast > slow then Above else if fast < slow then Below else Level
  }

  /** The crossover test on two average series, read from the end as `iloc[-1]`
      and `iloc[-2]`. Buy when the fast average has just moved strictly above
      the slow one, Sell when it has just moved strictly below, otherwise
      nothing. */
  function Crossover(fast: seq<real>, slow: seq<real>): (r: Option<Direction>)
    requires |fast| >= 2 && |slow| >= 2
    ensures var now, before := SideOf(fast[|fast| - 1], slow[|slow| - 1]), SideOf(fast[|fast| - 2], slow[|slow| - 2]);
      && (r == Some(Buy) <==> now == Above && before != Above)
      && (r == Some(Sell) <==> now == Below && before != Below)
      && (r == None <==> now == Level || now == before)
  {
    var n, m := |fast|, |slow|;
    if fast[n - 1] > slow[m - 1] && fast[n - 2] <= slow[m - 2] then Some(Buy)
    else if fast[n - 1] < slow[m - 1] && fast[n - 2] >= slow[m - 2] then Some(Sell)
    else None
  }

  /** The whole of `get_signals` once its averages are known, with Python's
      short-circuit `and`: `iloc[-1]` of an empty series raises IndexError,
      and `iloc[-2]` is read, and raises on a one-point series, only when
      the comparison at the last point already holds. Two equal one-point
      series give no signal. */
  function EvaluateSignal(fast: seq<real>, slow: seq<real>): (r: Result<Option<Direction>>)
    ensures r.Failure? <==>
      || |fast| < 1 || |slow| < 1
      || ((|fast| < 2 || |slow| < 2) && fast[|fast| - 1] != slow[|slow| - 1])
    ensures r.Failure? ==> r.error == IndexError
    ensures r.Success? && |fast| >= 2 && |slow| >= 2 ==> r.value == Crossover(fast, slow)
    ensures r.Success? && (|fast| < 2 || |slow| < 2) ==> r.value == None
  {
    if |fast| < 1 || |slow| < 1 then Failure(IndexError)
    else
      var n, m := |fast|, |slow|;
      if fast[n - 1] > slow[m - 1] then
        if n < 2 || m < 2 then Failure(IndexError)
        else if fast[n - 2] <= slow[m - 2] then Success(Some(Buy))
        else Success(None)
      else if fast[n - 1] < slow[m - 1] then
        if n < 2 || m < 2 then Failure(IndexError)
        else if fast[n - 2] >= slow[m - 2] then Success(Some(Sell))
        else Success(None)
      else Success(None)
  }

  /** What `calculate_ema` guarantees of the averages it returns over a
      column of closes: one value per row, and, with `adjust=False`, a first
      value equal to the first close. */
  predicate SeededAverages(close: seq<real>, fast: seq<real>, slow: seq<real>) {
    && |fast| == |close| && |slow| == |close|
    && (|close| > 0 ==> fast[0] == close[0] && slow[0] == close[0])
  }

  /** On a non-empty frame whose averages are those of its closes, reading
      the signal never raises: a one-bar frame has equal averages and gives
      no signal, a longer one gives the crossover rule. */
  lemma SeededSignalNeverRaises(close: seq<real>, fast: seq<real>, slow: seq<real>)
    requires SeededAverages(close, fast, slow) && |close| > 0
    ensures EvaluateSignal(fast, slow) == if |close| == 1 then Success(None) else Success(Crossover(fast, slow))
  {
  }

  /** One-point series: equal values give no signal without reaching
      `iloc[-2]`; different values reach it and raise. */
  lemma OnePointSeries(x: real, y: real)
    ensures EvaluateSignal([x], [x]) == Success(None)
    ensures x != y ==> EvaluateSignal([x], [y]) == Failure(IndexError)
  {
  }

  /** Only the last two points of each series matter. */
  lemma CrossoverReadsLastTwo(fast: seq<real>, slow: seq<real>, olderFast: seq<real>, olderSlow: seq<real>)
    requires |fast| >= 2 && |slow| >= 2
    ensures Crossover(olderFast + fast, olderSlow + slow) == Crossover(fast, slow)
    ensures Crossover(fast, slow) == Crossover(fast[|fast| - 2..], slow[|slow| - 2..])
  {
  }

  /** Swapping the roles of the two averages swaps Buy and Sell. */
  lemma CrossoverSwapsDirections(fast: seq<real>, slow: seq<real>)
    requires |fast| >= 2 && |slow| >= 2
    ensures Crossover(fast, slow).Some? <==> Crossover(slow, fast).Some?
    ensures Crossover(fast, slow).Some? ==> Crossover(slow, fast).value == Opposite(Crossover(fast, slow).value)
  {
  }

  /** The two averages stay on one side of each other at the last two
      bars, or meet at the last bar: no signal. */
  lemma NoSignalWithoutCrossing(fast: seq<real>, slow: seq<real>)
    requires |fast| >= 2 && |slow| >= 2
    requires || fast[|fast| - 1] == slow[|slow| - 1]
             || (fast[|fast| - 1] > slow[|slow| - 1] && fast[|fast| - 2] > slow[|slow| - 2])
             || (fast[|fast| - 1] < slow[|slow| - 1] && fast[|fast| - 2] < slow[|slow| - 2])
    ensures Crossover(fast, slow) == None
  {
  }

  /** Evaluated bar by bar over averages of a column of closes, which start
      level at bar 0: when the fast average is strictly below the slow one
      on bars 1 to `k - 1` and strictly above from bar `k` on, the rule
      emits Buy at bar `k`. If the fast average first dipped below (k >= 2),
      leaving the level start downward gives Sell at bar 1; every other bar
      gives nothing. */
  lemma BuyOnlyAtUpwardFlip(close: seq<real>, fast: seq<real>, slow: seq<real>, k: nat, j: nat)
    requires SeededAverages(close, fast, slow)
    requires 1 <= k < |close| && 1 <= j < |close|
    requires forall i :: 1 <= i < k ==> fast[i] < slow[i]
    requires forall i :: k <= i < |close| ==> fast[i] > slow[i]
    ensures Crossover(fast[..j + 1], slow[..j + 1])
         == if j == k then Some(Buy) else if j == 1 then Some(Sell) else None
  {
  }

  /** The mirror image: a single downward flip at bar `k` gives Sell there,
      Buy at bar 1 when the fast average first rose above (k >= 2), and
      nothing elsewhere. */
  lemma SellOnlyAtDownwardFlip(close: seq<real>, fast: seq<real>, slow: seq<real>, k: nat, j: nat)
    requires SeededAverages(close, fast, slow)
    requires 1 <= k < |close| && 1 <= j < |close|
    requires forall i :: 1 <= i < k ==> fast[i] > slow[i]
    requires forall i :: k <= i < |close| ==> fast[i] < slow[i]
    ensures Crossover(fast[..j + 1], slow[..j + 1])
         == if j == k then Some(Sell) else if j == 1 then Some(Buy) else None
  {
  }

  /** The rate frame `get_signals` receives: it stores the two averages in
      the frame as the columns `ema_50` and `ema_200` before reading them. */
  class RatesFrame {
    var close: seq<real>
    var ema50: seq<real>
    var ema200: seq<real>

    constructor (close: seq<real>)
      ensures this.close == close && ema50 == [] && ema200 == []
    {
      this.close := close;
      ema50, ema200 := [], [];
    }

    /** `fast` and `slow` are the 50- and 200-bar averages of `close`
        computed by `calculate_ema`, which is not part of this model; the
        requires clause says only what that computation guarantees. */
    method GetSignals(fast: seq<real>, slow: seq<real>) returns (r: Result<Option<Direction>>)
      requires SeededAverages(close, fast, slow)
      modifies this
      ensures close == old(close) && ema50 == fast && ema200 == slow
      ensures r == EvaluateSignal(fast, slow)
      ensures |close| > 0 ==> r.Success?
    {
      ema50 := fast;
      ema200 := slow;
      r := EvaluateSignal(ema50, ema200);
    }
  }
}

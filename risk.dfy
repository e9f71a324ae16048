/** Position sizing and the placement of the stop-loss and take-profit,
    over `real` as an idealisation of the source's floating point. */
module Risk {

  /** `calculate_position_size`: a flat percentage of the balance. */
  function PositionSize(balance: real, riskPercent: real): (size: real)
    ensures size * 100.0 == balance * riskPercent
  {
    balance * (riskPercent / 100.0)
  }

  /** The size is linear in the balance and in the risk percentage, and
      zero when either is zero. */
  lemma PositionSizeLinear(a: real, b: real, r: real, q: real, k: real)
    ensures PositionSize(a + b, r) == PositionSize(a, r) + PositionSize(b, r)
    ensures PositionSize(a, r + q) == PositionSize(a, r) + PositionSize(a, q)
    ensures PositionSize(k * a, r) == k * PositionSize(a, r)
    ensures PositionSize(a, k * r) == k * PositionSize(a, r)
    ensures PositionSize(0.0, r) == 0.0 && PositionSize(a, 0.0) == 0.0
  {
  }

  /** With a non-negative balance the size never exceeds the balance while
      the risk stays within one hundred percent, and never goes negative. */
  lemma PositionSizeBounded(balance: real, riskPercent: real)
    requires balance >= 0.0 && 0.0 <= riskPercent <= 100.0
    ensures 0.0 <= PositionSize(balance, riskPercent) <= balance
  {
  }

  /** The stop-loss and take-profit prices of a new order. */
  datatype Levels = Levels(sl: real, tp: real)

  /** `set_stop_loss_and_take_profit`: the stop-loss lies `stopLossPct` of
      the entry away on the losing side and the take-profit `takeProfitPct`
      away on the winning side. Every direction other than "buy" is placed
      as a sell. */
  function StopLossAndTakeProfit(entry: real, direction: string, stopLossPct: real, takeProfitPct: real): (r: Levels)
    ensures direction == "buy" ==> entry - r.sl == entry * stopLossPct && r.tp - entry == entry * takeProfitPct
    ensures direction != "buy" ==> r.sl - entry == entry * stopLossPct && entry - r.tp == entry * takeProfitPct
  {
    if direction == "buy" then
      Levels(entry * (1.0 - stopLossPct), entry * (1.0 + takeProfitPct))
    else
      Levels(entry * (1.0 + stopLossPct), entry * (1.0 - takeProfitPct))
  }

  lemma PositiveProduct(x: real, y: real)
    requires x > 0.0 && y > 0.0
    ensures x * y > 0.0
  {
  }

  /** A buy at a positive price is bracketed: sl < entry < tp, with the stop-loss above zero. */
  lemma BuyLevelsBracketEntry(entry: real, stopLossPct: real, takeProfitPct: real)
    requires entry > 0.0 && 0.0 < stopLossPct < 1.0 && takeProfitPct > 0.0
    ensures var r := StopLossAndTakeProfit(entry, "buy", stopLossPct, takeProfitPct);
      0.0 < r.sl < entry < r.tp
  {
    PositiveProduct(entry, 1.0 - stopLossPct);
  }

  /** A sell (any direction but "buy") at a positive price is bracketed the
      other way: tp < entry < sl, with the take-profit above zero while its
      percentage is below one. */
  lemma SellLevelsBracketEntry(entry: real, direction: string, stopLossPct: real, takeProfitPct: real)
    requires direction != "buy"
    requires entry > 0.0 && stopLossPct > 0.0 && takeProfitPct > 0.0
    ensures var r := StopLossAndTakeProfit(entry, direction, stopLossPct, takeProfitPct);
      r.tp < entry < r.sl && (takeProfitPct < 1.0 ==> 0.0 < r.tp)
  {
    var r := StopLossAndTakeProfit(entry, direction, stopLossPct, takeProfitPct);
    assert entry * stopLossPct > 0.0 && entry * takeProfitPct > 0.0;
    if takeProfitPct < 1.0 {
      PositiveProduct(entry, 1.0 - takeProfitPct);
    }
  }

  /** The sell levels are the buy levels reflected through the entry price,
      and every label other than "buy" places the same levels as "sell". */
  lemma SellMirrorsBuy(entry: real, direction: string, stopLossPct: real, takeProfitPct: real)
    requires direction != "buy"
    ensures var b, s := StopLossAndTakeProfit(entry, "buy", stopLossPct, takeProfitPct),
                        StopLossAndTakeProfit(entry, direction, stopLossPct, takeProfitPct);
      s.sl == 2.0 * entry - b.sl && s.tp == 2.0 * entry - b.tp
    ensures StopLossAndTakeProfit(entry, direction, stopLossPct, takeProfitPct)
         == StopLossAndTakeProfit(entry, "sell", stopLossPct, takeProfitPct)
  {
  }

  /** The distance to the take-profit over the distance to the stop-loss is
      the ratio of the two percentages, in either direction. */
  lemma RewardToRisk(entry: real, direction: string, stopLossPct: real, takeProfitPct: real)
    requires entry != 0.0 && stopLossPct != 0.0
    ensures var r := StopLossAndTakeProfit(entry, direction, stopLossPct, takeProfitPct);
      (r.tp - entry) / (entry - r.sl) == takeProfitPct / stopLossPct
  {
  }
}

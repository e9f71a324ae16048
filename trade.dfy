/** The order `trade` builds and hands to the terminal. */
module Trade {
  import opened Config
  import opened Signals
  import opened Risk

  /** The fixed fields of every order: the allowed price deviation and the magic number. */
  const Deviation: int := 10
  const Magic: int := 123456

  /** A `TRADE_ACTION_DEAL` market order, filled immediate-or-cancel. */
  datatype TradeRequest = TradeRequest(
    symbol: string,
    direction: Direction,
    volume: real,
    price: real,
    sl: real,
    tp: real,
    deviation: int,
    magic: int,
    comment: string)

  /** `direction.capitalize()`. */
  function Capitalized(d: Direction): string {
    match d
    case Buy => "Buy"
    case Sell => "Sell"
  }

  /** `trade` up to the `order_send` call: a buy is placed at the ask, a
      sell at the bid; the volume is the risk share of the balance; the
      levels are those `set_stop_loss_and_take_profit` places around that
      price for the signal's direction. */
  function TradeRequestFor(settings: Settings, d: Direction, balance: real, ask: real, bid: real): (r: TradeRequest)
    ensures r.symbol == settings.symbol && r.direction == d
    ensures r.price == (if d == Buy then ask else bid)
    ensures r.volume * 100.0 == balance * settings.riskPercent
    ensures Levels(r.sl, r.tp) == StopLossAndTakeProfit(r.price, Label(d), settings.stopLossPct, settings.takeProfitPct)
    ensures settings.LevelsWellPlaced() && r.price > 0.0 && d == Buy ==> 0.0 < r.sl < r.price < r.tp
    ensures settings.LevelsWellPlaced() && r.price > 0.0 && d == Sell ==> r.tp < r.price < r.sl
    ensures r.deviation == Deviation && r.magic == Magic
    ensures r.comment == "EMA " + Capitalized(d)
  {
    var price := if d == Buy then ask else bid;
    var levels := StopLossAndTakeProfit(price, Label(d), settings.stopLossPct, settings.takeProfitPct);
    assert settings.LevelsWellPlaced() && price > 0.0 ==>
      if d == Buy then 0.0 < levels.sl < price < levels.tp else levels.tp < price < levels.sl
    by {
      if settings.LevelsWellPlaced() && price > 0.0 {
        if d == Buy {
          BuyLevelsBracketEntry(price, settings.stopLossPct, settings.takeProfitPct);
        } else {
          SellLevelsBracketEntry(price, Label(d), settings.stopLossPct, settings.takeProfitPct);
        }
      }
    }
    TradeRequest(settings.symbol, d, PositionSize(balance, settings.riskPercent), price,
                 levels.sl, levels.tp, Deviation, Magic, "EMA " + Capitalized(d))
  }
}

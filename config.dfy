/** The bot's configuration: scalars read from the environment, each with a default. */
module Config {

  /** The configuration scalars `SYMBOL`, `MAX_POSITIONS`, `RISK_PERCENT`,
      `STOP_LOSS_PERCENT` and `TAKE_PROFIT_PERCENT`. The two level
      percentages are fractions of the entry price (0.02 is two percent),
      while the risk percentage is a percentage (1.0 is one percent). */
  datatype Settings = Settings(
    symbol: string,
    maxPositions: int,
    riskPercent: real,
    stopLossPct: real,
    takeProfitPct: real)
  {
    /** The levels are placed strictly around the entry and the stop-loss
        stays on the positive side of zero. */
    predicate LevelsWellPlaced() {
      0.0 < stopLossPct < 1.0 && 0.0 < takeProfitPct
    }
  }

  /** The values used when the environment sets nothing. */
  const Defaults: Settings := Settings("EURUSD", 3, 1.0, 0.02, 0.04)

  lemma DefaultsWellPlaced()
    ensures Defaults.LevelsWellPlaced()
    ensures Defaults.maxPositions == 3
    ensures Defaults.takeProfitPct == 2.0 * Defaults.stopLossPct
  {
  }
}

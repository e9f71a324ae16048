# EMA crossover trading bot: a verified model of its decision logic

`mainbot.py` is a MetaTrader 5 bot that wakes every four hours. Inside a
08:00–12:00 local trading window, it reads the account balance and skips
the cycle when that read fails. It then checks a news stub and fetches
daily bars. It compares a 50-bar and a 200-bar exponential moving average
at the last two bars to get a buy or sell signal. When there is a signal
and fewer than the configured number of positions are open, it sends a
market order. The order's size is a flat percentage of the balance, and
its stop-loss and take-profit are fixed fractions of the entry price. The
cycle ends with a pass over the open positions: each position whose profit
per unit of volume has reached 2% of its open price gets its stop-loss
moved to that open price (break-even).

This project models that logic in Dafny and proves its properties. The
terminal, the clock and the loop stay outside the model: what they report
comes in as values, and what the bot would send goes out as values.

- `outcomes.dfy` (`Outcomes`): `Option` for Python's `None`, and the two
  exceptions the modelled code can raise (`IndexError`, `ZeroDivisionError`).
- `config.dfy` (`Config`): the configuration scalars and their defaults.
- `signals.dfy` (`Signals`): the crossover rule of `get_signals`, and the
  rate frame it writes its two average columns into.
- `risk.dfy` (`Risk`): position size, and stop-loss/take-profit placement.
- `gates.dfy` (`Gates`): the trading-window test on a Python `datetime.time`,
  and the cap on open positions.
- `breakeven.dfy` (`BreakEven`): `adjust_stop_loss`, and the loop over open
  positions that calls it.
- `trade.dfy` (`Trade`): the order request `trade` builds.
- `cycle.dfy` (`Cycle`): one pass of the main loop, as a step from what the
  cycle observes to what it sends and how it ends.

Numbers are `real`. This idealises the source's IEEE doubles. The ordering
and threshold properties below do not depend on rounding.

The break-even pass runs only inside the trading window, and only after
the account read succeeds (mainbot.py:158-162, 174-176).

Reading the signal follows Python's short-circuit `and`. `iloc[-2]` is read
only when the comparison at the last bar already holds. On the frames
`get_rates` returns, that read never raises: a one-bar frame has equal
averages, because `ewm(adjust=False)` starts at the first close.

The time of day is Python's `datetime.time`: hour, minute, second and
microsecond, compared field by field. It is not a count of whole minutes,
because the code treats 12:00:00.000001 as outside the window.

## Model

| member | source | states |
|---|---|---|
| `Signals.Crossover` | mainbot.py:58-62 | Buy exactly when the fast average is now strictly above the slow one and was not above it at the previous bar. Sell exactly when it is now strictly below and was not below. No signal exactly when the two are level now or on the same side at both bars. |
| `Signals.EvaluateSignal` | mainbot.py:53-62 | Raises IndexError exactly when a series is empty, or when one has a single point and the last values differ, since `iloc[-2]` is read only after the comparison at the last point holds. Two equal one-point series give no signal. Two or more points each give the crossover rule. |
| `Signals.SeededSignalNeverRaises` | mainbot.py:51-62 | On a non-empty frame whose averages have one value per bar and start at the first close, the signal read never raises. A one-bar frame gives no signal; a longer one gives the crossover rule. |
| `Signals.OnePointSeries` | mainbot.py:58-62 | Equal one-point series give no signal; different one-point series raise IndexError. |
| `Signals.RatesFrame.constructor` | mainbot.py:128-136 | A frame holds the fetched closes and has no average columns yet. |
| `Signals.RatesFrame.GetSignals` | mainbot.py:53-62 | Stores the two averages in the frame as `ema_50` and `ema_200` in place, and leaves the closes unchanged. Returns what the signal read gives on those averages, which never raises on a non-empty frame. |
| `Signals.CrossoverReadsLastTwo` | mainbot.py:58-61 | Only the last two points matter: older history prefixed to either series does not change the signal. |
| `Signals.CrossoverSwapsDirections` | mainbot.py:58-61 | Exchanging the fast and slow series turns Buy into Sell and Sell into Buy, and keeps "no signal". |
| `Signals.NoSignalWithoutCrossing` | mainbot.py:58-62 | Averages that are equal at the last bar, or strictly on one side at both bars, give no signal. |
| `Signals.BuyOnlyAtUpwardFlip` | mainbot.py:58-59 | Over averages seeded from the closes, so level at bar 0: when the fast average is strictly below the slow one on bars 1 to k-1 and strictly above from bar k on, the rule applied at each bar gives Buy at bar k, Sell at bar 1 when k >= 2 (leaving the level start downward), and nothing elsewhere. |
| `Signals.SellOnlyAtDownwardFlip` | mainbot.py:60-61 | The mirror case over seeded averages: a single downward flip at bar k gives Sell there, Buy at bar 1 when k >= 2, and nothing elsewhere. |
| `Risk.PositionSize` | mainbot.py:64-66 | The size times 100 equals the balance times the risk percentage. |
| `Risk.PositionSizeLinear` | mainbot.py:64-66 | The size is additive and homogeneous in the balance and in the risk percentage, and zero when either is zero. |
| `Risk.PositionSizeBounded` | mainbot.py:64-66 | With a non-negative balance and a risk between 0 and 100 percent, the size lies between zero and the balance. |
| `Risk.StopLossAndTakeProfit` | mainbot.py:68-76 | For "buy", the stop-loss lies the stop fraction of the entry below the entry and the take-profit the profit fraction above it. For every other direction the sides are swapped. |
| `Risk.BuyLevelsBracketEntry` | mainbot.py:70-72 | For a buy with entry > 0, 0 < stop fraction < 1 and profit fraction > 0: 0 < sl < entry < tp. |
| `Risk.SellLevelsBracketEntry` | mainbot.py:73-75 | For any direction other than "buy", with positive entry and fractions: tp < entry < sl, and tp > 0 when the profit fraction is below 1. |
| `Risk.SellMirrorsBuy` | mainbot.py:68-76 | The sell levels are the buy levels reflected through the entry price. Every non-"buy" label places the same levels as "sell". |
| `Risk.RewardToRisk` | mainbot.py:68-76 | Distance to take-profit over distance to stop-loss equals the profit fraction over the stop fraction, in both directions. |
| `Config.DefaultsWellPlaced` | mainbot.py:26-30 | The defaults (3 positions, stop 0.02, profit 0.04) give well-placed levels, with the take-profit twice as far as the stop-loss. |
| `Gates.NotAfterIsClockOrder` | mainbot.py:116-119 | On valid times, Python's field-by-field comparison of times agrees with comparing microseconds since midnight. |
| `Gates.WithinTradingHoursByInstant` | mainbot.py:114-119 | The window holds exactly from 08:00:00.000000 to 12:00:00.000000 inclusive, as instants of the day. |
| `Gates.IsWithinTradingHours` | mainbot.py:114-119 | 08:00 <= now <= 12:00 in Python's order of times. On valid times: exactly hours 8 to 11, and 12:00:00.000000 itself. |
| `Gates.WithinTradingHoursByMinute` | mainbot.py:117-119 | On whole-minute times the window is minutes 480 to 720 of the day, both included. |
| `Gates.TradingWindowBoundaries` | mainbot.py:117-119 | 08:00 and 12:00 are inside. 07:59:59.999999 and 12:00:00.000001 are outside. |
| `Gates.BelowPositionCap` | mainbot.py:109-112 | `len(positions) < max_trades`: passes exactly when one more position fits under the maximum, so it fails at the maximum, above it, and for any maximum of zero or less. |
| `BreakEven.AdjustStopLoss` | mainbot.py:138-145 | A zero volume raises ZeroDivisionError. For a positive volume, a request is built exactly when profit >= 0.02 × open price × volume; for a negative volume the comparison reverses. A built request carries the position's ticket and moves its stop-loss to the open price. |
| `BreakEven.BreakEvenNeedsProfit` | mainbot.py:140 | For positive volume and open price, break-even fires only on a strictly positive profit, and it keeps firing as the profit grows. |
| `BreakEven.BreakEvenPass` | mainbot.py:174-176 | The pass sends no more requests than there are positions. |
| `BreakEven.PassStopsAtFirstError` | mainbot.py:174-176 | Once an exception has stopped the pass, later positions change nothing. |
| `BreakEven.PassFailsOnZeroVolume` | mainbot.py:140 | Assuming every `order_send` returns a result object, the pass ends without an exception exactly when no position has zero volume, and its only possible exception is ZeroDivisionError. |
| `BreakEven.PassSendsOnlyBreakEven` | mainbot.py:140-145 | Every request sent is the break-even request of a position whose trigger fired. |
| `BreakEven.PassMissesNoBreakEven` | mainbot.py:174-176 | When the pass runs to the end, every position whose trigger fired has its request among those sent. |
| `BreakEven.PassWithoutZeroVolume` | mainbot.py:174-176 | Over positions with no zero volume, the pass completes and sends exactly the fired positions' requests, in order. |
| `BreakEven.PassSendsExactly` | mainbot.py:138-145 | The pass sends exactly the fired positions' requests, in order, among those before the first zero volume. Assuming every `order_send` returns a result object, it raises ZeroDivisionError exactly when there is a zero volume. |
| `BreakEven.AdjustStops` | mainbot.py:174-176 | The loop over the positions sends exactly the requests, and stops with exactly the exception, that the pass specification gives. |
| `Trade.TradeRequestFor` | mainbot.py:78-97 | A buy is priced at the ask and a sell at the bid. The volume is the risk share of the balance. The stop-loss and take-profit are exactly the levels `set_stop_loss_and_take_profit` places around that price for the direction's label. With well-placed settings and a positive price, they bracket the price on the direction's side. The request carries deviation 10, magic 123456 and the comment "EMA Buy" or "EMA Sell". |
| `Cycle.RunCycle` | mainbot.py:156-181 | The cycle ends as outside-hours exactly when the window check fails, and as skipped exactly when the account read fails inside the window. In both cases nothing is sent. |
| `Cycle.TradeExactlyWhenGatesPass` | mainbot.py:158-171 | An order is sent exactly when the cycle is inside the window, the account is read, the news check is clear, rates were fetched, the rule gives a signal and the position cap passes. The order is then the one `trade` builds for that signal. |
| `Cycle.OrderIsWellFormed` | mainbot.py:170-171 | When every gate passes, an order is sent. That order leaves the open positions within the cap, and with well-placed settings its levels bracket a positive price on the direction's side. |
| `Cycle.StopsOnlyInTradingHours` | mainbot.py:158-176 | Stop-loss requests are sent only inside the trading window, after a successful account read. |
| `Cycle.BreakEvenPassAlwaysRuns` | mainbot.py:165-176 | Inside the window, once the account is read, the break-even pass runs whatever the news, the signal and the cap say. Assuming every `order_send` of the pass returns a result object, the cycle completes unless the pass meets a zero volume, and then it ends with ZeroDivisionError. |
| `Cycle.NewsBlocksOnlyTheTrade` | mainbot.py:165-176 | A flagged news event prevents the order but not the break-even pass. |
| `Cycle.CycleStopsAreBreakEven` | mainbot.py:174-176 | The stops a cycle sends are all break-even requests of positions that fired. When the cycle completes, none that fired is missed. |

## Left out

- `calculate_ema` (mainbot.py:49-51) delegates to a pandas exponentially weighted mean. The two average series are inputs. The model requires only what that computation guarantees: one value per bar, and a first value equal to the first close (`Signals.SeededAverages`). The later values are not derived from the closes.
- All MetaTrader 5 calls are left out: `initialize`, `account_info`, `copy_rates_from_pos`, `symbol_info_tick`, `positions_get`, `order_send` and `shutdown`. What they return comes in as fields of `Cycle.Observation`. What is sent to `order_send` is the model's output, and its return codes and the logging about them are not modelled.
- `initialize_mt5` (mainbot.py:33-47) and the shutdown at exit are connection handling with no decision logic.
- Which positions the terminal returns for `positions_get(symbols=[SYMBOL])` and `positions_get(symbol=SYMBOL)` is the terminal's business. The model takes a position count for the cap and a position list for the break-even pass. A `None` from either call, and the TypeError it would cause, is not modelled.
- Reading the clock in the configured time zone (mainbot.py:116) is left out. The model takes the local time of day as given.
- The `while True` loop, its four-hour and one-minute sleeps, and its exception handler (mainbot.py:156-181) are not modelled as a loop. `Cycle.CycleEnd` records how one pass ends, and so which of these follows.
- BreakEven.PassFailsOnZeroVolume: assumes every `order_send` of the break-even pass returns a result object. A `None` there raises AttributeError at mainbot.py:147 and ends the pass early; that exit is not modelled. `trade` catches its own `None` (mainbot.py:105-107), so only the pass is affected.
- BreakEven.PassSendsExactly: the same assumption; a `None` from `order_send` at mainbot.py:146-147 would end the pass after that send, which the model does not capture.
- Cycle.BreakEvenPassAlwaysRuns: the same assumption; with a `None` from `order_send` in the pass, the cycle would end through the handler at mainbot.py:179-181 with an AttributeError the model does not produce.
- Exceptions inside `trade` are caught there and only logged (mainbot.py:105-107), so they are not modelled. The order request is built from the given ask and bid.
- Reading the configuration from the environment, and the number parsing that could fail there (mainbot.py:26-31), is left out. `Config.Settings` holds the resulting values.
- `check_major_news_events` (mainbot.py:121-126) is a stub that always answers true. The model takes its answer as an input, so the news gate is stated for both answers.
- Building the DataFrame, converting timestamps, and requesting 200 daily bars in `get_rates` (mainbot.py:128-136) are left out. The model keeps only the close column and the empty-result check.
- IEEE double rounding is not modelled: all prices, sizes and profits are `real`.

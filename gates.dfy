/** The two yes/no checks that gate a trade besides the signal itself: the
    trading window and the cap on open positions. */
module Gates {

  /** A local wall-clock time of day as Python's `datetime.time` holds it.
      Times compare field by field, hour first, as Python compares them. */
  datatype TimeOfDay = TimeOfDay(hour: int, minute: int, second: int, microsecond: int)
  {
    predicate Valid() {
      0 <= hour < 24 && 0 <= minute < 60 && 0 <= second < 60 && 0 <= microsecond < 1000000
    }

    /** `this <= other` on times. */
    predicate NotAfter(other: TimeOfDay) {
      || hour < other.hour
      || (hour == other.hour && minute < other.minute)
      || (hour == other.hour && minute == other.minute && second < other.second)
      || (hour == other.hour && minute == other.minute && second == other.second && microsecond <= other.microsecond)
    }

    /** Microseconds since midnight. */
    function Micros(): int {
      ((hour * 60 + minute) * 60 + second) * 1000000 + microsecond
    }
  }

  const TradingStart: TimeOfDay := TimeOfDay(8, 0, 0, 0)
  const TradingEnd: TimeOfDay := TimeOfDay(12, 0, 0, 0)

  /** `is_within_trading_hours` on the time of day it read from the clock:
      08:00 <= now <= 12:00, both ends included. On the fields: any time in
      hours 8 to 11, and 12:00:00.000000 exactly; even one microsecond past
      noon is outside. */
  predicate IsWithinTradingHours(now: TimeOfDay)
    ensures now.Valid() ==>
      (IsWithinTradingHours(now) <==> 8 <= now.hour < 12 || now == TradingEnd)
  {
    TradingStart.NotAfter(now) && now.NotAfter(TradingEnd)
  }

  /** Ordering two-part keys lexicographically is ordering `x * k + y`
      when the lower part `y` lies in `[0, k)`. */
  lemma LexicographicKey(x1: int, y1: int, x2: int, y2: int, k: int)
    requires 0 <= y1 < k && 0 <= y2 < k
    ensures (x1 < x2 || (x1 == x2 && y1 <= y2)) <==> x1 * k + y1 <= x2 * k + y2
    ensures (x1 == x2 && y1 == y2) <==> x1 * k + y1 == x2 * k + y2
  {
    if x1 < x2 {
      KeyGap(x1, x2, k);
    } else if x2 < x1 {
      KeyGap(x2, x1, k);
    }
  }

  /** A larger upper part puts the key at least a whole `k` higher. */
  lemma KeyGap(lo: int, hi: int, k: int)
    requires lo < hi && k > 0
    ensures hi * k >= lo * k + k
  {
    var d := hi - lo;
    assert hi * k == lo * k + d * k;
    assert (d - 1) * k >= 0;
    assert d * k == (d - 1) * k + k;
  }

  /** On valid times, Python's field-by-field order is the order of the
      instants they name within the day. */
  lemma NotAfterIsClockOrder(a: TimeOfDay, b: TimeOfDay)
    requires a.Valid() && b.Valid()
    ensures a.NotAfter(b) <==> a.Micros() <= b.Micros()
  {
    // Minute of the day, then microsecond within the minute.
    var am, bm := a.hour * 60 + a.minute, b.hour * 60 + b.minute;
    var au, bu := a.second * 1000000 + a.microsecond, b.second * 1000000 + b.microsecond;
    LexicographicKey(a.hour, a.minute, b.hour, b.minute, 60);
    LexicographicKey(a.second, a.microsecond, b.second, b.microsecond, 1000000);
    assert 0 <= au < 60000000 && 0 <= bu < 60000000;
    LexicographicKey(am, au, bm, bu, 60000000);
    assert a.Micros() == am * 60000000 + au;
    assert b.Micros() == bm * 60000000 + bu;
  }

  /** The window, stated on the instant: from 08:00:00.000000 to
      12:00:00.000000 inclusive. */
  lemma WithinTradingHoursByInstant(now: TimeOfDay)
    requires now.Valid()
    ensures IsWithinTradingHours(now) <==> TradingStart.Micros() <= now.Micros() <= TradingEnd.Micros()
    ensures TradingStart.Micros() == 8 * 3600 * 1000000 && TradingEnd.Micros() == 12 * 3600 * 1000000
  {
    NotAfterIsClockOrder(TradingStart, now);
    NotAfterIsClockOrder(now, TradingEnd);
  }

  /** On whole-minute times the window is minutes 480 to 720 of the day, both included. */
  lemma WithinTradingHoursByMinute(now: TimeOfDay)
    requires now.Valid() && now.second == 0 && now.microsecond == 0
    ensures IsWithinTradingHours(now) <==> 480 <= now.hour * 60 + now.minute <= 720
  {
  }

  lemma TradingWindowBoundaries()
    ensures IsWithinTradingHours(TradingStart) && IsWithinTradingHours(TradingEnd)
    ensures !IsWithinTradingHours(TimeOfDay(7, 59, 59, 999999))
    ensures !IsWithinTradingHours(TimeOfDay(12, 0, 0, 1))
  {
  }

  /** `max_open_positions`: the name notwithstanding, true when another
      position may be opened. It passes exactly when one more position still
      fits under the maximum, so it fails at the maximum, above it, and for
      any maximum of zero or less. */
  predicate BelowPositionCap(openPositions: nat, maxTrades: int)
    ensures BelowPositionCap(openPositions, maxTrades) <==> openPositions + 1 <= maxTrades
    ensures maxTrades <= 0 ==> !BelowPositionCap(openPositions, maxTrades)
  {
    openPositions < maxTrades
  }
}

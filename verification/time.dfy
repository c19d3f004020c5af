/** Clock values. A `DateTime` is an integer count of ticks (100 ns) and a
    calendar date is an integer day number; the clock itself
    (`DateTime.Now`, `DateTime.Today`, `DateTime.UtcNow`) is always passed
    in as a parameter. */
module Time {

  /** Ticks in one day: 24 * 60 * 60 * 10^7. */
  const TicksPerDay: int := 864_000_000_000

  /** `t.Date`, as a day number. */
  function DayOf(t: int): int {
    t / TicksPerDay
  }

  /** The first tick of day `d` (`d.Date`). */
  function StartOfDay(d: int): int {
    d * TicksPerDay
  }

  /** `d.Date.AddDays(1).AddTicks(-1)`: the last tick of day `d`. */
  function EndOfDay(d: int): int {
    (d + 1) * TicksPerDay - 1
  }

  /** An instant lies between the start of day `lo` and the end of day `hi`
      exactly when its day lies in `[lo, hi]`. */
  lemma WindowByDays(t: int, lo: int, hi: int)
    ensures StartOfDay(lo) <= t <= EndOfDay(hi) <==> lo <= DayOf(t) <= hi
  {
    var d := DayOf(t);
    assert StartOfDay(d) <= t <= EndOfDay(d);
    if lo <= d {
      assert StartOfDay(lo) <= StartOfDay(d);
    }
    if d <= hi {
      assert EndOfDay(d) <= EndOfDay(hi);
    }
    if d < lo {
      assert EndOfDay(d) < StartOfDay(lo);
    }
    if hi < d {
      assert EndOfDay(hi) < StartOfDay(d);
    }
  }
}

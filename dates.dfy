/**
 * Day arithmetic on millisecond timestamps. Days are UTC days: the start of
 * a day is a multiple of `DAY`.
 */
module Dates {

  const DAY: int := 1000 * 60 * 60 * 24

  /** `Math.ceil(a / d)` for a positive divisor. */
  function CeilDiv(a: int, d: int): (q: int)
    requires d > 0
    ensures (q - 1) * d < a <= q * d
  {
    -((-a) / d)
  }

  /** `setHours(0, 0, 0, 0)`: the first millisecond of the day of `t`. */
  function StartOfDay(t: int): (r: int)
    ensures r <= t < r + DAY
    ensures r % DAY == 0
  {
    t - t % DAY
  }

  /** `setHours(23, 59, 59, 999)`: the last millisecond of the day of `t`. */
  function EndOfDay(t: int): (r: int)
    ensures r - DAY < t <= r
    ensures (r + 1) % DAY == 0
  {
    StartOfDay(t) + DAY - 1
  }

  /** `t` lies in the day that starts at `StartOfDay(start)` or a later one, up to the day of `end`. */
  predicate InRange(t: int, start: int, end: int)
  {
    StartOfDay(start) <= t <= EndOfDay(end)
  }

  /** Both ends of a range are whole days: any time on the end day is in, the next day is out. */
  lemma RangeIsInclusive(t: int, start: int, end: int)
    requires StartOfDay(start) <= StartOfDay(end)
    ensures StartOfDay(t) == StartOfDay(end) ==> InRange(t, start, end)
    ensures StartOfDay(t) == StartOfDay(start) ==> InRange(t, start, end)
    ensures StartOfDay(t) == StartOfDay(end) + DAY ==> !InRange(t, start, end)
    ensures StartOfDay(t) == StartOfDay(start) - DAY ==> !InRange(t, start, end)
  {
  }
}

/**
 * Local time of the dashboard's time zone (Europe/Istanbul, a fixed UTC+3
 * offset without daylight saving time), as integer seconds. A local calendar
 * date is a day index and local midnight is the start of that day.
 */
module LocalTime {

  const SecondsPerMinute: int := 60
  const SecondsPerHour: int := 3600
  const SecondsPerDay: int := 86400

  function Max(a: int, b: int): int { if a < b then b else a }

  function Min(a: int, b: int): int { if a < b then a else b }

  function Abs(a: int): int { if a < 0 then -a else a }

  /** The local date of `t`, as a day index. */
  function DayOf(t: int): (d: int)
    ensures d * 86400 <= t < d * 86400 + 86400
  {
    t / 86400
  }

  /** `t` with its minutes and seconds set to zero. */
  function HourFloor(t: int): (h: int)
    ensures h <= t < h + 3600
    ensures h % 3600 == 0
  {
    t - t % 3600
  }

  /** Dates advance with time: a later instant never has an earlier date. */
  lemma DayOfMonotonic(s: int, t: int)
    requires s <= t
    ensures DayOf(s) <= DayOf(t)
  {
  }

  /** The day index of a local midnight is the midnight's own day. */
  lemma DayOfMidnight(d: int)
    ensures DayOf(d * 86400) == d
  {
  }
}

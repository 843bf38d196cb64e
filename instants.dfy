/**
  Instants of the parking calendar.

  An instant is an integer number of local milliseconds since 1970-01-01T00:00 in one fixed
  zone without daylight-saving changes, so every calendar day is exactly DAY_MS long. Day 0
  (1970-01-01) was a Thursday. The functions below are the `Date` accessors and setters the
  scheduler uses (`getDay`, `getHours`, `getMinutes`, `setHours`, `setSeconds`, `setDate`).
*/
module Instants {

  const SECOND_MS: int := 1000
  const MINUTE_MS: int := 60000
  const HOUR_MS: int := 3600000
  const DAY_MS: int := 86400000

  /** Index of the calendar day holding instant t (day 0 is 1970-01-01). */
  function DayOf(t: int): int
  {
    t / DAY_MS
  }

  /** The instant 00:00:00.000 of day d. */
  function StartOfDay(d: int): int
  {
    d * DAY_MS
  }

  /** Milliseconds elapsed since local midnight. */
  function MsOfDay(t: int): (ms: int)
    ensures 0 <= ms < DAY_MS
    ensures t == StartOfDay(DayOf(t)) + ms
  {
    t % DAY_MS
  }

  /** Weekday of day d, Sunday = 0 ... Saturday = 6. */
  function WeekdayOfDay(d: int): (w: int)
    ensures 0 <= w < 7
    ensures w == 0 <==> d % 7 == 3
  {
    (d + 4) % 7
  }

  /** `Date.getDay()`. */
  function Weekday(t: int): int
  {
    WeekdayOfDay(DayOf(t))
  }

  /** `Date.getHours()`. */
  function Hours(t: int): (h: int)
    ensures 0 <= h < 24
    ensures h * HOUR_MS <= MsOfDay(t) < (h + 1) * HOUR_MS
  {
    MsOfDay(t) / HOUR_MS
  }

  /** `Date.getMinutes()`. */
  function Minutes(t: int): (m: int)
    ensures 0 <= m < 60
    ensures Hours(t) * 60 + m == MinuteOfDay(t)
  {
    (MsOfDay(t) / MINUTE_MS) % 60
  }

  /** Whole minutes elapsed since local midnight. */
  function MinuteOfDay(t: int): (m: int)
    ensures 0 <= m < 1440
  {
    MsOfDay(t) / MINUTE_MS
  }

  /** `Date.setHours(h, m, s, ms)`: the same calendar day at the given wall-clock time. */
  function SetTime(t: int, h: int, m: int, s: int, ms: int): int
  {
    StartOfDay(DayOf(t)) + h * HOUR_MS + m * MINUTE_MS + s * SECOND_MS + ms
  }

  /** `Date.setSeconds(0, 0)`: drops the seconds and milliseconds. */
  function TruncateToMinute(t: int): (r: int)
    ensures r <= t < r + MINUTE_MS
    ensures r % MINUTE_MS == 0
    ensures DayOf(r) == DayOf(t)
  {
    DayOfMinuteFloor(t);
    t - t % MINUTE_MS
  }

  /** `Date.setDate(getDate() + n)`: n calendar days later, same wall-clock time. */
  function AddDays(t: int, n: int): (r: int)
    ensures DayOf(r) == DayOf(t) + n
    ensures MsOfDay(r) == MsOfDay(t)
  {
    DayOfShift(t, n);
    t + n * DAY_MS
  }

  /** An instant given by its day and its offset within that day decomposes back into both. */
  lemma DayDecomposition(d: int, off: int)
    requires 0 <= off < DAY_MS
    ensures DayOf(StartOfDay(d) + off) == d
    ensures MsOfDay(StartOfDay(d) + off) == off
  {
  }

  lemma DayOfShift(t: int, n: int)
    ensures DayOf(t + n * DAY_MS) == DayOf(t) + n
    ensures MsOfDay(t + n * DAY_MS) == MsOfDay(t)
  {
    DayDecomposition(DayOf(t) + n, MsOfDay(t));
  }

  lemma DayOfMinuteFloor(t: int)
    ensures DayOf(t - t % MINUTE_MS) == DayOf(t)
  {
    var d, off := DayOf(t), MsOfDay(t);
    assert t % MINUTE_MS == off % MINUTE_MS;
    DayDecomposition(d, off - off % MINUTE_MS);
  }

  /** Whole-minute instants and durations are closed under sums and differences. */
  lemma AlignedSum(a: int, b: int)
    requires a % MINUTE_MS == 0 && b % MINUTE_MS == 0
    ensures (a + b) % MINUTE_MS == 0 && (a - b) % MINUTE_MS == 0
  {
    var qa, qb := a / MINUTE_MS, b / MINUTE_MS;
    assert a + b == (qa + qb) * MINUTE_MS;
    assert a - b == (qa - qb) * MINUTE_MS;
  }

  lemma AlignedMinutes(n: int)
    ensures (n * MINUTE_MS) % MINUTE_MS == 0
  {
  }

  /** A day starts on a whole minute. */
  lemma StartOfDayAligned(d: int, off: int)
    ensures (StartOfDay(d) + off) % MINUTE_MS == off % MINUTE_MS
  {
  }
}

/**
  How much operating time lies between two instants.

  OpenBefore(t) is a cumulative count of operating milliseconds up to t, in closed form (whole
  weeks, then the days of the current week, then the part of the current day); OpenMs(a, b) is
  the operating time in [a, b). OpenStep shows that the closed form grows by exactly one per
  millisecond that IsOperatingTime calls open, so OpenMs equals the brute-force count
  CountOpenMs; the other lemmas are the facts the scheduler's proofs use.
*/
module OperatingMeasure {
  import opened Instants
  import opened Calendar

  /** Length in milliseconds of the operating window of weekday w. */
  function WindowMs(w: int): int
  {
    if w == 0 then 0 else (ClosingHour(w) - OPENING_HOUR) * HOUR_MS
  }

  /** Operating milliseconds of a weekday-w day that lie before its millisecond `ms`. */
  function OpenInDay(w: int, ms: int): int
  {
    if w == 0 || ms <= OPENING_HOUR * HOUR_MS then 0
    else if ms >= ClosingHour(w) * HOUR_MS then WindowMs(w)
    else ms - OPENING_HOUR * HOUR_MS
  }

  /** Operating milliseconds of the weekdays 0 .. w-1 of one week. */
  function WeekPrefix(w: int): int
    requires 0 <= w <= 7
  {
    if w == 0 then 0 else WeekPrefix(w - 1) + WindowMs(w - 1)
  }

  /** Operating milliseconds of a whole week: 5 * 600 + 240 minutes. */
  const WEEK_MS: int := 3240 * 60000

  /** Operating milliseconds before day d, counted from the Sunday that opens week 0 (day -4). */
  function OpenBeforeDay(d: int): int
  {
    ((d + 4) / 7) * WEEK_MS + WeekPrefix(WeekdayOfDay(d))
  }

  /** Operating milliseconds before instant t, counted from the same origin. */
  function OpenBefore(t: int): int
  {
    OpenBeforeDay(DayOf(t)) + OpenInDay(Weekday(t), MsOfDay(t))
  }

  /** Operating milliseconds in [a, b). */
  function OpenMs(a: int, b: int): int
  {
    OpenBefore(b) - OpenBefore(a)
  }

  /** Operating time over adjacent intervals adds up. */
  lemma OpenAdditive(a: int, b: int, c: int)
    ensures OpenMs(a, c) == OpenMs(a, b) + OpenMs(b, c)
  {
  }

  /** Brute-force reference: the number of milliseconds in [a, b) that IsOperatingTime calls open. */
  ghost function CountOpenMs(a: int, b: int): nat
    decreases b - a
  {
    if b <= a then 0 else CountOpenMs(a, b - 1) + (if IsOperatingTime(b - 1) then 1 else 0)
  }

  lemma WeekPrefixTotal()
    ensures WeekPrefix(7) == WEEK_MS
  {
  }

  /** Crossing midnight adds exactly the window of the day that ends. */
  lemma OpenBeforeNextDay(d: int)
    ensures OpenBeforeDay(d + 1) == OpenBeforeDay(d) + WindowMs(WeekdayOfDay(d))
  {
    var q, r := (d + 4) / 7, (d + 4) % 7;
    WeekPrefixTotal();
    if r < 6 {
      assert (d + 5) / 7 == q && (d + 5) % 7 == r + 1;
    } else {
      assert (d + 5) / 7 == q + 1 && (d + 5) % 7 == 0;
    }
  }

  /** Seven days always hold one week of operating time. */
  lemma OpenBeforeNextWeek(d: int)
    ensures OpenBeforeDay(d + 7) == OpenBeforeDay(d) + WEEK_MS
  {
    assert (d + 11) / 7 == (d + 4) / 7 + 1;
  }

  lemma OpenBeforeStartOfDay(d: int)
    ensures OpenBefore(StartOfDay(d)) == OpenBeforeDay(d)
  {
    DayDecomposition(d, 0);
  }

  /** The closed form counts one millisecond exactly when the calendar is open at it. */
  lemma OpenStep(t: int)
    ensures OpenBefore(t + 1) == OpenBefore(t) + (if IsOperatingTime(t) then 1 else 0)
  {
    OperatingTimeIsWindow(t);
    var d, ms := DayOf(t), MsOfDay(t);
    if ms + 1 < DAY_MS {
      DayDecomposition(d, ms + 1);
      assert DayOf(t + 1) == d && MsOfDay(t + 1) == ms + 1;
    } else {
      DayDecomposition(d + 1, 0);
      assert t + 1 == StartOfDay(d + 1);
      OpenBeforeNextDay(d);
    }
  }

  /** OpenMs is the brute-force count; in particular it is never negative. */
  lemma {:induction false} OpenMsIsCount(a: int, b: int)
    requires a <= b
    ensures OpenMs(a, b) == CountOpenMs(a, b)
    decreases b - a
  {
    if a < b {
      OpenMsIsCount(a, b - 1);
      OpenStep(b - 1);
    }
  }

  lemma OpenMonotone(a: int, b: int)
    requires a <= b
    ensures OpenMs(a, b) >= 0
  {
    OpenMsIsCount(a, b);
  }

  /** Inside one operating window every millisecond counts. */
  lemma OpenInWindow(x: int, y: int)
    requires x <= y
    requires WeekdayOfDay(DayOf(x)) != 0
    requires OpeningOfDay(DayOf(x)) <= x && y <= ClosingOfDay(DayOf(x))
    ensures OpenMs(x, y) == y - x
  {
    var d := DayOf(x);
    DayDecomposition(d, y - StartOfDay(d));
  }

  /**
    From a closed instant that is not before the day's opening (a Sunday, or at or after the
    day's close) up to the next opening there is no operating time.
  */
  lemma OpenAcrossClosedHop(c: int)
    requires Weekday(c) == 0 || c >= ClosingOfDay(DayOf(c))
    ensures OpenMs(c, NextOperatingStart(c)) == 0
  {
    var d := DayOf(c);
    var n := NextOperatingStart(c);
    var dn := DayOf(n);
    OpenBeforeNextDay(d);
    assert OpenBefore(c) == OpenBeforeDay(d + 1);
    DayDecomposition(dn, OPENING_HOUR * HOUR_MS);
    assert OpenBefore(n) == OpenBeforeDay(dn);
    if dn == d + 2 {
      OpenBeforeNextDay(d + 1);
    }
  }

  /** Before the day's opening no operating time has passed in that day. */
  lemma OpenBeforeOpening(x: int, y: int)
    requires x <= y && DayOf(x) == DayOf(y) && y <= OpeningOfDay(DayOf(y))
    ensures OpenMs(x, y) == 0
  {
  }

  /** Where no operating time passes, no instant is an operating instant. */
  lemma NoOperatingTimeMeansClosed(a: int, b: int)
    requires a <= b && OpenMs(a, b) == 0
    ensures forall t :: a <= t < b ==> !IsOperatingTime(t)
  {
    forall t | a <= t < b
      ensures !IsOperatingTime(t)
    {
      OpenStep(t);
      OpenMonotone(a, t);
      OpenMonotone(t + 1, b);
      OpenAdditive(a, t, b);
      OpenAdditive(t, t + 1, b);
    }
  }
}

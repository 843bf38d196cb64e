/**
  The operating-hours credit scheduler: turning a purchase of N paid minutes into an expiry
  instant, and counting the operating minutes a session has left.
*/
module ParkingUtils {
  import opened Instants
  import opened Calendar
  import opened OperatingMeasure

  /**
    Where an expiry can fall: on a non-Sunday day, strictly after its opening and no later
    than its close (the close itself is possible, although IsOperatingTime calls it closed).
  */
  predicate EndsInWindow(e: int)
  {
    var d := DayOf(e);
    WeekdayOfDay(d) != 0 && OpeningOfDay(d) < e <= ClosingOfDay(d)
  }

  /**
    E is an expiry for `totalMinutes` paid minutes bought at `start`: it lies in a window and
    exactly the paid minutes of operating time separate it from the purchase.
  */
  predicate IsExpiry(start: int, totalMinutes: int, e: int)
  {
    start <= e && OpenMs(start, e) == totalMinutes * MINUTE_MS && EndsInWindow(e)
  }

  /** The start after the scheduler's first step: before 08:00 on a non-Sunday it moves to 08:00. */
  function ClampedStart(start: int): (c: int)
    ensures start <= c && OpenMs(start, c) == 0
    ensures DayOf(c) == DayOf(start)
    ensures Weekday(c) == 0 || OpeningOfDay(DayOf(c)) <= c
    ensures Weekday(start) != 0 && start < OpeningOfDay(DayOf(start)) ==> c == OpeningOfDay(DayOf(start))
    ensures Weekday(start) == 0 || start >= OpeningOfDay(DayOf(start)) ==> c == start
  {
    if Hours(start) < OPENING_HOUR && Weekday(start) != 0 then
      DayDecomposition(DayOf(start), OPENING_HOUR * HOUR_MS);
      OpenBeforeOpening(start, SetTime(start, 8, 0, 0, 0));
      SetTime(start, 8, 0, 0, 0)
    else
      start
  }

  /** Which branch the scheduler's loop takes next: 2 on a Sunday, 1 after the close, 0 inside. */
  function HopRank(c: int): int
  {
    if Weekday(c) == 0 then 2 else if c >= ClosingOfDay(DayOf(c)) then 1 else 0
  }

  /** Two expiries of the same purchase are the same instant: IsExpiry pins the result down. */
  lemma ExpiryUnique(start: int, m: int, e1: int, e2: int)
    requires IsExpiry(start, m, e1) && IsExpiry(start, m, e2)
    ensures e1 == e2
  {
    if e1 < e2 {
      ExpiryGap(e1, e2);
    } else if e2 < e1 {
      ExpiryGap(e2, e1);
    }
  }

  /** Before an expiry inside its window some operating time always passes. */
  lemma ExpiryGap(x: int, e: int)
    requires x < e && EndsInWindow(e)
    ensures OpenMs(x, e) > 0
  {
    var d := DayOf(e);
    var m := if x < OpeningOfDay(d) then OpeningOfDay(d) else x;
    OpenMonotone(x, m);
    DayDecomposition(d, m - StartOfDay(d));
    OpenInWindow(m, e);
  }

  /**
    The state of the scheduler's walk after the clamp: everything consumed so far is operating
    time since the purchase, `current` is never before its day's opening (unless on a Sunday),
    and a walk that has used up its minutes stands at a valid expiry.
  */
  predicate WalkInvariant(start: int, totalMinutes: int, current: int, remaining: int)
  {
    && start <= current
    && (Weekday(current) == 0 || OpeningOfDay(DayOf(current)) <= current)
    && OpenMs(start, current) + remaining == totalMinutes * MINUTE_MS
    && (totalMinutes <= 0 ==> current == ClampedStart(start) && remaining == totalMinutes * MINUTE_MS)
    && (totalMinutes > 0 ==> remaining >= 0 && (remaining == 0 ==> EndsInWindow(current)))
    && (start % MINUTE_MS == 0 ==> current % MINUTE_MS == 0 && remaining % MINUTE_MS == 0)
  }

  lemma WalkStarts(start: int, totalMinutes: int)
    ensures WalkInvariant(start, totalMinutes, ClampedStart(start), totalMinutes * MINUTE_MS)
  {
    AlignedMinutes(totalMinutes);
    if Hours(start) < OPENING_HOUR && Weekday(start) != 0 {
      StartOfDayAligned(DayOf(start), OPENING_HOUR * HOUR_MS);
    }
  }

  /** The Sunday hop and the after-close hop keep the invariant and move to a lower rank. */
  lemma WalkHops(start: int, totalMinutes: int, current: int, remaining: int)
    requires WalkInvariant(start, totalMinutes, current, remaining) && remaining > 0
    requires Weekday(current) == 0 || current >= ClosingOfDay(DayOf(current))
    ensures WalkInvariant(start, totalMinutes, NextOperatingStart(current), remaining)
    ensures HopRank(NextOperatingStart(current)) < HopRank(current)
  {
    HopClosed(current);
    OpenAdditive(start, current, NextOperatingStart(current));
  }

  /** Consuming the last minutes inside the current window ends the walk at a valid expiry. */
  lemma WalkFinishes(start: int, totalMinutes: int, current: int, remaining: int)
    requires WalkInvariant(start, totalMinutes, current, remaining) && remaining > 0
    requires Weekday(current) != 0 && remaining <= ClosingOfDay(DayOf(current)) - current
    ensures WalkInvariant(start, totalMinutes, current + remaining, 0)
  {
    FinishInWindow(current, remaining);
    OpenAdditive(start, current, current + remaining);
  }

  /** Using up the rest of the window and hopping consumes exactly the minutes that were left. */
  lemma WalkLeaves(start: int, totalMinutes: int, current: int, remaining: int)
    requires WalkInvariant(start, totalMinutes, current, remaining)
    requires Weekday(current) != 0 && current < ClosingOfDay(DayOf(current))
    requires remaining > ClosingOfDay(DayOf(current)) - current
    ensures var close := ClosingOfDay(DayOf(current));
            WalkInvariant(start, totalMinutes, NextOperatingStart(current), remaining - (close - current))
  {
    var close := ClosingOfDay(DayOf(current));
    DayDecomposition(DayOf(current), ClosingHour(Weekday(current)) * HOUR_MS);
    assert NextOperatingStart(close) == NextOperatingStart(current);
    LeaveWindow(current);
    OpenAdditive(start, current, NextOperatingStart(close));
    if start % MINUTE_MS == 0 {
      AlignedSum(close, current);
      AlignedSum(remaining, close - current);
    }
  }

  /**
    `calculateParkingEndTime`. `remaining` is kept in milliseconds: the source keeps it in
    minutes as a number that becomes fractional when a window is left with seconds on the clock.
  */
  method CalculateParkingEndTime(startDate: int, totalMinutes: int) returns (current: int)
    ensures totalMinutes <= 0 ==> current == ClampedStart(startDate)
    ensures totalMinutes > 0 ==> IsExpiry(startDate, totalMinutes, current)
    ensures startDate % MINUTE_MS == 0 ==> current % MINUTE_MS == 0
    ensures var c := ClampedStart(startDate);
            totalMinutes > 0 && Weekday(c) != 0 && totalMinutes * MINUTE_MS <= ClosingOfDay(DayOf(c)) - c
            ==> current == c + totalMinutes * MINUTE_MS
  {
    current := startDate;
    var remaining := totalMinutes * MINUTE_MS;

    if Hours(current) < 8 && Weekday(current) != 0 {
      current := SetTime(current, 8, 0, 0, 0);
    }
    WalkStarts(startDate, totalMinutes);

    while remaining > 0
      invariant WalkInvariant(startDate, totalMinutes, current, remaining)
      decreases remaining, HopRank(current)
    {
      var day := Weekday(current);

      if day == 0 {
        WalkHops(startDate, totalMinutes, current, remaining);
        current := GetNextOperatingStart(current);
        continue;
      }

      var isSaturday := day == 6;
      var endHour := if isSaturday then SATURDAY.end else WEEKDAY.end;
      var endOfOpToday := SetTime(current, endHour, 0, 0, 0);
      assert endOfOpToday == ClosingOfDay(DayOf(current));

      if current >= endOfOpToday {
        WalkHops(startDate, totalMinutes, current, remaining);
        current := GetNextOperatingStart(current);
        continue;
      }

      var availableToday := endOfOpToday - current;
      if remaining <= availableToday {
        WalkFinishes(startDate, totalMinutes, current, remaining);
        current := current + remaining;
        remaining := 0;
      } else {
        WalkLeaves(startDate, totalMinutes, current, remaining);
        remaining := remaining - availableToday;
        current := GetNextOperatingStart(current);
      }
    }

    SameWindowExpiry(startDate, totalMinutes, current);
  }

  /** A hop from a closed instant lands on an opening and adds no operating time. */
  lemma HopClosed(c: int)
    requires Weekday(c) == 0 || c >= ClosingOfDay(DayOf(c))
    ensures var n := NextOperatingStart(c);
            c < n && OpenMs(c, n) == 0 && OpeningOfDay(DayOf(n)) == n && n % MINUTE_MS == 0
            && HopRank(n) == 0
  {
    var n := NextOperatingStart(c);
    OpenAcrossClosedHop(c);
    NextOperatingStartIsOpen(c);
    StartOfDayAligned(DayOf(n), OPENING_HOUR * HOUR_MS);
    OperatingTimeIsWindow(n);
  }

  /** Consuming minutes inside the current window ends inside that window. */
  lemma FinishInWindow(c: int, rem: int)
    requires Weekday(c) != 0 && OpeningOfDay(DayOf(c)) <= c
    requires 0 < rem <= ClosingOfDay(DayOf(c)) - c
    ensures OpenMs(c, c + rem) == rem && EndsInWindow(c + rem)
    ensures c % MINUTE_MS == 0 && rem % MINUTE_MS == 0 ==> (c + rem) % MINUTE_MS == 0
  {
    OpenInWindow(c, c + rem);
    DayDecomposition(DayOf(c), MsOfDay(c) + rem);
    if c % MINUTE_MS == 0 && rem % MINUTE_MS == 0 {
      AlignedSum(c, rem);
    }
  }

  /** Using up the rest of the window and hopping gains exactly the minutes left in the window. */
  lemma LeaveWindow(c: int)
    requires Weekday(c) != 0 && OpeningOfDay(DayOf(c)) <= c < ClosingOfDay(DayOf(c))
    ensures var close := ClosingOfDay(DayOf(c));
            var n := NextOperatingStart(close);
            c < n && OpenMs(c, n) == close - c && OpeningOfDay(DayOf(n)) == n
            && n % MINUTE_MS == 0 && close % MINUTE_MS == 0
  {
    var d := DayOf(c);
    var close := ClosingOfDay(d);
    OpenInWindow(c, close);
    DayDecomposition(d, ClosingHour(WeekdayOfDay(d)) * HOUR_MS);
    StartOfDayAligned(d, ClosingHour(WeekdayOfDay(d)) * HOUR_MS);
    HopClosed(close);
  }

  /** When the purchase fits the rest of the (clamped) start's window, the expiry is start + N minutes. */
  lemma SameWindowExpiry(start: int, m: int, e: int)
    requires m > 0 ==> IsExpiry(start, m, e)
    ensures var c := ClampedStart(start);
            m > 0 && Weekday(c) != 0 && m * MINUTE_MS <= ClosingOfDay(DayOf(c)) - c
            ==> e == c + m * MINUTE_MS
  {
    var c := ClampedStart(start);
    if m > 0 && Weekday(c) != 0 && m * MINUTE_MS <= ClosingOfDay(DayOf(c)) - c {
      var f := c + m * MINUTE_MS;
      OpenInWindow(c, f);
      DayDecomposition(DayOf(c), MsOfDay(c) + m * MINUTE_MS);
      assert IsExpiry(start, m, f);
      ExpiryUnique(start, m, e, f);
    }
  }

  /**
    What the loop of `getRemainingWorkingMinutes` computes from `current` on: one for each
    visited instant that IsOperatingTime calls open, stepping one minute at a time; whenever a
    step lands on a closed instant the walk jumps to the next operating start, or stops when
    that start is not before the target.
  */
  function WorkingMinutesFrom(current: int, target: int): (r: int)
    ensures r >= 0
    ensures current >= target ==> r == 0
    ensures current < target ==> (r - 1) * MINUTE_MS < target - current
    decreases target - current
  {
    if current >= target then 0
    else
      var counted := if IsOperatingTime(current) then 1 else 0;
      var next := current + MINUTE_MS;
      if IsOperatingTime(next) then counted + WorkingMinutesFrom(next, target)
      else
        var nextStart := NextOperatingStart(next);
        if nextStart < target then counted + WorkingMinutesFrom(nextStart, target) else counted
  }

  /** The value of `getRemainingWorkingMinutes(endTime)` read at the instant `now`. */
  function RemainingWorkingMinutes(endTime: int, now: int): int
  {
    if now >= endTime then 0 else WorkingMinutesFrom(now, endTime)
  }

  /**
    `getRemainingWorkingMinutes`, with the clock read `new Date()` passed in as `now`. The
    count is never negative, is 0 once the session has expired, and never exceeds the number of
    minute steps that fit before the end.
  */
  method GetRemainingWorkingMinutes(endTime: int, now: int) returns (minutes: int)
    ensures minutes == RemainingWorkingMinutes(endTime, now)
    ensures now >= endTime ==> minutes == 0
    ensures minutes >= 0
    ensures now < endTime ==> (minutes - 1) * MINUTE_MS < endTime - now
  {
    var target := endTime;
    minutes := 0;

    if now >= target {
      return;
    }

    var current := now;
    while current < target
      invariant CountdownInvariant(now, target, current, minutes)
      decreases target - current
    {
      ghost var before, counted := current, minutes;
      if IsOperatingTime(current) {
        minutes := minutes + 1;
      }
      current := current + MINUTE_MS;

      if !IsOperatingTime(current) {
        var nextStart := GetNextOperatingStart(current);
        if nextStart < target {
          current := nextStart;
          CountdownHops(now, target, before, counted, current, minutes);
        } else {
          CountdownStops(now, target, before, counted, minutes);
          break;
        }
      } else {
        CountdownSteps(now, target, before, counted, current, minutes);
      }
    }
  }

  /** The loop of `getRemainingWorkingMinutes`: what is counted plus what is left is the whole walk. */
  predicate CountdownInvariant(now: int, target: int, current: int, minutes: int)
  {
    now <= current && minutes >= 0
    && minutes + WorkingMinutesFrom(current, target) == WorkingMinutesFrom(now, target)
  }

  /** The minute the loop counts at `current`: one if the zone is open then. */
  function CountAt(current: int): int
  {
    if IsOperatingTime(current) then 1 else 0
  }

  /** A pass of that loop that steps on to an open minute keeps its invariant. */
  lemma CountdownSteps(now: int, target: int, current: int, minutes: int, next: int, minutes': int)
    requires CountdownInvariant(now, target, current, minutes) && current < target
    requires next == current + MINUTE_MS && IsOperatingTime(next)
    requires minutes' == minutes + CountAt(current)
    ensures CountdownInvariant(now, target, next, minutes')
  {
  }

  /** A pass that lands on a closed minute and hops to a start before the end keeps it too. */
  lemma CountdownHops(now: int, target: int, current: int, minutes: int, next: int, minutes': int)
    requires CountdownInvariant(now, target, current, minutes) && current < target
    requires !IsOperatingTime(current + MINUTE_MS)
    requires next == NextOperatingStart(current + MINUTE_MS) && next < target
    requires minutes' == minutes + CountAt(current)
    ensures CountdownInvariant(now, target, next, minutes')
  {
  }

  /** A pass whose hop would reach the end stops with the whole walk counted. */
  lemma CountdownStops(now: int, target: int, current: int, minutes: int, minutes': int)
    requires CountdownInvariant(now, target, current, minutes) && current < target
    requires !IsOperatingTime(current + MINUTE_MS)
    requires NextOperatingStart(current + MINUTE_MS) >= target
    requires minutes' == minutes + CountAt(current)
    ensures minutes' == WorkingMinutesFrom(now, target)
  {
  }

  /** Only operating instants are counted: a span without operating time shows no minutes. */
  lemma {:induction false} PositiveCountNeedsOperatingTime(current: int, target: int)
    ensures WorkingMinutesFrom(current, target) > 0 ==> OpenMs(current, target) > 0
    decreases target - current
  {
    if current < target {
      var next := current + MINUTE_MS;
      var x := if IsOperatingTime(next) then next else NextOperatingStart(next);
      if IsOperatingTime(current) {
        OpenStep(current);
        OpenMonotone(current + 1, target);
        OpenAdditive(current, current + 1, target);
      } else if x < target {
        PositiveCountNeedsOperatingTime(x, target);
        OpenMonotone(current, x);
        OpenAdditive(current, x, target);
      }
    }
  }

  /**
    Between whole minutes the countdown never exceeds the operating time left: each counted
    minute is a full minute of operating time, and the hops skip none of it twice.
  */
  lemma {:induction false} CountdownBoundedByOperatingTime(current: int, target: int)
    requires current <= target
    requires current % MINUTE_MS == 0 && target % MINUTE_MS == 0
    ensures WorkingMinutesFrom(current, target) * MINUTE_MS <= OpenMs(current, target)
    decreases target - current
  {
    if current < target {
      var next := current + MINUTE_MS;
      AlignedStep(current, target);
      AlignedSum(current, MINUTE_MS);
      OpenAdditive(current, next, target);
      if IsOperatingTime(current) {
        OperatingTimeIsWindow(current);
        LeaveWindow(current);
        AlignedStep(current, ClosingOfDay(DayOf(current)));
        OpenInWindow(current, next);
      } else {
        OpenMonotone(current, next);
      }
      if IsOperatingTime(next) {
        CountdownBoundedByOperatingTime(next, target);
      } else {
        var ns := NextOperatingStart(next);
        if ns < target {
          NextOperatingStartIsOpen(next);
          StartOfDayAligned(DayOf(ns), OPENING_HOUR * HOUR_MS);
          CountdownBoundedByOperatingTime(ns, target);
          OpenMonotone(next, ns);
          OpenAdditive(next, ns, target);
        } else {
          OpenMonotone(next, target);
        }
      }
    }
  }

  /**
    Counted from an operating instant on a whole minute up to a whole-minute target, the
    countdown is exactly the operating time in between, in minutes.
  */
  lemma {:induction false} CountdownMatchesOperatingTime(now: int, target: int)
    requires IsOperatingTime(now) && now <= target
    requires now % MINUTE_MS == 0 && target % MINUTE_MS == 0
    ensures WorkingMinutesFrom(now, target) * MINUTE_MS == OpenMs(now, target)
    decreases target - now
  {
    if now < target {
      var d := DayOf(now);
      var next := now + MINUTE_MS;
      OperatingTimeIsWindow(now);
      LeaveWindow(now);
      AlignedStep(now, target);
      AlignedStep(now, ClosingOfDay(d));
      AlignedSum(now, MINUTE_MS);
      OpenInWindow(now, next);
      OpenAdditive(now, next, target);
      if IsOperatingTime(next) {
        CountdownMatchesOperatingTime(next, target);
      } else {
        DayDecomposition(d, MsOfDay(now) + MINUTE_MS);
        OperatingTimeIsWindow(next);
        assert next == ClosingOfDay(d);
        var ns := NextOperatingStart(next);
        OpenAcrossClosedHop(next);
        OpenAdditive(next, ns, target);
        if ns < target {
          NextOperatingStartIsOpen(next);
          CountdownMatchesOperatingTime(ns, target);
        } else {
          OpenMonotone(next, target);
          OpenMonotone(target, ns);
          OpenAdditive(next, target, ns);
        }
      }
    }
  }

  /** Two distinct whole-minute instants are at least a minute apart. */
  lemma AlignedStep(a: int, b: int)
    requires a < b && a % MINUTE_MS == 0 && b % MINUTE_MS == 0
    ensures a + MINUTE_MS <= b
  {
    AlignedSum(b, a);
  }

  /**
    For a purchase made at a whole minute during operating hours, the countdown read at the
    purchase instant shows exactly the minutes that were paid for.
  */
  lemma CountdownAtPurchase(start: int, totalMinutes: int, e: int)
    requires totalMinutes > 0 && IsExpiry(start, totalMinutes, e)
    requires IsOperatingTime(start) && start % MINUTE_MS == 0 && e % MINUTE_MS == 0
    ensures RemainingWorkingMinutes(e, start) == totalMinutes
  {
    CountdownMatchesOperatingTime(start, e);
  }

  /**
    Every option on sale (at most 50 hours) expires within seven calendar days of the purchase:
    a full week already holds 3240 operating minutes.
  */
  lemma ExpiryWithinAWeek(start: int, totalMinutes: int, e: int)
    requires totalMinutes <= 3000 && IsExpiry(start, totalMinutes, e)
    ensures 0 <= DayOf(e) - DayOf(start) <= 7
  {
    var ds := DayOf(start);
    if DayOf(e) >= ds + 8 {
      var a, b := StartOfDay(ds + 1), StartOfDay(ds + 8);
      assert start < a <= b <= e;
      OpenBeforeStartOfDay(ds + 1);
      OpenBeforeStartOfDay(ds + 8);
      OpenBeforeNextWeek(ds + 1);
      OpenMonotone(start, a);
      OpenMonotone(b, e);
      OpenAdditive(start, a, e);
      OpenAdditive(a, b, e);
      assert false;
    }
  }
}

/**
  The weekly operating calendar of the regulated parking zone: Monday to Friday 08:00-18:00,
  Saturday 08:00-12:00, Sunday closed, each window half-open.
*/
module Calendar {
  import opened Instants

  /** Opening and closing wall-clock hours of one operating window. */
  datatype Window = Window(start: int, end: int)

  /** `OPERATING_HOURS.WEEKDAY`. */
  const WEEKDAY: Window := Window(8, 18)
  /** `OPERATING_HOURS.SATURDAY`. */
  const SATURDAY: Window := Window(8, 12)

  /** The hour at which every window opens; the scheduler writes it as the literal 8. */
  const OPENING_HOUR: int := 8

  /** `isOperatingTime`: the window test on `hour + minutes / 60`, scaled by 60 so it stays in integers. */
  predicate IsOperatingTime(t: int)
  {
    var day := Weekday(t);
    var time60 := Hours(t) * 60 + Minutes(t);
    if day == 0 then false
    else if day == 6 then time60 >= SATURDAY.start * 60 && time60 < SATURDAY.end * 60
    else time60 >= WEEKDAY.start * 60 && time60 < WEEKDAY.end * 60
  }

  /** Closing hour of weekday w (the `endHour` of the scheduler); meaningful for w != 0. */
  function ClosingHour(w: int): int
  {
    if w == 6 then SATURDAY.end else WEEKDAY.end
  }

  /** 08:00 of day d. */
  function OpeningOfDay(d: int): int
  {
    StartOfDay(d) + OPENING_HOUR * HOUR_MS
  }

  /** Closing instant of day d's window (`endOfOpToday`). */
  function ClosingOfDay(d: int): int
  {
    StartOfDay(d) + ClosingHour(WeekdayOfDay(d)) * HOUR_MS
  }

  /**
    The minute-resolution test is exactly membership of the half-open millisecond window
    [08:00, close) of a non-Sunday day.
  */
  lemma OperatingTimeIsWindow(t: int)
    ensures IsOperatingTime(t) <==>
              Weekday(t) != 0 && OpeningOfDay(DayOf(t)) <= t < ClosingOfDay(DayOf(t))
  {
    var ms := MsOfDay(t);
    var mm := ms / MINUTE_MS;
    assert Hours(t) == mm / 60;
    assert Hours(t) * 60 + Minutes(t) == mm;
  }

  /**
    The calendar in terms of the minute of the day: never open on Sunday, open on Saturday
    for minutes [480, 720), on Monday to Friday for minutes [480, 1080).
  */
  lemma OperatingTimeByMinute(t: int)
    ensures Weekday(t) == 0 ==> !IsOperatingTime(t)
    ensures Weekday(t) == 6 ==> (IsOperatingTime(t) <==> 480 <= MinuteOfDay(t) < 720)
    ensures 1 <= Weekday(t) <= 5 ==> (IsOperatingTime(t) <==> 480 <= MinuteOfDay(t) < 1080)
  {
    var mm := MinuteOfDay(t);
    assert Hours(t) == mm / 60;
    assert Hours(t) * 60 + Minutes(t) == mm;
  }

  /** Seconds and milliseconds never matter to the calendar. */
  lemma OperatingTimeIgnoresSeconds(t: int)
    ensures IsOperatingTime(t) == IsOperatingTime(TruncateToMinute(t))
  {
    var r := TruncateToMinute(t);
    var d := DayOf(t);
    assert MsOfDay(r) == MsOfDay(t) - t % MINUTE_MS;
    assert MinuteOfDay(r) == MinuteOfDay(t);
    OperatingTimeByMinute(t);
    OperatingTimeByMinute(r);
  }

  /**
    `getNextOperatingStart`, as what it denotes: 08:00:00.000 of the first day after t's day
    that is not a Sunday.
  */
  function NextOperatingStart(t: int): (r: int)
    ensures Weekday(r) != 0
    ensures MsOfDay(r) == OPENING_HOUR * HOUR_MS
    ensures DayOf(r) == DayOf(t) + (if Weekday(t) == 6 then 2 else 1)
    ensures t < r
  {
    var d := DayOf(t) + 1;
    var day := if WeekdayOfDay(d) == 0 then d + 1 else d;
    DayDecomposition(day, OPENING_HOUR * HOUR_MS);
    OpeningOfDay(day)
  }

  /** The next operating start is itself an operating instant. */
  lemma NextOperatingStartIsOpen(t: int)
    ensures IsOperatingTime(NextOperatingStart(t))
    ensures NextOperatingStart(t) == OpeningOfDay(DayOf(NextOperatingStart(t)))
  {
    OperatingTimeIsWindow(NextOperatingStart(t));
  }

  /** `getNextOperatingStart`, step by step on a copy of the date, as the source mutates it. */
  method GetNextOperatingStart(date: int) returns (next: int)
    ensures next == NextOperatingStart(date)
  {
    next := date;
    next := TruncateToMinute(next);          // next.setSeconds(0, 0)
    next := AddDays(next, 1);                // next.setDate(next.getDate() + 1)
    next := SetTime(next, 8, 0, 0, 0);       // next.setHours(8, 0, 0, 0)
    DayDecomposition(DayOf(date) + 1, 8 * HOUR_MS);
    if Weekday(next) == 0 {
      next := AddDays(next, 1);              // next.setDate(next.getDate() + 1)
    }
  }
}

/**
  The live session screen: whether the session is running or suspended, the countdown of
  operating minutes and its hh:mm:00 display, and the announced resume date.
*/
module ActiveSession {
  import opened Text
  import opened Types
  import opened Instants
  import opened Calendar
  import opened OperatingMeasure
  import opened ParkingUtils

  /**
    `formatTime(totalMins)`: zero-padded hours, ':', zero-padded minutes, ':00'. The hours field
    and the minutes field read back as the count, the minutes field stays below 60, and the
    result is 8 characters until the count reaches 100 hours; a longer hours field has no
    leading zero.
  */
  function FormatTime(totalMins: nat): (r: string)
    ensures |r| >= 8 && r[|r| - 6] == ':' && r[|r| - 3..] == ":00"
    ensures AllDigits(r[..|r| - 6]) && AllDigits(r[|r| - 5..|r| - 3])
    ensures 0 <= DecimalValue(r[|r| - 5..|r| - 3]) < 60
    ensures DecimalValue(r[..|r| - 6]) * 60 + DecimalValue(r[|r| - 5..|r| - 3]) == totalMins
    ensures |r| == 8 <==> totalMins < 6000
    ensures |r| > 8 ==> r[0] != '0'
  {
    var h := totalMins / 60;
    var m := totalMins % 60;
    var hh := PadStart2(NatToString(h));
    var mm := PadStart2(NatToString(m));
    var r := hh + ":" + mm + ":00";
    assert r[..|r| - 6] == hh && r[|r| - 5..|r| - 3] == mm && r[|r| - 6] == ':' && r[|r| - 3..] == ":00";
    r
  }

  /**
    `updateTime`, with the clock read passed in as `now`: the session is shown as running
    exactly when the calendar is open now, and the countdown is getRemainingWorkingMinutes.
  */
  method UpdateTime(active: ActiveParking, now: int) returns (isCurrentlyActive: bool, remainingUsefulMinutes: int)
    ensures isCurrentlyActive <==> IsOperatingTime(now)
    ensures remainingUsefulMinutes == RemainingWorkingMinutes(active.endTime, now)
    ensures remainingUsefulMinutes >= 0 && (now >= active.endTime ==> remainingUsefulMinutes == 0)
  {
    var isOp := IsOperatingTime(now);
    isCurrentlyActive := isOp;
    var mins := GetRemainingWorkingMinutes(active.endTime, now);
    remainingUsefulMinutes := mins;
  }


  /** `nextStart = getNextOperatingStart(new Date())`, the instant the suspended banner announces. */
  method AnnouncedResume(now: int) returns (nextStart: int)
    ensures nextStart == NextOperatingStart(now)
    ensures now < nextStart && IsOperatingTime(nextStart) && MsOfDay(nextStart) == OPENING_HOUR * HOUR_MS
  {
    nextStart := GetNextOperatingStart(now);
    NextOperatingStartIsOpen(now);
  }

  /** The calendar is closed now exactly on a Sunday, before 08:00, or from the day's close on. */
  lemma SuspendedCases(now: int)
    ensures !IsOperatingTime(now) <==>
              Weekday(now) == 0 || now < OpeningOfDay(DayOf(now)) || now >= ClosingOfDay(DayOf(now))
  {
    OperatingTimeIsWindow(now);
  }

  /**
    Suspended on a Sunday or after the close, the announced instant is when the session
    really resumes: it is an operating instant and none comes before it.
  */
  lemma AnnouncedResumeAfterClose(now: int)
    requires Weekday(now) == 0 || now >= ClosingOfDay(DayOf(now))
    ensures var r := NextOperatingStart(now);
            IsOperatingTime(r) && forall t :: now <= t < r ==> !IsOperatingTime(t)
  {
    OpenAcrossClosedHop(now);
    NextOperatingStartIsOpen(now);
    NoOperatingTimeMeansClosed(now, NextOperatingStart(now));
  }

  /**
    Suspended before 08:00 on Monday to Saturday, the announcement names the next operating
    day, although the session resumes at 08:00 the same day.
  */
  lemma AnnouncedResumeBeforeOpening(now: int)
    requires Weekday(now) != 0 && now < OpeningOfDay(DayOf(now))
    ensures !IsOperatingTime(now)
    ensures IsOperatingTime(OpeningOfDay(DayOf(now)))
    ensures now < OpeningOfDay(DayOf(now)) < NextOperatingStart(now)
    ensures DayOf(NextOperatingStart(now)) > DayOf(now)
  {
    var d := DayOf(now);
    OperatingTimeIsWindow(now);
    DayDecomposition(d, OPENING_HOUR * HOUR_MS);
    OperatingTimeIsWindow(OpeningOfDay(d));
  }
}

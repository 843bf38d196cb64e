/**
  Worked scenarios of the scheduler, in the week of Monday 2025-01-06 (day 20094).
  Each method runs the model's CalculateParkingEndTime on one purchase and states the expiry.
*/
module ParkingExamples {
  import opened Instants
  import opened Calendar
  import opened OperatingMeasure
  import opened ParkingUtils

  const MONDAY: int := 20094      // 2025-01-06
  const TUESDAY: int := 20095
  const WEDNESDAY: int := 20096
  const SATURDAY_DAY: int := 20099
  const SUNDAY: int := 20100
  const NEXT_MONDAY: int := 20101

  /** hh:mm on day d. */
  function At(d: int, h: int, m: int): int
  {
    StartOfDay(d) + h * HOUR_MS + m * MINUTE_MS
  }

  /** Monday 17:30 + 60 min: 30 minutes on Monday, the other 30 roll over to Tuesday 08:30. */
  method RolloverToNextMorning() returns (e: int)
    ensures e == At(TUESDAY, 8, 30)
  {
    e := CalculateParkingEndTime(At(MONDAY, 17, 30), 60);
    assert IsExpiry(At(MONDAY, 17, 30), 60, At(TUESDAY, 8, 30));
    ExpiryUnique(At(MONDAY, 17, 30), 60, e, At(TUESDAY, 8, 30));
  }

  /** Saturday 11:45 + 30 min: 15 minutes on Saturday, Sunday skipped, Monday 08:15. */
  method RolloverSkipsSunday() returns (e: int)
    ensures e == At(NEXT_MONDAY, 8, 15)
  {
    e := CalculateParkingEndTime(At(SATURDAY_DAY, 11, 45), 30);
    SaturdaySpill();
    assert IsExpiry(At(SATURDAY_DAY, 11, 45), 30, At(NEXT_MONDAY, 8, 15));
    ExpiryUnique(At(SATURDAY_DAY, 11, 45), 30, e, At(NEXT_MONDAY, 8, 15));
  }

  /** 15 operating minutes on Saturday after 11:45, none until Monday 08:00, then 15 more. */
  lemma SaturdaySpill()
    ensures OpenMs(At(SATURDAY_DAY, 11, 45), At(NEXT_MONDAY, 8, 15)) == 30 * MINUTE_MS
  {
    var a, close, open, e := At(SATURDAY_DAY, 11, 45), At(SATURDAY_DAY, 12, 0), At(NEXT_MONDAY, 8, 0), At(NEXT_MONDAY, 8, 15);
    OpenInWindow(a, close);
    assert NextOperatingStart(close) == open;
    OpenAcrossClosedHop(close);
    OpenInWindow(open, e);
    OpenAdditive(a, close, open);
    OpenAdditive(a, open, e);
  }

  /** Wednesday 09:00 + 45 min fits the window: Wednesday 09:45. */
  method FitsInWindow() returns (e: int)
    ensures e == At(WEDNESDAY, 9, 45)
  {
    e := CalculateParkingEndTime(At(WEDNESDAY, 9, 0), 45);
  }

  /** Tuesday 20:00 + 30 min is not clamped; the walk hops to Wednesday 08:00 and ends 08:30. */
  method StartAfterClose() returns (e: int)
    ensures e == At(WEDNESDAY, 8, 30)
  {
    e := CalculateParkingEndTime(At(TUESDAY, 20, 0), 30);
    assert IsExpiry(At(TUESDAY, 20, 0), 30, At(WEDNESDAY, 8, 30));
    ExpiryUnique(At(TUESDAY, 20, 0), 30, e, At(WEDNESDAY, 8, 30));
  }

  /** Tuesday 07:00 + 60 min is clamped to Tuesday 08:00 and ends at 09:00. */
  method StartBeforeOpening() returns (e: int)
    ensures e == At(TUESDAY, 9, 0)
  {
    e := CalculateParkingEndTime(At(TUESDAY, 7, 0), 60);
  }

  /** Sunday 10:00 + 30 min is not clamped; the walk hops to Monday 08:00 and ends 08:30. */
  method StartOnSunday() returns (e: int)
    ensures e == At(NEXT_MONDAY, 8, 30)
  {
    e := CalculateParkingEndTime(At(SUNDAY, 10, 0), 30);
    assert IsExpiry(At(SUNDAY, 10, 0), 30, At(NEXT_MONDAY, 8, 30));
    ExpiryUnique(At(SUNDAY, 10, 0), 30, e, At(NEXT_MONDAY, 8, 30));
  }

  /**
    The countdown is not the inverse of the expiry: bought at Tuesday 07:00 for 60 minutes,
    the session expires at 09:00, yet the countdown shows 0 at 07:00 (its jump from the closed
    07:01 goes to Wednesday 08:00, past the expiry) and 60 at 08:00, so it also grows as time
    passes.
  */
  lemma CountdownSkipsMorningWindow()
    ensures IsExpiry(At(TUESDAY, 7, 0), 60, At(TUESDAY, 9, 0))
    ensures RemainingWorkingMinutes(At(TUESDAY, 9, 0), At(TUESDAY, 7, 0)) == 0
    ensures RemainingWorkingMinutes(At(TUESDAY, 9, 0), At(TUESDAY, 8, 0)) == 60
  {
    MorningPurchaseExpiry();
    CountdownBeforeOpening();
    CountdownAtOpening();
  }

  /** Bought at Tuesday 07:00, 60 minutes expire at 09:00: the hour before 08:00 is closed. */
  lemma MorningPurchaseExpiry()
    ensures IsExpiry(At(TUESDAY, 7, 0), 60, At(TUESDAY, 9, 0))
  {
    var now, open, end := At(TUESDAY, 7, 0), At(TUESDAY, 8, 0), At(TUESDAY, 9, 0);
    OpenBeforeOpening(now, open);
    OpenInWindow(open, end);
    OpenAdditive(now, open, end);
  }

  /** Read at 07:00 the countdown stops at once: the hop from 07:01 lands past the expiry. */
  lemma CountdownBeforeOpening()
    ensures RemainingWorkingMinutes(At(TUESDAY, 9, 0), At(TUESDAY, 7, 0)) == 0
  {
    var now := At(TUESDAY, 7, 0);
    assert !IsOperatingTime(now) && !IsOperatingTime(now + MINUTE_MS);
    assert NextOperatingStart(now + MINUTE_MS) == At(WEDNESDAY, 8, 0);
  }

  /** Read at 08:00 the countdown shows the 60 operating minutes up to 09:00. */
  lemma CountdownAtOpening()
    ensures RemainingWorkingMinutes(At(TUESDAY, 9, 0), At(TUESDAY, 8, 0)) == 60
  {
    var open, end := At(TUESDAY, 8, 0), At(TUESDAY, 9, 0);
    assert IsOperatingTime(open);
    CountdownMatchesOperatingTime(open, end);
    OpenInWindow(open, end);
  }
}

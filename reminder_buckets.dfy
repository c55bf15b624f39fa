/** What each bucket of the UTC resolver in Procrastinator/Models/Reminder.cs
    promises about the instant it returns, stated in calendar terms. */
module ReminderBuckets {
  import opened Results
  import opened Calendar
  import opened Timeline
  import opened ReminderModel

  // What each bucket promises

  /** Imminent: a whole number of minutes from now, at most four, since
      `rand.Next(0, 5)` excludes 5. */
  lemma ImminentWithinFiveMinutes(now: Instant, minutes: int)
    requires InRange(now) && 0 <= minutes < 5
    ensures var r := GetReminderDateTime(0, now, minutes);
            && (r.Ok? <==> now + minutes * SecondsPerMinute <= MaxInstant)
            && (r.Ok? ==> now <= r.value <= now + 4 * SecondsPerMinute
                          && (r.value - now) % SecondsPerMinute == 0)
  {
  }

  /** Today: between now and 23:59:59 of now's date, strictly before that
      last second unless the draw is zero; fails only on the last day
      DateTime holds, where `now.Date.AddDays(1)` throws. */
  lemma TodayStaysOnNowsDate(now: Instant, draw: int)
    requires InRange(now) && DrawFits(1, now, draw)
    ensures var r := GetReminderDateTime(1, now, draw);
            && (r.Err? <==> DayNumber(now) + 1 == DaysTo10000)
            && (r.Ok? ==> && now <= r.value <= LastSecondOfDay(now)
                          && (r.value < LastSecondOfDay(now) || r.value == now)
                          && InRange(r.value) && DateOf(r.value) == DateOf(now))
  {
    var r := GetReminderDateTime(1, now, draw);
    if r.Ok? {
      assert DayNumber(r.value) == DayNumber(now);
    }
  }

  /** Tomorrow: on the calendar date after now's, from its midnight up to
      its 23:59:59. */
  lemma TomorrowIsNextDate(now: Instant, draw: int)
    requires InRange(now) && DrawFits(2, now, draw)
    ensures var r := GetReminderDateTime(2, now, draw);
            && (r.Err? <==> DaysTo10000 <= DayNumber(now) + 2)
            && (r.Ok? ==> && Midnight(r.value) == Midnight(now) + SecondsPerDay
                          && (r.value < LastSecondOfDay(r.value) || r.value == Midnight(r.value))
                          && InRange(r.value) && DateOf(r.value) == NextDate(DateOf(now)))
  {
    var r := GetReminderDateTime(2, now, draw);
    if r.Ok? {
      var start := Midnight(now) + SecondsPerDay;
      assert DayNumber(r.value) == DayNumber(start);
      NextMidnight(now);
    }
  }

  /** ThisWeek: from now to the second before the Sunday midnight that ends
      now's week. */
  lemma ThisWeekEndsAtNextSunday(now: Instant, draw: int)
    requires InRange(now) && DrawFits(3, now, draw)
    ensures var r := GetReminderDateTime(3, now, draw);
            && (r.Err? <==> MaxInstant < NextSunday(now))
            && (r.Ok? ==> && now <= r.value < NextSunday(now)
                          && (r.value < NextSunday(now) - 1 || r.value == now))
  {
  }

  /** NextWeek: the seven days that start at that Sunday midnight, up to
      the second before the following Sunday. */
  lemma NextWeekStartsAtNextSunday(now: Instant, draw: int)
    requires InRange(now) && DrawFits(4, now, draw)
    ensures var r := GetReminderDateTime(4, now, draw);
            var b := NextSunday(now);
            && (r.Err? <==> MaxInstant < b + 7 * SecondsPerDay)
            && (r.Ok? ==> && b <= r.value < b + 7 * SecondsPerDay
                          && (r.value < b + 7 * SecondsPerDay - 1 || r.value == b))
  {
  }

  /** ThisMonth: from now to 23:59:59 on the last day of now's month, so the
      result keeps now's year and month; it never fails, and on the last day
      of a month it lies less than a day after now. */
  lemma ThisMonthKeepsMonth(now: Instant, draw: int)
    requires InRange(now) && DrawFits(5, now, draw)
    ensures var r := GetReminderDateTime(5, now, draw);
            var d := DateOf(now);
            && r.Ok? && now <= r.value && InRange(r.value)
            && DateOf(r.value).year == d.year && DateOf(r.value).month == d.month
            && (d.day == DaysInMonth(d.year, d.month) ==> r.value - now < SecondsPerDay)
  {
    ThisMonthDrawKeepsMonth(now, draw);
  }

  /** NextMonth: in the month after now's (December rolls over to January
      of the next year), from day 1 00:00:00 to the month's last day at
      23:59:59; fails only in December 9999. */
  lemma NextMonthRollsOver(now: Instant, draw: int)
    requires InRange(now) && DrawFits(6, now, draw)
    ensures var r := GetReminderDateTime(6, now, draw);
            var d := DateOf(now);
            && (r.Err? <==> d.year == 9999 && d.month == 12)
            && (r.Ok? ==> && InRange(r.value)
                          && DateOf(r.value).month == (if d.month == 12 then 1 else d.month + 1)
                          && DateOf(r.value).year == (if d.month == 12 then d.year + 1 else d.year))
  {
    NextMonthDrawRollsOver(now, draw);
  }

  /** LaterThisYear: from now to December 31 23:59:59 of now's year, so the
      result stays in now's year; it never fails. */
  lemma LaterThisYearKeepsYear(now: Instant, draw: int)
    requires InRange(now) && DrawFits(7, now, draw)
    ensures var r := GetReminderDateTime(7, now, draw);
            && r.Ok? && now <= r.value && InRange(r.value)
            && DateOf(r.value).year == DateOf(now).year
  {
    LaterThisYearDrawKeepsYear(now, draw);
  }

  /** NextYear: always in calendar year `now.Year + 1`; fails only in 9999. */
  lemma NextYearIsFollowingYear(now: Instant, draw: int)
    requires InRange(now) && DrawFits(8, now, draw)
    ensures var r := GetReminderDateTime(8, now, draw);
            && (r.Err? <==> DateOf(now).year == 9999)
            && (r.Ok? ==> InRange(r.value) && DateOf(r.value).year == DateOf(now).year + 1)
  {
    NextYearDrawIsFollowingYear(now, draw);
  }
}

/** The older resolver of Procrastinator/Reminder.cs against the newer one of
    Procrastinator/Models/Reminder.cs: every bucket of the older enum is the
    newer bucket one place further on, computed the same way, so what each
    newer bucket promises carries over. */
module LegacyBuckets {
  import opened Results
  import opened Calendar
  import opened Timeline
  import Entities
  import ReminderModel
  import ReminderBuckets

  /** The older enum has no Imminent bucket: its value 0 is Today, where the
      newer enum's 0 is Imminent, and every older value `v` names the newer
      value `v + 1`. */
  lemma NoImminentBucket(v: int)
    ensures Entities.TimelineOf(v).Some? <==> 0 <= v < 8
    ensures Entities.TimelineOf(v).Some? <==> ReminderModel.TimelineOf(v + 1).Some? && v + 1 != 0
    ensures Entities.TimelineOf(0) == Some(Entities.Today)
    ensures ReminderModel.TimelineOf(0) == Some(ReminderModel.Imminent)
  {
  }

  /** For every value but -1 (which is the newer Imminent), the older
      resolver admits the same draws as the newer one at `v + 1` and returns
      the same result, including InvalidTimeline for values outside the enum. */
  lemma AgreesWithNewerResolver(v: int, now: Instant, draw: int)
    requires InRange(now) && v != -1
    ensures Entities.DrawFits(v, now, draw) == ReminderModel.DrawFits(v + 1, now, draw)
    ensures Entities.DrawFits(v, now, draw) ==>
              Entities.GetReminderDateTime(v, now, draw) == ReminderModel.GetReminderDateTime(v + 1, now, draw)
  {
    if v == 0 {
      SameArm0(now, draw);
    } else if v == 1 {
      SameArm1(now, draw);
    } else if v == 2 {
      SameArm2(now, draw);
    } else if v == 3 {
      SameArm3(now, draw);
    } else if v == 4 {
      SameArm4(now, draw);
    } else if v == 5 {
      SameArm5(now, draw);
    } else if v == 6 {
      SameArm6(now, draw);
    } else if v == 7 {
      SameArm7(now, draw);
    }
  }

  // One arm of each switch at a time.

  lemma SameArm0(now: Instant, draw: int)
    requires InRange(now)
    ensures Entities.DrawFits(0, now, draw) == ReminderModel.DrawFits(1, now, draw)
    ensures Entities.DrawFits(0, now, draw) ==>
              Entities.GetReminderDateTime(0, now, draw) == ReminderModel.GetReminderDateTime(1, now, draw)
  {
  }

  lemma SameArm1(now: Instant, draw: int)
    requires InRange(now)
    ensures Entities.DrawFits(1, now, draw) == ReminderModel.DrawFits(2, now, draw)
    ensures Entities.DrawFits(1, now, draw) ==>
              Entities.GetReminderDateTime(1, now, draw) == ReminderModel.GetReminderDateTime(2, now, draw)
  {
  }

  lemma SameArm2(now: Instant, draw: int)
    requires InRange(now)
    ensures Entities.DrawFits(2, now, draw) == ReminderModel.DrawFits(3, now, draw)
    ensures Entities.DrawFits(2, now, draw) ==>
              Entities.GetReminderDateTime(2, now, draw) == ReminderModel.GetReminderDateTime(3, now, draw)
  {
  }

  lemma SameArm3(now: Instant, draw: int)
    requires InRange(now)
    ensures Entities.DrawFits(3, now, draw) == ReminderModel.DrawFits(4, now, draw)
    ensures Entities.DrawFits(3, now, draw) ==>
              Entities.GetReminderDateTime(3, now, draw) == ReminderModel.GetReminderDateTime(4, now, draw)
  {
  }

  lemma SameArm4(now: Instant, draw: int)
    requires InRange(now)
    ensures Entities.DrawFits(4, now, draw) == ReminderModel.DrawFits(5, now, draw)
    ensures Entities.DrawFits(4, now, draw) ==>
              Entities.GetReminderDateTime(4, now, draw) == ReminderModel.GetReminderDateTime(5, now, draw)
  {
  }

  lemma SameArm5(now: Instant, draw: int)
    requires InRange(now)
    ensures Entities.DrawFits(5, now, draw) == ReminderModel.DrawFits(6, now, draw)
    ensures Entities.DrawFits(5, now, draw) ==>
              Entities.GetReminderDateTime(5, now, draw) == ReminderModel.GetReminderDateTime(6, now, draw)
  {
  }

  lemma SameArm6(now: Instant, draw: int)
    requires InRange(now)
    ensures Entities.DrawFits(6, now, draw) == ReminderModel.DrawFits(7, now, draw)
    ensures Entities.DrawFits(6, now, draw) ==>
              Entities.GetReminderDateTime(6, now, draw) == ReminderModel.GetReminderDateTime(7, now, draw)
  {
  }

  lemma SameArm7(now: Instant, draw: int)
    requires InRange(now)
    ensures Entities.DrawFits(7, now, draw) == ReminderModel.DrawFits(8, now, draw)
    ensures Entities.DrawFits(7, now, draw) ==>
              Entities.GetReminderDateTime(7, now, draw) == ReminderModel.GetReminderDateTime(8, now, draw)
  {
  }

  // What each older bucket promises

  /** Today: between now and 23:59:59 of now's date, on now's date. */
  lemma TodayStaysOnNowsDate(now: Instant, draw: int)
    requires InRange(now) && Entities.DrawFits(0, now, draw)
    ensures var r := Entities.GetReminderDateTime(0, now, draw);
            && (r.Err? <==> DayNumber(now) + 1 == DaysTo10000)
            && (r.Ok? ==> && now <= r.value <= LastSecondOfDay(now)
                          && (r.value < LastSecondOfDay(now) || r.value == now)
                          && InRange(r.value) && DateOf(r.value) == DateOf(now))
  {
    SameArm0(now, draw);
    ReminderBuckets.TodayStaysOnNowsDate(now, draw);
  }

  /** Tomorrow: on the calendar date after now's, from its midnight up to its 23:59:59. */
  lemma TomorrowIsNextDate(now: Instant, draw: int)
    requires InRange(now) && Entities.DrawFits(1, now, draw)
    ensures var r := Entities.GetReminderDateTime(1, now, draw);
            && (r.Err? <==> DaysTo10000 <= DayNumber(now) + 2)
            && (r.Ok? ==> && Midnight(r.value) == Midnight(now) + SecondsPerDay
                          && (r.value < LastSecondOfDay(r.value) || r.value == Midnight(r.value))
                          && InRange(r.value) && DateOf(r.value) == NextDate(DateOf(now)))
  {
    SameArm1(now, draw);
    ReminderBuckets.TomorrowIsNextDate(now, draw);
  }

  /** ThisWeek: from now to the second before the Sunday midnight that ends now's week. */
  lemma ThisWeekEndsAtNextSunday(now: Instant, draw: int)
    requires InRange(now) && Entities.DrawFits(2, now, draw)
    ensures var r := Entities.GetReminderDateTime(2, now, draw);
            && (r.Err? <==> MaxInstant < NextSunday(now))
            && (r.Ok? ==> && now <= r.value < NextSunday(now)
                          && (r.value < NextSunday(now) - 1 || r.value == now))
  {
    SameArm2(now, draw);
    ReminderBuckets.ThisWeekEndsAtNextSunday(now, draw);
  }

  /** NextWeek: seven days less a second from that Sunday midnight. */
  lemma NextWeekStartsAtNextSunday(now: Instant, draw: int)
    requires InRange(now) && Entities.DrawFits(3, now, draw)
    ensures var r := Entities.GetReminderDateTime(3, now, draw);
            var b := NextSunday(now);
            && (r.Err? <==> MaxInstant < b + 7 * SecondsPerDay)
            && (r.Ok? ==> && b <= r.value < b + 7 * SecondsPerDay
                          && (r.value < b + 7 * SecondsPerDay - 1 || r.value == b))
  {
    SameArm3(now, draw);
    ReminderBuckets.NextWeekStartsAtNextSunday(now, draw);
  }

  /** ThisMonth: at or after now, within now's year and month; never fails. */
  lemma ThisMonthKeepsMonth(now: Instant, draw: int)
    requires InRange(now) && Entities.DrawFits(4, now, draw)
    ensures var r := Entities.GetReminderDateTime(4, now, draw);
            var d := DateOf(now);
            && r.Ok? && now <= r.value && InRange(r.value)
            && DateOf(r.value).year == d.year && DateOf(r.value).month == d.month
            && (d.day == DaysInMonth(d.year, d.month) ==> r.value - now < SecondsPerDay)
  {
    SameArm4(now, draw);
    ReminderBuckets.ThisMonthKeepsMonth(now, draw);
  }

  /** NextMonth: the month after now's, December rolling over to January of
      the next year; fails only in December 9999. */
  lemma NextMonthRollsOver(now: Instant, draw: int)
    requires InRange(now) && Entities.DrawFits(5, now, draw)
    ensures var r := Entities.GetReminderDateTime(5, now, draw);
            var d := DateOf(now);
            && (r.Err? <==> d.year == 9999 && d.month == 12)
            && (r.Ok? ==> && InRange(r.value)
                          && DateOf(r.value).month == (if d.month == 12 then 1 else d.month + 1)
                          && DateOf(r.value).year == (if d.month == 12 then d.year + 1 else d.year))
  {
    SameArm5(now, draw);
    ReminderBuckets.NextMonthRollsOver(now, draw);
  }

  /** LaterThisYear: at or after now and within now's year; never fails. */
  lemma LaterThisYearKeepsYear(now: Instant, draw: int)
    requires InRange(now) && Entities.DrawFits(6, now, draw)
    ensures var r := Entities.GetReminderDateTime(6, now, draw);
            && r.Ok? && now <= r.value && InRange(r.value)
            && DateOf(r.value).year == DateOf(now).year
  {
    SameArm6(now, draw);
    ReminderBuckets.LaterThisYearKeepsYear(now, draw);
  }

  /** NextYear: in calendar year `now.Year + 1`; fails only in 9999. */
  lemma NextYearIsFollowingYear(now: Instant, draw: int)
    requires InRange(now) && Entities.DrawFits(7, now, draw)
    ensures var r := Entities.GetReminderDateTime(7, now, draw);
            && (r.Err? <==> DateOf(now).year == 9999)
            && (r.Ok? ==> InRange(r.value) && DateOf(r.value).year == DateOf(now).year + 1)
  {
    SameArm7(now, draw);
    ReminderBuckets.NextYearIsFollowingYear(now, draw);
  }
}

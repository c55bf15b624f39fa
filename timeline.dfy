/** The calendar windows that both copies of GetReminderDateTime draw a due
    instant from (Procrastinator/Models/Reminder.cs and Procrastinator/Reminder.cs
    compute them with the same expressions).  A window runs from its start to
    the "last second" the code computes (23:59:59 of its final day); the random
    fraction `rand.NextDouble()` scaled by the window's span becomes a whole
    number of seconds `offset` supplied by the caller. */
module Timeline {
  import opened Results
  import opened Calendar

  /** Why a resolution fails.  The source throws ArgumentOutOfRangeException
      for both: an enum value outside the declared members, and a date
      computation that leaves DateTime's range. */
  datatype TimelineError = InvalidTimeline | DateOutOfRange

  /** The window `[start, last]` of a bucket. */
  datatype Window = Window(start: Instant, last: Instant)

  /** The span `last - start` whose TotalSeconds scales the random fraction. */
  function Span(w: Window): int {
    w.last - w.start
  }

  /** The offsets `rand.NextDouble() * span` can produce, in whole seconds:
      below the span, or zero when the span is zero. */
  predicate Fits(w: Window, offset: int) {
    0 <= offset && (offset < Span(w) || offset == 0)
  }

  /** A window that is absent (the code threw) or admits the offset. */
  predicate OptionFits(w: Option<Window>, offset: int) {
    w.Some? ==> Fits(w.value, offset)
  }

  /** `start.AddSeconds(offset)` for the window the code computed, or the
      out-of-range error the window computation threw. */
  function Draw(w: Option<Window>, offset: int): (r: Result<Instant, TimelineError>)
    requires OptionFits(w, offset)
    ensures r.Err? <==> w.None?
    ensures r.Err? ==> r.error == DateOutOfRange
    ensures r.Ok? ==> w.value.start <= r.value
    ensures r.Ok? && 0 <= Span(w.value) ==> r.value <= w.value.last
    ensures r.Ok? ==> r.value < w.value.last || r.value == w.value.start
  {
    match w
    case None => Err(DateOutOfRange)
    case Some(win) => Ok(win.start + offset)
  }

  /** The last second of the day of `t`: `t.Date.AddDays(1).AddSeconds(-1)`
      when that day is not the last one DateTime holds. */
  function LastSecondOfDay(t: Instant): (r: Instant)
    ensures DayNumber(r) == DayNumber(t) && t <= r
    ensures r % SecondsPerDay == 23 * SecondsPerHour + 59 * SecondsPerMinute + 59
  {
    Midnight(t) + SecondsPerDay - 1
  }

  /** `now.AddMinutes(minutes)` for the Imminent bucket. */
  function AddMinutes(now: Instant, minutes: int): (r: Result<Instant, TimelineError>)
    ensures r.Ok? <==> InRange(now + minutes * SecondsPerMinute)
    ensures r.Ok? ==> r.value - now == minutes * SecondsPerMinute
    ensures r.Err? ==> r.error == DateOutOfRange
  {
    var t := now + minutes * SecondsPerMinute;
    if InRange(t) then Ok(t) else Err(DateOutOfRange)
  }

  /** Today: from now to `now.Date.AddDays(1).AddSeconds(-1)`. */
  function TodayWindow(now: Instant): (w: Option<Window>)
    requires InRange(now)
    ensures w.Some? <==> DayNumber(now) + 1 < DaysTo10000
    ensures w.Some? ==> w.value == Window(now, LastSecondOfDay(now))
  {
    match AddDays(Midnight(now), 1)
    case None => None
    case Some(tomorrow) => Some(Window(now, tomorrow - 1))
  }

  /** Tomorrow: from `now.Date.AddDays(1)` to one day later less a second. */
  function TomorrowWindow(now: Instant): (w: Option<Window>)
    requires InRange(now)
    ensures w.Some? <==> DayNumber(now) + 2 < DaysTo10000
    ensures w.Some? ==> w.value.start == Midnight(now) + SecondsPerDay
                        && w.value.last == LastSecondOfDay(w.value.start)
  {
    match AddDays(Midnight(now), 1)
    case None => None
    case Some(start) =>
      match AddDays(start, 1)
      case None => None
      case Some(end) => Some(Window(start, end - 1))
  }

  /** The week boundary `now.Date.AddDays(7 - (int)now.DayOfWeek)`: the
      midnight that starts the Sunday after now's Sunday-to-Saturday week.
      (The code's comments speak of Monday-to-Sunday weeks; the arithmetic,
      with Sunday = 0, is what is modelled.) */
  function NextSunday(now: Instant): (b: Instant)
    ensures DayOfWeek(b) == Sunday && b % SecondsPerDay == 0
    ensures 1 <= DayNumber(b) - DayNumber(now) <= 7
    ensures now < b
  {
    var n := DayNumber(now);
    var b := Midnight(now) + (7 - DayOfWeek(now)) * SecondsPerDay;
    assert DayNumber(b) == n + 7 - (n + 1) % 7;
    b
  }

  /** ThisWeek: from now to the last second before the week boundary. */
  function ThisWeekWindow(now: Instant): (w: Option<Window>)
    requires InRange(now)
    ensures w.Some? <==> InRange(NextSunday(now))
    ensures w.Some? ==> w.value == Window(now, NextSunday(now) - 1)
  {
    match AddDays(Midnight(now), 7 - DayOfWeek(now))
    case None => None
    case Some(weekStart) => Some(Window(now, weekStart - 1))
  }

  /** NextWeek: the seven days from the week boundary, less a second. */
  function NextWeekWindow(now: Instant): (w: Option<Window>)
    requires InRange(now)
    ensures w.Some? <==> InRange(NextSunday(now) + 7 * SecondsPerDay)
    ensures w.Some? ==> w.value == Window(NextSunday(now), NextSunday(now) + 7 * SecondsPerDay - 1)
  {
    match AddDays(Midnight(now), 7 - DayOfWeek(now))
    case None => None
    case Some(start) =>
      match AddDays(start, 7)
      case None => None
      case Some(end) => Some(Window(start, end - 1))
  }

  /** ThisMonth: from now to 23:59:59 on the last day of now's month. */
  function ThisMonthWindow(now: Instant): (w: Option<Window>)
    requires InRange(now)
    ensures w.Some?
    ensures var d := DateOf(now);
            w.value.start == now
            && w.value.last == ToInstant(Date(d.year, d.month, DaysInMonth(d.year, d.month)), 23, 59, 59)
  {
    var d := DateOf(now);
    match MakeInstant(d.year, d.month, DaysInMonth(d.year, d.month), 23, 59, 59)
    case None => None
    case Some(end) => Some(Window(now, end))
  }

  /** The month after now's and its year: December rolls over to January of the next year. */
  function NextMonthOf(d: Date): (r: (int, int))
    requires ValidDate(d)
    ensures 1 <= r.1 <= 12
    ensures d.month < 12 ==> r == (d.year, d.month + 1)
    ensures d.month == 12 ==> r == (d.year + 1, 1)
  {
    var month := if d.month == 12 then 1 else d.month + 1;
    var year := if d.month == 12 then d.year + 1 else d.year;
    (year, month)
  }

  /** NextMonth: from 00:00:00 on the first to 23:59:59 on the last day of the next month. */
  function NextMonthWindow(now: Instant): (w: Option<Window>)
    requires InRange(now)
    ensures var (y, m) := NextMonthOf(DateOf(now));
            && (w.Some? <==> y <= 9999)
            && (w.Some? ==> w.value == Window(ToInstant(Date(y, m, 1), 0, 0, 0),
                                              ToInstant(Date(y, m, DaysInMonth(y, m)), 23, 59, 59)))
  {
    var (year, month) := NextMonthOf(DateOf(now));
    match MakeInstant(year, month, 1, 0, 0, 0)
    case None => None
    case Some(start) =>
      match MakeInstant(year, month, DaysInMonth(year, month), 23, 59, 59)
      case None => None
      case Some(end) => Some(Window(start, end))
  }

  /** LaterThisYear: from now to 23:59:59 on December 31 of now's year. */
  function LaterThisYearWindow(now: Instant): (w: Option<Window>)
    requires InRange(now)
    ensures w.Some?
    ensures w.value == Window(now, ToInstant(Date(DateOf(now).year, 12, 31), 23, 59, 59))
  {
    match MakeInstant(DateOf(now).year, 12, 31, 23, 59, 59)
    case None => None
    case Some(end) => Some(Window(now, end))
  }

  /** NextYear: from January 1 00:00:00 to December 31 23:59:59 of the next year. */
  function NextYearWindow(now: Instant): (w: Option<Window>)
    requires InRange(now)
    ensures var y := DateOf(now).year + 1;
            && (w.Some? <==> y <= 9999)
            && (w.Some? ==> w.value == Window(ToInstant(Date(y, 1, 1), 0, 0, 0),
                                              ToInstant(Date(y, 12, 31), 23, 59, 59)))
  {
    match MakeInstant(DateOf(now).year + 1, 1, 1, 0, 0, 0)
    case None => None
    case Some(start) =>
      match MakeInstant(DateOf(now).year + 1, 12, 31, 23, 59, 59)
      case None => None
      case Some(end) => Some(Window(start, end))
  }

  // What drawing from the calendar windows yields

  /** From ThisMonth's window: at or after now, in now's year and month, and
      less than a day after now when now is on the month's last day. */
  lemma ThisMonthDrawKeepsMonth(now: Instant, offset: int)
    requires InRange(now) && OptionFits(ThisMonthWindow(now), offset)
    ensures var r := Draw(ThisMonthWindow(now), offset);
            var d := DateOf(now);
            && r.Ok? && now <= r.value && InRange(r.value)
            && DateOf(r.value).year == d.year && DateOf(r.value).month == d.month
            && (d.day == DaysInMonth(d.year, d.month) ==> r.value - now < SecondsPerDay)
  {
    var d := DateOf(now);
    var r := Draw(ThisMonthWindow(now), offset);
    StartOfMonthAndYear(now);
    InstantInMonth(d.year, d.month, r.value);
  }

  /** From NextMonth's window: in the month after now's, rolling December
      over to January of the next year; absent only in December 9999. */
  lemma NextMonthDrawRollsOver(now: Instant, offset: int)
    requires InRange(now) && OptionFits(NextMonthWindow(now), offset)
    ensures var r := Draw(NextMonthWindow(now), offset);
            var d := DateOf(now);
            && (r.Err? <==> d.year == 9999 && d.month == 12)
            && (r.Ok? ==> && InRange(r.value)
                          && DateOf(r.value).month == (if d.month == 12 then 1 else d.month + 1)
                          && DateOf(r.value).year == (if d.month == 12 then d.year + 1 else d.year))
  {
    var (y, m) := NextMonthOf(DateOf(now));
    var r := Draw(NextMonthWindow(now), offset);
    if r.Ok? {
      InstantInMonth(y, m, r.value);
    }
  }

  /** From LaterThisYear's window: at or after now and in now's year. */
  lemma LaterThisYearDrawKeepsYear(now: Instant, offset: int)
    requires InRange(now) && OptionFits(LaterThisYearWindow(now), offset)
    ensures var r := Draw(LaterThisYearWindow(now), offset);
            && r.Ok? && now <= r.value && InRange(r.value)
            && DateOf(r.value).year == DateOf(now).year
  {
    var r := Draw(LaterThisYearWindow(now), offset);
    StartOfMonthAndYear(now);
    InstantInYear(DateOf(now).year, r.value);
  }

  /** From NextYear's window: in the year after now's; absent only in 9999. */
  lemma NextYearDrawIsFollowingYear(now: Instant, offset: int)
    requires InRange(now) && OptionFits(NextYearWindow(now), offset)
    ensures var r := Draw(NextYearWindow(now), offset);
            && (r.Err? <==> DateOf(now).year == 9999)
            && (r.Ok? ==> InRange(r.value) && DateOf(r.value).year == DateOf(now).year + 1)
  {
    var y := DateOf(now).year + 1;
    var w := NextYearWindow(now);
    if w.Some? {
      assert w.value == Window(ToInstant(Date(y, 1, 1), 0, 0, 0), ToInstant(Date(y, 12, 31), 23, 59, 59));
      InstantInYear(y, Draw(w, offset).value);
    }
  }
}

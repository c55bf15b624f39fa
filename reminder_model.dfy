/** Procrastinator/Models/Reminder.cs: the nine-bucket timeline enum, the
    UTC resolver GetReminderDateTime, and the reminder entity with its
    response projection ToResponse.  `now` (DateTimeOffset.UtcNow) and the
    random draw are parameters. */
module ReminderModel {
  import opened Results
  import opened Calendar
  import opened Timeline
  import opened ContactUsers

  datatype ReminderTimelineType =
    | Imminent | Today | Tomorrow | ThisWeek | NextWeek
    | ThisMonth | NextMonth | LaterThisYear | NextYear

  /** `(int)timeline`: the underlying value, in declaration order from 0. */
  function ValueOf(t: ReminderTimelineType): (v: int)
    ensures 0 <= v < 9
  {
    match t
    case Imminent => 0
    case Today => 1
    case Tomorrow => 2
    case ThisWeek => 3
    case NextWeek => 4
    case ThisMonth => 5
    case NextMonth => 6
    case LaterThisYear => 7
    case NextYear => 8
  }

  /** The declared member with underlying value `v`, if any: a C# enum
      variable can hold any int, and only these nine are named. */
  function TimelineOf(v: int): (t: Option<ReminderTimelineType>)
    ensures t.Some? <==> 0 <= v < 9
    ensures t.Some? ==> ValueOf(t.value) == v
  {
    if v == 0 then Some(Imminent)
    else if v == 1 then Some(Today)
    else if v == 2 then Some(Tomorrow)
    else if v == 3 then Some(ThisWeek)
    else if v == 4 then Some(NextWeek)
    else if v == 5 then Some(ThisMonth)
    else if v == 6 then Some(NextMonth)
    else if v == 7 then Some(LaterThisYear)
    else if v == 8 then Some(NextYear)
    else None
  }

  lemma TimelineOfValueOf(t: ReminderTimelineType)
    ensures TimelineOf(ValueOf(t)) == Some(t)
  {
  }

  /** The draws the two random calls can produce for `timeline` at `now`:
      `rand.Next(0, 5)` minutes for Imminent, and otherwise a whole number of
      seconds of `rand.NextDouble() * span` for the bucket's window. */
  predicate DrawFits(timeline: int, now: Instant, draw: int)
    requires InRange(now)
  {
    match TimelineOf(timeline)
    case None => true
    case Some(Imminent) => 0 <= draw < 5
    case Some(Today) => OptionFits(TodayWindow(now), draw)
    case Some(Tomorrow) => OptionFits(TomorrowWindow(now), draw)
    case Some(ThisWeek) => OptionFits(ThisWeekWindow(now), draw)
    case Some(NextWeek) => OptionFits(NextWeekWindow(now), draw)
    case Some(ThisMonth) => OptionFits(ThisMonthWindow(now), draw)
    case Some(NextMonth) => OptionFits(NextMonthWindow(now), draw)
    case Some(LaterThisYear) => OptionFits(LaterThisYearWindow(now), draw)
    case Some(NextYear) => OptionFits(NextYearWindow(now), draw)
  }

  /** The switch of GetReminderDateTime.  A value outside the enum is never
      given a default: it fails with InvalidTimeline, and that is the only
      way to get InvalidTimeline. */
  function GetReminderDateTime(timeline: int, now: Instant, draw: int): (r: Result<Instant, TimelineError>)
    requires InRange(now) && DrawFits(timeline, now, draw)
    ensures r == Err(InvalidTimeline) <==> TimelineOf(timeline).None?
  {
    match TimelineOf(timeline)
    case None => Err(InvalidTimeline)
    case Some(Imminent) => AddMinutes(now, draw)
    case Some(Today) => Draw(TodayWindow(now), draw)
    case Some(Tomorrow) => Draw(TomorrowWindow(now), draw)
    case Some(ThisWeek) => Draw(ThisWeekWindow(now), draw)
    case Some(NextWeek) => Draw(NextWeekWindow(now), draw)
    case Some(ThisMonth) => Draw(ThisMonthWindow(now), draw)
    case Some(NextMonth) => Draw(NextMonthWindow(now), draw)
    case Some(LaterThisYear) => Draw(LaterThisYearWindow(now), draw)
    case Some(NextYear) => Draw(NextYearWindow(now), draw)
  }

  // The entity and its response projection

  /** The stored reminder, with its navigation property to the owning user. */
  datatype Reminder = Reminder(
    id: int,
    userId: int,
    message: string,
    reminderDateTime: Instant,
    reminderTimeline: string,
    isCompleted: bool,
    retryCount: int,
    createdAt: Instant,
    updatedAt: Instant,
    user: User)

  /** The response DTO that avoids the circular navigation. */
  datatype ReminderResponse = ReminderResponse(
    id: int,
    message: string,
    reminderDateTime: Instant,
    reminderTimeline: string,
    isCompleted: bool,
    retryCount: int,
    createdAt: Instant,
    updatedAt: Instant,
    contactInfo: string,
    userType: string)

  /** ToResponse: every reminder field unchanged, the owner's contact
      address, and "Email" exactly for an e-mail user, "Phone" otherwise. */
  function ToResponse(r: Reminder): (resp: ReminderResponse)
    ensures && resp.id == r.id && resp.message == r.message
            && resp.reminderDateTime == r.reminderDateTime
            && resp.reminderTimeline == r.reminderTimeline
            && resp.isCompleted == r.isCompleted && resp.retryCount == r.retryCount
            && resp.createdAt == r.createdAt && resp.updatedAt == r.updatedAt
    ensures resp.contactInfo == r.user.ContactInfo()
    ensures resp.userType == "Email" <==> r.user.EmailUser?
    ensures resp.userType == "Phone" <==> r.user.PhoneUser?
  {
    ReminderResponse(
      r.id, r.message, r.reminderDateTime, r.reminderTimeline, r.isCompleted,
      r.retryCount, r.createdAt, r.updatedAt, r.user.ContactInfo(),
      if r.user.EmailUser? then "Email" else "Phone")
  }
}

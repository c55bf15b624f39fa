/** Procrastinator/Reminder.cs: the entities of namespace `Procrastinator`
    that the controllers and the dispatch service bind to.  Its enum has no
    Imminent bucket, its User carries only a phone number, and its resolver
    reads the local clock (`DateTimeOffset.Now`), which is the parameter
    `now` on the one reference clock of this model. */
module Entities {
  import opened Results
  import opened Calendar
  import opened Timeline

  datatype ReminderTimelineType =
    | Today | Tomorrow | ThisWeek | NextWeek
    | ThisMonth | NextMonth | LaterThisYear | NextYear

  /** `(int)timeline`: the underlying value, in declaration order from 0. */
  function ValueOf(t: ReminderTimelineType): (v: int)
    ensures 0 <= v < 8
  {
    match t
    case Today => 0
    case Tomorrow => 1
    case ThisWeek => 2
    case NextWeek => 3
    case ThisMonth => 4
    case NextMonth => 5
    case LaterThisYear => 6
    case NextYear => 7
  }

  /** The declared member with underlying value `v`, if any. */
  function TimelineOf(v: int): (t: Option<ReminderTimelineType>)
    ensures t.Some? <==> 0 <= v < 8
    ensures t.Some? ==> ValueOf(t.value) == v
  {
    if v == 0 then Some(Today)
    else if v == 1 then Some(Tomorrow)
    else if v == 2 then Some(ThisWeek)
    else if v == 3 then Some(NextWeek)
    else if v == 4 then Some(ThisMonth)
    else if v == 5 then Some(NextMonth)
    else if v == 6 then Some(LaterThisYear)
    else if v == 7 then Some(NextYear)
    else None
  }

  /** `timeline.ToString()` for a declared member: its identifier. */
  function Name(t: ReminderTimelineType): (s: string)
    ensures 0 < |s| <= 13
  {
    match t
    case Today => "Today"
    case Tomorrow => "Tomorrow"
    case ThisWeek => "ThisWeek"
    case NextWeek => "NextWeek"
    case ThisMonth => "ThisMonth"
    case NextMonth => "NextMonth"
    case LaterThisYear => "LaterThisYear"
    case NextYear => "NextYear"
  }

  /** Distinct buckets are stored under distinct names, so the stored
      ReminderTimeline string identifies the bucket. */
  lemma NameInjective(a: ReminderTimelineType, b: ReminderTimelineType)
    ensures Name(a) == Name(b) <==> a == b
  {
  }

  /** The draws the random call can produce for `timeline` at `now`. */
  predicate DrawFits(timeline: int, now: Instant, draw: int)
    requires InRange(now)
  {
    match TimelineOf(timeline)
    case None => true
    case Some(Today) => OptionFits(TodayWindow(now), draw)
    case Some(Tomorrow) => OptionFits(TomorrowWindow(now), draw)
    case Some(ThisWeek) => OptionFits(ThisWeekWindow(now), draw)
    case Some(NextWeek) => OptionFits(NextWeekWindow(now), draw)
    case Some(ThisMonth) => OptionFits(ThisMonthWindow(now), draw)
    case Some(NextMonth) => OptionFits(NextMonthWindow(now), draw)
    case Some(LaterThisYear) => OptionFits(LaterThisYearWindow(now), draw)
    case Some(NextYear) => OptionFits(NextYearWindow(now), draw)
  }

  /** The older switch: the same windows as the newer copy, with no
      Imminent case, and ArgumentOutOfRangeException for any other value. */
  function GetReminderDateTime(timeline: int, now: Instant, draw: int): (r: Result<Instant, TimelineError>)
    requires InRange(now) && DrawFits(timeline, now, draw)
    ensures r == Err(InvalidTimeline) <==> TimelineOf(timeline).None?
  {
    match TimelineOf(timeline)
    case None => Err(InvalidTimeline)
    case Some(Today) => Draw(TodayWindow(now), draw)
    case Some(Tomorrow) => Draw(TomorrowWindow(now), draw)
    case Some(ThisWeek) => Draw(ThisWeekWindow(now), draw)
    case Some(NextWeek) => Draw(NextWeekWindow(now), draw)
    case Some(ThisMonth) => Draw(ThisMonthWindow(now), draw)
    case Some(NextMonth) => Draw(NextMonthWindow(now), draw)
    case Some(LaterThisYear) => Draw(LaterThisYearWindow(now), draw)
    case Some(NextYear) => Draw(NextYearWindow(now), draw)
  }

  // The entities

  /** The phone-only user; its Reminders navigation collection is not kept. */
  datatype User = User(id: int, phoneNumber: string, createdAt: Instant, updatedAt: Instant)

  /** The stored reminder; the owner is reached through `userId`. */
  datatype Reminder = Reminder(
    id: int,
    userId: int,
    message: string,
    reminderDateTime: Instant,
    reminderTimeline: string,
    isCompleted: bool,
    retryCount: int,
    createdAt: Instant,
    updatedAt: Instant)

  /** A reminder built by an object initializer that sets the given
      properties: the id is the store's to assign, and the rest keep their
      declared defaults, `IsCompleted = false` and `RetryCount = 0`. */
  function NewReminder(userId: int, message: string, due: Instant, timeline: string,
                       createdAt: Instant, updatedAt: Instant): (r: Reminder)
    ensures !r.isCompleted && r.retryCount == 0
    ensures && r.userId == userId && r.message == message && r.reminderDateTime == due
            && r.reminderTimeline == timeline && r.createdAt == createdAt && r.updatedAt == updatedAt
  {
    Reminder(0, userId, message, due, timeline, false, 0, createdAt, updatedAt)
  }

  /** A user built by an object initializer setting phone and timestamps. */
  function NewUser(phone: string, createdAt: Instant, updatedAt: Instant): (u: User)
    ensures u.phoneNumber == phone && u.createdAt == createdAt && u.updatedAt == updatedAt
  {
    User(0, phone, createdAt, updatedAt)
  }
}

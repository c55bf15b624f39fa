# Procrastinator reminder core, in Dafny

Procrastinator stores one-shot reminders for users identified by a phone
number (or, in its newer model, by an e-mail address or a phone number).
A reminder is created with a coarse timeline bucket, such as "Today",
"NextWeek" or "NextYear". A resolver turns the bucket into a concrete due
instant drawn at random from a calendar window. A background dispatch
service then repeatedly selects the due reminders, sends each one, and
marks it completed or counts a retry until MaxRetries is reached.

This project models that core and proves what it promises:

- `Calendar` (calendar.dfy): the proleptic Gregorian calendar of .NET's
  DateTime on whole seconds. It covers day numbers, dates, `Date`,
  `DayOfWeek`, `DaysInMonth`, `AddDays`, the `DateTimeOffset` constructor,
  and the range limit at 9999-12-31T23:59:59. A calculation that leaves
  that range fails, as the .NET calls throw.
- `Timeline` (timeline.dfy): the calendar windows both resolvers draw from,
  and what a draw from each window yields.
- `ReminderModel` (reminder_model.dfy) and `ReminderBuckets`
  (reminder_buckets.dfy): the newer nine-bucket resolver of
  `Procrastinator/Models/Reminder.cs` on UTC, the reminder entity and its
  `ToResponse` projection, and one lemma per bucket.
- `Validation` (validation.dfy): the `[Required]` and `[StringLength]`
  annotations, as model validation evaluates them on a string, with
  `char.IsWhiteSpace`. They decide BadRequest in both controllers.
- `ContactUsers` (contact_users.dfy): the `User` hierarchy of
  `Procrastinator/Models/User.cs` as a two-case datatype with
  `ContactInfo`.
- `Entities` (entities.dfy) and `LegacyBuckets` (legacy_buckets.dfy): the
  older entities of namespace `Procrastinator`, which the controllers and
  the dispatcher bind to. That namespace has an eight-bucket resolver, a
  phone-only `User` and the `Reminder` defaults. Every older bucket is proved
  to compute exactly what the newer bucket one place further on computes, so
  each bucket lemma carries over.
- `Tables` (tables.dfy): the Users and Reminders tables with identity
  counters, as a `Database` class. It includes the invariant the
  controllers keep: unique phone numbers of at most 20 characters, unique
  ids, and every reminder's owner present.
- `UserController` (user_controller.dfy) and `ReminderController`
  (reminder_controller.dfy): `CreateUser` and `CreateReminder` as methods
  on the database. Each is proved equal to a pure function of the old
  tables, and that function is proved to keep the invariant.
- `Dispatch` (dispatch.dfy): one pass of `ProcessDueRemindersAsync` as a
  loop over the selected reminders. The method is proved to produce the
  table of a per-reminder transition function and the list of messages
  sent. Lemmas cover selection, transitions, monotonicity, permanent
  failure, and the bound on sends over any number of passes.

Inputs the code takes from its surroundings are parameters:

- The clock reading is `now`.
- The random draw is an integer `draw`. For Imminent it is a whole number
  of minutes in 0..4. For the other buckets it is a whole number of
  seconds below the window's span, or 0 when the span is 0.
- The message service's result for each reminder is an oracle `outcomes`.
- The configured `MaxRetries` is `maxRetries`.

What the code does, stated plainly where its comments or a reader's
expectation could suggest otherwise:

- Every window ends at 23:59:59 of its last day, an inclusive "last
  second", not at the next midnight. The draw is
  `now.AddSeconds(rand.NextDouble() * span.TotalSeconds)` with no guard on
  the span's sign. On whole-second instants it lies in `[now, last]`. When
  `now` falls inside the window's last second, for example at 23:59:59.5,
  the span is negative and the draw lands before `now` and after `last`.
- The week is Sunday to Saturday. Its boundary is
  `now.Date.AddDays(7 - (int)now.DayOfWeek)`, the Sunday midnight after
  `now`, although a comment in the code speaks of Monday to Sunday.
- Imminent adds a whole number of minutes from 0 to 4. It does not draw
  from the interval `[now, now + 5 minutes)`.
- The dispatched text is the bell character U+1F514, a space, then
  "Reminder: " and the message.
- A value outside the enum fails with `InvalidTimeline`. A window that
  would leave year 9999 fails with `DateOutOfRange`. Both are
  `ArgumentOutOfRangeException` in the code.
- `CreateReminder`'s request has no length limit on the phone number. A new
  phone number longer than the 20-character column makes the user insert
  fail, which is a server error with no change. When the resolver fails
  after a new user was saved, that user stays and no reminder is added.

## Model

| member | source | states |
|---|---|---|
| Calendar.DaysInMonth | Procrastinator/Models/Reminder.cs:134 | `DateTime.DaysInMonth` is 28 or 29 for February (29 exactly in leap years), 30 for April, June, September and November, and 31 otherwise |
| Calendar.Midnight | Procrastinator/Models/Reminder.cs:108 | `now.Date` is the midnight at or before `now`, less than a day earlier, on the same day |
| Calendar.DayOfWeek | Procrastinator/Models/Reminder.cs:121 | `(int)now.DayOfWeek` lies in 0..6; that these are the real weekdays with Sunday = 0 is stated by the three lemmas below |
| Calendar.FirstDayIsMonday | Procrastinator/Models/Reminder.cs:121 | 0001-01-01, the first day DateTime holds, is a Monday (1) |
| Calendar.DayOfWeekStep | Procrastinator/Models/Reminder.cs:121 | One day later is the next weekday, Saturday (6) wrapping to Sunday (0) |
| Calendar.KnownSunday | Procrastinator/Models/Reminder.cs:121 | 2023-01-01, a Sunday, gets DayOfWeek 0, so the numbering matches the real calendar |
| Calendar.DateOf | Procrastinator/Models/Reminder.cs:134 | The date of an instant in range is a valid date whose day number is the instant's day |
| Calendar.ToInstant | Procrastinator/Models/Reminder.cs:134 | The instant at a time of day on a valid date is in range, has that date, and has that time of day |
| Calendar.MakeInstant | Procrastinator/Models/Reminder.cs:134 | `new DateTimeOffset(y, m, d, h, mi, s, offset)` succeeds exactly for an existing date in years 1..9999 with a valid time, and then has that date |
| Calendar.AddDays | Procrastinator/Models/Reminder.cs:108 | `AddDays(n)` succeeds exactly when the result stays in range, moving the day number by n and keeping the time of day |
| Calendar.DateOfDaysOf | Procrastinator/Models/Reminder.cs:134 | Round trip: every valid date is the date of its own day number |
| Calendar.DaysToYearClosedForm | Procrastinator/Models/Reminder.cs:134 | Counting the days of the years one by one agrees with DateTime's closed form `365y + y/4 - y/100 + y/400` |
| Calendar.DayAfter | Procrastinator/Models/Reminder.cs:114 | Consecutive day numbers are consecutive calendar dates, rolling over month and year ends |
| Calendar.NextMidnight | Procrastinator/Models/Reminder.cs:114 | `now.Date.AddDays(1)` falls on the calendar date after now's date |
| Calendar.InstantInMonth | Procrastinator/Models/Reminder.cs:142-143 | Every instant from 00:00:00 on day 1 to 23:59:59 on the month's last day has that year and month |
| Calendar.InstantInYear | Procrastinator/Models/Reminder.cs:155-156 | Every instant from January 1 00:00:00 to December 31 23:59:59 has that year |
| Calendar.StartOfMonthAndYear | Procrastinator/Models/Reminder.cs:134 | Every instant is at or after 00:00:00 on the first day of its month and of its year |
| Validation.IsWhiteSpace | Procrastinator/Reminder.cs:37-41 | The white space that `[Required]` rejects (`char.IsWhiteSpace`) never includes a digit, a Latin letter or `+` |
| Validation.Required | Procrastinator/Reminder.cs:37-41 | `[Required]` on a string rejects the empty and the all-white-space string; a string holding a digit always passes |
| Validation.PaddingKeepsRequired | Procrastinator/Controllers/UserController.cs:52-54 | White space around a value never changes whether it passes `[Required]` |
| Timeline.Draw | Procrastinator/Models/Reminder.cs:110 | `start.AddSeconds(fraction * span)` lies in `[start, last]`, strictly before `last` unless it is `start`, and fails exactly when the window computation failed |
| Timeline.LastSecondOfDay | Procrastinator/Models/Reminder.cs:108 | `now.Date.AddDays(1).AddSeconds(-1)` is 23:59:59 on now's day and not before now |
| Timeline.AddMinutes | Procrastinator/Models/Reminder.cs:104 | `now.AddMinutes(m)` is exactly m minutes after now, and fails only out of range |
| Timeline.TodayWindow | Procrastinator/Models/Reminder.cs:108-109 | Today's window is `[now, 23:59:59 of now's day]`; it fails only on the last day DateTime holds |
| Timeline.TomorrowWindow | Procrastinator/Models/Reminder.cs:114-116 | Tomorrow's window runs from the next midnight to 23:59:59 of that day |
| Timeline.NextSunday | Procrastinator/Models/Reminder.cs:121 | The week boundary `now.Date.AddDays(7 - DayOfWeek)` is a Sunday midnight, 1 to 7 days after now's date and after now |
| Timeline.ThisWeekWindow | Procrastinator/Models/Reminder.cs:121-122 | ThisWeek's window is `[now, boundary - 1s]`; it fails exactly when the boundary is out of range |
| Timeline.NextWeekWindow | Procrastinator/Models/Reminder.cs:127-129 | NextWeek's window is `[boundary, boundary + 7 days - 1s]` |
| Timeline.ThisMonthWindow | Procrastinator/Models/Reminder.cs:134-135 | ThisMonth's window runs from now to 23:59:59 on the last day of now's month, and never fails |
| Timeline.NextMonthOf | Procrastinator/Models/Reminder.cs:140-141 | The next month is month + 1 in the same year, except that December rolls to January of year + 1 |
| Timeline.NextMonthWindow | Procrastinator/Models/Reminder.cs:142-144 | NextMonth's window runs from day 1 00:00:00 to day `DaysInMonth` 23:59:59 of the next month, and fails exactly when that month is past 9999 |
| Timeline.LaterThisYearWindow | Procrastinator/Models/Reminder.cs:149-150 | LaterThisYear's window runs from now to December 31 23:59:59 of now's year, and never fails |
| Timeline.NextYearWindow | Procrastinator/Models/Reminder.cs:155-157 | NextYear's window is all of year + 1, and fails exactly when now's year is 9999 |
| Timeline.ThisMonthDrawKeepsMonth | Procrastinator/Models/Reminder.cs:132-136 | A ThisMonth draw is at or after now, in now's year and month, and less than a day after now on the month's last day |
| Timeline.NextMonthDrawRollsOver | Procrastinator/Models/Reminder.cs:138-145 | A NextMonth draw falls in month + 1, or in January of year + 1 from December; it fails only in December 9999 |
| Timeline.LaterThisYearDrawKeepsYear | Procrastinator/Models/Reminder.cs:147-151 | A LaterThisYear draw is at or after now and in now's year |
| Timeline.NextYearDrawIsFollowingYear | Procrastinator/Models/Reminder.cs:153-158 | A NextYear draw falls in calendar year now.Year + 1; it fails only in 9999 |
| ContactUsers.User.ContactInfo | Procrastinator/Models/User.cs:19-41 | ContactInfo is the e-mail address of an EmailUser and the phone number of a PhoneUser. A valid user's contact is non-empty and within 255 or 20 characters |
| ReminderModel.ValueOf | Procrastinator/Models/Reminder.cs:6-17 | The nine members have underlying values 0..8 |
| ReminderModel.TimelineOf | Procrastinator/Models/Reminder.cs:6-17 | An int names a member exactly when it is in 0..8, and then names the member with that value |
| ReminderModel.TimelineOfValueOf | Procrastinator/Models/Reminder.cs:6-17 | Every member is named by its own underlying value |
| ReminderModel.GetReminderDateTime | Procrastinator/Models/Reminder.cs:160-161 | The resolver fails with InvalidTimeline exactly for a value outside the enum, with no silent default |
| ReminderModel.ToResponse | Procrastinator/Models/Reminder.cs:79-93 | Every reminder field is copied unchanged, ContactInfo is the owner's, and UserType is "Email" exactly for an e-mail user and "Phone" exactly for a phone user |
| ReminderBuckets.ImminentWithinFiveMinutes | Procrastinator/Models/Reminder.cs:102-104 | Imminent is now plus a whole number of minutes, at most 4, and fails only past the range |
| ReminderBuckets.TodayStaysOnNowsDate | Procrastinator/Models/Reminder.cs:106-110 | Today lies in `[now, 23:59:59]` of now's date, strictly before the last second unless it is now; it fails only on the last day DateTime holds |
| ReminderBuckets.TomorrowIsNextDate | Procrastinator/Models/Reminder.cs:112-117 | Tomorrow lies on the calendar date after now's, from its midnight to before 23:59:59 |
| ReminderBuckets.ThisWeekEndsAtNextSunday | Procrastinator/Models/Reminder.cs:119-123 | ThisWeek lies in `[now, boundary - 1s)` (or is now), and fails exactly when the boundary is out of range |
| ReminderBuckets.NextWeekStartsAtNextSunday | Procrastinator/Models/Reminder.cs:125-130 | NextWeek lies in `[boundary, boundary + 7d - 1s)` (or is the boundary) |
| ReminderBuckets.ThisMonthKeepsMonth | Procrastinator/Models/Reminder.cs:132-136 | ThisMonth never fails and keeps now's year and month |
| ReminderBuckets.NextMonthRollsOver | Procrastinator/Models/Reminder.cs:138-145 | NextMonth falls in the following month, with the December to January rollover, and fails only in December 9999 |
| ReminderBuckets.LaterThisYearKeepsYear | Procrastinator/Models/Reminder.cs:147-151 | LaterThisYear never fails, is at or after now, and keeps now's year |
| ReminderBuckets.NextYearIsFollowingYear | Procrastinator/Models/Reminder.cs:153-158 | NextYear falls in now.Year + 1 and fails only in 9999 |
| Entities.ValueOf | Procrastinator/Reminder.cs:6-16 | The eight older members have underlying values 0..7 |
| Entities.TimelineOf | Procrastinator/Reminder.cs:6-16 | An int names an older member exactly when it is in 0..7 |
| Entities.Name | Procrastinator/Reminder.cs:6-16 | `timeline.ToString()` is a non-empty name of at most 13 characters, within the 20-character ReminderTimeline column |
| Entities.NameInjective | Procrastinator/Reminder.cs:6-16 | Distinct buckets have distinct names, so the stored string identifies the bucket |
| Entities.GetReminderDateTime | Procrastinator/Reminder.cs:138-139 | The older resolver fails with InvalidTimeline exactly for a value outside its enum |
| Entities.NewReminder | Procrastinator/Reminder.cs:48-72 | A new Reminder starts with IsCompleted false and RetryCount 0, and has the given owner, message, due time, bucket name and timestamps |
| Entities.NewUser | Procrastinator/Reminder.cs:18-28 | A new User has the given phone number and timestamps |
| LegacyBuckets.NoImminentBucket | Procrastinator/Reminder.cs:6-16 | The older enum has no Imminent: older value v is newer value v + 1, and value 0 is Today rather than Imminent |
| LegacyBuckets.AgreesWithNewerResolver | Procrastinator/Reminder.cs:78-141 | For every value but -1 the older resolver admits the same draws as the newer one at v + 1 and returns the same result, InvalidTimeline included |
| LegacyBuckets.TodayStaysOnNowsDate | Procrastinator/Reminder.cs:84-88 | Older Today lies in `[now, 23:59:59]` of now's date |
| LegacyBuckets.TomorrowIsNextDate | Procrastinator/Reminder.cs:90-95 | Older Tomorrow lies on the calendar date after now's |
| LegacyBuckets.ThisWeekEndsAtNextSunday | Procrastinator/Reminder.cs:97-101 | Older ThisWeek ends at the Sunday midnight boundary |
| LegacyBuckets.NextWeekStartsAtNextSunday | Procrastinator/Reminder.cs:103-108 | Older NextWeek starts at that boundary and spans 7 days less a second |
| LegacyBuckets.ThisMonthKeepsMonth | Procrastinator/Reminder.cs:110-114 | Older ThisMonth stays within now's month |
| LegacyBuckets.NextMonthRollsOver | Procrastinator/Reminder.cs:116-123 | Older NextMonth rolls December over to January of year + 1 |
| LegacyBuckets.LaterThisYearKeepsYear | Procrastinator/Reminder.cs:125-129 | Older LaterThisYear stays within now.Year |
| LegacyBuckets.NextYearIsFollowingYear | Procrastinator/Reminder.cs:131-136 | Older NextYear falls within now.Year + 1 |
| Tables.Tables.Valid | Procrastinator/ProcrastinatorContext.cs:23-24 | The invariant of the two tables: unique phone numbers that pass `[Required]` and fit varchar(20), unique ids below the identity counters, every reminder's owner present, retry counts at least 0 |
| Tables.UserFoundByOwnPhone | Procrastinator/ProcrastinatorContext.cs:23-24 | With the unique phone index, every user is the one `FirstOrDefaultAsync(u => u.PhoneNumber == phone)` finds for their own phone |
| Tables.FindByPhone | Procrastinator/Controllers/ReminderController.cs:27-28 | `FirstOrDefaultAsync(u => u.PhoneNumber == phone)` finds a user exactly when one has that phone, and then the first such user in table order |
| Tables.FindUser | Procrastinator/Services/ReminderDispatchService.cs:51 | `Include(r => r.User)` finds a user exactly when one has the id, and then that user |
| Tables.InsertUserKeepsValid | Procrastinator/ProcrastinatorContext.cs:23-24 | Inserting a user with a new storable phone and the next identity keeps phones and ids unique, and the phone then finds that user |
| Tables.FindByPhoneAppend | Procrastinator/ProcrastinatorContext.cs:24 | A phone no user has, appended with a new user, finds that user |
| Tables.InsertReminderKeepsValid | Procrastinator/ProcrastinatorContext.cs:42-45 | Inserting a reminder of an existing user with the next identity and no retries keeps the tables valid |
| Tables.Database.constructor | Procrastinator/ProcrastinatorContext.cs:12-13 | An empty database is valid and its identities start at 1 |
| Tables.Database.AddUser | Procrastinator/Controllers/ReminderController.cs:39-40 | `Users.Add` with `SaveChangesAsync` appends the user with the next identity and changes nothing else |
| Tables.Database.AddReminder | Procrastinator/Controllers/ReminderController.cs:55-56 | `Reminders.Add` with `SaveChangesAsync` appends the reminder with the next identity and changes nothing else |
| Dispatch.DueIndices | Procrastinator/Services/ReminderDispatchService.cs:50-55 | The selection holds exactly the positions of the reminders that are not completed, have `RetryCount < MaxRetries` and are due, in increasing table order |
| Dispatch.Step | Procrastinator/Services/ReminderDispatchService.cs:73-107 | Success sets IsCompleted with RetryCount unchanged and UpdatedAt the fresh clock. A false result or an exception adds exactly 1 to RetryCount and sets UpdatedAt to the pass's now. No other field changes |
| Dispatch.PassResult | Procrastinator/Services/ReminderDispatchService.cs:65-115 | The table after a pass, defined independently of the loop, has the same length, and no reminder changes its id, owner, message or due time |
| Dispatch.MessagesFor | Procrastinator/Services/ReminderDispatchService.cs:69-71 | One message per selected reminder, in order, addressed to its owner's phone |
| Dispatch.ProcessDueReminders | Procrastinator/Services/ReminderDispatchService.cs:41-119 | A pass leaves users and identities alone, turns the Reminders table into the pass result, keeps the tables valid, and sends the bell-prefixed text of each selected reminder to its owner's phone, in table order |
| Dispatch.SendEach | Procrastinator/Services/ReminderDispatchService.cs:65-115 | The `foreach` visits each selected reminder once, in order, sending its message and applying the transition there |
| Dispatch.AppliedAtEach | Procrastinator/Services/ReminderDispatchService.cs:65-115 | Visiting distinct positions applies the transition once at each and leaves every other reminder unchanged |
| Dispatch.AppliedDueIsPass | Procrastinator/Services/ReminderDispatchService.cs:65-115 | Visiting the selected positions yields exactly the pass result |
| Dispatch.NothingDueLeavesTable | Procrastinator/Services/ReminderDispatchService.cs:57-61 | With no due reminder the pass changes no reminder |
| Dispatch.PassTouchesOnlyDue | Procrastinator/Services/ReminderDispatchService.cs:50-55 | A reminder that is not selected (completed, out of retries or in the future) leaves the pass unchanged; a selected one changes only by the transition |
| Dispatch.PassIsMonotone | Procrastinator/Services/ReminderDispatchService.cs:53-106 | RetryCount never decreases and grows by at most 1; a completed reminder stays completed; a selected one ends with at most MaxRetries retries |
| Dispatch.FailureBecomesPermanentAtMaxRetries | Procrastinator/Services/ReminderDispatchService.cs:88-113 | A selected reminder becomes permanently failed exactly when its send fails and its new RetryCount reaches MaxRetries, and it is completed exactly when the send succeeded |
| Dispatch.FinishedIsNeverSelected | Procrastinator/Services/ReminderDispatchService.cs:52-53 | A completed or permanently failed reminder is never selected again, at any later time |
| Dispatch.PassKeepsValid | Procrastinator/Services/ReminderDispatchService.cs:65-118 | A pass keeps the tables valid |
| Dispatch.PassSpendsBudget | Procrastinator/Services/ReminderDispatchService.cs:52-53 | A pass that selects a reminder uses up at least one of its remaining sends |
| Dispatch.SendsAreBounded | Procrastinator/Services/ReminderDispatchService.cs:26-38 | Over any number of passes a reminder is sent at most `MaxRetries - RetryCount` times, and never once completed or out of retries |
| Dispatch.RetriesStayBounded | Procrastinator/Services/ReminderDispatchService.cs:26-38 | Over any number of passes RetryCount never decreases and never passes MaxRetries unless it started above it, and a completed reminder never changes |
| UserController.CreateUserOn | Procrastinator/Controllers/UserController.cs:20-47 | An invalid phone (missing, blank, or over 20 characters) gives BadRequest. A registered phone gives Conflict with its text. Both leave the tables unchanged. Otherwise exactly one user with that phone and the next identity is appended. Validity is kept |
| UserController.CreateUserKeepsPhonesUnique | Procrastinator/Controllers/UserController.cs:27-44 | After CreateUser phones stay unique, a valid request's phone is registered, and users grow by one exactly on Created |
| UserController.CreateUser | Procrastinator/Controllers/UserController.cs:20-47 | The method answers and changes the database exactly as CreateUserOn says, and keeps it valid |
| ReminderController.CreateReminderOn | Procrastinator/Controllers/ReminderController.cs:21-61 | An invalid request gives BadRequest. A new phone number adds exactly one user, and an existing one leaves Users unchanged. Created happens exactly when the resolver succeeds, and then exactly one reminder is appended with the user's id, IsCompleted false, RetryCount 0, the resolver's due time and the bucket's name. Any other outcome adds no reminder. Validity is kept |
| ReminderController.FindOrRegister | Procrastinator/Controllers/ReminderController.cs:27-41 | The user with the phone, or a new one appended with the next identity, who is then the user found by that phone |
| ReminderController.OwnerFound | Procrastinator/Controllers/ReminderController.cs:45 | On valid tables the user found by phone is the user the reminder's UserId leads to |
| ReminderController.CreateReminderRegistersOwner | Procrastinator/Controllers/ReminderController.cs:27-56 | Phones stay unique, at most one user is added, a created reminder's owner has the requested phone, and a valid request with a storable phone leaves it registered |
| ReminderController.CreateReminder | Procrastinator/Controllers/ReminderController.cs:21-61 | The method answers and changes the database exactly as CreateReminderOn says, and keeps it valid |

## Left out

- The background loop `ExecuteAsync`, its delay, its cancellation and
  `StopAsync`. Only the effect of passes run one after another is modelled
  (`Dispatch.Passes`). A pass that throws is caught by the loop, and such a
  pass is not modelled.
- The message services. `SendMessageAsync` is the oracle `outcomes`.
  TwilioService and EmailMessageService are not part of this model.
- Timeline.Draw, ReminderBuckets.TodayStaysOnNowsDate,
  ReminderBuckets.ThisWeekEndsAtNextSunday, ReminderBuckets.ThisMonthKeepsMonth,
  ReminderBuckets.LaterThisYearKeepsYear and their LegacyBuckets twins: on
  whole-second instants `now <= last` always holds, so the model cannot show
  that a sub-second `now` in the window's last second gives a negative span
  and a draw up to one second before `now` and after the window's end. The
  date, month and year these lemmas state still hold for such a draw.
- Floating point. `rand.NextDouble() * span` and `AddSeconds(double)` are a
  whole-second offset, and instants are whole seconds. Sub-second ticks and
  rounding are not modelled.
- Time zones and offsets. There is one reference clock. The local clock of
  the older resolver and the implicit local-offset conversion of `now.Date`
  are not modelled.
- Persistence. Entity Framework mapping, change tracking, and the
  atomicity of the single `SaveChangesAsync` after a pass are out of scope.
  A database failure during a pass is not modelled. The only insert failure
  modelled is a phone number longer than the 20-character column.
- Configuration and dependency injection. `MaxRetries` is a parameter (its
  configured default is 3), and the check interval is not modelled.
- HTTP, routing, `CreatedAtAction` payloads, and all logging.
- Concurrency. Two requests racing on find-or-create for the same phone,
  and overlapping dispatch passes, are out of scope.
- Clock reads are collapsed. One `now` stands for every `DateTimeOffset.UtcNow`
  read within a request, and for the pass's read. Only the success branch of
  dispatch gets a separate reading, the `at` of `Delivered(at)`.
- Query order. The order of the dispatch query and of `FirstOrDefaultAsync`
  is taken to be table order.
- Text. Strings are sequences of characters. UTF-16 lengths and database
  collation of phone comparisons are not modelled.
- The `Reminders` and `User` navigation collections are not kept. An owner
  is reached through `UserId`.
- The `[EmailAddress]` format check is not modelled; only the required and
  length annotations are.
- Dispatch.ProcessDueReminders: messages go to the phone number of the
  phone-only User of namespace `Procrastinator`, which the service binds
  to. Choosing a channel by contact kind belongs to the newer model, which
  no service uses.

/** CreateReminder of Procrastinator/Controllers/ReminderController.cs on the
    in-memory tables: validate the request, find the user with the phone
    number or create and save one, resolve the due instant with the older
    resolver of Procrastinator/Reminder.cs, and insert the reminder.  The
    clock reading is the parameter `now` and the resolver's random draw the
    parameter `draw`. */
module ReminderController {
  import opened Results
  import opened Calendar
  import opened Timeline
  import opened Validation
  import opened Entities
  import opened Tables

  /** ReminderRequest: `[Required]` on PhoneNumber and Message (no length
      limit on either), and the timeline as the enum's underlying value. */
  datatype ReminderRequest = ReminderRequest(phoneNumber: string, message: string, reminderTimeline: int)

  /** BadRequest(ModelState), an unhandled exception (HTTP 500), or
      CreatedAtAction(reminder). */
  datatype CreateReminderResponse = BadRequest | ServerError | Created(reminder: Reminder)

  /** Model validation of the request.  `[Required]` on the enum property
      always holds: a value type is never null. */
  predicate ModelStateValid(request: ReminderRequest) {
    Required(request.phoneNumber) && Required(request.message)
  }

  /** What CreateReminder answers and what the tables become.
      - A phone number nobody has gets a new user, saved at once; a number
        longer than the column makes that save throw and nothing changes.
      - A timeline value outside the enum, or a window past year 9999,
        makes the resolver throw after that save: the new user stays, and
        no reminder is added.
      - Otherwise one reminder is added for the found or created user. */
  function CreateReminderOn(t: Tables, request: ReminderRequest, now: Instant, draw: int): (r: (CreateReminderResponse, Tables))
    requires InRange(now) && DrawFits(request.reminderTimeline, now, draw)
    ensures r.0.BadRequest? <==> !ModelStateValid(request)
    ensures var found := FindByPhone(t.users, request.phoneNumber);
            && (r.0.Created? <==> && ModelStateValid(request)
                                  && (found.Some? || |request.phoneNumber| <= PhoneColumnLength)
                                  && GetReminderDateTime(request.reminderTimeline, now, draw).Ok?)
            && (r.0.BadRequest? || found.Some? || |request.phoneNumber| > PhoneColumnLength ==>
                  r.1.users == t.users && r.1.nextUserId == t.nextUserId)
            && (!r.0.BadRequest? && found.None? && |request.phoneNumber| <= PhoneColumnLength ==>
                  && r.1.users == t.users + [User(t.nextUserId, request.phoneNumber, now, now)]
                  && r.1.nextUserId == t.nextUserId + 1)
    ensures !r.0.Created? ==> r.1.reminders == t.reminders && r.1.nextReminderId == t.nextReminderId
    ensures r.0.Created? ==>
              var rem := r.0.reminder;
              && r.1.reminders == t.reminders + [rem]
              && rem.id == t.nextReminderId && r.1.nextReminderId == t.nextReminderId + 1
              && (t.Valid() ==> FindUser(r.1.users, rem.userId) == FindByPhone(r.1.users, request.phoneNumber))
              && rem.message == request.message
              && !rem.isCompleted && rem.retryCount == 0
              && rem.reminderDateTime == GetReminderDateTime(request.reminderTimeline, now, draw).value
              && TimelineOf(request.reminderTimeline).Some?
              && rem.reminderTimeline == Name(TimelineOf(request.reminderTimeline).value)
              && rem.createdAt == now && rem.updatedAt == now
    ensures t.Valid() ==> r.1.Valid()
  {
    var found := FindByPhone(t.users, request.phoneNumber);
    if !ModelStateValid(request) then (BadRequest, t)
    else if found.None? && |request.phoneNumber| > PhoneColumnLength then (ServerError, t)
    else
      var (user, t1) := FindOrRegister(t, request.phoneNumber, now);
      match GetReminderDateTime(request.reminderTimeline, now, draw)
      case Err(_) => (ServerError, t1)
      case Ok(due) =>
        var rem := NewReminder(user.id, request.message, due, Name(TimelineOf(request.reminderTimeline).value), now, now);
        var t2 := Schedule(t1, rem);
        assert t.Valid() ==> t2.Valid() && FindUser(t2.users, user.id) == Some(user) by {
          if t.Valid() {
            OwnerFound(t1, user);
            InsertReminderKeepsValid(t1, rem.(id := t1.nextReminderId));
          }
        }
        (Created(rem.(id := t.nextReminderId)), t2)
  }

  /** The user with the phone number, or a new one saved with the next
      identity when there is none; the new user is then the one found. */
  function FindOrRegister(t: Tables, phone: string, now: Instant): (r: (User, Tables))
    ensures FindByPhone(t.users, phone).Some? ==> r == (FindByPhone(t.users, phone).value, t)
    ensures FindByPhone(t.users, phone).None? ==>
              && r.0 == User(t.nextUserId, phone, now, now)
              && r.1 == t.(users := t.users + [r.0], nextUserId := t.nextUserId + 1)
    ensures FindByPhone(r.1.users, phone) == Some(r.0)
    ensures t.Valid() && StorablePhone(phone) ==> r.1.Valid()
  {
    match FindByPhone(t.users, phone)
    case Some(user) => (user, t)
    case None =>
      var user := User(t.nextUserId, phone, now, now);
      var t1 := t.(users := t.users + [user], nextUserId := t.nextUserId + 1);
      assert FindByPhone(t1.users, phone) == Some(user) && (t.Valid() && StorablePhone(phone) ==> t1.Valid()) by {
        if t.Valid() && StorablePhone(phone) {
          InsertUserKeepsValid(t, user);
        } else {
          FindByPhoneAppend(t.users, user);
        }
      }
      (user, t1)
  }

  /** The reminder saved with the next identity. */
  function Schedule(t: Tables, rem: Reminder): (r: Tables)
    ensures r.users == t.users && r.nextUserId == t.nextUserId
    ensures r.reminders == t.reminders + [rem.(id := t.nextReminderId)]
    ensures r.nextReminderId == t.nextReminderId + 1
  {
    t.(reminders := t.reminders + [rem.(id := t.nextReminderId)], nextReminderId := t.nextReminderId + 1)
  }

  /** On valid tables the user found by phone is the one its id finds:
      user ids are unique, so the reminder's UserId leads back to it. */
  lemma OwnerFound(t: Tables, user: User)
    requires t.Valid() && FindByPhone(t.users, user.phoneNumber) == Some(user)
    ensures FindUser(t.users, user.id) == Some(user)
  {
    var i :| 0 <= i < |t.users| && t.users[i] == user;
    var owner := FindUser(t.users, user.id);
    assert HasUserId(t.users, user.id);
    var j :| 0 <= j < |t.users| && t.users[j] == owner.value;
    assert i == j;
  }

  /** On valid tables CreateReminder keeps phone numbers unique, adds at
      most one user, and gives a created reminder the owner whose phone was
      asked for.  A valid request with a storable phone leaves that phone
      registered even when the resolver then throws. */
  lemma CreateReminderRegistersOwner(t: Tables, request: ReminderRequest, now: Instant, draw: int)
    requires t.Valid() && InRange(now) && DrawFits(request.reminderTimeline, now, draw)
    ensures var (resp, t') := CreateReminderOn(t, request, now, draw);
            && PhonesUnique(t'.users)
            && |t.users| <= |t'.users| <= |t.users| + 1
            && (resp.Created? ==> && FindUser(t'.users, resp.reminder.userId).Some?
                                  && FindUser(t'.users, resp.reminder.userId).value.phoneNumber == request.phoneNumber)
            && (ModelStateValid(request) && |request.phoneNumber| <= PhoneColumnLength ==>
                  FindByPhone(t'.users, request.phoneNumber).Some?)
  {
    var (resp, t') := CreateReminderOn(t, request, now, draw);
    if ModelStateValid(request) && (FindByPhone(t.users, request.phoneNumber).Some? || |request.phoneNumber| <= PhoneColumnLength) {
      var (user, t1) := FindOrRegister(t, request.phoneNumber, now);
      assert t'.users == t1.users;
    }
  }

  /** POST api/Reminder. */
  method CreateReminder(db: Database, request: ReminderRequest, now: Instant, draw: int)
    returns (response: CreateReminderResponse)
    requires db.Valid() && InRange(now) && DrawFits(request.reminderTimeline, now, draw)
    modifies db
    ensures (response, db.Contents()) == CreateReminderOn(old(db.Contents()), request, now, draw)
    ensures db.Valid()
  {
    ghost var t0 := db.Contents();
    if !ModelStateValid(request) {
      return BadRequest;
    }
    var user: User;
    var found := FindByPhone(db.users, request.phoneNumber);
    if found.None? {
      if |request.phoneNumber| > PhoneColumnLength {
        // SaveChangesAsync throws: the column holds at most 20 characters.
        return ServerError;
      }
      user := db.AddUser(NewUser(request.phoneNumber, now, now));
    } else {
      user := found.value;
    }
    assert (user, db.Contents()) == FindOrRegister(t0, request.phoneNumber, now);
    ghost var t1 := db.Contents();
    var due := GetReminderDateTime(request.reminderTimeline, now, draw);
    if due.Err? {
      return ServerError;
    }
    var timeline := Name(TimelineOf(request.reminderTimeline).value);
    var rem := NewReminder(user.id, request.message, due.value, timeline, now, now);
    var saved := db.AddReminder(rem);
    assert db.Contents() == Schedule(t1, rem);
    return Created(saved);
  }
}

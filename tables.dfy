/** The two tables of ProcrastinatorContext (Procrastinator/ProcrastinatorContext.cs)
    that the controllers and the dispatch service work on, kept in memory:
    Users with a unique phone number of at most 20 characters, and Reminders
    whose UserId refers to a user.  Ids come from identity counters, as the
    database assigns them on insert. */
module Tables {
  import opened Results
  import opened Calendar
  import opened Validation
  import opened Entities

  /** `HasMaxLength(20)` on the PhoneNumber column. */
  const PhoneColumnLength: int := 20

  /** `FirstOrDefaultAsync(u => u.PhoneNumber == phone)`: the first user in
      table order with exactly that phone number, if any. */
  function FindByPhone(users: seq<User>, phone: string): (r: Option<User>)
    ensures r.Some? <==> exists i :: 0 <= i < |users| && users[i].phoneNumber == phone
    ensures r.Some? ==> exists i :: 0 <= i < |users| && users[i] == r.value
                                    && forall j :: 0 <= j < i ==> users[j].phoneNumber != phone
    ensures r.Some? ==> r.value.phoneNumber == phone
  {
    if |users| == 0 then None
    else if users[0].phoneNumber == phone then Some(users[0])
    else
      var r := FindByPhone(users[1..], phone);
      assert r.Some? ==> exists i :: 0 <= i < |users| && users[i] == r.value
                                     && forall j :: 0 <= j < i ==> users[j].phoneNumber != phone by {
        if r.Some? {
          var i :| 0 <= i < |users[1..]| && users[1..][i] == r.value
                   && forall j :: 0 <= j < i ==> users[1..][j].phoneNumber != phone;
          forall j | 0 <= j < i + 1
            ensures users[j].phoneNumber != phone
          {
            if j > 0 {
              assert users[j] == users[1..][j - 1];
            }
          }
          assert users[i + 1] == r.value;
        }
      }
      r
  }

  /** Some user has this id: the foreign key of Reminders.UserId. */
  predicate HasUserId(users: seq<User>, id: int) {
    exists i :: 0 <= i < |users| && users[i].id == id
  }

  /** The owner reached through a reminder's UserId (`Include(r => r.User)`). */
  function FindUser(users: seq<User>, id: int): (r: Option<User>)
    ensures r.Some? <==> HasUserId(users, id)
    ensures r.Some? ==> r.value in users && r.value.id == id
  {
    if |users| == 0 then None
    else if users[0].id == id then Some(users[0])
    else
      var r := FindUser(users[1..], id);
      assert HasUserId(users[1..], id) ==> HasUserId(users, id) by {
        if HasUserId(users[1..], id) {
          var k :| 0 <= k < |users[1..]| && users[1..][k].id == id;
          assert users[k + 1].id == id;
        }
      }
      r
  }

  /** The unique index on Users.PhoneNumber. */
  predicate PhonesUnique(users: seq<User>) {
    forall i, j :: 0 <= i < j < |users| ==> users[i].phoneNumber != users[j].phoneNumber
  }

  /** A phone number that passes `[Required]` and fits the column. */
  predicate StorablePhone(phone: string) {
    Required(phone) && |phone| <= PhoneColumnLength
  }

  /** The contents of both tables and the next identity values. */
  datatype Tables = Tables(users: seq<User>, reminders: seq<Reminder>, nextUserId: int, nextReminderId: int)
  {
    /** What the database and the two controllers keep true: unique phones
        that passed validation and fit the column, unique ids below the
        identity counters, every reminder's owner present, and retry counts
        that only ever started at 0 and grew. */
    predicate Valid() {
      && 0 < nextUserId && 0 < nextReminderId
      && PhonesUnique(users)
      && (forall i :: 0 <= i < |users| ==> StorablePhone(users[i].phoneNumber) && 0 < users[i].id < nextUserId)
      && (forall i, j :: 0 <= i < j < |users| ==> users[i].id != users[j].id)
      && (forall i :: 0 <= i < |reminders| ==>
            && 0 < reminders[i].id < nextReminderId
            && 0 <= reminders[i].retryCount
            && HasUserId(users, reminders[i].userId))
      && (forall i, j :: 0 <= i < j < |reminders| ==> reminders[i].id != reminders[j].id)
    }
  }

  /** On valid tables the unique index makes the phone lookup exact: every
      user is the one `FirstOrDefaultAsync` finds for their own phone. */
  lemma UserFoundByOwnPhone(t: Tables, i: int)
    requires t.Valid() && 0 <= i < |t.users|
    ensures FindByPhone(t.users, t.users[i].phoneNumber) == Some(t.users[i])
  {
    var found := FindByPhone(t.users, t.users[i].phoneNumber);
    var j :| 0 <= j < |t.users| && t.users[j] == found.value
             && forall k :: 0 <= k < j ==> t.users[k].phoneNumber != t.users[i].phoneNumber;
    assert j == i;
  }

  /** Inserting a user whose phone no user has, with the next identity,
      keeps the tables valid, and the new user is then the one found by
      that phone. */
  lemma InsertUserKeepsValid(t: Tables, u: User)
    requires t.Valid() && FindByPhone(t.users, u.phoneNumber).None?
    requires StorablePhone(u.phoneNumber) && u.id == t.nextUserId
    ensures t.(users := t.users + [u], nextUserId := t.nextUserId + 1).Valid()
    ensures FindByPhone(t.users + [u], u.phoneNumber) == Some(u)
  {
    var users' := t.users + [u];
    forall i | 0 <= i < |t.reminders|
      ensures HasUserId(users', t.reminders[i].userId)
    {
      var k :| 0 <= k < |t.users| && t.users[k].id == t.reminders[i].userId;
      assert users'[k] == t.users[k];
    }
    forall i | 0 <= i < |t.users|
      ensures t.users[i].phoneNumber != u.phoneNumber
    {
    }
    FindByPhoneAppend(t.users, u);
  }

  /** Looking a phone up in a table with one more user at the end finds
      that user when no earlier one has the phone. */
  lemma {:induction false} FindByPhoneAppend(users: seq<User>, u: User)
    requires FindByPhone(users, u.phoneNumber).None?
    ensures FindByPhone(users + [u], u.phoneNumber) == Some(u)
  {
    if |users| > 0 {
      assert (users + [u])[1..] == users[1..] + [u];
      FindByPhoneAppend(users[1..], u);
    }
  }

  /** Inserting a reminder that belongs to an existing user, with the next
      identity and no retries yet, keeps the tables valid. */
  lemma InsertReminderKeepsValid(t: Tables, r: Reminder)
    requires t.Valid() && HasUserId(t.users, r.userId)
    requires r.id == t.nextReminderId && r.retryCount == 0
    ensures t.(reminders := t.reminders + [r], nextReminderId := t.nextReminderId + 1).Valid()
  {
  }

  /** The database context: the two tables the core reads and changes, and
      the identity counters behind their keys. */
  class Database {
    var users: seq<User>
    var reminders: seq<Reminder>
    var nextUserId: int
    var nextReminderId: int

    function Contents(): Tables
      reads this
    {
      Tables(users, reminders, nextUserId, nextReminderId)
    }

    predicate Valid()
      reads this
    {
      Contents().Valid()
    }

    /** An empty database whose identities start at 1. */
    constructor ()
      ensures Contents() == Tables([], [], 1, 1)
      ensures Valid()
    {
      users := [];
      reminders := [];
      nextUserId := 1;
      nextReminderId := 1;
    }

    /** `Users.Add(user)` followed by `SaveChangesAsync()`: the row gets the
        next identity and is appended; the Reminders table is untouched. */
    method AddUser(u: User) returns (saved: User)
      modifies this
      ensures saved == u.(id := old(nextUserId))
      ensures Contents() == old(Contents()).(users := old(users) + [saved], nextUserId := old(nextUserId) + 1)
    {
      saved := u.(id := nextUserId);
      users := users + [saved];
      nextUserId := nextUserId + 1;
    }

    /** `Reminders.Add(reminder)` followed by `SaveChangesAsync()`. */
    method AddReminder(r: Reminder) returns (saved: Reminder)
      modifies this
      ensures saved == r.(id := old(nextReminderId))
      ensures Contents() == old(Contents()).(reminders := old(reminders) + [saved], nextReminderId := old(nextReminderId) + 1)
    {
      saved := r.(id := nextReminderId);
      reminders := reminders + [saved];
      nextReminderId := nextReminderId + 1;
    }
  }
}

/** CreateUser of Procrastinator/Controllers/UserController.cs on the
    in-memory tables: validate the request, refuse a phone number that is
    already registered, otherwise insert one user.  The clock reading for
    the timestamps is the parameter `now`. */
module UserController {
  import opened Results
  import opened Calendar
  import opened Validation
  import opened Entities
  import opened Tables

  /** CreateUserRequest: `[Required]` and `[StringLength(20)]` on PhoneNumber. */
  datatype CreateUserRequest = CreateUserRequest(phoneNumber: string)

  /** BadRequest(ModelState), Conflict(text) or CreatedAtAction(user). */
  datatype CreateUserResponse = BadRequest | Conflict(message: string) | Created(user: User)

  /** Model validation of the request. */
  predicate ModelStateValid(request: CreateUserRequest) {
    Required(request.phoneNumber) && StringLength(request.phoneNumber, 20)
  }

  /** The text of the Conflict response. */
  function ConflictMessage(phone: string): string {
    "User with phone number " + phone + " already exists."
  }

  /** What CreateUser answers and what the tables become. */
  function CreateUserOn(t: Tables, request: CreateUserRequest, now: Instant): (r: (CreateUserResponse, Tables))
    ensures r.0.BadRequest? <==> !ModelStateValid(request)
    ensures r.0.Conflict? <==> ModelStateValid(request) && FindByPhone(t.users, request.phoneNumber).Some?
    ensures r.0.Conflict? ==> r.0.message == ConflictMessage(request.phoneNumber)
    ensures !r.0.Created? ==> r.1 == t
    ensures r.0.Created? ==> && r.0.user == User(t.nextUserId, request.phoneNumber, now, now)
                             && r.1 == t.(users := t.users + [r.0.user], nextUserId := t.nextUserId + 1)
    ensures t.Valid() ==> r.1.Valid()
    ensures t.Valid() && r.0.Created? ==> FindByPhone(r.1.users, request.phoneNumber) == Some(r.0.user)
  {
    if !ModelStateValid(request) then (BadRequest, t)
    else if FindByPhone(t.users, request.phoneNumber).Some? then
      (Conflict(ConflictMessage(request.phoneNumber)), t)
    else
      var user := User(t.nextUserId, request.phoneNumber, now, now);
      var t' := t.(users := t.users + [user], nextUserId := t.nextUserId + 1);
      assert t.Valid() ==> t'.Valid() && FindByPhone(t'.users, user.phoneNumber) == Some(user) by {
        if t.Valid() {
          InsertUserKeepsValid(t, user);
        }
      }
      (Created(user), t')
  }

  /** After CreateUser on valid tables no two users share a phone number,
      and the requested phone is registered exactly when the request was
      valid: either it already was (Conflict) or it is now (Created). */
  lemma CreateUserKeepsPhonesUnique(t: Tables, request: CreateUserRequest, now: Instant)
    requires t.Valid()
    ensures var (resp, t') := CreateUserOn(t, request, now);
            && PhonesUnique(t'.users)
            && (ModelStateValid(request) ==> FindByPhone(t'.users, request.phoneNumber).Some?)
            && (resp.Created? ==> |t'.users| == |t.users| + 1)
            && (!resp.Created? ==> t'.users == t.users)
  {
    var (resp, t') := CreateUserOn(t, request, now);
    if resp.Conflict? {
      assert t'.users == t.users;
    }
  }

  /** POST api/User. */
  method CreateUser(db: Database, request: CreateUserRequest, now: Instant) returns (response: CreateUserResponse)
    requires db.Valid()
    modifies db
    ensures (response, db.Contents()) == CreateUserOn(old(db.Contents()), request, now)
    ensures db.Valid()
  {
    if !ModelStateValid(request) {
      return BadRequest;
    }
    var existing := FindByPhone(db.users, request.phoneNumber);
    if existing.Some? {
      return Conflict(ConflictMessage(request.phoneNumber));
    }
    var user := NewUser(request.phoneNumber, now, now);
    var saved := db.AddUser(user);
    return Created(saved);
  }
}

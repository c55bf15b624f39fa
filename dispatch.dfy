/** ProcessDueRemindersAsync of Procrastinator/Services/ReminderDispatchService.cs:
    one pass of the dispatch service over the Reminders table.  The pass reads
    the clock once (`now`), selects the reminders that are due, sends each
    one, and marks it completed or counts a retry.  What the message service
    does for each reminder is the oracle `outcomes`, indexed by table
    position; `maxRetries` is the configured MaxRetries. */
module Dispatch {
  import opened Results
  import opened Calendar
  import opened Entities
  import opened Tables

  /** What `SendMessageAsync` did: returned true (the success branch then
      reads the clock again, giving `at`), returned false, or threw. */
  datatype SendOutcome = Delivered(at: Instant) | Declined | Threw

  /** A message handed to the message service. */
  datatype Outgoing = Outgoing(to: string, text: string)

  /** The text before the reminder's message: a bell, then "Reminder: ". */
  const TextPrefix: string := "\U{1F514} Reminder: "

  /** The selection of the query: not completed, retries left, and due. */
  predicate IsDue(r: Reminder, now: Instant, maxRetries: int) {
    !r.isCompleted && r.retryCount < maxRetries && r.reminderDateTime <= now
  }

  /** A reminder that failed for the last time: not completed and out of retries. */
  predicate PermanentlyFailed(r: Reminder, maxRetries: int) {
    !r.isCompleted && maxRetries <= r.retryCount
  }

  /** The positions of the due reminders, in table order. */
  function DueIndices(rs: seq<Reminder>, now: Instant, maxRetries: int): (due: seq<int>)
    ensures forall j :: 0 <= j < |due| ==> 0 <= due[j] < |rs| && IsDue(rs[due[j]], now, maxRetries)
    ensures forall k :: 0 <= k < |rs| && IsDue(rs[k], now, maxRetries) ==> k in due
    ensures forall j, j' :: 0 <= j < j' < |due| ==> due[j] < due[j']
  {
    if |rs| == 0 then []
    else
      var front := DueIndices(rs[..|rs| - 1], now, maxRetries);
      assert forall k :: 0 <= k < |rs| - 1 ==> rs[..|rs| - 1][k] == rs[k];
      if IsDue(rs[|rs| - 1], now, maxRetries) then front + [|rs| - 1] else front
  }

  /** What the loop body does to one selected reminder: on success it is
      completed and stamped with the fresh clock reading; on a false result
      or an exception the retry count goes up by one and it is stamped with
      the pass's `now`.  Nothing else about it changes. */
  function Step(r: Reminder, outcome: SendOutcome, now: Instant): (r': Reminder)
    ensures r'.(isCompleted := r.isCompleted, retryCount := r.retryCount, updatedAt := r.updatedAt) == r
    ensures outcome.Delivered? ==> r'.isCompleted && r'.retryCount == r.retryCount && r'.updatedAt == outcome.at
    ensures !outcome.Delivered? ==> && r'.isCompleted == r.isCompleted
                                    && r'.retryCount == r.retryCount + 1 && r'.updatedAt == now
  {
    match outcome
    case Delivered(at) => r.(isCompleted := true, updatedAt := at)
    case Declined => r.(retryCount := r.retryCount + 1, updatedAt := now)
    case Threw => r.(retryCount := r.retryCount + 1, updatedAt := now)
  }

  /** The Reminders table after a pass: each due reminder goes through
      Step, the others stay as they are.  No reminder changes its id,
      owner, message or due time. */
  function PassResult(rs: seq<Reminder>, outcomes: seq<SendOutcome>, now: Instant, maxRetries: int): (rs': seq<Reminder>)
    requires |outcomes| == |rs|
    ensures |rs'| == |rs|
    ensures forall k :: 0 <= k < |rs| ==>
              && rs'[k].id == rs[k].id && rs'[k].userId == rs[k].userId
              && rs'[k].message == rs[k].message && rs'[k].reminderDateTime == rs[k].reminderDateTime
  {
    seq(|rs|, k requires 0 <= k < |rs| =>
      if IsDue(rs[k], now, maxRetries) then Step(rs[k], outcomes[k], now) else rs[k])
  }

  /** The message for the reminder at position `k`: the prefix and its
      message, to its owner's phone number. */
  function MessageFor(users: seq<User>, rs: seq<Reminder>, k: int): Outgoing
    requires 0 <= k < |rs| && HasUserId(users, rs[k].userId)
  {
    Outgoing(FindUser(users, rs[k].userId).value.phoneNumber, TextPrefix + rs[k].message)
  }

  /** The messages for the positions `ks`, in that order. */
  function MessagesFor(users: seq<User>, rs: seq<Reminder>, ks: seq<int>): (ms: seq<Outgoing>)
    requires forall j :: 0 <= j < |ks| ==> 0 <= ks[j] < |rs| && HasUserId(users, rs[ks[j]].userId)
    ensures |ms| == |ks|
    ensures forall j :: 0 <= j < |ks| ==> ms[j] == MessageFor(users, rs, ks[j])
  {
    if |ks| == 0 then []
    else MessagesFor(users, rs, ks[..|ks| - 1]) + [MessageFor(users, rs, ks[|ks| - 1])]
  }

  /** Every reminder's owner is in the Users table. */
  predicate OwnersPresent(users: seq<User>, rs: seq<Reminder>) {
    forall k :: 0 <= k < |rs| ==> HasUserId(users, rs[k].userId)
  }

  /** The table after Step has been applied at the positions `ks`, one
      after another: the state of the loop after visiting `ks`. */
  ghost function Applied(rs: seq<Reminder>, outcomes: seq<SendOutcome>, now: Instant, ks: seq<int>): (rs': seq<Reminder>)
    requires |outcomes| == |rs| && forall j :: 0 <= j < |ks| ==> 0 <= ks[j] < |rs|
    ensures |rs'| == |rs|
  {
    if |ks| == 0 then rs
    else
      var prev := Applied(rs, outcomes, now, ks[..|ks| - 1]);
      var k := ks[|ks| - 1];
      prev[k := Step(prev[k], outcomes[k], now)]
  }

  /** Visiting distinct positions applies Step once at each of them and
      leaves every other position alone. */
  lemma {:induction false} AppliedAtEach(rs: seq<Reminder>, outcomes: seq<SendOutcome>, now: Instant, ks: seq<int>, k: int)
    requires |outcomes| == |rs| && forall j :: 0 <= j < |ks| ==> 0 <= ks[j] < |rs|
    requires forall j, j' :: 0 <= j < j' < |ks| ==> ks[j] < ks[j']
    requires 0 <= k < |rs|
    ensures Applied(rs, outcomes, now, ks)[k] == if k in ks then Step(rs[k], outcomes[k], now) else rs[k]
  {
    if |ks| > 0 {
      var front := ks[..|ks| - 1];
      AppliedAtEach(rs, outcomes, now, front, k);
      assert k in ks <==> k in front || k == ks[|ks| - 1];
      if k == ks[|ks| - 1] {
        assert k !in front;
      }
    }
  }

  /** Visiting the due positions yields the table after the pass. */
  lemma AppliedDueIsPass(rs: seq<Reminder>, outcomes: seq<SendOutcome>, now: Instant, maxRetries: int)
    requires |outcomes| == |rs|
    ensures Applied(rs, outcomes, now, DueIndices(rs, now, maxRetries)) == PassResult(rs, outcomes, now, maxRetries)
  {
    var due := DueIndices(rs, now, maxRetries);
    forall k | 0 <= k < |rs|
      ensures Applied(rs, outcomes, now, due)[k] == PassResult(rs, outcomes, now, maxRetries)[k]
    {
      AppliedAtEach(rs, outcomes, now, due, k);
    }
  }

  /** ProcessDueRemindersAsync.  When nothing is due it returns at once;
      otherwise the selected reminders are visited in table order.  The
      Users table and the identity counters do not change. */
  method ProcessDueReminders(db: Database, now: Instant, maxRetries: int, outcomes: seq<SendOutcome>)
    returns (sent: seq<Outgoing>)
    requires db.Valid() && |outcomes| == |db.reminders|
    modifies db
    ensures db.Valid()
    ensures db.users == old(db.users)
    ensures db.nextUserId == old(db.nextUserId) && db.nextReminderId == old(db.nextReminderId)
    ensures db.reminders == PassResult(old(db.reminders), outcomes, now, maxRetries)
    ensures sent == MessagesFor(old(db.users), old(db.reminders), DueIndices(old(db.reminders), now, maxRetries))
  {
    var due := DueIndices(db.reminders, now, maxRetries);
    if |due| == 0 {
      NothingDueLeavesTable(db.reminders, outcomes, now, maxRetries);
      return [];
    }
    assert OwnersPresent(db.users, db.reminders);
    sent := SendEach(db, due, outcomes, now);
    AppliedDueIsPass(old(db.reminders), outcomes, now, maxRetries);
    PassKeepsValid(old(db.Contents()), outcomes, now, maxRetries);
  }

  /** The `foreach` over the selected reminders: each one, once, in the
      order of `due`, is sent its message and then updated by Step. */
  method SendEach(db: Database, due: seq<int>, outcomes: seq<SendOutcome>, now: Instant)
    returns (sent: seq<Outgoing>)
    requires |outcomes| == |db.reminders| && OwnersPresent(db.users, db.reminders)
    requires forall j :: 0 <= j < |due| ==> 0 <= due[j] < |db.reminders|
    requires forall j, j' :: 0 <= j < j' < |due| ==> due[j] < due[j']
    modifies db
    ensures db.users == old(db.users)
    ensures db.nextUserId == old(db.nextUserId) && db.nextReminderId == old(db.nextReminderId)
    ensures db.reminders == Applied(old(db.reminders), outcomes, now, due)
    ensures sent == MessagesFor(old(db.users), old(db.reminders), due)
  {
    ghost var rs := db.reminders;
    sent := [];
    var j := 0;
    while j < |due|
      invariant 0 <= j <= |due|
      invariant db.users == old(db.users) && db.nextUserId == old(db.nextUserId)
      invariant db.nextReminderId == old(db.nextReminderId)
      invariant db.reminders == Applied(rs, outcomes, now, due[..j])
      invariant sent == MessagesFor(db.users, rs, due[..j])
    {
      var k := due[j];
      AppliedAtEach(rs, outcomes, now, due[..j], k);
      var owner := FindUser(db.users, db.reminders[k].userId);
      var text := TextPrefix + db.reminders[k].message;
      sent := sent + [Outgoing(owner.value.phoneNumber, text)];
      db.reminders := db.reminders[k := Step(db.reminders[k], outcomes[k], now)];
      assert due[..j + 1][..j] == due[..j];
      j := j + 1;
    }
    assert due[..j] == due;
  }

  // What one pass guarantees

  /** If no reminder is due the pass changes nothing. */
  lemma NothingDueLeavesTable(rs: seq<Reminder>, outcomes: seq<SendOutcome>, now: Instant, maxRetries: int)
    requires |outcomes| == |rs| && |DueIndices(rs, now, maxRetries)| == 0
    ensures PassResult(rs, outcomes, now, maxRetries) == rs
  {
    var rs' := PassResult(rs, outcomes, now, maxRetries);
    forall k | 0 <= k < |rs|
      ensures rs'[k] == rs[k]
    {
      assert k !in DueIndices(rs, now, maxRetries);
    }
  }

  /** A reminder that is not due (completed, out of retries, or in the
      future) leaves the pass exactly as it came in; a due one is changed
      only by Step. */
  lemma PassTouchesOnlyDue(rs: seq<Reminder>, outcomes: seq<SendOutcome>, now: Instant, maxRetries: int, k: int)
    requires |outcomes| == |rs| && 0 <= k < |rs|
    ensures !IsDue(rs[k], now, maxRetries) ==> PassResult(rs, outcomes, now, maxRetries)[k] == rs[k]
    ensures IsDue(rs[k], now, maxRetries) ==> PassResult(rs, outcomes, now, maxRetries)[k] == Step(rs[k], outcomes[k], now)
  {
  }

  /** Across a pass the retry count never goes down, a completed reminder
      stays completed, and a selected reminder ends with at most MaxRetries
      retries. */
  lemma PassIsMonotone(rs: seq<Reminder>, outcomes: seq<SendOutcome>, now: Instant, maxRetries: int, k: int)
    requires |outcomes| == |rs| && 0 <= k < |rs|
    ensures var r' := PassResult(rs, outcomes, now, maxRetries)[k];
            && rs[k].retryCount <= r'.retryCount <= rs[k].retryCount + 1
            && (rs[k].isCompleted ==> r'.isCompleted)
            && (IsDue(rs[k], now, maxRetries) ==> r'.retryCount <= maxRetries)
  {
  }

  /** A selected reminder whose send failed becomes permanently failed
      exactly when its new retry count reaches MaxRetries; otherwise it is
      completed or still has retries left. */
  lemma FailureBecomesPermanentAtMaxRetries(r: Reminder, outcome: SendOutcome, now: Instant, maxRetries: int)
    requires IsDue(r, now, maxRetries)
    ensures var r' := Step(r, outcome, now);
            && (PermanentlyFailed(r', maxRetries) <==> !outcome.Delivered? && r.retryCount + 1 == maxRetries)
            && (outcome.Delivered? <==> r'.isCompleted)
  {
  }

  /** A completed or permanently failed reminder is never selected again,
      whatever the clock says, so every later pass leaves it unchanged. */
  lemma FinishedIsNeverSelected(r: Reminder, later: Instant, maxRetries: int)
    requires r.isCompleted || PermanentlyFailed(r, maxRetries)
    ensures !IsDue(r, later, maxRetries)
  {
  }

  /** A pass keeps the tables valid: it changes no id, owner or user, and
      retry counts only grow. */
  lemma PassKeepsValid(t: Tables, outcomes: seq<SendOutcome>, now: Instant, maxRetries: int)
    requires t.Valid() && |outcomes| == |t.reminders|
    ensures t.(reminders := PassResult(t.reminders, outcomes, now, maxRetries)).Valid()
  {
    var rs' := PassResult(t.reminders, outcomes, now, maxRetries);
    forall k | 0 <= k < |rs'|
      ensures rs'[k].id == t.reminders[k].id && rs'[k].userId == t.reminders[k].userId
      ensures t.reminders[k].retryCount <= rs'[k].retryCount
    {
    }
  }

  // Over many passes

  /** One run of the service's loop: the clock reading and the send outcomes. */
  datatype Pass = Pass(now: Instant, outcomes: seq<SendOutcome>)

  /** Every pass carries an outcome per reminder. */
  predicate Fitting(passes: seq<Pass>, n: int) {
    forall p :: 0 <= p < |passes| ==> |passes[p].outcomes| == n
  }

  /** The Reminders table after the passes, one after another. */
  function Passes(rs: seq<Reminder>, passes: seq<Pass>, maxRetries: int): (rs': seq<Reminder>)
    requires Fitting(passes, |rs|)
    ensures |rs'| == |rs|
    decreases |passes|
  {
    if |passes| == 0 then rs
    else Passes(PassResult(rs, passes[0].outcomes, passes[0].now, maxRetries), passes[1..], maxRetries)
  }

  /** How many of the passes select (and so send) the reminder at `k`. */
  function SendCount(rs: seq<Reminder>, passes: seq<Pass>, maxRetries: int, k: int): nat
    requires Fitting(passes, |rs|) && 0 <= k < |rs|
    decreases |passes|
  {
    if |passes| == 0 then 0
    else
      (if IsDue(rs[k], passes[0].now, maxRetries) then 1 else 0)
      + SendCount(PassResult(rs, passes[0].outcomes, passes[0].now, maxRetries), passes[1..], maxRetries, k)
  }

  /** The sends a reminder can still take: none once completed, otherwise
      the retries it has left. */
  function Budget(r: Reminder, maxRetries: int): nat {
    if r.isCompleted || maxRetries <= r.retryCount then 0 else maxRetries - r.retryCount
  }

  /** A pass that selects a reminder uses up at least one of its sends. */
  lemma PassSpendsBudget(rs: seq<Reminder>, outcomes: seq<SendOutcome>, now: Instant, maxRetries: int, k: int)
    requires |outcomes| == |rs| && 0 <= k < |rs|
    ensures Budget(PassResult(rs, outcomes, now, maxRetries)[k], maxRetries)
            + (if IsDue(rs[k], now, maxRetries) then 1 else 0) <= Budget(rs[k], maxRetries)
  {
  }

  /** However many passes run, a reminder is sent at most
      `MaxRetries - RetryCount` times, and never once it is completed or out
      of retries. */
  lemma {:induction false} SendsAreBounded(rs: seq<Reminder>, passes: seq<Pass>, maxRetries: int, k: int)
    requires Fitting(passes, |rs|) && 0 <= k < |rs|
    ensures SendCount(rs, passes, maxRetries, k) <= Budget(rs[k], maxRetries)
    decreases |passes|
  {
    if |passes| > 0 {
      var next := PassResult(rs, passes[0].outcomes, passes[0].now, maxRetries);
      assert Fitting(passes[1..], |next|) by {
        forall p | 0 <= p < |passes[1..]|
          ensures |passes[1..][p].outcomes| == |next|
        {
          assert passes[1..][p] == passes[p + 1];
        }
      }
      PassSpendsBudget(rs, passes[0].outcomes, passes[0].now, maxRetries, k);
      SendsAreBounded(next, passes[1..], maxRetries, k);
    }
  }

  /** Over any number of passes the retry count never decreases and never
      passes MaxRetries unless it started above it. */
  lemma {:induction false} RetriesStayBounded(rs: seq<Reminder>, passes: seq<Pass>, maxRetries: int, k: int)
    requires Fitting(passes, |rs|) && 0 <= k < |rs|
    ensures var r' := Passes(rs, passes, maxRetries)[k];
            && rs[k].retryCount <= r'.retryCount
            && r'.retryCount <= (if rs[k].retryCount < maxRetries then maxRetries else rs[k].retryCount)
            && (rs[k].isCompleted ==> r' == rs[k])
    decreases |passes|
  {
    if |passes| > 0 {
      var next := PassResult(rs, passes[0].outcomes, passes[0].now, maxRetries);
      assert Fitting(passes[1..], |next|) by {
        forall p | 0 <= p < |passes[1..]|
          ensures |passes[1..][p].outcomes| == |next|
        {
          assert passes[1..][p] == passes[p + 1];
        }
      }
      RetriesStayBounded(next, passes[1..], maxRetries, k);
    }
  }
}

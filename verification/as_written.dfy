/** `clockIn` as the server writes it: its guard compares the caller with `assigned_to` only, and
    "" stands both for "nobody is assigned" and for "the token carries no e-mail". */
module AsWritten {
  import opened Wrappers
  import opened Records
  import opened Ledger
  import opened Lifecycle
  import opened Scenario
  import Invariants

  /** `clockIn` with the server's guard `assigned_to != caller`, and nothing else changed. */
  function ClockInAsWritten(db: Tables, id: TaskId, caller: Identity, now: Time): (r: Result<Tables, Error>)
    ensures id !in db.tasks ==> r == Failure(NotFound)
    ensures (id in db.tasks && db.tasks[id].assignedTo != caller) ==> r == Failure(OnlyAssigneeClockIn)
    ensures (id in db.tasks && db.tasks[id].assignedTo == caller && db.tasks[id].status != Open)
              ==> r == Failure(TaskNotOpen)
    ensures r.Success? <==>
              && id in db.tasks && db.tasks[id].assignedTo == caller && db.tasks[id].status == Open
              && forall i :: 0 <= i < |db.worklogs| ==> !IsOpenFor(db.worklogs[i], id, caller)
    ensures (r.Failure? && id in db.tasks && db.tasks[id].assignedTo == caller
             && db.tasks[id].status == Open)
              ==> r.error == AlreadyClockedIn
    ensures r.Success? ==>
              && r.value.worklogs == db.worklogs + [WorkLog(id, caller, now, None)]
              && r.value.tasks == db.tasks && r.value.nextId == db.nextId
  {
    if id !in db.tasks then Failure(NotFound)
    else
      var t := db.tasks[id];
      if t.assignedTo != caller then Failure(OnlyAssigneeClockIn)
      else if t.status != Open then Failure(TaskNotOpen)
      else if EarliestOpen(db.worklogs, id, caller).Some? then Failure(AlreadyClockedIn)
      else Success(db.(worklogs := db.worklogs + [WorkLog(id, caller, now, None)]))
  }

  /** The guard as written and the corrected one give the same answer except to a caller
      without e-mail at a task nobody has accepted; there the written one lets the caller in
      whenever the task is open and the caller has no open session on it. */
  lemma {:induction false} GuardsDifferOnlyOnEmptyIdentity(db: Tables, id: TaskId, caller: Identity, now: Time)
    ensures (id !in db.tasks || caller != "" || db.tasks[id].IsAssigned())
              ==> ClockInAsWritten(db, id, caller, now) == ClockIn(db, id, caller, now)
    ensures (ClockInAsWritten(db, id, caller, now).Success? != ClockIn(db, id, caller, now).Success?)
              <==> (&& id in db.tasks && caller == "" && !db.tasks[id].IsAssigned()
                    && db.tasks[id].status == Open
                    && forall i :: 0 <= i < |db.worklogs| ==> !IsOpenFor(db.worklogs[i], id, caller))
  {
  }

  /** On any valid store where task 0 is open, unassigned and not bob's, and no session exists:
      a caller without e-mail clocks in, which the corrected clock-in refuses; bob then accepts.
      The session stays open on bob's task under an identity that is not bob's, so bob cannot
      complete the task, and the stranger's time is billed to it once they clock out. */
  lemma EmptyIdentityChain(db0: Tables)
    requires Valid(db0) && db0.worklogs == []
    requires 0 in db0.tasks && db0.tasks[0].status == Open && db0.tasks[0].assignedTo == ""
    requires db0.tasks[0].requester != "bob"
    ensures ClockIn(db0, 0, "", 100) == Failure(OnlyAssigneeClockIn)
    ensures ClockInAsWritten(db0, 0, "", 100).Success?
    ensures var db1 := ClockInAsWritten(db0, 0, "", 100).value;
      && AcceptTask(db1, 0, "bob").Success?
      && var db2 := AcceptTask(db1, 0, "bob").value;
      && !Valid(db2)
      && db2.worklogs[0].user != db2.tasks[0].assignedTo
      && CompleteTask(db2, 0, "bob") == Failure(ClockOutRequired)
      && ClockOut(db2, 0, "", 700).Success?
      && TotalMinutes(ClockOut(db2, 0, "", 700).value.worklogs, 0) == 10
  {
    var db1 := ClockInAsWritten(db0, 0, "", 100).value;
    assert db1.worklogs == [WorkLog(0, "", 100, None)];
    var db2 := AcceptTask(db1, 0, "bob").value;
    assert !EntryFits(db2.tasks, db2.worklogs[0]);
    assert HasOpen(db2.worklogs, 0);
    var db3 := ClockOut(db2, 0, "", 700).value;
    assert db3.worklogs == [WorkLog(0, "", 100, Some(700))];
    assert db3.worklogs[..0] == [];
  }

  /** The errand alice has just posted is such a store: the stranger gets in on it. */
  lemma EmptyIdentityClocksIntoUnassignedTask()
    ensures Valid(Posted())
    ensures ClockIn(Posted(), 0, "", 100) == Failure(OnlyAssigneeClockIn)
    ensures ClockInAsWritten(Posted(), 0, "", 100).Success?
    ensures var db1 := ClockInAsWritten(Posted(), 0, "", 100).value;
      && AcceptTask(db1, 0, "bob").Success?
      && var db2 := AcceptTask(db1, 0, "bob").value;
      && !Valid(db2)
      && db2.worklogs[0].user != db2.tasks[0].assignedTo
      && CompleteTask(db2, 0, "bob") == Failure(ClockOutRequired)
      && ClockOut(db2, 0, "", 700).Success?
      && TotalMinutes(ClockOut(db2, 0, "", 700).value.worklogs, 0) == 10
  {
    Posting();
    Invariants.CreateStep(Empty(), "alice", Submission(), 0);
    EmptyIdentityChain(Posted());
  }
}

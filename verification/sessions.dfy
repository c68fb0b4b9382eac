/** What the ledger requests do to the billed time, and why accepting and completing succeed at
    most once. */
module Sessions {
  import opened Wrappers
  import opened Records
  import opened Ledger
  import opened Lifecycle
  import Invariants

  /** Clocking out adds the closed session's minutes to its task's total (at least one minute
      when it ends after it started, none otherwise) and leaves every other task's total alone. */
  lemma ClockOutAddsSessionMinutes(db: Tables, id: TaskId, caller: Identity, now: Time)
    requires ClockOut(db, id, caller, now).Success?
    ensures var k := EarliestOpen(db.worklogs, id, caller).value;
      var logs' := ClockOut(db, id, caller, now).value.worklogs;
      && TotalMinutes(logs', id) == TotalMinutes(db.worklogs, id) + EntryMinutes(db.worklogs[k].(end := Some(now)))
      && (now > db.worklogs[k].start ==> TotalMinutes(logs', id) >= TotalMinutes(db.worklogs, id) + 1)
      && (now <= db.worklogs[k].start ==> TotalMinutes(logs', id) == TotalMinutes(db.worklogs, id))
      && forall other :: other != id ==> TotalMinutes(logs', other) == TotalMinutes(db.worklogs, other)
  {
    var k := EarliestOpen(db.worklogs, id, caller).value;
    var closed := db.worklogs[k].(end := Some(now));
    var logs' := ClockOut(db, id, caller, now).value.worklogs;
    assert logs' == db.worklogs[k := closed];
    TotalMinutesReplace(db.worklogs, k, closed, id);
    forall other | other != id
      ensures TotalMinutes(logs', other) == TotalMinutes(db.worklogs, other)
    {
      TotalMinutesReplace(db.worklogs, k, closed, other);
    }
  }

  /** Clocking in opens a session, which bills nothing until it is closed: no total changes. */
  lemma ClockInKeepsTotals(db: Tables, id: TaskId, caller: Identity, now: Time)
    requires ClockIn(db, id, caller, now).Success?
    ensures forall task :: TotalMinutes(ClockIn(db, id, caller, now).value.worklogs, task)
                           == TotalMinutes(db.worklogs, task)
  {
    forall task
      ensures TotalMinutes(ClockIn(db, id, caller, now).value.worklogs, task) == TotalMinutes(db.worklogs, task)
    {
      TotalMinutesAppend(db.worklogs, WorkLog(id, caller, now, None), task);
    }
  }

  /** After a successful clock-in the caller has exactly one open session on the task. */
  lemma ClockInOpensOneSession(db: Tables, id: TaskId, caller: Identity, now: Time)
    requires Valid(db)
    requires ClockIn(db, id, caller, now).Success?
    ensures OpenCount(ClockIn(db, id, caller, now).value.worklogs, id, caller) == 1
  {
    var logs' := ClockIn(db, id, caller, now).value.worklogs;
    Invariants.ClockInStep(db, id, caller, now);
    assert IsOpenFor(logs'[|logs'| - 1], id, caller);
    OpenCountAtMostOne(logs', id, caller);
  }

  /** Once a caller with an identity has accepted a task, every later accept of it is refused. */
  lemma AcceptSucceedsOnce(db: Tables, id: TaskId, winner: Identity, other: Identity)
    requires AcceptTask(db, id, winner).Success? && winner != ""
    ensures var db' := AcceptTask(db, id, winner).value;
      AcceptTask(db', id, other)
        == Failure(if other == db.tasks[id].requester then CannotAcceptOwn else NotAvailable)
  {
  }

  /** Once a task is completed, completing it again is refused and so is clocking in on it. */
  lemma CompleteSucceedsOnce(db: Tables, id: TaskId, caller: Identity, other: Identity, now: Time)
    requires CompleteTask(db, id, caller).Success?
    ensures var db' := CompleteTask(db, id, caller).value;
      && CompleteTask(db', id, other).Failure?
      && CompleteTask(db', id, other).error in {NotAllowed, AlreadyClosed}
      && ClockIn(db', id, db.tasks[id].assignedTo, now) == Failure(TaskNotOpen)
  {
  }
}

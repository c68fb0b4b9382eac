/** The server with `clockIn` as it is written (AsWritten.ClockInAsWritten). A caller without
    e-mail can then hold a session on a task that is not theirs, so the store invariant of
    Lifecycle is not kept. A weaker one is: every session is its task's assignee's or was opened
    under the empty identity. With it `completed` stays terminal along with the task's sessions,
    an assignment stays, a closed session never changes, and no (task, user) pair gets a second
    open session. */
module Deployed {
  import opened Wrappers
  import opened Records
  import opened Normalize
  import opened Ledger
  import opened Lifecycle
  import opened AsWritten
  import Invariants

  /** A session belongs to an existing task and is closed once the task is completed. It was
      opened by the task's assignee, or under the empty identity. */
  ghost predicate EntryFitsAsWritten(tasks: map<TaskId, Task>, w: WorkLog)
  {
    && w.taskId in tasks
    && (w.user == "" || w.user == tasks[w.taskId].assignedTo)
    && (tasks[w.taskId].status == Completed ==> !w.IsOpen())
  }

  /** The store invariant that the server as written keeps. */
  ghost predicate ValidAsWritten(db: Tables)
  {
    && (forall k :: k in db.tasks ==>
          k < db.nextId && db.tasks[k].id == k && WellFormed(FieldsOf(db.tasks[k])))
    && (forall i :: 0 <= i < |db.worklogs| ==> EntryFitsAsWritten(db.tasks, db.worklogs[i]))
    && AtMostOneOpen(db.worklogs)
  }

  /** The invariant of the corrected server implies this one. */
  lemma ValidIsStronger(db: Tables)
    requires Valid(db)
    ensures ValidAsWritten(db)
  {
    forall i | 0 <= i < |db.worklogs| ensures EntryFitsAsWritten(db.tasks, db.worklogs[i]) {
      assert EntryFits(db.tasks, db.worklogs[i]);
    }
  }

  /** Posting keeps the invariant and moves the tables forward. */
  lemma CreateStep(db: Tables, caller: Identity, input: TaskInput, now: Time)
    requires ValidAsWritten(db)
    ensures ValidAsWritten(Outcome(db, CreateTask(db, caller, input, now)))
    ensures Invariants.Evolves(db, Outcome(db, CreateTask(db, caller, input, now)))
  {
    var r := CreateTask(db, caller, input, now);
    if r.Success? {
      var db' := r.value;
      assert db.nextId !in db.tasks;
      forall i | 0 <= i < |db'.worklogs| ensures EntryFitsAsWritten(db'.tasks, db'.worklogs[i]) {
        assert EntryFitsAsWritten(db.tasks, db.worklogs[i]);
      }
    }
  }

  /** Editing keeps the invariant: the assignee and status that sessions depend on stay. */
  lemma UpdateStep(db: Tables, id: TaskId, caller: Identity, input: TaskInput, now: Time)
    requires ValidAsWritten(db)
    ensures ValidAsWritten(Outcome(db, UpdateTask(db, id, caller, input, now)))
    ensures Invariants.Evolves(db, Outcome(db, UpdateTask(db, id, caller, input, now)))
  {
    var r := UpdateTask(db, id, caller, input, now);
    if r.Success? {
      var db' := r.value;
      forall i | 0 <= i < |db'.worklogs| ensures EntryFitsAsWritten(db'.tasks, db'.worklogs[i]) {
        assert EntryFitsAsWritten(db.tasks, db.worklogs[i]);
      }
    }
  }

  /** Accepting may leave sessions opened under the empty identity on the task, but no session
      of anyone else: such a session would name the task's assignee, and it has none. */
  lemma AcceptStep(db: Tables, id: TaskId, caller: Identity)
    requires ValidAsWritten(db)
    ensures ValidAsWritten(Outcome(db, AcceptTask(db, id, caller)))
    ensures Invariants.Evolves(db, Outcome(db, AcceptTask(db, id, caller)))
  {
    var r := AcceptTask(db, id, caller);
    if r.Success? {
      var db' := r.value;
      forall i | 0 <= i < |db'.worklogs| ensures EntryFitsAsWritten(db'.tasks, db'.worklogs[i]) {
        assert EntryFitsAsWritten(db.tasks, db.worklogs[i]);
      }
    }
  }

  /** Clocking in as written keeps the invariant: the caller is the assignee, which may be "". */
  lemma ClockInStep(db: Tables, id: TaskId, caller: Identity, now: Time)
    requires ValidAsWritten(db)
    ensures ValidAsWritten(Outcome(db, ClockInAsWritten(db, id, caller, now)))
    ensures Invariants.Evolves(db, Outcome(db, ClockInAsWritten(db, id, caller, now)))
  {
    var r := ClockInAsWritten(db, id, caller, now);
    if r.Success? {
      var logs, logs' := db.worklogs, r.value.worklogs;
      forall i | 0 <= i < |logs'| ensures EntryFitsAsWritten(db.tasks, logs'[i]) {
        if i < |logs| { assert logs'[i] == logs[i]; }
      }
      assert forall i :: 0 <= i < |logs| ==> logs'[i] == logs[i];
    }
  }

  /** Clocking out keeps the invariant: closing a session only removes an open one. */
  lemma ClockOutStep(db: Tables, id: TaskId, caller: Identity, now: Time)
    requires ValidAsWritten(db)
    ensures ValidAsWritten(Outcome(db, ClockOut(db, id, caller, now)))
    ensures Invariants.Evolves(db, Outcome(db, ClockOut(db, id, caller, now)))
  {
    var r := ClockOut(db, id, caller, now);
    if r.Success? {
      var logs, logs' := db.worklogs, r.value.worklogs;
      forall i | 0 <= i < |logs'| ensures EntryFitsAsWritten(db.tasks, logs'[i]) {
        assert EntryFitsAsWritten(db.tasks, logs[i]);
      }
    }
  }

  /** Completing keeps the invariant: no session of the task is open, whoever opened it. */
  lemma CompleteStep(db: Tables, id: TaskId, caller: Identity)
    requires ValidAsWritten(db)
    ensures ValidAsWritten(Outcome(db, CompleteTask(db, id, caller)))
    ensures Invariants.Evolves(db, Outcome(db, CompleteTask(db, id, caller)))
  {
    var r := CompleteTask(db, id, caller);
    if r.Success? {
      var db' := r.value;
      forall i | 0 <= i < |db'.worklogs| ensures EntryFitsAsWritten(db'.tasks, db'.worklogs[i]) {
        assert EntryFitsAsWritten(db.tasks, db.worklogs[i]);
        if db.worklogs[i].taskId == id {
          assert !db.worklogs[i].IsOpen();
        }
      }
    }
  }

  /** The tables after one request to the server as written. */
  function Apply(db: Tables, req: Invariants.Request): Tables
  {
    match req
    case CreateCall(caller, input, now) => Outcome(db, CreateTask(db, caller, input, now))
    case UpdateCall(id, caller, input, now) => Outcome(db, UpdateTask(db, id, caller, input, now))
    case AcceptCall(id, caller) => Outcome(db, AcceptTask(db, id, caller))
    case ClockInCall(id, caller, now) => Outcome(db, ClockInAsWritten(db, id, caller, now))
    case ClockOutCall(id, caller, now) => Outcome(db, ClockOut(db, id, caller, now))
    case CompleteCall(id, caller) => Outcome(db, CompleteTask(db, id, caller))
  }

  /** The tables after the requests, answered one after the other by the server as written. */
  function Run(db: Tables, reqs: seq<Invariants.Request>): Tables
    decreases |reqs|
  {
    if reqs == [] then db else Run(Apply(db, reqs[0]), reqs[1..])
  }

  /** One request to the server as written keeps its invariant and moves the tables forward. */
  lemma ApplyStep(db: Tables, req: Invariants.Request)
    requires ValidAsWritten(db)
    ensures ValidAsWritten(Apply(db, req)) && Invariants.Evolves(db, Apply(db, req))
  {
    match req
    case CreateCall(caller, input, now) => CreateStep(db, caller, input, now);
    case UpdateCall(id, caller, input, now) => UpdateStep(db, id, caller, input, now);
    case AcceptCall(id, caller) => AcceptStep(db, id, caller);
    case ClockInCall(id, caller, now) => ClockInStep(db, id, caller, now);
    case ClockOutCall(id, caller, now) => ClockOutStep(db, id, caller, now);
    case CompleteCall(id, caller) => CompleteStep(db, id, caller);
  }

  /** Any sequence of requests to the server as written keeps its invariant and moves the
      tables forward. */
  lemma {:induction false} RunStep(db: Tables, reqs: seq<Invariants.Request>)
    requires ValidAsWritten(db)
    ensures ValidAsWritten(Run(db, reqs)) && Invariants.Evolves(db, Run(db, reqs))
    decreases |reqs|
  {
    if reqs == [] {
      assert Invariants.Evolves(db, db) by {
        forall i | 0 <= i < |db.worklogs| ensures Invariants.SessionSucceeds(db.worklogs[i], db.worklogs[i]) { }
      }
    } else {
      var db' := Apply(db, reqs[0]);
      ApplyStep(db, reqs[0]);
      RunStep(db', reqs[1..]);
      Invariants.EvolvesTransitive(db, db', Run(db', reqs[1..]));
    }
  }

  /** One request to the server as written leaves the sessions of a completed task, and so its
      billed total, as they are. */
  lemma CompletedLedgerStep(db: Tables, req: Invariants.Request, id: TaskId)
    requires ValidAsWritten(db) && id in db.tasks && db.tasks[id].status == Completed
    ensures EntriesOf(Apply(db, req).worklogs, id) == EntriesOf(db.worklogs, id)
    ensures TotalMinutes(Apply(db, req).worklogs, id) == TotalMinutes(db.worklogs, id)
  {
    match req
    case ClockInCall(task, caller, now) =>
      if ClockInAsWritten(db, task, caller, now).Success? {
        AppendSparesOtherTask(db.worklogs, WorkLog(task, caller, now, None), id);
      }
    case ClockOutCall(task, caller, now) =>
      if ClockOut(db, task, caller, now).Success? {
        var k := EarliestOpen(db.worklogs, task, caller).value;
        assert EntryFitsAsWritten(db.tasks, db.worklogs[k]);
        ReplaceSparesOtherTask(db.worklogs, k, db.worklogs[k].(end := Some(now)), id);
      }
    case _ =>
  }

  /** On the server as written too, a completed task's sessions and billed total never change. */
  lemma {:induction false} CompletedLedgerIsFrozen(db: Tables, reqs: seq<Invariants.Request>, id: TaskId)
    requires ValidAsWritten(db) && id in db.tasks && db.tasks[id].status == Completed
    ensures EntriesOf(Run(db, reqs).worklogs, id) == EntriesOf(db.worklogs, id)
    ensures TotalMinutes(Run(db, reqs).worklogs, id) == TotalMinutes(db.worklogs, id)
    decreases |reqs|
  {
    if reqs != [] {
      var db' := Apply(db, reqs[0]);
      ApplyStep(db, reqs[0]);
      assert Invariants.TaskSucceeds(db.tasks[id], db'.tasks[id]);
      CompletedLedgerStep(db, reqs[0], id);
      CompletedLedgerIsFrozen(db', reqs[1..], id);
    }
  }

  /** `completed` is terminal on the server as written too. */
  lemma CompletedIsTerminal(db: Tables, reqs: seq<Invariants.Request>, id: TaskId)
    requires ValidAsWritten(db) && id in db.tasks && db.tasks[id].status == Completed
    ensures id in Run(db, reqs).tasks && Run(db, reqs).tasks[id] == db.tasks[id]
  {
    RunStep(db, reqs);
    assert Invariants.TaskSucceeds(db.tasks[id], Run(db, reqs).tasks[id]);
  }

  /** An assignment is never replaced or removed on the server as written too. */
  lemma AssignmentIsPermanent(db: Tables, reqs: seq<Invariants.Request>, id: TaskId)
    requires ValidAsWritten(db) && id in db.tasks && db.tasks[id].IsAssigned()
    ensures id in Run(db, reqs).tasks && Run(db, reqs).tasks[id].assignedTo == db.tasks[id].assignedTo
  {
    RunStep(db, reqs);
    assert Invariants.TaskSucceeds(db.tasks[id], Run(db, reqs).tasks[id]);
  }

  /** A clocked-out session is never altered again on the server as written too. */
  lemma ClosedSessionIsPermanent(db: Tables, reqs: seq<Invariants.Request>, i: nat)
    requires ValidAsWritten(db) && i < |db.worklogs| && !db.worklogs[i].IsOpen()
    ensures i < |Run(db, reqs).worklogs| && Run(db, reqs).worklogs[i] == db.worklogs[i]
  {
    RunStep(db, reqs);
    assert Invariants.SessionSucceeds(db.worklogs[i], Run(db, reqs).worklogs[i]);
  }

  /** The guard on an open session (main.go's `exists` check) is the same in both versions, so
      no pair ever has two open sessions. */
  lemma OneOpenSessionPerPair(db: Tables, reqs: seq<Invariants.Request>, task: TaskId, user: Identity)
    requires ValidAsWritten(db)
    ensures OpenCount(Run(db, reqs).worklogs, task, user) <= 1
  {
    RunStep(db, reqs);
    OpenCountAtMostOne(Run(db, reqs).worklogs, task, user);
  }

  /** What the server as written guarantees about who owns a session: its task's assignee, or
      the empty identity. The latter is the gap AsWritten exhibits. */
  lemma SessionsBelongToAssigneeOrEmpty(db: Tables, reqs: seq<Invariants.Request>, i: nat)
    requires ValidAsWritten(db)
    requires i < |Run(db, reqs).worklogs|
    ensures var db' := Run(db, reqs); var w := db'.worklogs[i];
      w.taskId in db'.tasks && (w.user == "" || w.user == db'.tasks[w.taskId].assignedTo)
  {
    RunStep(db, reqs);
    assert EntryFitsAsWritten(Run(db, reqs).tasks, Run(db, reqs).worklogs[i]);
  }
}

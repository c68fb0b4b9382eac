/** What holds across every request: the store invariant is kept, `completed` is terminal and
    freezes the task's sessions, an assignment is never undone, a closed session never changes
    and at most one session per (task, user) is open. */
module Invariants {
  import opened Wrappers
  import opened Records
  import opened Normalize
  import opened Ledger
  import opened Lifecycle

  /** Posting a task keeps the invariant: the new id is fresh and the task is well formed. */
  lemma CreateStep(db: Tables, caller: Identity, input: TaskInput, now: Time)
    requires Valid(db)
    ensures Valid(Outcome(db, CreateTask(db, caller, input, now)))
    ensures Evolves(db, Outcome(db, CreateTask(db, caller, input, now)))
  {
    var r := CreateTask(db, caller, input, now);
    if r.Success? {
      var db' := r.value;
      assert db.nextId !in db.tasks;
      forall i | 0 <= i < |db'.worklogs| ensures EntryFits(db'.tasks, db'.worklogs[i]) {
        assert EntryFits(db.tasks, db.worklogs[i]);
      }
    }
  }

  /** Editing keeps the invariant: assignee and status, which sessions depend on, are untouched. */
  lemma UpdateStep(db: Tables, id: TaskId, caller: Identity, input: TaskInput, now: Time)
    requires Valid(db)
    ensures Valid(Outcome(db, UpdateTask(db, id, caller, input, now)))
    ensures Evolves(db, Outcome(db, UpdateTask(db, id, caller, input, now)))
  {
    var r := UpdateTask(db, id, caller, input, now);
    if r.Success? {
      var db' := r.value;
      forall i | 0 <= i < |db'.worklogs| ensures EntryFits(db'.tasks, db'.worklogs[i]) {
        assert EntryFits(db.tasks, db.worklogs[i]);
      }
    }
  }

  /** Accepting keeps the invariant: an unassigned task has no sessions to disagree with its new assignee. */
  lemma AcceptStep(db: Tables, id: TaskId, caller: Identity)
    requires Valid(db)
    ensures Valid(Outcome(db, AcceptTask(db, id, caller)))
    ensures Evolves(db, Outcome(db, AcceptTask(db, id, caller)))
  {
    var r := AcceptTask(db, id, caller);
    if r.Success? {
      var db' := r.value;
      forall i | 0 <= i < |db'.worklogs| ensures EntryFits(db'.tasks, db'.worklogs[i]) {
        // an unassigned task has no sessions, so none of them can be the accepted task's
        assert EntryFits(db.tasks, db.worklogs[i]);
      }
    }
  }

  /** Clocking in keeps the invariant: the new session is the assignee's and the pair had none open. */
  lemma ClockInStep(db: Tables, id: TaskId, caller: Identity, now: Time)
    requires Valid(db)
    ensures Valid(Outcome(db, ClockIn(db, id, caller, now)))
    ensures Evolves(db, Outcome(db, ClockIn(db, id, caller, now)))
  {
    var r := ClockIn(db, id, caller, now);
    if r.Success? {
      var logs, logs' := db.worklogs, r.value.worklogs;
      forall i | 0 <= i < |logs'| ensures EntryFits(db.tasks, logs'[i]) {
        if i < |logs| { assert logs'[i] == logs[i]; }
      }
      assert forall i :: 0 <= i < |logs| ==> logs'[i] == logs[i];
    }
  }

  /** Clocking out keeps the invariant: closing a session only removes an open one. */
  lemma ClockOutStep(db: Tables, id: TaskId, caller: Identity, now: Time)
    requires Valid(db)
    ensures Valid(Outcome(db, ClockOut(db, id, caller, now)))
    ensures Evolves(db, Outcome(db, ClockOut(db, id, caller, now)))
  {
    var r := ClockOut(db, id, caller, now);
    if r.Success? {
      var logs, logs' := db.worklogs, r.value.worklogs;
      forall i | 0 <= i < |logs'| ensures EntryFits(db.tasks, logs'[i]) {
        assert EntryFits(db.tasks, logs[i]);
      }
    }
  }

  /** Completing keeps the invariant: no session of the task is open when it becomes completed. */
  lemma CompleteStep(db: Tables, id: TaskId, caller: Identity)
    requires Valid(db)
    ensures Valid(Outcome(db, CompleteTask(db, id, caller)))
    ensures Evolves(db, Outcome(db, CompleteTask(db, id, caller)))
  {
    var r := CompleteTask(db, id, caller);
    if r.Success? {
      var db' := r.value;
      forall i | 0 <= i < |db'.worklogs| ensures EntryFits(db'.tasks, db'.worklogs[i]) {
        assert EntryFits(db.tasks, db.worklogs[i]);
        if db.worklogs[i].taskId == id {
          // no session of the task is open, or completion would have been refused
          assert !db.worklogs[i].IsOpen();
        }
      }
    }
  }

  /** How one task row may change from one state to a later one: id, requester and creation
      time never change, an assignee is never replaced or removed, and a completed task never
      changes again. */
  ghost predicate TaskSucceeds(t: Task, t': Task)
  {
    && t'.id == t.id && t'.requester == t.requester && t'.createdAt == t.createdAt
    && (t.IsAssigned() ==> t'.assignedTo == t.assignedTo)
    && (t.status == Completed ==> t' == t)
  }

  /** How one session may change: not at all, or an open one gets its end. */
  ghost predicate SessionSucceeds(w: WorkLog, w': WorkLog)
  {
    w' == w || (w.IsOpen() && w' == w.(end := w'.end))
  }

  /** `db'` is a possible later state of `db`: no task or session disappears and each changes
      only as allowed above. */
  ghost predicate Evolves(db: Tables, db': Tables)
  {
    && db.tasks.Keys <= db'.tasks.Keys
    && (forall k :: k in db.tasks ==> TaskSucceeds(db.tasks[k], db'.tasks[k]))
    && |db.worklogs| <= |db'.worklogs|
    && (forall i :: 0 <= i < |db.worklogs| ==> SessionSucceeds(db.worklogs[i], db'.worklogs[i]))
  }

  /** Moving forward twice is moving forward. */
  lemma EvolvesTransitive(db: Tables, db': Tables, db'': Tables)
    requires Evolves(db, db') && Evolves(db', db'')
    ensures Evolves(db, db'')
  {
    forall i | 0 <= i < |db.worklogs| ensures SessionSucceeds(db.worklogs[i], db''.worklogs[i]) {
      assert SessionSucceeds(db'.worklogs[i], db''.worklogs[i]);
    }
  }

  /** A call to one of the handlers that change the store. */
  datatype Request =
    | CreateCall(caller: Identity, input: TaskInput, now: Time)
    | UpdateCall(id: TaskId, caller: Identity, input: TaskInput, now: Time)
    | AcceptCall(id: TaskId, caller: Identity)
    | ClockInCall(id: TaskId, caller: Identity, now: Time)
    | ClockOutCall(id: TaskId, caller: Identity, now: Time)
    | CompleteCall(id: TaskId, caller: Identity)

  /** The tables after one request, answered on its own. */
  function Apply(db: Tables, req: Request): Tables
  {
    match req
    case CreateCall(caller, input, now) => Outcome(db, CreateTask(db, caller, input, now))
    case UpdateCall(id, caller, input, now) => Outcome(db, UpdateTask(db, id, caller, input, now))
    case AcceptCall(id, caller) => Outcome(db, AcceptTask(db, id, caller))
    case ClockInCall(id, caller, now) => Outcome(db, ClockIn(db, id, caller, now))
    case ClockOutCall(id, caller, now) => Outcome(db, ClockOut(db, id, caller, now))
    case CompleteCall(id, caller) => Outcome(db, CompleteTask(db, id, caller))
  }

  /** The tables after the requests, answered one after the other. */
  function Run(db: Tables, reqs: seq<Request>): Tables
    decreases |reqs|
  {
    if reqs == [] then db else Run(Apply(db, reqs[0]), reqs[1..])
  }

  /** One request keeps the invariant and moves the tables forward. */
  lemma ApplyStep(db: Tables, req: Request)
    requires Valid(db)
    ensures Valid(Apply(db, req)) && Evolves(db, Apply(db, req))
  {
    match req
    case CreateCall(caller, input, now) => CreateStep(db, caller, input, now);
    case UpdateCall(id, caller, input, now) => UpdateStep(db, id, caller, input, now);
    case AcceptCall(id, caller) => AcceptStep(db, id, caller);
    case ClockInCall(id, caller, now) => ClockInStep(db, id, caller, now);
    case ClockOutCall(id, caller, now) => ClockOutStep(db, id, caller, now);
    case CompleteCall(id, caller) => CompleteStep(db, id, caller);
  }

  /** Any sequence of requests keeps the invariant and moves the tables forward. */
  lemma {:induction false} RunStep(db: Tables, reqs: seq<Request>)
    requires Valid(db)
    ensures Valid(Run(db, reqs)) && Evolves(db, Run(db, reqs))
    decreases |reqs|
  {
    if reqs == [] {
      assert Evolves(db, db) by {
        forall i | 0 <= i < |db.worklogs| ensures SessionSucceeds(db.worklogs[i], db.worklogs[i]) { }
      }
    } else {
      var db' := Apply(db, reqs[0]);
      ApplyStep(db, reqs[0]);
      RunStep(db', reqs[1..]);
      EvolvesTransitive(db, db', Run(db', reqs[1..]));
    }
  }

  /** One request leaves the sessions of a completed task, and so its billed total, as they are:
      nobody clocks in on it, and it has no open session to clock out of. */
  lemma CompletedLedgerStep(db: Tables, req: Request, id: TaskId)
    requires Valid(db) && id in db.tasks && db.tasks[id].status == Completed
    ensures EntriesOf(Apply(db, req).worklogs, id) == EntriesOf(db.worklogs, id)
    ensures TotalMinutes(Apply(db, req).worklogs, id) == TotalMinutes(db.worklogs, id)
  {
    match req
    case ClockInCall(task, caller, now) =>
      if ClockIn(db, task, caller, now).Success? {
        AppendSparesOtherTask(db.worklogs, WorkLog(task, caller, now, None), id);
      }
    case ClockOutCall(task, caller, now) =>
      if ClockOut(db, task, caller, now).Success? {
        var k := EarliestOpen(db.worklogs, task, caller).value;
        assert EntryFits(db.tasks, db.worklogs[k]);
        ReplaceSparesOtherTask(db.worklogs, k, db.worklogs[k].(end := Some(now)), id);
      }
    case _ =>
  }

  /** Once a task is completed, no sequence of requests changes its sessions or its billed
      total. */
  lemma {:induction false} CompletedLedgerIsFrozen(db: Tables, reqs: seq<Request>, id: TaskId)
    requires Valid(db) && id in db.tasks && db.tasks[id].status == Completed
    ensures EntriesOf(Run(db, reqs).worklogs, id) == EntriesOf(db.worklogs, id)
    ensures TotalMinutes(Run(db, reqs).worklogs, id) == TotalMinutes(db.worklogs, id)
    decreases |reqs|
  {
    if reqs != [] {
      var db' := Apply(db, reqs[0]);
      ApplyStep(db, reqs[0]);
      assert TaskSucceeds(db.tasks[id], db'.tasks[id]);
      CompletedLedgerStep(db, reqs[0], id);
      CompletedLedgerIsFrozen(db', reqs[1..], id);
    }
  }

  /** `completed` is terminal: no sequence of requests changes a completed task. */
  lemma CompletedIsTerminal(db: Tables, reqs: seq<Request>, id: TaskId)
    requires Valid(db) && id in db.tasks && db.tasks[id].status == Completed
    ensures id in Run(db, reqs).tasks && Run(db, reqs).tasks[id] == db.tasks[id]
  {
    RunStep(db, reqs);
    assert TaskSucceeds(db.tasks[id], Run(db, reqs).tasks[id]);
  }

  /** Once a task has an assignee, no sequence of requests replaces or removes them. */
  lemma AssignmentIsPermanent(db: Tables, reqs: seq<Request>, id: TaskId)
    requires Valid(db) && id in db.tasks && db.tasks[id].IsAssigned()
    ensures id in Run(db, reqs).tasks && Run(db, reqs).tasks[id].assignedTo == db.tasks[id].assignedTo
  {
    RunStep(db, reqs);
    assert TaskSucceeds(db.tasks[id], Run(db, reqs).tasks[id]);
  }

  /** A clocked-out session is never altered again. */
  lemma ClosedSessionIsPermanent(db: Tables, reqs: seq<Request>, i: nat)
    requires Valid(db) && i < |db.worklogs| && !db.worklogs[i].IsOpen()
    ensures i < |Run(db, reqs).worklogs| && Run(db, reqs).worklogs[i] == db.worklogs[i]
  {
    RunStep(db, reqs);
    assert SessionSucceeds(db.worklogs[i], Run(db, reqs).worklogs[i]);
  }

  /** Whatever the requests, every (task, user) pair has zero or one open session. */
  lemma OneOpenSessionPerPair(db: Tables, reqs: seq<Request>, task: TaskId, user: Identity)
    requires Valid(db)
    ensures OpenCount(Run(db, reqs).worklogs, task, user) <= 1
  {
    RunStep(db, reqs);
    OpenCountAtMostOne(Run(db, reqs).worklogs, task, user);
  }

  /** Every session on a task was opened by the task's assignee. */
  lemma SessionsBelongToAssignee(db: Tables, reqs: seq<Request>, i: nat)
    requires Valid(db)
    requires i < |Run(db, reqs).worklogs|
    ensures var db' := Run(db, reqs); var w := db'.worklogs[i];
      w.taskId in db'.tasks && db'.tasks[w.taskId].IsAssigned() && w.user == db'.tasks[w.taskId].assignedTo
  {
    RunStep(db, reqs);
    assert EntryFits(Run(db, reqs).tasks, Run(db, reqs).worklogs[i]);
  }
}

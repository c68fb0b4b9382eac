/** The server's handlers as methods on the store they update in place. Each method checks
    what its handler checks, in the same order, and is proved to leave the tables as the
    matching step of Lifecycle says and to keep the store invariant. */
module Server {
  import opened Wrappers
  import opened Records
  import opened Normalize
  import opened Ledger
  import opened Lifecycle
  import Invariants

  class TaskStore {
    var tasks: map<TaskId, Task>
    var worklogs: seq<WorkLog>
    var nextId: TaskId

    /** The two tables as a value. */
    function Snapshot(): Tables
      reads this
    {
      Tables(tasks, worklogs, nextId)
    }

    ghost predicate Valid()
      reads this
    {
      Lifecycle.Valid(Snapshot())
    }

    /** An empty store. */
    constructor ()
      ensures Valid()
      ensures tasks == map[] && worklogs == [] && nextId == 0
    {
      tasks := map[];
      worklogs := [];
      nextId := 0;
    }

    /** `getTask`. */
    method GetTask(id: TaskId) returns (r: Result<Task, Error>)
      ensures r == Lifecycle.GetTask(Snapshot(), id)
    {
      if id !in tasks {
        return Failure(NotFound);
      }
      r := Success(tasks[id]);
    }

    /** The `select ... where task_id = $1 and "user" = $2 and end_at is null order by start_at
        asc limit 1` of `clockOut` (and the `exists` of `clockIn`): a scan for the earliest
        open session of `user` on `task`. */
    method FindOpenSession(task: TaskId, user: Identity) returns (found: Option<nat>)
      ensures found == EarliestOpen(worklogs, task, user)
    {
      found := None;
      var i := 0;
      while i < |worklogs|
        invariant 0 <= i <= |worklogs|
        invariant found == EarliestOpen(worklogs[..i], task, user)
      {
        assert worklogs[..i + 1][..i] == worklogs[..i];
        if IsOpenFor(worklogs[i], task, user) && (found.None? || worklogs[i].start < worklogs[found.value].start) {
          found := Some(i);
        }
        i := i + 1;
      }
      assert worklogs[..i] == worklogs;
    }

    /** `createTask`: answers with the stored task. */
    method CreateTask(caller: Identity, input: TaskInput, now: Time) returns (r: Result<Task, Error>)
      requires Valid()
      modifies this
      ensures Valid()
      ensures Snapshot() == Outcome(old(Snapshot()), Lifecycle.CreateTask(old(Snapshot()), caller, input, now))
      ensures r.Success? <==> Lifecycle.CreateTask(old(Snapshot()), caller, input, now).Success?
      ensures r.Success? ==> old(nextId) in tasks && r.value == tasks[old(nextId)]
      ensures r.Failure? ==> r.error == Lifecycle.CreateTask(old(Snapshot()), caller, input, now).error
    {
      var normalized := NormalizeInput(input, now);
      if normalized.Failure? {
        return Failure(normalized.error);
      }
      var f := normalized.value;
      var t := Task(nextId, f.title, f.description, f.category, f.locationText, f.estimatedMinutes,
                    f.prepayAmountCents, f.isImmediate, f.scheduledAt, caller, Open, now, "");
      tasks := tasks[nextId := t];
      nextId := nextId + 1;
      r := Success(t);
      Invariants.CreateStep(old(Snapshot()), caller, input, now);
    }

    /** `updateTask`: answers with the edited task. */
    method UpdateTask(id: TaskId, caller: Identity, input: TaskInput, now: Time) returns (r: Result<Task, Error>)
      requires Valid()
      modifies this
      ensures Valid()
      ensures Snapshot() == Outcome(old(Snapshot()), Lifecycle.UpdateTask(old(Snapshot()), id, caller, input, now))
      ensures r.Success? <==> Lifecycle.UpdateTask(old(Snapshot()), id, caller, input, now).Success?
      ensures r.Success? ==> id in tasks && r.value == tasks[id]
      ensures r.Failure? ==> r.error == Lifecycle.UpdateTask(old(Snapshot()), id, caller, input, now).error
    {
      if id !in tasks {
        return Failure(NotFound);
      }
      var t := tasks[id];
      if t.requester != caller {
        return Failure(NotYourTask);
      }
      if t.status != Open {
        return Failure(OnlyOpenEditable);
      }
      var normalized := NormalizeInput(input, now);
      if normalized.Failure? {
        return Failure(normalized.error);
      }
      tasks := tasks[id := WithFields(t, normalized.value)];
      r := Success(tasks[id]);
      Invariants.UpdateStep(old(Snapshot()), id, caller, input, now);
    }

    /** `acceptTask`: answers with the task, now assigned to `caller`. */
    method AcceptTask(id: TaskId, caller: Identity) returns (r: Result<Task, Error>)
      requires Valid()
      modifies this
      ensures Valid()
      ensures Snapshot() == Outcome(old(Snapshot()), Lifecycle.AcceptTask(old(Snapshot()), id, caller))
      ensures r.Success? <==> Lifecycle.AcceptTask(old(Snapshot()), id, caller).Success?
      ensures r.Success? ==> id in tasks && r.value == tasks[id] && r.value.assignedTo == caller
      ensures r.Failure? ==> r.error == Lifecycle.AcceptTask(old(Snapshot()), id, caller).error
    {
      if id !in tasks {
        return Failure(NotFound);
      }
      var t := tasks[id];
      if t.requester == caller {
        return Failure(CannotAcceptOwn);
      }
      if t.status != Open || t.assignedTo != "" {
        return Failure(NotAvailable);
      }
      tasks := tasks[id := t.(assignedTo := caller)];
      r := Success(tasks[id]);
      Invariants.AcceptStep(old(Snapshot()), id, caller);
    }

    /** `clockIn`: answers with the new open session. */
    method ClockIn(id: TaskId, caller: Identity, now: Time) returns (r: Result<WorkLog, Error>)
      requires Valid()
      modifies this
      ensures Valid()
      ensures Snapshot() == Outcome(old(Snapshot()), Lifecycle.ClockIn(old(Snapshot()), id, caller, now))
      ensures r.Success? <==> Lifecycle.ClockIn(old(Snapshot()), id, caller, now).Success?
      ensures r.Success? ==> r.value == WorkLog(id, caller, now, None) && worklogs[|worklogs| - 1] == r.value
      ensures r.Failure? ==> r.error == Lifecycle.ClockIn(old(Snapshot()), id, caller, now).error
    {
      if id !in tasks {
        return Failure(NotFound);
      }
      var t := tasks[id];
      if t.assignedTo == "" || t.assignedTo != caller {
        return Failure(OnlyAssigneeClockIn);
      }
      if t.status != Open {
        return Failure(TaskNotOpen);
      }
      var open := FindOpenSession(id, caller);
      if open.Some? {
        return Failure(AlreadyClockedIn);
      }
      var w := WorkLog(id, caller, now, None);
      worklogs := worklogs + [w];
      r := Success(w);
      Invariants.ClockInStep(old(Snapshot()), id, caller, now);
    }

    /** `clockOut`: answers with the closed session. */
    method ClockOut(id: TaskId, caller: Identity, now: Time) returns (r: Result<WorkLog, Error>)
      requires Valid()
      modifies this
      ensures Valid()
      ensures Snapshot() == Outcome(old(Snapshot()), Lifecycle.ClockOut(old(Snapshot()), id, caller, now))
      ensures r.Success? <==> Lifecycle.ClockOut(old(Snapshot()), id, caller, now).Success?
      ensures r.Success? ==>
                var k := EarliestOpen(old(worklogs), id, caller).value;
                r.value == worklogs[k] && r.value == old(worklogs)[k].(end := Some(now))
      ensures r.Failure? ==> r.error == NoActiveSession
    {
      var open := FindOpenSession(id, caller);
      if open.None? {
        return Failure(NoActiveSession);
      }
      var k := open.value;
      var w := worklogs[k].(end := Some(now));
      worklogs := worklogs[k := w];
      r := Success(w);
      Invariants.ClockOutStep(old(Snapshot()), id, caller, now);
    }

    /** `getWorklogs`: the task's sessions in ledger order, with `total_minutes`,
        `total_cost_cents` and `has_open`. */
    method GetWorklogs(id: TaskId, caller: Identity) returns (r: Result<Summary, Error>)
      ensures r == Worklogs(Snapshot(), id, caller)
    {
      if id !in tasks {
        return Failure(NotFound);
      }
      var t := tasks[id];
      if t.requester != caller && t.assignedTo != caller {
        return Failure(NotAllowed);
      }
      var items := [];
      var i := 0;
      while i < |worklogs|
        invariant 0 <= i <= |worklogs|
        invariant items == EntriesOf(worklogs[..i], id)
      {
        assert worklogs[..i + 1] == worklogs[..i] + [worklogs[i]];
        EntriesOfSnoc(worklogs[..i], worklogs[i], id);
        if worklogs[i].taskId == id {
          items := items + [worklogs[i]];
        }
        i := i + 1;
      }
      assert worklogs[..i] == worklogs;
      var total := TotalMinutes(worklogs, id);
      r := Success(Summary(items, total, CostCents(total), HasOpen(worklogs, id)));
    }

    /** `completeTask`: answers with the completed task. */
    method CompleteTask(id: TaskId, caller: Identity) returns (r: Result<Task, Error>)
      requires Valid()
      modifies this
      ensures Valid()
      ensures Snapshot() == Outcome(old(Snapshot()), Lifecycle.CompleteTask(old(Snapshot()), id, caller))
      ensures r.Success? <==> Lifecycle.CompleteTask(old(Snapshot()), id, caller).Success?
      ensures r.Success? ==> id in tasks && r.value == tasks[id] && r.value.status == Completed
      ensures r.Failure? ==> r.error == Lifecycle.CompleteTask(old(Snapshot()), id, caller).error
    {
      if id !in tasks {
        return Failure(NotFound);
      }
      var t := tasks[id];
      if t.requester != caller && t.assignedTo != caller {
        return Failure(NotAllowed);
      }
      if t.status != Open {
        return Failure(AlreadyClosed);
      }
      if t.assignedTo == "" {
        return Failure(AssignmentRequired);
      }
      if HasOpen(worklogs, id) {
        return Failure(ClockOutRequired);
      }
      if !HasClosedBy(worklogs, id, t.assignedTo) {
        return Failure(WorkSessionRequired);
      }
      tasks := tasks[id := t.(status := Completed)];
      r := Success(tasks[id]);
      Invariants.CompleteStep(old(Snapshot()), id, caller);
    }
  }
}

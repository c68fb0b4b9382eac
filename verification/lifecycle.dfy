/** The task handlers of the server as steps on the two tables: each one either refuses with an
    error and changes nothing, or commits its whole effect. */
module Lifecycle {
  import opened Wrappers
  import opened Records
  import opened Normalize
  import opened Ledger

  /** The `tasks` table keyed by id, the `worklogs` table in insertion order (a session's id
      is its position), and the next task id the database will hand out. */
  datatype Tables = Tables(tasks: map<TaskId, Task>, worklogs: seq<WorkLog>, nextId: TaskId)

  /** What `getWorklogs` answers. */
  datatype Summary = Summary(items: seq<WorkLog>, totalMinutes: nat, totalCostCents: nat, hasOpen: bool)

  /** The tables once a request has been answered: refused requests leave them alone. */
  function Outcome(db: Tables, r: Result<Tables, Error>): Tables
  {
    if r.Success? then r.value else db
  }

  /** The editable columns of a task. */
  function FieldsOf(t: Task): Fields
  {
    Fields(t.title, t.description, t.category, t.locationText, t.estimatedMinutes,
           t.prepayAmountCents, t.isImmediate, t.scheduledAt)
  }

  /** `t` with its editable columns overwritten by `f` and every other column kept. */
  function WithFields(t: Task, f: Fields): (t': Task)
    ensures FieldsOf(t') == f
    ensures t'.id == t.id && t'.requester == t.requester && t'.status == t.status
    ensures t'.createdAt == t.createdAt && t'.assignedTo == t.assignedTo
  {
    t.(title := f.title, description := f.description, category := f.category,
       locationText := f.locationText, estimatedMinutes := f.estimatedMinutes,
       prepayAmountCents := f.prepayAmountCents, isImmediate := f.isImmediate,
       scheduledAt := f.scheduledAt)
  }

  /** A session belongs to an existing task, was opened by that task's assignee, and is closed
      once the task is completed. */
  ghost predicate EntryFits(tasks: map<TaskId, Task>, w: WorkLog)
  {
    && w.taskId in tasks
    && tasks[w.taskId].IsAssigned()
    && w.user == tasks[w.taskId].assignedTo
    && (tasks[w.taskId].status == Completed ==> !w.IsOpen())
  }

  /** The store invariant. */
  ghost predicate Valid(db: Tables)
  {
    && (forall k :: k in db.tasks ==>
          k < db.nextId && db.tasks[k].id == k && WellFormed(FieldsOf(db.tasks[k])))
    && (forall i :: 0 <= i < |db.worklogs| ==> EntryFits(db.tasks, db.worklogs[i]))
    && AtMostOneOpen(db.worklogs)
  }

  /** `getTask`. */
  function GetTask(db: Tables, id: TaskId): (r: Result<Task, Error>)
    ensures r.Success? <==> id in db.tasks
    ensures r.Success? ==> r.value == db.tasks[id]
    ensures r.Failure? ==> r.error == NotFound
  {
    if id in db.tasks then Success(db.tasks[id]) else Failure(NotFound)
  }

  /** `createTask`: stores the normalised submission as a new open, unassigned task of `caller`. */
  function CreateTask(db: Tables, caller: Identity, input: TaskInput, now: Time): (r: Result<Tables, Error>)
    ensures NormalizeInput(input, now).Failure? ==> r == Failure(NormalizeInput(input, now).error)
    ensures NormalizeInput(input, now).Success? ==> r.Success?
    ensures r.Success? ==>
              var id, db' := db.nextId, r.value;
              && id in db'.tasks
              && db'.tasks[id].id == id
              && FieldsOf(db'.tasks[id]) == NormalizeInput(input, now).value
              && db'.tasks[id].requester == caller
              && db'.tasks[id].status == Open
              && !db'.tasks[id].IsAssigned()
              && db'.tasks[id].createdAt == now
              && db'.tasks.Keys == db.tasks.Keys + {id}
              && (forall k :: k in db.tasks && k != id ==> db'.tasks[k] == db.tasks[k])
              && db'.worklogs == db.worklogs
              && db'.nextId == id + 1
  {
    match NormalizeInput(input, now)
    case Failure(e) => Failure(e)
    case Success(f) =>
      var t := Task(db.nextId, f.title, f.description, f.category, f.locationText, f.estimatedMinutes,
                    f.prepayAmountCents, f.isImmediate, f.scheduledAt, caller, Open, now, "");
      Success(db.(tasks := db.tasks[db.nextId := t], nextId := db.nextId + 1))
  }

  /** `updateTask`: only the requester may edit, only an open task, and only its editable columns. */
  function UpdateTask(db: Tables, id: TaskId, caller: Identity, input: TaskInput, now: Time): (r: Result<Tables, Error>)
    ensures id !in db.tasks ==> r == Failure(NotFound)
    ensures id in db.tasks && db.tasks[id].requester != caller ==> r == Failure(NotYourTask)
    ensures (id in db.tasks && db.tasks[id].requester == caller && db.tasks[id].status != Open)
              ==> r == Failure(OnlyOpenEditable)
    ensures (id in db.tasks && db.tasks[id].requester == caller && db.tasks[id].status == Open)
              ==> (r.Failure? <==> NormalizeInput(input, now).Failure?)
                  && (r.Failure? ==> r.error == NormalizeInput(input, now).error)
    ensures r.Success? ==>
              var t, db' := db.tasks[id], r.value;
              && db'.tasks.Keys == db.tasks.Keys
              && FieldsOf(db'.tasks[id]) == NormalizeInput(input, now).value
              && db'.tasks[id].id == t.id && db'.tasks[id].requester == t.requester
              && db'.tasks[id].status == t.status && db'.tasks[id].assignedTo == t.assignedTo
              && db'.tasks[id].createdAt == t.createdAt
              && (forall k :: k in db.tasks && k != id ==> db'.tasks[k] == db.tasks[k])
              && db'.worklogs == db.worklogs && db'.nextId == db.nextId
  {
    if id !in db.tasks then Failure(NotFound)
    else
      var t := db.tasks[id];
      if t.requester != caller then Failure(NotYourTask)
      else if t.status != Open then Failure(OnlyOpenEditable)
      else match NormalizeInput(input, now)
        case Failure(e) => Failure(e)
        case Success(f) => Success(db.(tasks := db.tasks[id := WithFields(t, f)]))
  }

  /** `acceptTask`: `caller` becomes the assignee of an open, unassigned task posted by someone else. */
  function AcceptTask(db: Tables, id: TaskId, caller: Identity): (r: Result<Tables, Error>)
    ensures id !in db.tasks ==> r == Failure(NotFound)
    ensures id in db.tasks && db.tasks[id].requester == caller ==> r == Failure(CannotAcceptOwn)
    ensures (id in db.tasks && db.tasks[id].requester != caller
             && (db.tasks[id].status != Open || db.tasks[id].IsAssigned()))
              ==> r == Failure(NotAvailable)
    ensures r.Success? <==>
              id in db.tasks && db.tasks[id].requester != caller
              && db.tasks[id].status == Open && !db.tasks[id].IsAssigned()
    ensures r.Success? ==>
              && r.value.tasks.Keys == db.tasks.Keys
              && r.value.tasks[id] == db.tasks[id].(assignedTo := caller)
              && (forall k :: k in db.tasks && k != id ==> r.value.tasks[k] == db.tasks[k])
              && r.value.worklogs == db.worklogs && r.value.nextId == db.nextId
  {
    if id !in db.tasks then Failure(NotFound)
    else
      var t := db.tasks[id];
      if t.requester == caller then Failure(CannotAcceptOwn)
      else if t.status != Open || t.assignedTo != "" then Failure(NotAvailable)
      else Success(db.(tasks := db.tasks[id := t.(assignedTo := caller)]))
  }

  /** `clockIn`: the assignee of an open task opens a session at `now`, unless one is already
      open. An unassigned task has no assignee, so nobody can clock in on it. */
  function ClockIn(db: Tables, id: TaskId, caller: Identity, now: Time): (r: Result<Tables, Error>)
    ensures id !in db.tasks ==> r == Failure(NotFound)
    ensures (id in db.tasks && (!db.tasks[id].IsAssigned() || db.tasks[id].assignedTo != caller))
              ==> r == Failure(OnlyAssigneeClockIn)
    ensures (id in db.tasks && db.tasks[id].IsAssigned() && db.tasks[id].assignedTo == caller
             && db.tasks[id].status != Open)
              ==> r == Failure(TaskNotOpen)
    ensures r.Success? <==>
              && id in db.tasks && db.tasks[id].IsAssigned() && db.tasks[id].assignedTo == caller
              && db.tasks[id].status == Open
              && forall i :: 0 <= i < |db.worklogs| ==> !IsOpenFor(db.worklogs[i], id, caller)
    ensures (r.Failure? && id in db.tasks && db.tasks[id].IsAssigned() && db.tasks[id].assignedTo == caller
             && db.tasks[id].status == Open)
              ==> r.error == AlreadyClockedIn
    ensures r.Success? ==>
              && r.value.worklogs == db.worklogs + [WorkLog(id, caller, now, None)]
              && r.value.tasks == db.tasks && r.value.nextId == db.nextId
  {
    if id !in db.tasks then Failure(NotFound)
    else
      var t := db.tasks[id];
      if !t.IsAssigned() || t.assignedTo != caller then Failure(OnlyAssigneeClockIn)
      else if t.status != Open then Failure(TaskNotOpen)
      else if EarliestOpen(db.worklogs, id, caller).Some? then Failure(AlreadyClockedIn)
      else Success(db.(worklogs := db.worklogs + [WorkLog(id, caller, now, None)]))
  }

  /** `clockOut`: closes at `now` the earliest-started open session of `caller` on task `id`.
      The task row itself is never read. */
  function ClockOut(db: Tables, id: TaskId, caller: Identity, now: Time): (r: Result<Tables, Error>)
    ensures r.Failure? <==> forall i :: 0 <= i < |db.worklogs| ==> !IsOpenFor(db.worklogs[i], id, caller)
    ensures r.Failure? ==> r.error == NoActiveSession
    ensures r.Success? ==>
              var k := EarliestOpen(db.worklogs, id, caller).value;
              && |r.value.worklogs| == |db.worklogs|
              && r.value.worklogs[k] == db.worklogs[k].(end := Some(now))
              && (forall i :: 0 <= i < |db.worklogs| && i != k ==> r.value.worklogs[i] == db.worklogs[i])
              && r.value.tasks == db.tasks && r.value.nextId == db.nextId
  {
    match EarliestOpen(db.worklogs, id, caller)
    case None => Failure(NoActiveSession)
    case Some(k) => Success(db.(worklogs := db.worklogs[k := db.worklogs[k].(end := Some(now))]))
  }

  /** `getWorklogs`: the requester or the assignee sees the task's sessions with their billable
      total, its cost and whether any session is still open. */
  function Worklogs(db: Tables, id: TaskId, caller: Identity): (r: Result<Summary, Error>)
    ensures id !in db.tasks ==> r == Failure(NotFound)
    ensures id in db.tasks ==>
              (r.Failure? <==> db.tasks[id].requester != caller && db.tasks[id].assignedTo != caller)
    ensures r.Failure? && id in db.tasks ==> r.error == NotAllowed
    ensures r.Success? ==>
              && (forall w :: w in r.value.items <==> w in db.worklogs && w.taskId == id)
              && (forall w :: multiset(r.value.items)[w] == if w.taskId == id then multiset(db.worklogs)[w] else 0)
              && r.value.totalMinutes == TotalMinutes(db.worklogs, id)
              && r.value.totalCostCents == r.value.totalMinutes * CentsPerMinute
              && (r.value.hasOpen <==> exists i :: 0 <= i < |db.worklogs| && db.worklogs[i].taskId == id
                                                   && db.worklogs[i].IsOpen())
  {
    if id !in db.tasks then Failure(NotFound)
    else
      var t := db.tasks[id];
      if t.requester != caller && t.assignedTo != caller then Failure(NotAllowed)
      else
        var total := TotalMinutes(db.worklogs, id);
        EntriesOfCounts(db.worklogs, id);
        Success(Summary(EntriesOf(db.worklogs, id), total, CostCents(total), HasOpen(db.worklogs, id)))
  }

  /** `completeTask`: the requester or the assignee closes an open, assigned task once no session
      is open on it and the assignee has clocked out at least once. Refusals come in that order. */
  function CompleteTask(db: Tables, id: TaskId, caller: Identity): (r: Result<Tables, Error>)
    ensures id !in db.tasks ==> r == Failure(NotFound)
    ensures id in db.tasks ==>
              var t := db.tasks[id];
              && (t.requester != caller && t.assignedTo != caller ==> r == Failure(NotAllowed))
              && ((t.requester == caller || t.assignedTo == caller) && t.status != Open ==> r == Failure(AlreadyClosed))
              && ((t.requester == caller || t.assignedTo == caller) && t.status == Open && !t.IsAssigned()
                  ==> r == Failure(AssignmentRequired))
              && (((t.requester == caller || t.assignedTo == caller) && t.status == Open && t.IsAssigned()
                   && HasOpen(db.worklogs, id))
                  ==> r == Failure(ClockOutRequired))
              && (((t.requester == caller || t.assignedTo == caller) && t.status == Open && t.IsAssigned()
                   && !HasOpen(db.worklogs, id) && !HasClosedBy(db.worklogs, id, t.assignedTo))
                  ==> r == Failure(WorkSessionRequired))
    ensures r.Success? <==>
              && id in db.tasks
              && (db.tasks[id].requester == caller || db.tasks[id].assignedTo == caller)
              && db.tasks[id].status == Open && db.tasks[id].IsAssigned()
              && !HasOpen(db.worklogs, id) && HasClosedBy(db.worklogs, id, db.tasks[id].assignedTo)
    ensures r.Success? ==>
              && r.value.tasks.Keys == db.tasks.Keys
              && r.value.tasks[id] == db.tasks[id].(status := Completed)
              && (forall k :: k in db.tasks && k != id ==> r.value.tasks[k] == db.tasks[k])
              && r.value.worklogs == db.worklogs && r.value.nextId == db.nextId
  {
    if id !in db.tasks then Failure(NotFound)
    else
      var t := db.tasks[id];
      if t.requester != caller && t.assignedTo != caller then Failure(NotAllowed)
      else if t.status != Open then Failure(AlreadyClosed)
      else if t.assignedTo == "" then Failure(AssignmentRequired)
      else if HasOpen(db.worklogs, id) then Failure(ClockOutRequired)
      else if !HasClosedBy(db.worklogs, id, t.assignedTo) then Failure(WorkSessionRequired)
      else Success(db.(tasks := db.tasks[id := t.(status := Completed)]))
  }
}

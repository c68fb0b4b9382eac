/** The two stored records, `tasks` and `worklogs`, and the refusals the handlers answer with. */
module Records {
  import opened Wrappers

  /** The caller's e-mail claim. It is "" when the access token carries no e-mail. */
  type Identity = string

  /** A task's database id; the store hands them out in increasing order. */
  type TaskId = nat

  /** Seconds on the database clock. */
  type Time = int

  /** The stored `status` column: every handler compares it with "open" only. */
  datatype Status = Open | Completed

  /** A row of `tasks`. `assignedTo` is "" while nobody has accepted the task. */
  datatype Task = Task(
    id: TaskId,
    title: string,
    description: string,
    category: string,
    locationText: string,
    estimatedMinutes: int,
    prepayAmountCents: int,
    isImmediate: bool,
    scheduledAt: Option<Time>,
    requester: Identity,
    status: Status,
    createdAt: Time,
    assignedTo: Identity)
  {
    predicate IsAssigned() { assignedTo != "" }
  }

  /** A row of `worklogs`: one clock-in/clock-out session; `end` is None while it is open. */
  datatype WorkLog = WorkLog(taskId: TaskId, user: Identity, start: Time, end: Option<Time>)
  {
    predicate IsOpen() { end.None? }
  }

  /** Every refusal a handler of the core can answer with, one per message. */
  datatype Error =
    | NotFound              // "not found"
    | TitleRequired         // "title required"
    | InvalidCategory       // "invalid category"
    | ScheduleNotRfc3339    // "scheduled_at must be RFC3339"
    | NotYourTask           // "not your task"
    | OnlyOpenEditable      // "only open tasks can be edited"
    | CannotAcceptOwn       // "cannot accept your own task"
    | NotAvailable          // "not available"
    | OnlyAssigneeClockIn   // "only assignee can clock in"
    | TaskNotOpen           // "task not open"
    | AlreadyClockedIn      // "already clocked in"
    | NoActiveSession       // "no active session"
    | NotAllowed            // "not allowed"
    | AlreadyClosed         // "already closed"
    | AssignmentRequired    // "assignment required before completing"
    | ClockOutRequired      // "clock-out required before completing"
    | WorkSessionRequired   // "at least one work session is required before completing"

  /** The refusals the handlers answer with HTTP 403 Forbidden. */
  predicate IsForbidden(e: Error)
  {
    e == NotYourTask || e == OnlyAssigneeClockIn || e == NotAllowed
  }

  /** The HTTP status each refusal is sent with. */
  function HttpStatus(e: Error): (code: int)
    ensures code == 404 <==> e == NotFound
    ensures code == 403 <==> IsForbidden(e)
    ensures code == 400 <==> e != NotFound && !IsForbidden(e)
  {
    if e == NotFound then 404 else if IsForbidden(e) then 403 else 400
  }
}

# Task and worklog engine of the errand server

The Go server in `server/main.go` runs a small errand marketplace:

- a requester posts a task;
- another user accepts it and becomes its assignee;
- the assignee clocks in and out of work sessions;
- both parties read the session ledger, with billed minutes and cost;
- either party completes the task.

This project models that engine in Dafny and proves properties about it. It covers the handlers
`createTask`, `getTask`, `updateTask`, `acceptTask`, `clockIn`, `clockOut`, `getWorklogs` and
`completeTask`, and the `Task` and `WorkLog` records they store.

The model has three layers.

- **Values.**
  - `Text` is Go's `strings.TrimSpace`.
  - `Records` holds the two records, the error replies and their HTTP codes.
  - `Normalize` is the input clean-up that `createTask` and `updateTask` share.
  - `Ledger` holds the session queries: the open session, billed minutes, the items list and cost.
- **Steps.** `Lifecycle` turns each handler into a function of the two tables. A handler that
  changes the store returns `Result<Tables, Error>`. `GetTask` returns the task, and `Worklogs`
  returns the summary. Each function keeps the handler's checks in the handler's order. A
  refused request changes nothing.
- **State.** `Server.TaskStore` is a class whose fields are the two tables. Each handler is a
  method that runs its checks one by one and updates the fields in place. Each method is proved
  equal to its step function. The store invariant `Valid` holds:
  - every stored task is well formed;
  - every session belongs to the task's assignee;
  - a completed task has no open session;
  - each (task, user) pair has at most one open session.

`Invariants` proves that each handler keeps the invariant and only moves the state forward:

- assignment is permanent;
- completion is terminal, and a completed task's sessions and billed total never change;
- a closed session never changes again.

It lifts both facts to any sequence of requests. `Sessions` and `Scenario` prove how billing and
the lifecycle behave, for all inputs and for one concrete errand.

`clockIn` has a bug, described under "## Findings". `Lifecycle.ClockIn` is the corrected
handler. `Valid`, `Server.TaskStore`, `Invariants`, `Sessions` and `Scenario` all describe the
server with this corrected clock-in. The server as written does not keep `Valid`:
`AsWritten.EmptyIdentityClocksIntoUnassignedTask` builds a state that breaks it.

`Deployed` covers the server as written: every handler is unchanged except that clock-in is
`AsWritten.ClockInAsWritten`. It proves a weaker invariant, `ValidAsWritten`: every session is
its task's assignee's or was opened under the empty identity. From that invariant it derives,
for any sequence of requests:

- completion is terminal;
- a completed task's sessions and billed total never change;
- assignment is permanent;
- a closed session never changes again;
- no (task, user) pair has two open sessions.

Identities are the e-mail claim of the caller's token, as strings. The claim is optional, so
`""` is a possible identity. Times are whole seconds, and the current time is a parameter.

Four behaviours of the code are easy to miss:

- The cost is `total_minutes * 50` cents. The prepayment is not part of it, and nothing is
  rounded.
- Completion requires a closed session by the assignee. A positive billed total is not
  required. So a closed session whose end is not after its start bills nothing, yet completion
  succeeds (`Scenario.CompletingWithoutBilledMinutes`). With the database's microsecond clock this
  takes equal instants, or a clock that steps back.
- Accepting a task that is taken or closed answers 400 "not available".
- `clockOut` never reads the task. For an unknown task it answers "no active session".

## Model

| member | source | states |
|---|---|---|
| Text.TrimLeft | server/main.go:383-386 | the result is no longer than the input and does not start with white space |
| Text.TrimRight | server/main.go:383-386 | the result is no longer than the input and does not end with white space |
| Text.TrimSpace | server/main.go:383-386 | the trimmed text is no longer than the input and neither starts nor ends with white space |
| Text.TrimSpaceRemovesBlanks | server/main.go:383-386 | trimming keeps a contiguous slice of the input; everything dropped before and after it is white space; the result is empty exactly when the input is blank |
| Text.TrimmedIsFixpoint | server/main.go:383-386 | text with no white space at either end is left unchanged by trimming |
| Text.TrimSpaceIdempotent | server/main.go:383-386 | trimming twice is the same as trimming once |
| Records.HttpStatus | server/main.go:388-891 | as the handlers reply at lines 388-412, 490, 504-512, 526-550, 691-699, 722-738, 771, 800-804 and 862-891, a refusal answers 404 exactly for "not found", 403 exactly for "not your task", "only assignee can clock in" and "not allowed", and 400 for every other refusal |
| Normalize.NormalizeInput | server/main.go:383-416 | a blank title is refused first, then an unknown category, then (only for a non-immediate task) a malformed schedule with "scheduled_at must be RFC3339", and nothing else is refused; accepted input has trimmed text, the default category "task", the default of 30 minutes when the estimate is not positive, a negative prepayment raised to 0, and the schedule set to now for an immediate task, to nothing when blank, and to the parsed time otherwise |
| Normalize.NormalizeResubmit | server/main.go:521-554 | sending a task's own stored fields back through the edit form is accepted and changes nothing, except that an immediate task is rescheduled to now |
| Normalize.NormalizeIdempotent | server/main.go:383-416 | normalising an already normalised, non-immediate submission gives the same fields again |
| Ledger.OpenCountAtMostOne | server/main.go:734-740 | when sessions open for one (task, user) pair are at most one, the count is 0 or 1, and it is 1 exactly when such a session exists |
| Ledger.EarliestOpen | server/main.go:766-769 | there is no answer exactly when the user has no open session on the task; otherwise the answer is an open session of the pair with the earliest start, the lowest position among equal starts |
| Ledger.EntryMinutes | server/main.go:830-835 | a session bills a positive number of minutes exactly when it is closed and ends after it starts; that number is its length in seconds rounded up to whole minutes |
| Ledger.TotalMinutes | server/main.go:828-836 | the billed total of a task is 0 exactly when none of its sessions is billable |
| Ledger.TotalMinutesAppend | server/main.go:830-835 | appending a session adds its billed minutes to its own task's total and leaves every other task's total alone |
| Ledger.TotalMinutesReplace | server/main.go:830-835 | replacing a session by another of the same task changes that task's total by the difference in billed minutes and leaves every other task's total alone |
| Ledger.EntriesOf | server/main.go:808-826 | a session is among the items exactly when it is in the ledger and belongs to the task; there are no more items than ledger entries |
| Ledger.EntriesOfCounts | server/main.go:808-826 | each session of the task appears among the items exactly as often as in the ledger, and no other session appears, so equal rows are not merged |
| Ledger.CostCents | server/main.go:844 | the cost is a whole multiple of the rate, 50 cents, whose quotient is the billed minutes: exactly `total_minutes * 50`, so zero exactly when no minute is billed |
| Ledger.CostMonotone | server/main.go:844 | more billed minutes never cost less |
| Lifecycle.WithFields | server/main.go:556-561 | an edit overwrites the editable columns and keeps id, requester, status, creation time and assignee |
| Lifecycle.GetTask | server/main.go:479-494 | a stored task is returned as stored; an unknown id is "not found" |
| Lifecycle.CreateTask | server/main.go:377-438 | a post is refused exactly when its input is refused, with the same error; otherwise it stores an open, unassigned task under the next id, owned by the caller and created now, with the normalised fields, and leaves the other tasks and the ledger alone |
| Lifecycle.UpdateTask | server/main.go:496-566 | refusals come in order: "not found", then "not your task" unless the caller is the requester, then "only open tasks can be edited", then input errors; a successful edit replaces only the task's editable columns |
| Lifecycle.AcceptTask | server/main.go:683-709 | refusals come in order: "not found", then "cannot accept your own task", then "not available" unless the task is open and unassigned; otherwise only the task's assignee changes, to the caller |
| Lifecycle.ClockIn | server/main.go:715-756 | refusals come in order: "not found", then "only assignee can clock in" unless the task is assigned to the caller, then "task not open", then "already clocked in" when the pair has an open session; otherwise a session of the caller starting now is appended and nothing else changes |
| Lifecycle.ClockOut | server/main.go:759-789 | refused with "no active session" exactly when the caller has no open session on the task; otherwise that pair's earliest open session is closed now and no other session or task changes |
| Lifecycle.Worklogs | server/main.go:792-846 | refusals come in order: "not found", then "not allowed" unless the caller is the requester or the assignee; otherwise every session of the task, as often as the ledger holds it, their billed total, 50 cents a minute, and whether any session of the task is open |
| Lifecycle.CompleteTask | server/main.go:855-900 | refusals come in order: "not found", "not allowed", "already closed", "assignment required", "clock-out required" while a session is open, "at least one work session" unless the assignee has a closed session; otherwise only the task's status changes, to completed |
| Invariants.CreateStep | server/main.go:422-427 | posting keeps the store invariant and only moves the state forward |
| Invariants.UpdateStep | server/main.go:556-561 | editing keeps the store invariant and only moves the state forward |
| Invariants.AcceptStep | server/main.go:703 | accepting keeps the store invariant and only moves the state forward |
| Invariants.ClockInStep | server/main.go:734-748 | clocking in keeps the store invariant and only moves the state forward |
| Invariants.ClockOutStep | server/main.go:766-781 | clocking out keeps the store invariant and only moves the state forward |
| Invariants.CompleteStep | server/main.go:878-895 | completing keeps the store invariant and only moves the state forward |
| Invariants.ApplyStep | server/main.go:176-193 | any single request to the task routes keeps the store invariant and only moves the state forward |
| Invariants.RunStep | server/main.go:176-193 | any sequence of requests keeps the store invariant and only moves the state forward |
| Invariants.CompletedIsTerminal | server/main.go:869-872 | after any sequence of requests, a completed task is still stored exactly as it was |
| Invariants.CompletedLedgerStep | server/main.go:729-731 | one request leaves a completed task's sessions and billed total unchanged: nobody clocks in on it, and it has no open session to close |
| Invariants.CompletedLedgerIsFrozen | server/main.go:878-883 | after any sequence of requests, a completed task's sessions, with their multiplicities and order, and its billed total are as they were |
| Invariants.AssignmentIsPermanent | server/main.go:698-703 | after any sequence of requests, an assigned task keeps its assignee |
| Invariants.ClosedSessionIsPermanent | server/main.go:766-781 | after any sequence of requests, a closed session is still in the ledger, unchanged and at the same position |
| Invariants.OneOpenSessionPerPair | server/main.go:734-740 | after any sequence of requests, no user has two open sessions on one task |
| Invariants.SessionsBelongToAssignee | server/main.go:725-728 | after any sequence of requests, every session was opened by its task's current assignee |
| AsWritten.ClockInAsWritten | server/main.go:715-756 | the handler as written, refusing in order: "not found" for an unknown task, "only assignee can clock in" when `assigned_to` differs from the caller, "task not open" when the task is not open, "already clocked in" when the pair has an open session (also for caller "" on an unassigned task); a clock-in succeeds exactly when the task exists, its assignee equals the caller (possibly both ""), it is open and the pair has no open session, and then it appends the caller's open session and changes no task and no id counter |
| AsWritten.GuardsDifferOnlyOnEmptyIdentity | server/main.go:725-728 | the as-written and corrected guards give the same reply except for a caller without an identity on an existing, unassigned task; their success differs exactly there when the task is open and has no open session for "" |
| AsWritten.EmptyIdentityChain | server/main.go:725-728 | on any valid store where an open task nobody has accepted has no sessions, the corrected clock-in refuses a caller without an identity but the as-written one lets them in; once bob accepts, the store breaks the invariant (the session is not the assignee's), bob cannot complete the task, and the stranger's clock-out bills 10 minutes to it |
| AsWritten.EmptyIdentityClocksIntoUnassignedTask | server/main.go:266-270 | on a posted, unaccepted task, the corrected clock-in refuses a caller without an identity, but the as-written one lets it in; once bob accepts, the ledger holds a session that is not the assignee's, so bob cannot complete the task until that caller clocks out and bills 10 minutes to it |
| Deployed.ValidIsStronger | server/main.go:725-728 | the invariant of the corrected server implies the one the server as written keeps |
| Deployed.CreateStep | server/main.go:422-427 | on the server as written, posting keeps its invariant and only moves the state forward |
| Deployed.UpdateStep | server/main.go:556-561 | on the server as written, editing keeps its invariant and only moves the state forward |
| Deployed.AcceptStep | server/main.go:698-703 | on the server as written, accepting keeps its invariant even when sessions under the empty identity sit on the task, and only moves the state forward |
| Deployed.ClockInStep | server/main.go:725-748 | the clock-in as written keeps the weaker invariant and only moves the state forward |
| Deployed.ClockOutStep | server/main.go:766-781 | on the server as written, clocking out keeps its invariant and only moves the state forward |
| Deployed.CompleteStep | server/main.go:878-895 | on the server as written, completing keeps its invariant and only moves the state forward |
| Deployed.ApplyStep | server/main.go:176-193 | any single request to the server as written keeps its invariant and only moves the state forward |
| Deployed.RunStep | server/main.go:176-193 | any sequence of requests to the server as written keeps its invariant and only moves the state forward |
| Deployed.CompletedIsTerminal | server/main.go:869-872 | on the server as written, a completed task is still stored exactly as it was after any sequence of requests |
| Deployed.CompletedLedgerStep | server/main.go:729-731 | on the server as written, one request leaves a completed task's sessions and billed total unchanged |
| Deployed.CompletedLedgerIsFrozen | server/main.go:878-883 | on the server as written, after any sequence of requests a completed task's sessions and billed total are as they were |
| Deployed.AssignmentIsPermanent | server/main.go:698-703 | on the server as written, an assigned task keeps its assignee after any sequence of requests |
| Deployed.ClosedSessionIsPermanent | server/main.go:766-781 | on the server as written, a closed session stays in the ledger unchanged and at the same position after any sequence of requests |
| Deployed.OneOpenSessionPerPair | server/main.go:734-740 | on the server as written, no user ever has two open sessions on one task |
| Deployed.SessionsBelongToAssigneeOrEmpty | server/main.go:725-728 | on the server as written, every session belongs to an existing task and was opened by its current assignee or under the empty identity |
| Sessions.ClockOutAddsSessionMinutes | server/main.go:775-781 | clocking out raises the task's billed total by exactly the closed session's minutes; that is at least one minute when time has passed since clock-in and none otherwise; other tasks' totals are unchanged |
| Sessions.ClockInKeepsTotals | server/main.go:742-748 | clocking in leaves every task's billed total unchanged |
| Sessions.ClockInOpensOneSession | server/main.go:734-748 | after a clock-in on a valid store, the pair has exactly one open session |
| Sessions.AcceptSucceedsOnce | server/main.go:694-703 | once a caller with an identity has accepted a task, any later accept is refused: the requester gets "cannot accept your own task" and everyone else "not available" |
| Sessions.CompleteSucceedsOnce | server/main.go:864-872 | once a task is completed, any later completion is refused with "not allowed" or "already closed", and the assignee can no longer clock in ("task not open") |
| Scenario.Posting | server/main.go:383-437 | posting " Walk the dog " with a blank category stores the trimmed title, category "task", status open and no assignee |
| Scenario.Accepting | server/main.go:694-703 | bob accepts the posted errand and becomes its assignee; carol's later accept is "not available" |
| Scenario.Working | server/main.go:715-846 | bob clocks in at second 1000 and out at 2200; the worklog reply shows 20 minutes, 1000 cents and no open session |
| Scenario.Completing | server/main.go:855-895 | alice completes the worked errand, after which bob's clock-in is "task not open" |
| Scenario.CompletingWithoutBilledMinutes | server/main.go:885-893 | a closed session whose end is not after its start bills nothing, yet completion succeeds |
| Server.TaskStore.GetTask | server/main.go:479-494 | replies as the `getTask` step does on the current tables |
| Server.TaskStore.FindOpenSession | server/main.go:766-769 | the loop over the ledger finds the pair's earliest open session, or none when there is none |
| Server.TaskStore.CreateTask | server/main.go:377-438 | the tables become the outcome of the `createTask` step; the invariant is kept |
| Server.TaskStore.UpdateTask | server/main.go:496-566 | the tables become the outcome of the `updateTask` step; the invariant is kept |
| Server.TaskStore.AcceptTask | server/main.go:683-709 | the tables become the outcome of the `acceptTask` step; the invariant is kept |
| Server.TaskStore.ClockIn | server/main.go:715-756 | the tables become the outcome of the corrected `clockIn` step; the invariant is kept |
| Server.TaskStore.ClockOut | server/main.go:759-789 | the tables become the outcome of the `clockOut` step; the invariant is kept |
| Server.TaskStore.GetWorklogs | server/main.go:792-846 | the loop collecting the task's sessions and totals replies as the `getWorklogs` step does |
| Server.TaskStore.CompleteTask | server/main.go:855-900 | the tables become the outcome of the `completeTask` step; the invariant is kept |

## Left out

- Authentication is not modelled: JWT checking, the JWKS keys and the issuer test. The caller's
  identity is a parameter, and `""` stands for a token without an e-mail claim.
- Database failures are not modelled: the 500 "db error" and "scan error" replies, and the errors
  the handlers ignore with `_ =`.
- Malformed JSON bodies ("invalid payload") are not modelled.
- RFC 3339 parsing is abstracted: a schedule arrives as blank, as a parsed time or as malformed.
  Because the code checks blankness on the trimmed text but parses the untrimmed one, a
  date with surrounding spaces counts as malformed.
- `time.Now()` and the database's `now()` are a parameter.
- Times are whole seconds, while the database's `now()` keeps microseconds. A session that ends
  later within the same second bills one minute in the database. Here its end equals its start,
  so it bills nothing.
- Task ids come from a counter rather than the database, and a session's id is its position
  in the ledger. The sessions' `created_at` and `updated_at` columns are not modelled.
- Lifecycle.Worklogs: the items are in ledger order, not sorted by `start_at` as the query asks.
- Lifecycle.ClockOut: when several open sessions of a pair start in the same second, the query's
  choice among them is unspecified. The model takes the lowest position. Under the invariant there
  is only one, so this never matters.
- `acceptTask` reads and then writes without a lock, so two concurrent accepts can both succeed.
  Requests here are applied one at a time, so that race is not modelled.
- Sessions.AcceptSucceedsOnce: an accept by a caller without an identity succeeds but leaves the
  task unassigned. The model keeps that behaviour, and this lemma is stated only for a winner
  with an identity.
- The 'cancelled' status has no writer in the code and is not modelled. Also not modelled: the
  list endpoints (`listMyTasks`, `listAvailableTasks`, `listAssignedTasks`, `listDoneTasks`,
  `listMyPostedClosed`), profiles and the OTP login.
- CORS, routing, the web client and the chat integration are not part of this model.
- Text: Go strings are UTF-8 bytes; here they are sequences of Unicode code points, and
  `TrimSpace` trims the code points that `unicode.IsSpace` accepts.
- Integer widths are not modelled. Minutes, prepayments and cost are unbounded, while Go's `int`
  is 64 bits.

## Findings

| source | as written | input that shows it | evidently intended | confidence | as-written member | corrected member |
|---|---|---|---|---|---|---|
| server/main.go:725-728 | `clockIn` refuses only when the task's `assigned_to` differs from the caller's e-mail | a token without an e-mail claim (identity `""`) clocking in on an open task nobody has accepted (`assigned_to` is `""`) | only the assignee of an assigned task may clock in | high that the guard lets the input through; not executed | AsWritten.ClockInAsWritten, AsWritten.EmptyIdentityChain, AsWritten.EmptyIdentityClocksIntoUnassignedTask | Lifecycle.ClockIn |

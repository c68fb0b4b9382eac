/** The `worklogs` table read as a ledger: open sessions, billable minutes and cost. */
module Ledger {
  import opened Wrappers
  import opened Records

  const SecondsPerMinute := 60
  /** 0.50 EUR for every billable minute. */
  const CentsPerMinute := 50

  /** `w` is a session of `user` on `task` that has not been clocked out. */
  predicate IsOpenFor(w: WorkLog, task: TaskId, user: Identity)
  {
    w.taskId == task && w.user == user && w.end.None?
  }

  /** No (task, user) pair has two open sessions. */
  ghost predicate AtMostOneOpen(logs: seq<WorkLog>)
  {
    forall i, j :: 0 <= i < j < |logs| && logs[i].IsOpen() && logs[j].IsOpen() && logs[i].taskId == logs[j].taskId
      ==> logs[i].user != logs[j].user
  }

  /** How many open sessions `user` has on `task`. */
  function OpenCount(logs: seq<WorkLog>, task: TaskId, user: Identity): nat
  {
    if logs == [] then 0
    else OpenCount(logs[..|logs| - 1], task, user) + (if IsOpenFor(logs[|logs| - 1], task, user) then 1 else 0)
  }

  /** Under the ledger invariant a (task, user) pair has zero or one open session. */
  lemma {:induction false} OpenCountAtMostOne(logs: seq<WorkLog>, task: TaskId, user: Identity)
    requires AtMostOneOpen(logs)
    ensures OpenCount(logs, task, user) <= 1
    ensures OpenCount(logs, task, user) == 1 <==> exists i :: 0 <= i < |logs| && IsOpenFor(logs[i], task, user)
  {
    if logs != [] {
      var init := logs[..|logs| - 1];
      assert AtMostOneOpen(init) by {
        forall i, j | 0 <= i < j < |init| && init[i].IsOpen() && init[j].IsOpen() && init[i].taskId == init[j].taskId
          ensures init[i].user != init[j].user
        {
          assert init[i] == logs[i] && init[j] == logs[j];
        }
      }
      OpenCountAtMostOne(init, task, user);
      if IsOpenFor(logs[|logs| - 1], task, user) {
        forall i | 0 <= i < |init| ensures !IsOpenFor(init[i], task, user) {
          assert init[i] == logs[i];
        }
      } else {
        forall i | 0 <= i < |logs| && IsOpenFor(logs[i], task, user) ensures i < |init| && IsOpenFor(init[i], task, user) {
          assert i != |logs| - 1;
        }
      }
    }
  }

  /** The position of `user`'s open session on `task` that started first (the lowest position
      among equal starts), or None when there is none. */
  function EarliestOpen(logs: seq<WorkLog>, task: TaskId, user: Identity): (r: Option<nat>)
    ensures r.None? <==> forall i :: 0 <= i < |logs| ==> !IsOpenFor(logs[i], task, user)
    ensures r.Some? ==> r.value < |logs| && IsOpenFor(logs[r.value], task, user)
    ensures r.Some? ==> forall i :: 0 <= i < |logs| && IsOpenFor(logs[i], task, user)
                          ==> logs[r.value].start < logs[i].start || (logs[r.value].start == logs[i].start && r.value <= i)
  {
    if logs == [] then None
    else
      var last := |logs| - 1;
      var r := EarliestOpen(logs[..last], task, user);
      assert forall i :: 0 <= i < last ==> logs[..last][i] == logs[i];
      if IsOpenFor(logs[last], task, user) && (r.None? || logs[last].start < logs[r.value].start)
      then Some(last)
      else r
  }

  /** Some session of any user on `task` is still open: `has_open`. */
  predicate HasOpen(logs: seq<WorkLog>, task: TaskId)
  {
    exists i :: 0 <= i < |logs| && logs[i].taskId == task && logs[i].IsOpen()
  }

  /** `user` has a clocked-out session on `task`, whatever its length. */
  predicate HasClosedBy(logs: seq<WorkLog>, task: TaskId, user: Identity)
  {
    exists i :: 0 <= i < |logs| && logs[i].taskId == task && logs[i].user == user && logs[i].end.Some?
  }

  /** A session that was clocked out strictly after it started. */
  predicate IsBillable(w: WorkLog)
  {
    w.end.Some? && w.end.value > w.start
  }

  /** SQL's `greatest` of two integers. */
  function Greatest(a: int, b: int): int
  {
    if a < b then b else a
  }

  /** The minutes a session adds to `total_minutes`: its length rounded up to whole minutes,
      at least 1, for a billable session; nothing for any other. */
  function EntryMinutes(w: WorkLog): (m: nat)
    ensures m > 0 <==> IsBillable(w)
    ensures IsBillable(w) ==>
              (m - 1) * SecondsPerMinute < w.end.value - w.start <= m * SecondsPerMinute
  {
    if IsBillable(w) then
      var minutes := (w.end.value - w.start + SecondsPerMinute - 1) / SecondsPerMinute;
      Greatest(minutes, 1)
    else 0
  }

  /** `total_minutes` of `task`: the minutes of its sessions, summed. */
  function TotalMinutes(logs: seq<WorkLog>, task: TaskId): (total: nat)
    ensures total == 0 <==> forall i :: 0 <= i < |logs| && logs[i].taskId == task ==> !IsBillable(logs[i])
  {
    if logs == [] then 0
    else
      var last := |logs| - 1;
      assert forall i :: 0 <= i < last ==> logs[..last][i] == logs[i];
      TotalMinutes(logs[..last], task) + (if logs[last].taskId == task then EntryMinutes(logs[last]) else 0)
  }

  /** Recording one more session adds exactly its minutes to the total of its own task and
      nothing to any other task's. */
  lemma TotalMinutesAppend(logs: seq<WorkLog>, w: WorkLog, task: TaskId)
    ensures TotalMinutes(logs + [w], task)
              == TotalMinutes(logs, task) + (if w.taskId == task then EntryMinutes(w) else 0)
  {
    assert (logs + [w])[..|logs|] == logs;
  }

  /** Replacing the session at position `k` by `w` (of the same task) changes the total by the
      difference of their minutes. */
  lemma {:induction false} TotalMinutesReplace(logs: seq<WorkLog>, k: nat, w: WorkLog, task: TaskId)
    requires k < |logs| && w.taskId == logs[k].taskId
    ensures TotalMinutes(logs[k := w], task) + (if w.taskId == task then EntryMinutes(logs[k]) else 0)
              == TotalMinutes(logs, task) + (if w.taskId == task then EntryMinutes(w) else 0)
    decreases |logs|
  {
    var last := |logs| - 1;
    var logs' := logs[k := w];
    if k == last {
      assert logs'[..last] == logs[..last];
    } else {
      TotalMinutesReplace(logs[..last], k, w, task);
      assert logs'[..last] == logs[..last][k := w];
    }
  }

  /** The sessions of `task`, in ledger order: the `items` of the worklog view. */
  function EntriesOf(logs: seq<WorkLog>, task: TaskId): (items: seq<WorkLog>)
    ensures |items| <= |logs|
    ensures forall w :: w in items <==> w in logs && w.taskId == task
  {
    if logs == [] then []
    else
      var last := |logs| - 1;
      assert logs == logs[..last] + [logs[last]];
      EntriesOf(logs[..last], task) + (if logs[last].taskId == task then [logs[last]] else [])
  }

  /** The items hold every session of the task as often as the ledger does, and nothing else:
      no row is merged with an equal one. */
  lemma {:induction false} EntriesOfCounts(logs: seq<WorkLog>, task: TaskId)
    ensures forall w :: multiset(EntriesOf(logs, task))[w] == if w.taskId == task then multiset(logs)[w] else 0
    decreases |logs|
  {
    if logs != [] {
      var last := |logs| - 1;
      assert logs == logs[..last] + [logs[last]];
      EntriesOfCounts(logs[..last], task);
    }
  }

  /** Scanning one more ledger entry extends the items by that entry when it is the task's. */
  lemma EntriesOfSnoc(logs: seq<WorkLog>, w: WorkLog, task: TaskId)
    ensures EntriesOf(logs + [w], task) == EntriesOf(logs, task) + (if w.taskId == task then [w] else [])
  {
    assert (logs + [w])[..|logs|] == logs;
  }

  /** Replacing a session of another task by one of another task leaves the items unchanged. */
  lemma {:induction false} EntriesOfReplaceOther(logs: seq<WorkLog>, k: nat, w: WorkLog, task: TaskId)
    requires k < |logs| && logs[k].taskId != task && w.taskId != task
    ensures EntriesOf(logs[k := w], task) == EntriesOf(logs, task)
    decreases |logs|
  {
    var last := |logs| - 1;
    var logs' := logs[k := w];
    if k == last {
      assert logs'[..last] == logs[..last];
    } else {
      EntriesOfReplaceOther(logs[..last], k, w, task);
      assert logs'[..last] == logs[..last][k := w];
    }
  }

  /** Recording a session of another task leaves a task's items and total as they are. */
  lemma AppendSparesOtherTask(logs: seq<WorkLog>, w: WorkLog, task: TaskId)
    requires w.taskId != task
    ensures EntriesOf(logs + [w], task) == EntriesOf(logs, task)
    ensures TotalMinutes(logs + [w], task) == TotalMinutes(logs, task)
  {
    EntriesOfSnoc(logs, w, task);
    TotalMinutesAppend(logs, w, task);
  }

  /** Rewriting a session of another task leaves a task's items and total as they are. */
  lemma ReplaceSparesOtherTask(logs: seq<WorkLog>, k: nat, w: WorkLog, task: TaskId)
    requires k < |logs| && logs[k].taskId != task && w.taskId == logs[k].taskId
    ensures EntriesOf(logs[k := w], task) == EntriesOf(logs, task)
    ensures TotalMinutes(logs[k := w], task) == TotalMinutes(logs, task)
  {
    EntriesOfReplaceOther(logs, k, w, task);
    TotalMinutesReplace(logs, k, w, task);
  }

  /** `total_cost_cents`: the billable minutes at the fixed per-minute rate. */
  function CostCents(totalMinutes: nat): (cents: nat)
    ensures cents == 0 <==> totalMinutes == 0
    ensures cents / CentsPerMinute == totalMinutes
    ensures cents % CentsPerMinute == 0
  {
    totalMinutes * CentsPerMinute
  }

  /** More minutes never cost less, and no minutes cost nothing. */
  lemma CostMonotone(a: nat, b: nat)
    requires a <= b
    ensures CostCents(a) <= CostCents(b)
    ensures CostCents(0) == 0
  {
  }
}

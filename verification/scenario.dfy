/** One task from posting to completion, request by request. */
module Scenario {
  import opened Wrappers
  import opened Text
  import opened Records
  import opened Normalize
  import opened Ledger
  import opened Lifecycle

  /** Alice's submission: 30 estimated minutes and a prepayment of 500 cents, category left blank. */
  function Submission(): TaskInput
  {
    TaskInput(" Walk the dog ", "", "", "", 30, 500, false, Blank)
  }

  function Empty(): Tables
  {
    Tables(map[], [], 0)
  }

  /** Alice posts; the task is 0. */
  lemma Posting()
    ensures CreateTask(Empty(), "alice", Submission(), 0).Success?
    ensures var t := CreateTask(Empty(), "alice", Submission(), 0).value.tasks[0];
      && t.title == "Walk the dog" && t.category == "task" && t.prepayAmountCents == 500
      && t.status == Open && t.assignedTo == "" && t.requester == "alice"
  {
    var input := Submission();
    assert TrimSpace(input.title) == "Walk the dog" by {
      assert input.title[0] == ' ' && input.title[1..][0] == 'W';
      assert TrimLeft(input.title) == input.title[1..];
      var l := input.title[1..];
      assert l[|l| - 1] == ' ' && l[..|l| - 1][|l| - 2] == 'g';
      assert TrimRight(l) == l[..|l| - 1];
      assert l[..|l| - 1] == "Walk the dog";
    }
    assert TrimSpace("") == "";
  }

  function Posted(): Tables
  {
    Outcome(Empty(), CreateTask(Empty(), "alice", Submission(), 0))
  }

  /** Bob accepts; Carol, coming second, is refused and the task stays Bob's and open. */
  lemma Accepting()
    ensures AcceptTask(Posted(), 0, "bob").Success?
    ensures var db := AcceptTask(Posted(), 0, "bob").value;
      && db.tasks[0].assignedTo == "bob" && db.tasks[0].status == Open
      && AcceptTask(db, 0, "carol") == Failure(NotAvailable)
  {
    Posting();
  }

  function Accepted(): Tables
  {
    Outcome(Posted(), AcceptTask(Posted(), 0, "bob"))
  }

  /** Bob works from second 1000 to second 2200: twenty minutes, 1000 cents at the fixed rate
      (the prepayment is not part of `total_cost_cents`). */
  lemma Working()
    ensures ClockIn(Accepted(), 0, "bob", 1000).Success?
    ensures var db := ClockIn(Accepted(), 0, "bob", 1000).value;
      && ClockOut(db, 0, "bob", 2200).Success?
      && Worklogs(ClockOut(db, 0, "bob", 2200).value, 0, "alice").Success?
      && Worklogs(ClockOut(db, 0, "bob", 2200).value, 0, "alice").value.totalMinutes == 20
      && Worklogs(ClockOut(db, 0, "bob", 2200).value, 0, "alice").value.totalCostCents == 1000
      && !Worklogs(ClockOut(db, 0, "bob", 2200).value, 0, "alice").value.hasOpen
  {
    Accepting();
    var db := ClockIn(Accepted(), 0, "bob", 1000).value;
    assert Accepted().worklogs == [];
    assert db.worklogs == [WorkLog(0, "bob", 1000, None)];
    assert EarliestOpen(db.worklogs, 0, "bob") == Some(0);
    var db' := ClockOut(db, 0, "bob", 2200).value;
    assert db'.worklogs == [WorkLog(0, "bob", 1000, Some(2200))];
    assert db'.worklogs[..0] == [];
  }

  function Worked(): Tables
  {
    var db := Outcome(Accepted(), ClockIn(Accepted(), 0, "bob", 1000));
    Outcome(db, ClockOut(db, 0, "bob", 2200))
  }

  /** Alice completes the task; afterwards Bob cannot clock in on it again. */
  lemma Completing()
    ensures CompleteTask(Worked(), 0, "alice").Success?
    ensures var db := CompleteTask(Worked(), 0, "alice").value;
      && db.tasks[0].status == Completed
      && ClockIn(db, 0, "bob", 3000) == Failure(TaskNotOpen)
  {
    Working();
    assert Worked().worklogs == [WorkLog(0, "bob", 1000, Some(2200))];
    assert HasClosedBy(Worked().worklogs, 0, "bob");
  }

  /** Completion asks for a closed session by the assignee, not for billed minutes: a session
      whose end is not after its start bills nothing and still lets the task complete. */
  lemma CompletingWithoutBilledMinutes()
    ensures var db := ClockIn(Accepted(), 0, "bob", 1000).value;
      var db' := ClockOut(db, 0, "bob", 1000).value;
      && TotalMinutes(db'.worklogs, 0) == 0
      && CompleteTask(db', 0, "alice").Success?
  {
    Accepting();
    var db := ClockIn(Accepted(), 0, "bob", 1000).value;
    assert Accepted().worklogs == [];
    assert db.worklogs == [WorkLog(0, "bob", 1000, None)];
    assert EarliestOpen(db.worklogs, 0, "bob") == Some(0);
    var db' := ClockOut(db, 0, "bob", 1000).value;
    assert db'.worklogs == [WorkLog(0, "bob", 1000, Some(1000))];
    assert HasClosedBy(db'.worklogs, 0, "bob");
  }
}

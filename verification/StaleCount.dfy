/** A run, every request of it accepted, after which an approved count and its row disagree. */
module StaleCount {
  import opened Stock
  import opened Tables
  import opened Movements
  import opened CycleCount
  import opened LedgerRuns
  import opened CountApproval
  import opened ReopenedCount

  /** The reopened count of `ReopenedCount`, counted by a request that read its line before all that. */
  const MISCOUNTED := BLANK.(expected := 8.0, counted := Some(10.0), variance := Some(0.0), countedBy := Some("ann"))

  function Ends(status: CountStatus): Db {
    S8.(sessions := [Session(1, status, [MISCOUNTED]), NEW_COUNT])
  }

  predicate Miscounting(ops: seq<Op>) {
    && |ops| == 11 && Reopening(ops[..8])
    && ops[8] == Count(DoCount(0, 0, 10.0, "ann", 3, 3))
    && ops[9] == Count(DoSubmit(0, 9)) && ops[10] == Count(DoApprove(0, "bob", 10))
  }

  lemma Miscounted()
    ensures CountLine(S8, 0, S3.sessions[0], S3.sessions[0], 0, 10.0, "ann") == Ok(Ends(InProgress))
  {
    assert S8.sessions[0].lines[0 := MISCOUNTED] == [MISCOUNTED];
    assert S8.sessions[0 := Session(1, InProgress, [MISCOUNTED])] == Ends(InProgress).sessions;
  }

  lemma Resubmitted()
    ensures Submit(Ends(InProgress), 0, Ends(InProgress).sessions[0]) == Ok(Ends(Review))
  {
    assert Ends(InProgress).sessions[0 := Session(1, Review, [MISCOUNTED])] == Ends(Review).sessions;
  }

  lemma Reapproved()
    ensures Approve(Ends(Review), 0, Ends(Review).sessions[0], "bob") == Ok(Done(Ends(CountStatus.Approved)))
  {
    var lines := [MISCOUNTED];
    assert lines[..0] == [] && FindConflicts([SHORT], 1, lines[..0]) == [];
    assert FindConflicts([SHORT], 1, lines) == [];
    assert forall i :: 0 <= i < 1 ==> Counters(lines)[i] == Some("ann");
    assert NotSelfApproval("bob", Counters(lines));
    var start := Applied([SHORT], [ADJ]);
    assert ApplyLines(start, lines[..0], "bob") == Ok(start);
    assert ApplyLines(start, lines, "bob") == Ok(start);
    assert Ends(Review).sessions[0 := Session(1, CountStatus.Approved, [MISCOUNTED])] ==
      Ends(CountStatus.Approved).sessions;
  }

  /** The first `n` requests lead to `db`, and the third state is the one the late count reads. */
  ghost predicate Reached(ops: seq<Op>, n: nat, db: Db) {
    && 3 <= n <= |ops|
    && |Run(ops[..n])| == n + 1 && Run(ops[..n])[3] == S3 && Now(Run(ops[..n])) == db
  }

  lemma Goes(ops: seq<Op>, n: nat, db: Db, c: CountCall, next: Db)
    requires Reached(ops, n, db) && n < |ops| && ops[n] == Count(c) && StepCount(Run(ops[..n]), c) == Ok(next)
    ensures Reached(ops, n + 1, next)
  {
    Extend(ops, n, Run(ops[..n]), c, next);
  }

  lemma Reopens(ops: seq<Op>)
    requires Miscounting(ops)
    ensures Reached(ops, 8, S8)
  {
    StaleRecountReopensClosedCount(ops[..8]);
  }

  lemma CountsLate(ops: seq<Op>)
    requires Miscounting(ops) && Reached(ops, 8, S8)
    ensures Reached(ops, 9, Ends(InProgress))
  {
    Miscounted();
    Goes(ops, 8, S8, DoCount(0, 0, 10.0, "ann", 3, 3), Ends(InProgress));
  }

  lemma SubmitsAgain(ops: seq<Op>)
    requires Miscounting(ops) && Reached(ops, 9, Ends(InProgress))
    ensures Reached(ops, 10, Ends(Review))
  {
    Resubmitted();
    Goes(ops, 9, Ends(InProgress), DoSubmit(0, 9), Ends(Review));
  }

  lemma ApprovesAgain(ops: seq<Op>)
    requires Miscounting(ops) && Reached(ops, 10, Ends(Review))
    ensures Reached(ops, 11, Ends(CountStatus.Approved))
  {
    Reapproved();
    Goes(ops, 10, Ends(Review), DoApprove(0, "bob", 10), Ends(CountStatus.Approved));
  }

  lemma MiscountingRuns(ops: seq<Op>)
    requires Miscounting(ops)
    ensures Now(Run(ops)) == Ends(CountStatus.Approved)
  {
    Reopens(ops);
    CountsLate(ops);
    SubmitsAgain(ops);
    ApprovesAgain(ops);
    assert ops[..11] == ops;
  }

  /** The approved count says one thing and its row another. */
  predicate Disagrees(db: Db) {
    && |db.stock| == 1 && |db.sessions| == 2 && |db.sessions[0].lines| == 1
    && db.sessions[0].status == CountStatus.Approved && db.sessions[0].lines[0].Live()
    && db.sessions[0].lines[0].counted == Some(10.0) && db.stock[0].quantity == 8.0
    && FalseZero(db.sessions[0].lines[0]) && !RowAsCounted(db.stock, db.sessions[0].lines[0])
  }

  /** A count of 10 that read its line before a recount refreshed the expectation from 10 to 8 is
      recorded without variance, so the approved count says 10 and its row still holds 8. */
  lemma StaleCountHidesVariance(ops: seq<Op>)
    requires Miscounting(ops)
    ensures Disagrees(Now(Run(ops)))
  {
    MiscountingRuns(ops);
    assert Disagrees(Ends(CountStatus.Approved));
  }
}

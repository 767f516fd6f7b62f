/** A run, every request of it accepted, after which a count nobody counted is approved. */
module StaleSubmission {
  import opened Stock
  import opened Tables
  import opened Movements
  import opened CycleCount
  import opened LedgerRuns
  import opened CountEffects
  import opened ReopenedCount
  import opened StaleCount
  import opened SubmissionRuns

  /** The line that the recount of `ReopenedCount` started over. */
  const CLEARED := BLANK.(expected := 8.0)

  function Unseen(status: CountStatus): Db {
    S8.(sessions := [Session(1, status, [CLEARED]), NEW_COUNT])
  }

  predicate Skipping(ops: seq<Op>) {
    && |ops| == 10 && Reopening(ops[..8])
    && ops[8] == Count(DoSubmit(0, 3)) && ops[9] == Count(DoApprove(0, "bob", 9))
  }

  lemma SubmittedUncounted()
    ensures Submit(S8, 0, S3.sessions[0]) == Ok(Unseen(Review))
  {
    assert S8.sessions[0 := Session(1, Review, [CLEARED])] == Unseen(Review).sessions;
  }

  lemma ApprovedUncounted()
    ensures Approve(Unseen(Review), 0, Unseen(Review).sessions[0], "bob") == Ok(Done(Unseen(CountStatus.Approved)))
  {
    var lines := [CLEARED];
    assert lines[..0] == [] && FindConflicts([SHORT], 1, lines[..0]) == [];
    assert FindConflicts([SHORT], 1, lines) == [];
    assert forall i :: 0 <= i < 1 ==> Counters(lines)[i] == None;
    assert NotSelfApproval("bob", Counters(lines));
    var start := Applied([SHORT], [ADJ]);
    assert ApplyLines(start, lines[..0], "bob") == Ok(start);
    assert ApplyLines(start, lines, "bob") == Ok(start);
    assert Unseen(Review).sessions[0 := Session(1, CountStatus.Approved, [CLEARED])] ==
      Unseen(CountStatus.Approved).sessions;
  }

  lemma SubmitsLate(ops: seq<Op>)
    requires Skipping(ops) && Reached(ops, 8, S8)
    ensures Reached(ops, 9, Unseen(Review)) && Run(ops[..9])[9] == Unseen(Review)
  {
    SubmittedUncounted();
    Goes(ops, 8, S8, DoSubmit(0, 3), Unseen(Review));
  }

  lemma ApprovesLate(ops: seq<Op>)
    requires Skipping(ops) && Reached(ops, 9, Unseen(Review))
    ensures Reached(ops, 10, Unseen(CountStatus.Approved))
  {
    ApprovedUncounted();
    Goes(ops, 9, Unseen(Review), DoApprove(0, "bob", 9), Unseen(CountStatus.Approved));
  }

  /** A submission that read its lines before a recount cleared them is accepted, and so is the approval
      after it: the count is approved and its one line, not excluded, has no count. */
  lemma StaleSubmissionClosesUncounted(ops: seq<Op>)
    requires Skipping(ops)
    ensures var db := Now(Run(ops));
      && |db.sessions| == 2 && db.sessions[0].status == CountStatus.Approved && |db.sessions[0].lines| == 1
      && !db.sessions[0].lines[0].excluded && db.sessions[0].lines[0].counted == None
    ensures !SubmissionsCurrent(ops)
  {
    StaleRecountReopensClosedCount(ops[..8]);
    SubmitsLate(ops);
    ApprovesLate(ops);
    assert ops[..10] == ops;
    ReviewedAreCountedIff(ops);
    assert !FullyCounted(Now(Run(ops)).sessions[0]) && !ReviewedAreCounted(Now(Run(ops)));
  }
}

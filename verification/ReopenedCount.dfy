/** A run, every request of it accepted, after which two active counts of a warehouse hold one row. */
module ReopenedCount {
  import opened Stock
  import opened Tables
  import opened Movements
  import opened CycleCount
  import opened LedgerRuns
  import opened CountLock

  const BOX := Row(0, 10.0, Available, Some(1), None, 0)

  const SHORT := BOX.(quantity := 8.0)
  const BLANK := Line(Some(0), 10.0, None, None, None, None, false)
  const COUNTED := Line(Some(0), 10.0, Some(8.0), Some(-2.0), Some("ann"), None, false)
  const FLAGGED := COUNTED.(conflict := Some(QuantityChanged))
  const NEW_COUNT := Session(1, Open, [BLANK.(expected := 8.0)])
  const ADJ := Adjustment(Some(0), 10.0, 8.0, Completed, Some("ann"), Some("bob"))

  function Alone(status: CountStatus, line: Line, row: Row, adjs: seq<Adjustment>): Db {
    Db([row], [Session(1, status, [line])], adjs, 10.0)
  }

  // The states of the run, in order.
  const S1 := Db([BOX], [], [], 10.0)
  const S2 := Alone(Open, BLANK, BOX, [])
  const S3 := Alone(InProgress, COUNTED, BOX, [])
  const S4 := Alone(Review, COUNTED, BOX, [])
  const S5 := Alone(CountStatus.Approved, COUNTED, SHORT, [ADJ])
  const S6 := Alone(CountStatus.Approved, FLAGGED, SHORT, [ADJ])
  const S7 := S6.(sessions := S6.sessions + [NEW_COUNT])
  const S8 := S7.(sessions := [Session(1, InProgress, [BLANK.(expected := 8.0)]), NEW_COUNT])

  lemma CountsOneRow(row: Row)
    requires row.status == Available && row.warehouse == Some(1)
    ensures NewLines([row], 1) == [Line(Some(0), row.quantity, None, None, None, None, false)]
  {
    assert NewLines([row][..0], 1) == [];
  }

  lemma Opening()
    ensures CreateStock(EMPTY, BOX) == Ok(S1) && CreateSession(S1, 1) == Ok(S2)
  {
    assert EMPTY.stock + [BOX] == [BOX];
    CountsOneRow(BOX);
    assert S1.sessions + [S2.sessions[0]] == S2.sessions;
  }

  lemma Counting()
    ensures CountLine(S2, 0, S2.sessions[0], S2.sessions[0], 0, 8.0, "ann") == Ok(S3)
  {
    assert [BLANK][0 := COUNTED] == [COUNTED];
    assert S2.sessions[0 := S3.sessions[0]] == S3.sessions;
  }

  lemma Submitting()
    ensures Submit(S3, 0, S3.sessions[0]) == Ok(S4)
  {
    assert S3.sessions[0 := S4.sessions[0]] == S4.sessions;
  }

  lemma FirstApproval()
    ensures Approve(S4, 0, S4.sessions[0], "bob") == Ok(Done(S5))
  {
    var lines := [COUNTED];
    assert lines[..0] == [];
    assert FindConflicts([BOX], 1, lines[..0]) == [];
    assert FindConflicts([BOX], 1, lines) == [];
    assert forall i :: 0 <= i < 1 ==> Counters(lines)[i] == Some("ann");
    assert NotSelfApproval("bob", Counters(lines));
    var start := Applied([BOX], []);
    assert ApplyLines(start, lines[..0], "bob") == Ok(start);
    assert [BOX][0 := SHORT] == [SHORT] && start.adjustments + [Record(COUNTED, "bob")] == [ADJ];
    assert ApplyLines(start, lines, "bob") == Ok(Applied([SHORT], [ADJ]));
    assert S4.sessions[0 := S5.sessions[0]] == S5.sessions;
  }

  lemma SecondApproval()
    ensures Approve(S5, 0, S4.sessions[0], "cat") == Ok(Conflicts([Flag(0, QuantityChanged)]))
  {
    var lines := [COUNTED];
    assert lines[..0] == [];
    assert FindConflicts([SHORT], 1, lines[..0]) == [];
    assert FindConflicts([SHORT], 1, lines) == [Flag(0, QuantityChanged)];
    assert forall i :: 0 <= i < 1 ==> Counters(lines)[i] == Some("ann");
    assert NotSelfApproval("cat", Counters(lines));
  }

  lemma SecondApprovalFlags()
    ensures RecordConflicts(S5, 0, [Flag(0, QuantityChanged)]) == Ok(S6)
  {
    var lines := [COUNTED];
    var flags := [Flag(0, QuantityChanged)];
    assert FlagLines(lines, flags[..0]) == lines;
    assert FlagLines(lines, flags) == lines[0 := FLAGGED] == [FLAGGED];
    assert S5.sessions[0 := S6.sessions[0]] == S6.sessions;
  }

  lemma NextOpening()
    ensures CreateSession(S6, 1) == Ok(S7)
  {
    CountsOneRow(SHORT);
    assert !HasActive(S6.sessions, 1);
    assert S6.sessions + [NEW_COUNT] == S7.sessions;
  }

  lemma LateRecount()
    ensures Recount(S7, 0, S4.sessions[0]) == Ok(S8)
  {
    assert Flagged(S7.sessions[0].lines[0]);
    assert RecountLines([SHORT], 1, [FLAGGED]) == [BLANK.(expected := 8.0)];
    assert S7.sessions[0 := S8.sessions[0]] == S8.sessions;
  }

  /** One more call of a run, accepted. */
  lemma Extend(ops: seq<Op>, n: nat, h: History, c: CountCall, db: Db)
    requires n < |ops| && Run(ops[..n]) == h && ops[n] == Count(c) && StepCount(h, c) == Ok(db)
    ensures Run(ops[..n + 1]) == h + [db]
  {
    assert ops[..n + 1][..n] == ops[..n];
  }

  lemma ReopenedOpens(ops: seq<Op>)
    requires |ops| == 8 && ops[0] == Move(DoCreate(BOX)) && ops[1] == Count(DoOpen(1))
    ensures Run(ops[..2]) == [EMPTY] + [S1] + [S2]
  {
    Opening();
    assert ops[..0] == [] && ops[..1][..0] == [];
    assert Run(ops[..1]) == [EMPTY] + [S1];
    Extend(ops, 1, [EMPTY] + [S1], DoOpen(1), S2);
  }

  lemma ReopenedCounts(ops: seq<Op>, h: History)
    requires |ops| == 8 && Run(ops[..2]) == h && |h| == 3 && h[2] == S2
    requires ops[2] == Count(DoCount(0, 0, 8.0, "ann", 2, 2))
    ensures Run(ops[..3]) == h + [S3]
  {
    Counting();
    Extend(ops, 2, h, DoCount(0, 0, 8.0, "ann", 2, 2), S3);
  }

  lemma ReopenedSubmits(ops: seq<Op>, h: History)
    requires |ops| == 8 && Run(ops[..3]) == h && |h| == 4 && h[3] == S3 && ops[3] == Count(DoSubmit(0, 3))
    ensures Run(ops[..4]) == h + [S4]
  {
    Submitting();
    Extend(ops, 3, h, DoSubmit(0, 3), S4);
  }

  lemma Flagging(h: History, c: CountCall, flags: seq<Flag>, db: Db)
    requires c.DoFlag? && c.at < |h| && SeenSession(h, c.seen, c.s).Ok?
    requires Approve(h[c.at], c.s, h[c.seen].sessions[c.s], c.user) == Ok(Conflicts(flags))
    requires RecordConflicts(Now(h), c.s, flags) == Ok(db)
    ensures StepCount(h, c) == Ok(db)
  {
  }

  lemma ReopenedCloses(ops: seq<Op>, h: History)
    requires |ops| == 8 && Run(ops[..4]) == h && |h| == 5 && h[4] == S4
    requires ops[4] == Count(DoApprove(0, "bob", 4))
    ensures Run(ops[..5]) == h + [S5]
  {
    FirstApproval();
    Extend(ops, 4, h, DoApprove(0, "bob", 4), S5);
  }

  lemma ReopenedFlags(ops: seq<Op>, h: History)
    requires |ops| == 8 && Run(ops[..5]) == h && |h| == 6 && h[4] == S4 && h[5] == S5
    requires ops[5] == Count(DoFlag(0, "cat", 4, 5))
    ensures Run(ops[..6]) == h + [S6]
  {
    SecondApproval();
    SecondApprovalFlags();
    Flagging(h, DoFlag(0, "cat", 4, 5), [Flag(0, QuantityChanged)], S6);
    Extend(ops, 5, h, DoFlag(0, "cat", 4, 5), S6);
  }

  lemma ReopenedOpensNext(ops: seq<Op>, h: History)
    requires |ops| == 8 && Run(ops[..6]) == h && |h| == 7 && Now(h) == S6 && ops[6] == Count(DoOpen(1))
    ensures Run(ops[..7]) == h + [S7]
  {
    NextOpening();
    Extend(ops, 6, h, DoOpen(1), S7);
  }

  lemma LateRecountIsTaken(h: History)
    requires |h| == 8 && h[4] == S4 && Now(h) == S7
    ensures StepCount(h, DoRecount(0, 4)) == Ok(S8)
  {
    LateRecount();
  }

  lemma ReopenedReopens(ops: seq<Op>, h: History)
    requires |ops| == 8 && Run(ops[..7]) == h && |h| == 8 && h[4] == S4 && Now(h) == S7
    requires ops[7] == Count(DoRecount(0, 4))
    ensures Run(ops) == h + [S8]
  {
    LateRecountIsTaken(h);
    Extend(ops, 7, h, DoRecount(0, 4), S8);
    assert ops[..8] == ops;
  }

  lemma ReopenedFirstHalf(ops: seq<Op>, h: History)
    requires |ops| == 8 && Run(ops[..2]) == h && |h| == 3 && h[2] == S2
    requires ops[2] == Count(DoCount(0, 0, 8.0, "ann", 2, 2)) && ops[3] == Count(DoSubmit(0, 3))
    requires ops[4] == Count(DoApprove(0, "bob", 4))
    ensures Run(ops[..5]) == h + [S3] + [S4] + [S5]
  {
    ReopenedCounts(ops, h);
    ReopenedSubmits(ops, h + [S3]);
    ReopenedCloses(ops, h + [S3] + [S4]);
  }

  lemma ReopenedSecondHalf(ops: seq<Op>, h: History)
    requires |ops| == 8 && Run(ops[..5]) == h && |h| == 6 && h[4] == S4 && h[5] == S5
    requires ops[5] == Count(DoFlag(0, "cat", 4, 5)) && ops[6] == Count(DoOpen(1)) && ops[7] == Count(DoRecount(0, 4))
    ensures Run(ops) == h + [S6] + [S7] + [S8]
  {
    ReopenedFlags(ops, h);
    ReopenedOpensNext(ops, h + [S6]);
    ReopenedReopens(ops, h + [S6] + [S7]);
  }

  lemma TwoHolders()
    ensures !LockInv(S8) && S8.sessions[0].warehouse == S8.sessions[1].warehouse
    ensures Holds(S8.sessions, 0, 0, 0) && Holds(S8.sessions, 1, 0, 0)
  {
    assert |S8.sessions| == 2 && S8.sessions[0].Active() && S8.sessions[1].Active();
    assert S8.sessions[0].warehouse == S8.sessions[1].warehouse;
  }

  predicate Reopening(ops: seq<Op>) {
    && |ops| == 8 && ops[0] == Move(DoCreate(BOX)) && ops[1] == Count(DoOpen(1))
    && ops[2] == Count(DoCount(0, 0, 8.0, "ann", 2, 2)) && ops[3] == Count(DoSubmit(0, 3))
    && ops[4] == Count(DoApprove(0, "bob", 4)) && ops[5] == Count(DoFlag(0, "cat", 4, 5))
    && ops[6] == Count(DoOpen(1)) && ops[7] == Count(DoRecount(0, 4))
  }

  lemma ReopenedRuns(ops: seq<Op>)
    requires Reopening(ops)
    ensures Run(ops) == [EMPTY] + [S1] + [S2] + [S3] + [S4] + [S5] + [S6] + [S7] + [S8]
  {
    ReopenedOpens(ops);
    ReopenedFirstHalf(ops, [EMPTY] + [S1] + [S2]);
    ReopenedSecondHalf(ops, [EMPTY] + [S1] + [S2] + [S3] + [S4] + [S5]);
  }

  /** Two approvers of one count, and a recount that read its status before the first approval: the
      second approval flags the line of the closed count, and the recount reopens it while a new
      count of the warehouse is already running. Every request is accepted, and two active counts of
      one warehouse end up holding the same row. */
  lemma StaleRecountReopensClosedCount(ops: seq<Op>)
    requires Reopening(ops)
    ensures Run(ops) == [EMPTY] + [S1] + [S2] + [S3] + [S4] + [S5] + [S6] + [S7] + [S8]
    ensures !LockInv(Now(Run(ops)))
    ensures Holds(Now(Run(ops)).sessions, 0, 0, 0) && Holds(Now(Run(ops)).sessions, 1, 0, 0)
  {
    ReopenedRuns(ops);
    TwoHolders();
  }
}

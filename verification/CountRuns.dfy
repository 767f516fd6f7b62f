/** Counted quantities over whole runs: when every recorded variance is true, and what that makes of
    approval and of the way back from a conflict. */
module CountRuns {
  import opened Stock
  import opened Tables
  import opened Movements
  import opened CycleCount
  import opened LedgerRuns
  import opened CountLock
  import opened LockRuns
  import opened CountApproval

  predicate LinesTrue(x: Session) {
    forall k | 0 <= k < |x.lines| :: TrueVariance(x.lines[k])
  }

  /** Every variance on record is the difference between count and expectation. */
  predicate AllTrue(db: Db) {
    forall s | 0 <= s < |db.sessions| :: LinesTrue(db.sessions[s])
  }

  ghost predicate TrueAlways(ops: seq<Op>) {
    AllTrue(Now(Run(ops))) && (ops != [] ==> TrueAlways(ops[..|ops| - 1]))
  }

  predicate IsCounting(op: Op) { op.Count? && op.c.DoCount? }

  /** The line's expectation had not changed since the call read it. */
  predicate CountIsCurrent(h: History, c: CountCall)
    requires c.DoCount? && StepCount(h, c).Ok?
  {
    h[c.read].sessions[c.s].lines[c.k].expected == Now(h).sessions[c.s].lines[c.k].expected
  }

  /** Every accepted count of the run found the expectation it had read. */
  ghost predicate CountsCurrent(ops: seq<Op>) {
    ops == [] ||
    (var h, op := Run(ops[..|ops| - 1]), ops[|ops| - 1];
     && CountsCurrent(ops[..|ops| - 1])
     && (IsCounting(op) && StepCount(h, op.c).Ok? ==> CountIsCurrent(h, op.c)))
  }

  // ----- one step -----

  lemma EditedTrue(db: Db, s: nat, x: Session)
    requires AllTrue(db) && s < |db.sessions| && LinesTrue(x)
    ensures AllTrue(db.(sessions := db.sessions[s := x]))
  {
  }

  lemma CountingTrueIff(h: History, c: CountCall)
    requires AllTrue(Now(h)) && c.DoCount? && StepCount(h, c).Ok?
    ensures AllTrue(StepCount(h, c).value) <==> CountIsCurrent(h, c)
  {
    var db, d := Now(h), StepCount(h, c).value;
    CountRecordsTrueVarianceIff(db, c.s, h[c.seen].sessions[c.s], h[c.read].sessions[c.s], c.k, c.qty, c.user);
    var x, y := db.sessions[c.s], d.sessions[c.s];
    assert LinesTrue(x) && forall l :: 0 <= l < |x.lines| && l != c.k ==> y.lines[l] == x.lines[l];
    if CountIsCurrent(h, c) {
      assert LinesTrue(y);
    } else {
      assert !TrueVariance(y.lines[c.k]) && !LinesTrue(d.sessions[c.s]);
    }
  }

  lemma FlaggingTrue(db: Db, s: nat, flags: seq<Flag>)
    requires AllTrue(db) && s < |db.sessions|
    ensures AllTrue(RecordConflicts(db, s, flags).value)
  {
    FlagsKeepCounts(db.sessions[s].lines, flags);
    assert LinesTrue(db.sessions[s]);
    EditedTrue(db, s, RecordConflicts(db, s, flags).value.sessions[s]);
  }

  lemma CountCallTrue(h: History, c: CountCall)
    requires AllTrue(Now(h)) && StepCount(h, c).Ok? && !c.DoCount?
    ensures AllTrue(StepCount(h, c).value)
  {
    var db, d := Now(h), StepCount(h, c).value;
    match c
    case DoOpen(warehouse) => NewLinesAre(db.stock, warehouse);
    case DoFlag(s, user, seen, at) => FlaggingTrue(db, s, Approve(h[at], s, h[seen].sessions[s], user).value.flags);
    case DoRecount(s, _) => assert LinesTrue(db.sessions[s]); EditedTrue(db, s, d.sessions[s]);
    case DoSubmit(s, _) => assert LinesTrue(db.sessions[s]); EditedTrue(db, s, d.sessions[s]);
    case DoCancel(s) => assert LinesTrue(db.sessions[s]); EditedTrue(db, s, d.sessions[s]);
    case DoApprove(s, _, _) => assert s < |db.sessions| ==> LinesTrue(db.sessions[s]);
  }

  lemma MovementSessions(h: History, m: Movement)
    requires StepMovement(h, m).Ok?
    ensures StepMovement(h, m).value.sessions == Now(h).sessions
  {
    if m.DoIssue? { IssueMoves(Now(h), m.items); }
  }

  lemma StepTrueIff(h: History, op: Op)
    requires AllTrue(Now(h)) && Step(h, op).Ok?
    ensures AllTrue(Step(h, op).value) <==> (IsCounting(op) ==> CountIsCurrent(h, op.c))
  {
    match op
    case Move(m) => MovementSessions(h, m);
    case Adjust(_) =>
    case Count(c) => if c.DoCount? { CountingTrueIff(h, c); } else { CountCallTrue(h, c); }
  }

  /** Every recorded variance is true in every state of a run exactly when every count in it found
      the expectation it had read still on the line. */
  lemma {:induction false} VariancesTrueIff(ops: seq<Op>)
    ensures TrueAlways(ops) <==> CountsCurrent(ops)
  {
    if ops != [] {
      var front, op := ops[..|ops| - 1], ops[|ops| - 1];
      VariancesTrueIff(front);
      var h := Run(front);
      assert Now(Run(ops)) == Next(h, op);
      if TrueAlways(front) && Step(h, op).Ok? { StepTrueIff(h, op); }
    }
  }

  // ----- runs whose recounts are current -----

  predicate SameExpected(a: Session, b: Session) {
    |a.lines| == |b.lines| && forall k | 0 <= k < |a.lines| :: a.lines[k].expected == b.lines[k].expected
  }

  ghost predicate ExpectedStands(a: Db, b: Db) {
    |a.sessions| <= |b.sessions| && forall s :: 0 <= s < |a.sessions| ==> SameExpected(a.sessions[s], b.sessions[s])
  }

  lemma RecountKeepsExpected(db: Db, s: nat)
    requires LockInv(db) && s < |db.sessions| && Recount(db, s, db.sessions[s]).Ok?
    ensures SameExpected(db.sessions[s], Recount(db, s, db.sessions[s]).value.sessions[s])
  {
    var x, y := db.sessions[s], Recount(db, s, db.sessions[s]).value.sessions[s];
    forall k | 0 <= k < |x.lines| ensures x.lines[k].expected == y.lines[k].expected {
      assert LineConflict(db.stock, x.warehouse, x.lines[k]) == None;
    }
  }

  lemma EditKeepsExpected(a: Db, s: nat, x: Session)
    requires s < |a.sessions| && SameExpected(a.sessions[s], x)
    ensures ExpectedStands(a, a.(sessions := a.sessions[s := x]))
  {
  }

  lemma FlaggingKeepsExpected(db: Db, s: nat, flags: seq<Flag>)
    requires s < |db.sessions|
    ensures ExpectedStands(db, RecordConflicts(db, s, flags).value)
  {
    FlagsKeepCounts(db.sessions[s].lines, flags);
    EditKeepsExpected(db, s, RecordConflicts(db, s, flags).value.sessions[s]);
  }

  lemma ApprovalKeepsExpected(h: History, c: CountCall)
    requires StepCount(h, c).Ok? && c.DoApprove?
    ensures ExpectedStands(Now(h), StepCount(h, c).value)
  {
    var db, d := Now(h), StepCount(h, c).value;
    if c.s < |db.sessions| { EditKeepsExpected(db, c.s, d.sessions[c.s]); }
  }

  lemma CountCallKeepsExpected(h: History, c: CountCall)
    requires LockInv(Now(h)) && StepCount(h, c).Ok? && (c.DoRecount? ==> c.seen == |h| - 1)
    ensures ExpectedStands(Now(h), StepCount(h, c).value)
  {
    var db, d := Now(h), StepCount(h, c).value;
    match c
    case DoOpen(_) =>
    case DoCount(s, _, _, _, _, _) => EditKeepsExpected(db, s, d.sessions[s]);
    case DoSubmit(s, _) => EditKeepsExpected(db, s, d.sessions[s]);
    case DoApprove(_, _, _) => ApprovalKeepsExpected(h, c);
    case DoFlag(s, user, seen, at) =>
      FlaggingKeepsExpected(db, s, Approve(h[at], s, h[seen].sessions[s], user).value.flags);
    case DoRecount(s, _) => RecountKeepsExpected(db, s); EditKeepsExpected(db, s, d.sessions[s]);
    case DoCancel(s) => EditKeepsExpected(db, s, d.sessions[s]);
  }

  lemma StepKeepsExpected(h: History, op: Op)
    requires LockInv(Now(h)) && Step(h, op).Ok? && (IsRecount(op) ==> op.c.seen == |h| - 1)
    ensures ExpectedStands(Now(h), Step(h, op).value)
  {
    match op
    case Move(m) => MovementSessions(h, m);
    case Adjust(_) =>
    case Count(c) => CountCallKeepsExpected(h, c);
  }

  /** While recounts read and write in one go, no line's expectation ever changes: the lock keeps the
      rows of an active count as they were. */
  lemma {:induction false} ExpectationsStand(ops: seq<Op>, i: nat)
    requires RecountsCurrent(ops) && i < |Run(ops)|
    ensures ExpectedStands(Run(ops)[i], Now(Run(ops)))
  {
    if ops != [] {
      var front, op := ops[..|ops| - 1], ops[|ops| - 1];
      var h := Run(front);
      RunLength(front);
      LockHolds(front);
      if Step(h, op).Ok? { StepKeepsExpected(h, op); }
      if i < |h| {
        ExpectationsStand(front, i);
        ExpectedStandsOn(h[i], Now(h), Now(Run(ops)));
      }
    }
  }

  lemma ExpectedStandsOn(a: Db, b: Db, c: Db)
    requires ExpectedStands(a, b) && ExpectedStands(b, c)
    ensures ExpectedStands(a, c)
  {
  }

  lemma {:induction false} CountsAreCurrent(ops: seq<Op>)
    requires RecountsCurrent(ops)
    ensures CountsCurrent(ops)
  {
    if ops != [] {
      var front, op := ops[..|ops| - 1], ops[|ops| - 1];
      CountsAreCurrent(front);
      var h := Run(front);
      if IsCounting(op) && StepCount(h, op.c).Ok? {
        ExpectationsStand(front, op.c.read);
        assert SameExpected(h[op.c.read].sessions[op.c.s], Now(h).sessions[op.c.s]);
      }
    }
  }

  lemma {:induction false} TrueThroughout(ops: seq<Op>, i: nat)
    requires TrueAlways(ops) && i < |Run(ops)|
    ensures AllTrue(Run(ops)[i])
  {
    if ops != [] && i < |Run(ops)| - 1 { TrueThroughout(ops[..|ops| - 1], i); }
  }

  /** In such runs, whatever else is stale: an approval that goes through leaves every live counted row
      at its counted quantity. */
  lemma ApprovedRowsEndAtCount(ops: seq<Op>, c: CountCall, k: nat)
    requires RecountsCurrent(ops) && c.DoApprove? && SeenSession(Run(ops), c.seen, c.s).Ok?
    requires var h := Run(ops);
      && Approve(Now(h), c.s, h[c.seen].sessions[c.s], c.user).Ok?
      && Approve(Now(h), c.s, h[c.seen].sessions[c.s], c.user).value.Done?
    requires k < |Run(ops)[c.seen].sessions[c.s].lines|
    requires var line := Run(ops)[c.seen].sessions[c.s].lines[k]; line.Live() && line.counted.Some?
    ensures RowAsCounted(StepCount(Run(ops), c).value.stock, Run(ops)[c.seen].sessions[c.s].lines[k])
  {
    var h := Run(ops);
    CountsAreCurrent(ops);
    VariancesTrueIff(ops);
    TrueThroughout(ops, c.seen);
    RunCoherent(ops);
    assert Sound(h[c.seen]) && Evolves(h[c.seen], Now(h)) && LinesTrue(h[c.seen].sessions[c.s]);
    assert TrueVariance(h[c.seen].sessions[c.s].lines[k]);
    CountedRowEndsAtCount(Now(h), c.s, h[c.seen].sessions[c.s], c.user, k);
  }

  /** After such a run, whatever then happens to the stock outside the modelled requests: one recount,
      one count of what is left, submission and approval by somebody who counted nothing close a count
      that has conflicts, with every live row at its count. */
  lemma OneRecountRecoversRuns(ops: seq<Op>, stock: seq<Row>, s: nat, qtys: seq<real>, users: seq<User>,
        approver: User)
    requires RecountsCurrent(ops) && s < |Now(Run(ops)).sessions|
    requires var x := Now(Run(ops)).sessions[s];
      && x.status == Review && FindConflicts(stock, x.warehouse, x.lines) != []
      && (forall l :: 0 <= l < |x.lines| ==> x.lines[l].countedBy != Some(approver))
      && CanCount(x.lines, qtys, users, approver)
    ensures var d := Recovered(Now(Run(ops)).(stock := stock), s, qtys, users, approver);
      && d.Ok? && s < |d.value.sessions| && d.value.sessions[s].status == CountStatus.Approved
      && AsCounted(d.value.stock, d.value.sessions[s].lines)
  {
    CountsAreCurrent(ops);
    VariancesTrueIff(ops);
    RunCoherent(ops);
    var db := Now(Run(ops)).(stock := stock);
    assert Sound(Now(Run(ops))) && LinesTrue(db.sessions[s]);
    OneRecountRecovers(db, s, qtys, users, approver);
  }
}

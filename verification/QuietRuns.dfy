/** Runs whose recounts read and write in one go: no approval of a running count meets a conflict, so
    there is never anything to recount, and a submitted count is a counted one. */
module QuietRuns {
  import opened Stock
  import opened Tables
  import opened Movements
  import opened CycleCount
  import opened LedgerRuns
  import opened CountLock
  import opened LockRuns
  import opened CountRuns
  import opened CountEffects
  import opened SubmissionRuns

  predicate NothingExcluded(db: Db) {
    forall s, k | 0 <= s < |db.sessions| && 0 <= k < |db.sessions[s].lines| :: !db.sessions[s].lines[k].excluded
  }

  /** No line of a running count has a conflict on it. */
  predicate Unflagged(db: Db) {
    forall s, k | 0 <= s < |db.sessions| && Running(db.sessions[s]) && 0 <= k < |db.sessions[s].lines| ::
      db.sessions[s].lines[k].conflict == None
  }

  /** What runs now was running before: a closed count stays closed. */
  predicate ClosedStand(a: Db, b: Db) {
    |a.sessions| <= |b.sessions| &&
    forall s | 0 <= s < |a.sessions| :: Running(b.sessions[s]) ==> Running(a.sessions[s])
  }

  ghost predicate QuietAt(a: Db, now: Db) {
    LockInv(a) && NothingExcluded(a) && ExpectedStands(a, now) && ClosedStand(a, now)
  }

  ghost predicate Quiet(h: History) {
    Coherent(h) && Unflagged(Now(h)) && forall i :: 0 <= i < |h| ==> QuietAt(h[i], Now(h))
  }

  /** A running count met no conflict in any state of the run, whichever earlier state its lines are from. */
  lemma RunningMeetsNoConflict(h: History, s: nat, seen: nat, at: nat)
    requires Quiet(h) && s < |Now(h).sessions| && Running(Now(h).sessions[s])
    requires seen < |h| && at < |h| && s < |h[seen].sessions| && s < |h[at].sessions|
    ensures FindConflicts(h[at].stock, h[seen].sessions[s].warehouse, h[seen].sessions[s].lines) == []
  {
    var x, y, now := h[seen].sessions[s], h[at].sessions[s], Now(h).sessions[s];
    assert QuietAt(h[seen], Now(h)) && QuietAt(h[at], Now(h)) && Evolves(h[seen], Now(h)) && Evolves(h[at], Now(h));
    assert SameLines(x, now) && SameLines(y, now) && SameExpected(x, now) && SameExpected(y, now) && y.Active();
    forall k | 0 <= k < |x.lines| ensures LineConflict(h[at].stock, x.warehouse, x.lines[k]) == None {
      assert LineConflict(h[at].stock, y.warehouse, y.lines[k]) == None;
    }
    MatchingLinesHaveNoConflict(h[at].stock, x.warehouse, x.lines);
  }

  // ----- one step -----

  /** What a step other than a recount does to a session keeps a quiet run quiet. */
  predicate QuietEdit(a: Session, b: Session) {
    && |a.lines| == |b.lines| && (Running(b) ==> Running(a))
    && (forall k | 0 <= k < |a.lines| :: b.lines[k].excluded == a.lines[k].excluded)
    && (Running(b) ==> forall k | 0 <= k < |a.lines| :: a.lines[k].conflict == None ==> b.lines[k].conflict == None)
  }

  lemma QuietEditKeeps(db: Db, s: nat, x: Session)
    requires NothingExcluded(db) && Unflagged(db) && s < |db.sessions| && QuietEdit(db.sessions[s], x)
    ensures var d := db.(sessions := db.sessions[s := x]); NothingExcluded(d) && Unflagged(d) && ClosedStand(db, d)
  {
    var d := db.(sessions := db.sessions[s := x]);
    forall t, k | 0 <= t < |d.sessions| && 0 <= k < |d.sessions[t].lines|
      ensures !d.sessions[t].lines[k].excluded
      ensures Running(d.sessions[t]) ==> d.sessions[t].lines[k].conflict == None
    {
      assert !db.sessions[t].lines[k].excluded;
      if Running(d.sessions[t]) { assert db.sessions[t].lines[k].conflict == None; }
    }
  }

  lemma OpeningStaysQuiet(db: Db, w: WarehouseId)
    requires NothingExcluded(db) && Unflagged(db) && CreateSession(db, w).Ok?
    ensures var d := CreateSession(db, w).value; NothingExcluded(d) && Unflagged(d) && ClosedStand(db, d)
  {
    NewLinesAre(db.stock, w);
    NewLinesBlank(db.stock, w);
    var d := CreateSession(db, w).value;
    forall t, k | 0 <= t < |d.sessions| && 0 <= k < |d.sessions[t].lines|
      ensures !d.sessions[t].lines[k].excluded
      ensures Running(d.sessions[t]) ==> d.sessions[t].lines[k].conflict == None
    {
      if t < |db.sessions| {
        assert !db.sessions[t].lines[k].excluded;
        if Running(d.sessions[t]) { assert db.sessions[t].lines[k].conflict == None; }
      }
    }
  }

  lemma {:induction false} NewLinesBlank(stock: seq<Row>, w: WarehouseId)
    ensures forall k :: 0 <= k < |NewLines(stock, w)| ==> NewLines(stock, w)[k].conflict == None
  {
    if stock != [] { NewLinesBlank(stock[..|stock| - 1], w); }
  }

  lemma FlaggingStaysQuiet(h: History, c: CountCall)
    requires Quiet(h) && c.DoFlag? && StepCount(h, c).Ok?
    ensures var d := StepCount(h, c).value; NothingExcluded(d) && Unflagged(d) && ClosedStand(Now(h), d)
  {
    var db, x := Now(h), h[c.seen].sessions[c.s];
    assert QuietAt(h[|h| - 1], Now(h));
    var flags := Approve(h[c.at], c.s, x, c.user).value.flags;
    if Running(db.sessions[c.s]) { RunningMeetsNoConflict(h, c.s, c.seen, c.at); }
    FlagsKeepCounts(db.sessions[c.s].lines, flags);
    QuietEditKeeps(db, c.s, RecordConflicts(db, c.s, flags).value.sessions[c.s]);
  }

  /** There is nothing to recount on a count that is running now. */
  lemma NothingToRecount(h: History, c: CountCall)
    requires Quiet(h) && c.DoRecount? && c.seen == |h| - 1
    ensures StepCount(h, c).Err?
  {
    if c.s < |Now(h).sessions| {
      RecountIs(h, c.s, c.seen);
    }
  }

  lemma PlainCallStaysQuiet(h: History, c: CountCall)
    requires NothingExcluded(Now(h)) && Unflagged(Now(h))
    requires StepCount(h, c).Ok? && !c.DoRecount? && !c.DoFlag?
    ensures var d := StepCount(h, c).value; NothingExcluded(d) && Unflagged(d) && ClosedStand(Now(h), d)
  {
    var db, d := Now(h), StepCount(h, c).value;
    match c
    case DoOpen(w) => OpeningStaysQuiet(db, w);
    case DoCount(s, _, _, _, _, _) => QuietEditKeeps(db, s, d.sessions[s]);
    case DoSubmit(s, _) => QuietEditKeeps(db, s, d.sessions[s]);
    case DoApprove(s, _, _) => if s < |db.sessions| { QuietEditKeeps(db, s, d.sessions[s]); }
    case DoCancel(s) => QuietEditKeeps(db, s, d.sessions[s]);
    case _ =>
  }

  lemma QuietNow(h: History)
    requires Quiet(h)
    ensures LockInv(Now(h)) && NothingExcluded(Now(h)) && Unflagged(Now(h))
  {
    assert QuietAt(h[|h| - 1], Now(h));
  }

  lemma CountCallStaysQuiet(h: History, c: CountCall)
    requires Quiet(h) && StepCount(h, c).Ok? && (c.DoRecount? ==> c.seen == |h| - 1)
    ensures var d := StepCount(h, c).value; NothingExcluded(d) && Unflagged(d) && ClosedStand(Now(h), d)
  {
    if c.DoRecount? {
      NothingToRecount(h, c);
    } else if c.DoFlag? {
      FlaggingStaysQuiet(h, c);
    } else {
      QuietNow(h);
      PlainCallStaysQuiet(h, c);
    }
  }

  lemma OthersStayQuiet(h: History, op: Op)
    requires NothingExcluded(Now(h)) && Unflagged(Now(h)) && Step(h, op).Ok? && !op.Count?
    ensures var d := Step(h, op).value; NothingExcluded(d) && Unflagged(d) && ClosedStand(Now(h), d)
  {
    if op.Move? { MovementSessions(h, op.m); }
  }

  lemma StepStaysQuiet(h: History, op: Op)
    requires Quiet(h) && Step(h, op).Ok? && (IsRecount(op) ==> op.c.seen == |h| - 1)
    ensures var d := Step(h, op).value; NothingExcluded(d) && Unflagged(d) && ClosedStand(Now(h), d)
  {
    if op.Count? {
      CountCallStaysQuiet(h, op.c);
    } else {
      QuietNow(h);
      OthersStayQuiet(h, op);
    }
  }

  lemma QuietOn(a: Db, b: Db, c: Db)
    requires QuietAt(a, b) && ExpectedStands(b, c) && ClosedStand(b, c)
    ensures QuietAt(a, c)
  {
    ExpectedStandsOn(a, b, c);
  }

  lemma {:induction false} RunsStayQuiet(ops: seq<Op>)
    requires RecountsCurrent(ops)
    ensures Quiet(Run(ops))
  {
    RunCoherent(ops);
    LockHolds(ops);
    if ops != [] {
      var front, op := ops[..|ops| - 1], ops[|ops| - 1];
      RunsStayQuiet(front);
      RunLength(front);
      var h, d := Run(front), Now(Run(ops));
      LockHolds(front);
      assert QuietAt(h[|h| - 1], Now(h));
      if Step(h, op).Ok? {
        StepKeepsExpected(h, op);
        StepStaysQuiet(h, op);
      }
      forall i | 0 <= i < |Run(ops)| ensures QuietAt(Run(ops)[i], d) {
        if i < |h| { QuietOn(h[i], Now(h), d); }
      }
    }
  }

  // ----- over runs -----

  /** No recount of such a run is ever accepted. */
  lemma NoRecountIsAccepted(ops: seq<Op>, n: nat)
    requires RecountsCurrent(ops) && n < |ops| && IsRecount(ops[n])
    ensures Step(Run(ops[..n]), ops[n]).Err?
  {
    RunsStayQuiet(ops[..n]);
    RunLength(ops[..n]);
    NothingToRecount(Run(ops[..n]), ops[n].c);
  }

  /** In such a run, however stale the submissions, a count in review or approved has a count on every
      one of its lines. */
  lemma ReviewedAreCountedQuietly(ops: seq<Op>, s: nat, k: nat)
    requires RecountsCurrent(ops)
    requires s < |Now(Run(ops)).sessions| && k < |Now(Run(ops)).sessions[s].lines|
    requires var x := Now(Run(ops)).sessions[s]; x.status == Review || x.status == CountStatus.Approved
    ensures Now(Run(ops)).sessions[s].lines[k].counted.Some?
  {
    forall n | 0 <= n < |ops| && IsSubmission(ops[n])
      ensures !RecountedSince(ops[..n], ops[n].c.s, ops[n].c.seen)
    {
      NoRecountBefore(ops, n, ops[n].c.s, ops[n].c.seen);
    }
    ReviewedAreCountedApart(ops);
    RunsStayQuiet(ops);
    assert QuietAt(Run(ops)[|Run(ops)| - 1], Now(Run(ops)));
    assert FullyCounted(Now(Run(ops)).sessions[s]);
  }

  lemma NoRecountBefore(ops: seq<Op>, n: nat, s: nat, i: nat)
    requires RecountsCurrent(ops) && n <= |ops|
    ensures !RecountedSince(ops[..n], s, i)
  {
    forall m | i <= m < n && IsRecount(ops[..n][m]) ensures Step(Run(ops[..n][..m]), ops[..n][m]).Err? {
      NoRecountIsAccepted(ops[..n], m);
    }
  }
}

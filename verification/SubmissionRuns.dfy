/** Which runs never leave a count in review or approved with a line nobody counted. */
module SubmissionRuns {
  import opened Stock
  import opened Tables
  import opened Movements
  import opened CycleCount
  import opened LedgerRuns
  import opened CountLock
  import opened LockRuns
  import opened CountApproval
  import opened CountRuns
  import opened CountEffects

  /** A count in review or approved has a count on every line that is not excluded. */
  predicate ReviewedAreCounted(db: Db) {
    forall s | 0 <= s < |db.sessions| ::
      db.sessions[s].status == Review || db.sessions[s].status == CountStatus.Approved ==> FullyCounted(db.sessions[s])
  }

  ghost predicate CountedAlways(ops: seq<Op>) {
    ReviewedAreCounted(Now(Run(ops))) && (ops != [] ==> CountedAlways(ops[..|ops| - 1]))
  }

  predicate IsSubmission(op: Op) { op.Count? && op.c.DoSubmit? }

  /** No count that the submission had read was cleared by the time it was written. */
  predicate CountsStand(seen: Session, now: Session)
    requires |seen.lines| == |now.lines|
  {
    forall k | 0 <= k < |now.lines| ::
      seen.lines[k].counted.Some? && !now.lines[k].excluded ==> now.lines[k].counted.Some?
  }

  /** Every accepted submission of the run found the counts it had read. */
  ghost predicate SubmissionsCurrent(ops: seq<Op>) {
    ops == [] ||
    (var h, op := Run(ops[..|ops| - 1]), ops[|ops| - 1];
     && SubmissionsCurrent(ops[..|ops| - 1])
     && (IsSubmission(op) && StepCount(h, op.c).Ok? ==>
           var seen, now := h[op.c.seen].sessions[op.c.s], Now(h).sessions[op.c.s];
           |seen.lines| == |now.lines| && CountsStand(seen, now)))
  }

  // ----- lines are excluded for good -----

  predicate ExclusionsStandIn(a: Session, b: Session) {
    |a.lines| == |b.lines| && forall k | 0 <= k < |a.lines| :: a.lines[k].excluded ==> b.lines[k].excluded
  }

  ghost predicate ExclusionsStand(a: Db, b: Db) {
    |a.sessions| <= |b.sessions| &&
    forall s :: 0 <= s < |a.sessions| ==> ExclusionsStandIn(a.sessions[s], b.sessions[s])
  }

  lemma EditKeepsExclusions(a: Db, s: nat, x: Session)
    requires s < |a.sessions| && ExclusionsStandIn(a.sessions[s], x)
    ensures ExclusionsStand(a, a.(sessions := a.sessions[s := x]))
  {
  }

  lemma FlaggingKeepsExclusions(db: Db, s: nat, flags: seq<Flag>)
    requires s < |db.sessions|
    ensures ExclusionsStand(db, RecordConflicts(db, s, flags).value)
  {
    FlagsKeepCounts(db.sessions[s].lines, flags);
    EditKeepsExclusions(db, s, RecordConflicts(db, s, flags).value.sessions[s]);
  }

  lemma CountCallKeepsExclusions(h: History, c: CountCall)
    requires StepCount(h, c).Ok?
    ensures ExclusionsStand(Now(h), StepCount(h, c).value)
  {
    var db, d := Now(h), StepCount(h, c).value;
    match c
    case DoOpen(_) =>
    case DoCount(s, _, _, _, _, _) => EditKeepsExclusions(db, s, d.sessions[s]);
    case DoSubmit(s, _) => EditKeepsExclusions(db, s, d.sessions[s]);
    case DoApprove(s, _, _) => if s < |db.sessions| { EditKeepsExclusions(db, s, d.sessions[s]); }
    case DoFlag(s, user, seen, at) =>
      FlaggingKeepsExclusions(db, s, Approve(h[at], s, h[seen].sessions[s], user).value.flags);
    case DoRecount(s, _) => EditKeepsExclusions(db, s, d.sessions[s]);
    case DoCancel(s) => EditKeepsExclusions(db, s, d.sessions[s]);
  }

  lemma StepKeepsExclusions(h: History, op: Op)
    requires Step(h, op).Ok?
    ensures ExclusionsStand(Now(h), Step(h, op).value)
  {
    match op
    case Move(m) => MovementSessions(h, m);
    case Adjust(_) =>
    case Count(c) => CountCallKeepsExclusions(h, c);
  }

  lemma {:induction false} ExcludedForGood(ops: seq<Op>, i: nat)
    requires i < |Run(ops)|
    ensures ExclusionsStand(Run(ops)[i], Now(Run(ops)))
  {
    if ops != [] && i < |Run(ops)| - 1 {
      var front, op := ops[..|ops| - 1], ops[|ops| - 1];
      ExcludedForGood(front, i);
      if Step(Run(front), op).Ok? { StepKeepsExclusions(Run(front), op); }
    }
  }

  // ----- one step -----

  lemma SubmissionKeepsIff(h: History, c: CountCall)
    requires ReviewedAreCounted(Now(h)) && c.DoSubmit? && StepCount(h, c).Ok?
    requires ExclusionsStand(h[c.seen], Now(h))
    ensures var seen, now := h[c.seen].sessions[c.s], Now(h).sessions[c.s];
      |seen.lines| == |now.lines| && (ReviewedAreCounted(StepCount(h, c).value) <==> CountsStand(seen, now))
  {
    var db, seen, now := Now(h), h[c.seen].sessions[c.s], Now(h).sessions[c.s];
    SubmitIs(h, c.s, c.seen);
    var d := StepCount(h, c).value;
    assert ExclusionsStandIn(seen, now);
    assert d.sessions[c.s].status == Review;
    assert FullyCounted(now) <==> CountsStand(seen, now);
    assert FullyCounted(d.sessions[c.s]) <==> FullyCounted(now);
    if FullyCounted(now) {
      EditKeepsCounted(db, c.s, d.sessions[c.s]);
    }
  }

  lemma EditKeepsCounted(db: Db, s: nat, x: Session)
    requires ReviewedAreCounted(db) && s < |db.sessions|
    requires x.status == Review || x.status == CountStatus.Approved ==> FullyCounted(x)
    ensures ReviewedAreCounted(db.(sessions := db.sessions[s := x]))
  {
  }

  lemma FlaggingKeepsCounted(db: Db, s: nat, flags: seq<Flag>)
    requires ReviewedAreCounted(db) && s < |db.sessions|
    ensures ReviewedAreCounted(RecordConflicts(db, s, flags).value)
  {
    FlagsKeepCounts(db.sessions[s].lines, flags);
    EditKeepsCounted(db, s, RecordConflicts(db, s, flags).value.sessions[s]);
  }

  lemma CountCallKeepsCounted(h: History, c: CountCall)
    requires ReviewedAreCounted(Now(h)) && StepCount(h, c).Ok? && !c.DoSubmit?
    ensures ReviewedAreCounted(StepCount(h, c).value)
  {
    var db, d := Now(h), StepCount(h, c).value;
    match c
    case DoOpen(_) =>
    case DoCount(s, _, _, _, _, _) => EditKeepsCounted(db, s, d.sessions[s]);
    case DoApprove(s, _, _) => if s < |db.sessions| { EditKeepsCounted(db, s, d.sessions[s]); }
    case DoFlag(s, user, seen, at) =>
      FlaggingKeepsCounted(db, s, Approve(h[at], s, h[seen].sessions[s], user).value.flags);
    case DoRecount(s, _) => EditKeepsCounted(db, s, d.sessions[s]);
    case DoCancel(s) => EditKeepsCounted(db, s, d.sessions[s]);
  }

  lemma StepKeepsCounted(h: History, op: Op)
    requires ReviewedAreCounted(Now(h)) && Step(h, op).Ok? && !IsSubmission(op)
    ensures ReviewedAreCounted(Step(h, op).value)
  {
    match op
    case Move(m) => MovementSessions(h, m);
    case Adjust(_) =>
    case Count(c) => CountCallKeepsCounted(h, c);
  }

  /** In every state of a run each count in review or approved is fully counted, exactly when every
      accepted submission of the run found the counts it had read still on the lines. */
  lemma {:induction false} ReviewedAreCountedIff(ops: seq<Op>)
    ensures CountedAlways(ops) <==> SubmissionsCurrent(ops)
  {
    if ops != [] {
      var front, op := ops[..|ops| - 1], ops[|ops| - 1];
      ReviewedAreCountedIff(front);
      var h := Run(front);
      assert Now(Run(ops)) == Next(h, op);
      if CountedAlways(front) && Step(h, op).Ok? {
        if IsSubmission(op) {
          ExcludedForGood(front, op.c.seen);
          SubmissionKeepsIff(h, op.c);
        } else {
          StepKeepsCounted(h, op);
        }
      }
    }
  }

  // ----- only a recount clears a count -----

  /** A recount of session `s` was accepted after state `i` of the run. */
  ghost predicate RecountedSince(ops: seq<Op>, s: nat, i: nat) {
    exists m :: i <= m < |ops| && IsRecount(ops[m]) && ops[m].c.s == s && Step(Run(ops[..m]), ops[m]).Ok?
  }

  lemma RecountStaysInRun(ops: seq<Op>, s: nat, i: nat)
    requires ops != []
    ensures RecountedSince(ops[..|ops| - 1], s, i) ==> RecountedSince(ops, s, i)
  {
    var front := ops[..|ops| - 1];
    if m :| i <= m < |front| && IsRecount(front[m]) && front[m].c.s == s && Step(Run(front[..m]), front[m]).Ok? {
      assert ops[..m] == front[..m] && ops[m] == front[m];
    }
  }

  /** The last request of the run, if it is an accepted recount, is one since any earlier state. */
  lemma LastIsRecount(ops: seq<Op>, s: nat, i: nat)
    requires ops != [] && i < |ops|
    ensures var op := ops[|ops| - 1];
      IsRecount(op) && op.c.s == s && Step(Run(ops[..|ops| - 1]), op).Ok? ==> RecountedSince(ops, s, i)
  {
  }

  ghost predicate CountsStandAt(a: Db, b: Db, s: nat) {
    s < |a.sessions| ==>
      s < |b.sessions| && |a.sessions[s].lines| == |b.sessions[s].lines| && CountsStand(a.sessions[s], b.sessions[s])
  }

  lemma FlaggingKeepsCounts(db: Db, s: nat, flags: seq<Flag>, t: nat)
    requires s < |db.sessions|
    ensures CountsStandAt(db, RecordConflicts(db, s, flags).value, t)
  {
    FlagsKeepCounts(db.sessions[s].lines, flags);
  }

  lemma EditKeepsCounts(db: Db, s: nat, x: Session, t: nat)
    requires s < |db.sessions| && |db.sessions[s].lines| == |x.lines| && CountsStand(db.sessions[s], x)
    ensures CountsStandAt(db, db.(sessions := db.sessions[s := x]), t)
  {
  }

  lemma CountCallKeepsCounts(h: History, c: CountCall, t: nat)
    requires StepCount(h, c).Ok? && !(c.DoRecount? && c.s == t)
    ensures CountsStandAt(Now(h), StepCount(h, c).value, t)
  {
    var db, d := Now(h), StepCount(h, c).value;
    match c
    case DoOpen(_) =>
    case DoCount(s, _, _, _, _, _) => EditKeepsCounts(db, s, d.sessions[s], t);
    case DoSubmit(s, _) => EditKeepsCounts(db, s, d.sessions[s], t);
    case DoApprove(s, _, _) => if s < |db.sessions| { EditKeepsCounts(db, s, d.sessions[s], t); }
    case DoFlag(s, user, seen, at) =>
      FlaggingKeepsCounts(db, s, Approve(h[at], s, h[seen].sessions[s], user).value.flags, t);
    case DoRecount(_, _) =>
    case DoCancel(s) => EditKeepsCounts(db, s, d.sessions[s], t);
  }

  lemma StepKeepsCounts(h: History, op: Op, s: nat)
    requires Step(h, op).Ok? && !(IsRecount(op) && op.c.s == s)
    ensures CountsStandAt(Now(h), Step(h, op).value, s)
  {
    match op
    case Move(m) => MovementSessions(h, m);
    case Adjust(_) =>
    case Count(c) => CountCallKeepsCounts(h, c, s);
  }

  lemma CountsStandOn(a: Db, b: Db, c: Db, s: nat)
    requires CountsStandAt(a, b, s) && CountsStandAt(b, c, s) && ExclusionsStand(b, c)
    ensures CountsStandAt(a, c, s)
  {
    if s < |a.sessions| { assert ExclusionsStandIn(b.sessions[s], c.sessions[s]); }
  }

  lemma StepKeepsCountsSince(h: History, op: Op, i: nat, s: nat)
    requires i < |h| && CountsStandAt(h[i], Now(h), s)
    requires Step(h, op).Ok? && !(IsRecount(op) && op.c.s == s)
    ensures CountsStandAt(h[i], Step(h, op).value, s)
  {
    StepKeepsCounts(h, op, s);
    StepKeepsExclusions(h, op);
    CountsStandOn(h[i], Now(h), Step(h, op).value, s);
  }

  /** A count stands until its session is recounted. */
  lemma {:induction false} CountsStandUntilRecount(ops: seq<Op>, s: nat, i: nat)
    requires i < |Run(ops)| && !RecountedSince(ops, s, i)
    ensures CountsStandAt(Run(ops)[i], Now(Run(ops)), s)
  {
    if ops != [] && i < |Run(ops)| - 1 {
      var front, op := ops[..|ops| - 1], ops[|ops| - 1];
      var h := Run(front);
      RunLength(front);
      RecountStaysInRun(ops, s, i);
      LastIsRecount(ops, s, i);
      CountsStandUntilRecount(front, s, i);
      if Step(h, op).Ok? { StepKeepsCountsSince(h, op, i, s); }
    }
  }

  /** No submission of the run overlaps a recount of its session. */
  ghost predicate SubmissionsApart(ops: seq<Op>) {
    forall n :: 0 <= n < |ops| && IsSubmission(ops[n]) ==> !RecountedSince(ops[..n], ops[n].c.s, ops[n].c.seen)
  }

  lemma {:induction false} ApartAreCurrent(ops: seq<Op>)
    requires SubmissionsApart(ops)
    ensures SubmissionsCurrent(ops)
  {
    if ops != [] {
      var front, op := ops[..|ops| - 1], ops[|ops| - 1];
      forall n | 0 <= n < |front| && IsSubmission(front[n])
        ensures !RecountedSince(front[..n], front[n].c.s, front[n].c.seen)
      {
        assert front[n] == ops[n] && front[..n] == ops[..n];
      }
      ApartAreCurrent(front);
      if IsSubmission(op) && StepCount(Run(front), op.c).Ok? {
        assert ops[|front|] == op && ops[..|front|] == front;
        CountsStandUntilRecount(front, op.c.s, op.c.seen);
      }
    }
  }

  /** While no recount falls between the read and the write of a submission of the same session, a count
      in review or approved is fully counted. */
  lemma ReviewedAreCountedApart(ops: seq<Op>)
    requires SubmissionsApart(ops)
    ensures ReviewedAreCounted(Now(Run(ops)))
  {
    ApartAreCurrent(ops);
    ReviewedAreCountedIff(ops);
  }
}

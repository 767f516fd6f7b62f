/** The lock invariant over runs: which runs keep it, and what it protects. */
module LockRuns {
  import opened Stock
  import opened Tables
  import opened Movements
  import opened CycleCount
  import opened LedgerRuns
  import opened CountLock

  /** The recount of session `s` finds the count still active or, having reopened a closed one,
      finds the warehouse free and the untouched lines matching the stock. */
  ghost predicate SafeRecount(db: Db, s: nat)
    requires s < |db.sessions|
  {
    var x := db.sessions[s];
    || x.Active()
    || (&& !HasActive(db.sessions, x.warehouse)
        && forall k :: 0 <= k < |x.lines| && !Flagged(x.lines[k]) ==>
              LineConflict(db.stock, x.warehouse, x.lines[k]) == None)
  }

  predicate IsRecount(op: Op) { op.Count? && op.c.DoRecount? }

  predicate IsApprovalOf(op: Op, s: nat) { op.Count? && op.c.DoApprove? && op.c.s == s }

  /** Every accepted recount of the run was safe when it was written. */
  ghost predicate RecountsSafe(ops: seq<Op>) {
    ops == [] ||
    (var h, op := Run(ops[..|ops| - 1]), ops[|ops| - 1];
     && RecountsSafe(ops[..|ops| - 1])
     && (IsRecount(op) && StepCount(h, op.c).Ok? ==> SafeRecount(Now(h), op.c.s)))
  }

  /** No movement touches a held row. */
  lemma MovementSpares(h: History, m: Movement)
    requires LockInv(Now(h)) && StepMovement(h, m).Ok?
    ensures StepMovement(h, m).value.sessions == Now(h).sessions
    ensures SparesLocked(Now(h), StepMovement(h, m).value.stock)
  {
    var db := Now(h);
    match m
    case DoCreate(row) => AppendSpares(db, row);
    case DoReserve(id) => TransitionSpares(db, id, {Available}, Reserved);
    case DoAllocate(product, from, id, take) => SplitTransitionSpares(db, id, take, {Available}, Reserved);
    case DoRelease(ids) => ReleaseSpares(db, ids);
    case DoPick(id) => TransitionSpares(db, id, {Reserved, Picking}, Picked);
    case DoIssue(items) => IssueSpares(db, items);
    case DoStatus(id, to, seen) => TransitionSpares(db, id, {h[seen].stock[id].status}, to);
    case DoRelocate(id, target) =>
  }

  /** No adjustment touches a held row. */
  lemma AdjustmentSpares(h: History, c: AdjustmentCall)
    requires LockInv(Now(h)) && StepAdjustment(h, c).Ok?
    ensures StepAdjustment(h, c).value.sessions == Now(h).sessions
    ensures SparesLocked(Now(h), StepAdjustment(h, c).value.stock)
  {
  }

  lemma AppendSpares(db: Db, row: Row)
    requires LockInv(db)
    ensures SparesLocked(db, db.stock + [row])
  {
    forall r | 0 <= r < |db.stock| && CountLocked(db.sessions, r) ensures (db.stock + [row])[r] == db.stock[r] {}
  }

  /** Every step but a recount keeps the lock, whatever snapshot it acts on. */
  lemma StepKeepsLock(h: History, op: Op)
    requires Coherent(h) && LockInv(Now(h)) && Step(h, op).Ok? && !IsRecount(op)
    ensures LockInv(Step(h, op).value)
  {
    match op
    case Move(m) => MovementSpares(h, m); SparingKeepsLock(Now(h), Step(h, op).value);
    case Adjust(a) => AdjustmentSpares(h, a); SparingKeepsLock(Now(h), Step(h, op).value);
    case Count(c) => CountCallKeepsLock(h, c);
  }

  lemma CountLineKeepsLock(db: Db, s: nat, seen: Session, read: Session, k: nat, qty: real, user: User)
    requires LockInv(db) && CountLine(db, s, seen, read, k, qty, user).Ok?
    ensures LockInv(CountLine(db, s, seen, read, k, qty, user).value)
  {
    LinesInPlaceKeepLock(db, s, CountLine(db, s, seen, read, k, qty, user).value.sessions[s]);
  }

  lemma SubmitKeepsLock(db: Db, s: nat, seen: Session)
    requires LockInv(db) && Submit(db, s, seen).Ok?
    ensures LockInv(Submit(db, s, seen).value)
  {
    LinesInPlaceKeepLock(db, s, Submit(db, s, seen).value.sessions[s]);
  }

  lemma FlagKeepsLock(db: Db, s: nat, flags: seq<Flag>)
    requires LockInv(db) && s < |db.sessions|
    ensures LockInv(RecordConflicts(db, s, flags).value)
  {
    FlagsKeepCounts(db.sessions[s].lines, flags);
    LinesInPlaceKeepLock(db, s, RecordConflicts(db, s, flags).value.sessions[s]);
  }

  lemma CancelKeepsLock(db: Db, s: nat)
    requires LockInv(db) && Cancel(db, s).Ok?
    ensures LockInv(Cancel(db, s).value)
  {
    SessionEditKeepsLock(db, s, Cancel(db, s).value.sessions[s]);
  }

  lemma CountCallKeepsLock(h: History, c: CountCall)
    requires Coherent(h) && LockInv(Now(h)) && StepCount(h, c).Ok? && !c.DoRecount?
    ensures LockInv(StepCount(h, c).value)
  {
    var db := Now(h);
    match c
    case DoOpen(warehouse) => CreateKeepsLock(db, warehouse);
    case DoCount(s, k, qty, user, seen, read) =>
      CountLineKeepsLock(db, s, h[seen].sessions[s], h[read].sessions[s], k, qty, user);
    case DoSubmit(s, seen) => SubmitKeepsLock(db, s, h[seen].sessions[s]);
    case DoFlag(s, user, seen, at) => FlagKeepsLock(db, s, Approve(h[at], s, h[seen].sessions[s], user).value.flags);
    case DoCancel(s) => CancelKeepsLock(db, s);
    case DoApprove(s, user, seen) =>
      assert Evolves(h[seen], db);
      if Approve(db, s, h[seen].sessions[s], user).value.Done? { ApproveKeepsLock(db, s, h[seen].sessions[s], user); }
  }

  /** Counting, submitting and flagging leave rows, expectations and activity alone. */
  lemma LinesInPlaceKeepLock(db: Db, s: nat, x: Session)
    requires LockInv(db) && s < |db.sessions| && SameLines(db.sessions[s], x)
    requires x.Active() == db.sessions[s].Active()
    requires forall k :: 0 <= k < |x.lines| ==>
      x.lines[k].expected == db.sessions[s].lines[k].expected && x.lines[k].excluded == db.sessions[s].lines[k].excluded
    ensures LockInv(db.(sessions := db.sessions[s := x]))
  {
    if x.Active() {
      forall k | 0 <= k < |x.lines| ensures LineConflict(db.stock, x.warehouse, x.lines[k]) == None {
        assert LineConflict(db.stock, x.warehouse, db.sessions[s].lines[k]) == None;
      }
    }
    SessionEditKeepsLock(db, s, x);
  }

  lemma RecountCallKeepsLockIff(h: History, c: CountCall)
    requires Coherent(h) && LockInv(Now(h)) && c.DoRecount? && StepCount(h, c).Ok?
    ensures LockInv(StepCount(h, c).value) <==> SafeRecount(Now(h), c.s)
  {
    assert Evolves(h[c.seen], Now(h));
    RecountKeepsLockIff(Now(h), c.s, h[c.seen].sessions[c.s]);
  }

  /** The lock holds in every state the run goes through. */
  ghost predicate LockAlways(ops: seq<Op>) {
    LockInv(Now(Run(ops))) && (ops != [] ==> LockAlways(ops[..|ops| - 1]))
  }

  /** The lock holds in every state of a run exactly when every recount in it was safe. */
  lemma {:induction false} LockHoldsIff(ops: seq<Op>)
    ensures LockAlways(ops) <==> RecountsSafe(ops)
  {
    if ops != [] {
      var front, op := ops[..|ops| - 1], ops[|ops| - 1];
      LockHoldsIff(front);
      var h := Run(front);
      assert Now(Run(ops)) == Next(h, op);
      if LockAlways(front) && Step(h, op).Ok? {
        RunCoherent(front);
        if IsRecount(op) { RecountCallKeepsLockIff(h, op.c); } else { StepKeepsLock(h, op); }
      }
    }
  }

  /** Recounts that act on an up-to-date session: every other call may be as stale as it likes. */
  predicate RecountsCurrent(ops: seq<Op>) {
    forall n | 0 <= n < |ops| :: IsRecount(ops[n]) ==> ops[n].c.seen == n
  }

  lemma {:induction false} RunLength(ops: seq<Op>)
    ensures |Run(ops)| == |ops| + 1
  {
    if ops != [] { RunLength(ops[..|ops| - 1]); }
  }

  lemma {:induction false} CurrentRecountsAreSafe(ops: seq<Op>)
    requires RecountsCurrent(ops)
    ensures RecountsSafe(ops)
  {
    if ops != [] {
      CurrentRecountsAreSafe(ops[..|ops| - 1]);
      RunLength(ops[..|ops| - 1]);
    }
  }

  /** The lock, over every run whose recounts read and write in one go: one active count per
      warehouse, and every row it counts AVAILABLE, in place and unchanged. */
  lemma LockHolds(ops: seq<Op>)
    requires RecountsCurrent(ops)
    ensures LockInv(Now(Run(ops)))
  {
    CurrentRecountsAreSafe(ops);
    LockHoldsIff(ops);
  }

  /** A row held by a count is changed by nothing but the approval of that very count. */
  lemma HeldRowsStand(ops: seq<Op>, op: Op, t: nat, k: nat, r: RowId)
    requires RecountsCurrent(ops)
    requires Holds(Now(Run(ops)).sessions, t, k, r)
    ensures var db, d := Now(Run(ops)), Now(Run(ops + [op]));
      && r < |db.stock| <= |d.stock|
      && (d.stock[r] != db.stock[r] ==> IsApprovalOf(op, t))
  {
    var h := Run(ops);
    assert (ops + [op])[..|ops|] == ops;
    LockHolds(ops);
    RunCoherent(ops);
    HeldRow(Now(h), t, k, r);
    LockedIffHeld(Now(h).sessions, r);
    if Step(h, op).Ok? {
      match op
      case Move(m) => MovementSpares(h, m);
      case Adjust(a) => AdjustmentSpares(h, a);
      case Count(c) => CountCallSpares(h, c, t, k, r);
    }
  }

  lemma OtherCallSpares(h: History, c: CountCall)
    requires StepCount(h, c).Ok? && !c.DoApprove?
    ensures StepCount(h, c).value.stock == Now(h).stock
  {
  }

  lemma CountCallSpares(h: History, c: CountCall, t: nat, k: nat, r: RowId)
    requires Coherent(h) && LockInv(Now(h)) && StepCount(h, c).Ok?
    requires Holds(Now(h).sessions, t, k, r)
    ensures var db, d := Now(h), StepCount(h, c).value;
      && r < |db.stock| == |d.stock| && (d.stock[r] != db.stock[r] ==> c.DoApprove? && c.s == t)
  {
    HeldRow(Now(h), t, k, r);
    if c.DoApprove? { ApprovalSpares(h, c, t, k, r); } else { OtherCallSpares(h, c); }
  }

  lemma ApprovalSpares(h: History, c: CountCall, t: nat, k: nat, r: RowId)
    requires Coherent(h) && LockInv(Now(h)) && c.DoApprove? && StepCount(h, c).Ok?
    requires Holds(Now(h).sessions, t, k, r) && r < |Now(h).stock|
    ensures |StepCount(h, c).value.stock| == |Now(h).stock|
    ensures c.s != t ==> StepCount(h, c).value.stock[r] == Now(h).stock[r]
  {
    var db, seen := Now(h), h[c.seen].sessions[c.s];
    HeldRow(db, t, k, r);
    assert Evolves(h[c.seen], db);
    if Approve(db, c.s, seen, c.user).value.Done? {
      MatchingLinesHaveNoConflict(db.stock, seen.warehouse, seen.lines);
      assert seen.lines[..|seen.lines|] == seen.lines;
      ApplySpares(db, seen, c.user, |seen.lines|);
      assert db.sessions[c.s].Active() && SameLines(seen, db.sessions[c.s]);
      var i, j := if c.s < t then c.s else t, if c.s < t then t else c.s;
      if i < j { assert db.sessions[i].warehouse != db.sessions[j].warehouse; }
    }
  }
}

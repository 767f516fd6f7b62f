/** The cycle-count lock over whole runs. It has no column: it follows from the session status,
    so it is an invariant that every writer has to keep. */
module CountLock {
  import opened Stock
  import opened Tables
  import opened Movements
  import opened CycleCount
  import opened LedgerRuns

  /** Every live line points to a row that is AVAILABLE, in the warehouse, with the expected quantity. */
  ghost predicate LinesMatch(stock: seq<Row>, x: Session) {
    forall k :: 0 <= k < |x.lines| ==> LineConflict(stock, x.warehouse, x.lines[k]) == None
  }

  ghost predicate OneActive(sessions: seq<Session>) {
    forall s, t :: 0 <= s < t < |sessions| && sessions[s].Active() && sessions[t].Active() ==>
      sessions[s].warehouse != sessions[t].warehouse
  }

  ghost predicate LockInv(db: Db) {
    && OneActive(db.sessions)
    && (forall s :: 0 <= s < |db.sessions| && db.sessions[s].Active() ==> LinesMatch(db.stock, db.sessions[s]))
    && (forall s :: 0 <= s < |db.sessions| ==> DistinctRows(db.sessions[s].lines))
  }

  // ----- what the invariant gives -----

  lemma HeldRow(db: Db, s: nat, k: nat, r: RowId)
    requires LockInv(db) && Holds(db.sessions, s, k, r)
    ensures r < |db.stock| && db.stock[r].status == Available
    ensures db.stock[r].warehouse == Some(db.sessions[s].warehouse)
    ensures db.stock[r].quantity == db.sessions[s].lines[k].expected
  {
    assert LineConflict(db.stock, db.sessions[s].warehouse, db.sessions[s].lines[k]) == None;
  }

  lemma LockedRow(db: Db, r: RowId)
    requires LockInv(db) && CountLocked(db.sessions, r)
    ensures r < |db.stock| && db.stock[r].status == Available
  {
    LockedIffHeld(db.sessions, r);
    var s: nat, k: nat :| Holds(db.sessions, s, k, r);
    HeldRow(db, s, k, r);
  }

  /** A row is held by one line of one count at most. */
  lemma UniqueHolder(db: Db, r: RowId, s: nat, k: nat, t: nat, l: nat)
    requires LockInv(db) && Holds(db.sessions, s, k, r) && Holds(db.sessions, t, l, r)
    ensures s == t && k == l
  {
    HeldRow(db, s, k, r);
    HeldRow(db, t, l, r);
    assert DistinctRows(db.sessions[s].lines);
  }

  lemma {:induction false} MatchingLinesHaveNoConflict(stock: seq<Row>, warehouse: WarehouseId, lines: seq<Line>)
    ensures FindConflicts(stock, warehouse, lines) == [] <==>
      forall k :: 0 <= k < |lines| ==> LineConflict(stock, warehouse, lines[k]) == None
  {
    if lines != [] {
      var front := lines[..|lines| - 1];
      MatchingLinesHaveNoConflict(stock, warehouse, front);
      assert forall k :: 0 <= k < |front| ==> front[k] == lines[k];
      if forall k :: 0 <= k < |front| ==> LineConflict(stock, warehouse, front[k]) == None {
        assert forall k :: 0 <= k < |front| ==> LineConflict(stock, warehouse, lines[k]) == None;
      }
    }
  }

  /** While the lock holds, approving an up-to-date session meets no conflict. */
  lemma ApprovalMeetsNoConflict(db: Db, s: nat)
    requires LockInv(db) && s < |db.sessions| && db.sessions[s].Active()
    ensures FindConflicts(db.stock, db.sessions[s].warehouse, db.sessions[s].lines) == []
  {
    MatchingLinesHaveNoConflict(db.stock, db.sessions[s].warehouse, db.sessions[s].lines);
  }

  // ----- steps that keep it -----

  /** Rows held by no active count may change and rows may be added. */
  ghost predicate SparesLocked(db: Db, stock: seq<Row>) {
    && |db.stock| <= |stock|
    && forall r :: 0 <= r < |db.stock| && CountLocked(db.sessions, r) ==> stock[r] == db.stock[r]
  }

  lemma SparingKeepsLock(a: Db, b: Db)
    requires LockInv(a) && a.sessions == b.sessions && SparesLocked(a, b.stock)
    ensures LockInv(b)
  {
    forall s, k | 0 <= s < |b.sessions| && b.sessions[s].Active() && 0 <= k < |b.sessions[s].lines|
      ensures LineConflict(b.stock, b.sessions[s].warehouse, b.sessions[s].lines[k]) == None
    {
      var line := b.sessions[s].lines[k];
      assert LineConflict(a.stock, b.sessions[s].warehouse, line) == None;
      if line.Live() { assert SessionHolds(b.sessions[s], line.row.value); }
    }
  }

  lemma TransitionSpares(db: Db, id: RowId, from: set<Status>, to: Status)
    requires LockInv(db) && Transition(db, id, from, to).Ok?
    ensures SparesLocked(db, Transition(db, id, from, to).value.stock)
  {
    if CountLocked(db.sessions, id) { LockedRow(db, id); }
  }

  lemma SplitTransitionSpares(db: Db, id: RowId, qty: real, from: set<Status>, to: Status)
    requires LockInv(db) && SplitRow(db.stock, id, qty, Available).Ok?
    requires var d := db.(stock := SplitRow(db.stock, id, qty, Available).value.stock); Transition(d, id, from, to).Ok?
    ensures var d := db.(stock := SplitRow(db.stock, id, qty, Available).value.stock);
      SparesLocked(db, Transition(d, id, from, to).value.stock)
  {
    SplitConserves(db.stock, id, qty, Available);
    if CountLocked(db.sessions, id) { LockedRow(db, id); }
  }

  lemma {:induction false} ReleaseSpares(db: Db, ids: seq<RowId>)
    requires LockInv(db)
    ensures SparesLocked(db, ReleaseRows(db.stock, ids))
  {
    if ids != [] {
      ReleaseSpares(db, ids[..|ids| - 1]);
      var id := ids[|ids| - 1];
      if CountLocked(db.sessions, id) { LockedRow(db, id); }
    }
  }

  lemma {:induction false} IssueSpares(db: Db, items: seq<IssueItem>)
    requires LockInv(db) && Issue(db, items).Ok?
    ensures var d := Issue(db, items).value; d == db.(stock := d.stock) && SparesLocked(db, d.stock)
  {
    if items != [] {
      IssueSpares(db, items[..|items| - 1]);
      var d, item := Issue(db, items[..|items| - 1]).value, items[|items| - 1];
      SparingKeepsLock(db, d);
      if item.id < |d.stock| {
        SplitTransitionSpares(d, item.id, item.qty, {Picked, Reserved}, Shipped);
      }
    }
  }

  /** A session edit keeps the lock when the lines stay on their rows and, if the session is active
      afterwards, its lines match the stock and no other count of the warehouse is active. */
  lemma SessionEditKeepsLock(db: Db, s: nat, x: Session)
    requires LockInv(db) && s < |db.sessions| && SameLines(db.sessions[s], x)
    requires x.Active() ==> LinesMatch(db.stock, x) && (db.sessions[s].Active() || !HasActive(db.sessions, x.warehouse))
    ensures LockInv(db.(sessions := db.sessions[s := x]))
  {
    var after := db.sessions[s := x];
    assert DistinctRows(x.lines) by { assert DistinctRows(db.sessions[s].lines); }
    forall i, j | 0 <= i < j < |after| && after[i].Active() && after[j].Active()
      ensures after[i].warehouse != after[j].warehouse
    {
      var other := if i == s then j else i;
      if (i == s || j == s) && !db.sessions[s].Active() {
        assert db.sessions[other].Active();
      }
    }
  }

  /** A new count holds every AVAILABLE row of its warehouse, each once, at its quantity. */
  lemma CreateKeepsLock(db: Db, warehouse: WarehouseId)
    requires LockInv(db) && CreateSession(db, warehouse).Ok?
    ensures LockInv(CreateSession(db, warehouse).value)
    ensures forall r :: 0 <= r < |db.stock| && Counted(db.stock[r], warehouse) ==>
      CountLocked(CreateSession(db, warehouse).value.sessions, r)
  {
    NewLinesAre(db.stock, warehouse);
    var d := CreateSession(db, warehouse).value;
    var x := d.sessions[|db.sessions|];
    assert forall s :: 0 <= s < |db.sessions| ==> d.sessions[s] == db.sessions[s];
    forall r | 0 <= r < |db.stock| && Counted(db.stock[r], warehouse)
      ensures CountLocked(d.sessions, r)
    {
      assert SessionHolds(x, r);
    }
  }

  lemma {:induction false} ApplySpares(db: Db, seen: Session, user: User, k: nat)
    requires LockInv(db) && k <= |seen.lines|
    requires LinesMatch(db.stock, seen)
    requires ApplyLines(Applied(db.stock, db.adjustments), seen.lines[..k], user).Ok?
    ensures var a := ApplyLines(Applied(db.stock, db.adjustments), seen.lines[..k], user).value;
      && |a.stock| == |db.stock|
      && forall r :: 0 <= r < |db.stock| ==> a.stock[r] == db.stock[r] || db.stock[r].warehouse == Some(seen.warehouse)
  {
    if k > 0 {
      assert seen.lines[..k][..k - 1] == seen.lines[..k - 1];
      ApplySpares(db, seen, user, k - 1);
      assert LineConflict(db.stock, seen.warehouse, seen.lines[k - 1]) == None;
    }
  }

  /** Approval writes rows of its own warehouse only, and that count is no longer active. */
  lemma ApproveKeepsLock(db: Db, s: nat, seen: Session, user: User)
    requires LockInv(db)
    requires Approve(db, s, seen, user).Ok? && Approve(db, s, seen, user).value.Done?
    requires SameLines(seen, db.sessions[s])
    ensures LockInv(Approve(db, s, seen, user).value.db)
  {
    MatchingLinesHaveNoConflict(db.stock, seen.warehouse, seen.lines);
    assert seen.lines[..|seen.lines|] == seen.lines;
    ApplySpares(db, seen, user, |seen.lines|);
    var closed := db.(sessions := db.sessions[s := db.sessions[s].(status := CountStatus.Approved)]);
    SessionEditKeepsLock(db, s, closed.sessions[s]);
    var a := ApplyLines(Applied(db.stock, db.adjustments), seen.lines, user).value;
    forall r | 0 <= r < |db.stock| && CountLocked(closed.sessions, r)
      ensures a.stock[r] == db.stock[r]
    {
      LockedIffHeld(closed.sessions, r);
      var t: nat, k: nat :| Holds(closed.sessions, t, k, r);
      HeldRow(closed, t, k, r);
      assert t != s && db.sessions[t] == closed.sessions[t];
      assert t < s ==> db.sessions[t].warehouse != db.sessions[s].warehouse;
    }
    SparingKeepsLock(closed, Approve(db, s, seen, user).value.db);
  }

  lemma ActiveStandsAlone(sessions: seq<Session>, s: nat, y: Session)
    requires s < |sessions| && OneActive(sessions[s := y]) && y.Active()
    ensures forall t :: 0 <= t < |sessions| && sessions[t].warehouse == y.warehouse && sessions[t].Active() ==> t == s
  {
    forall t | 0 <= t < |sessions| && sessions[t].warehouse == y.warehouse && sessions[t].Active() ensures t == s {
      var all := sessions[s := y];
      assert all[s] == y && all[t].Active() && all[t].warehouse == y.warehouse;
    }
  }

  /** Recounting an active session keeps the lock. Recounting one that was closed after its status
      was read reopens it, and keeps the lock exactly when no other count of the warehouse is
      active and every line it does not refresh still matches the stock. */
  lemma RecountKeepsLockIff(db: Db, s: nat, seen: Session)
    requires LockInv(db) && Recount(db, s, seen).Ok? && SameLines(seen, db.sessions[s])
    ensures var x := db.sessions[s];
      LockInv(Recount(db, s, seen).value) <==>
        || x.Active()
        || (&& !HasActive(db.sessions, x.warehouse)
            && forall k :: 0 <= k < |x.lines| && !Flagged(x.lines[k]) ==>
                  LineConflict(db.stock, x.warehouse, x.lines[k]) == None)
  {
    var x, d := db.sessions[s], Recount(db, s, seen).value;
    var y := d.sessions[s];
    assert SameLines(x, y);
    assert forall k :: 0 <= k < |x.lines| ==> y.lines[k] == RecountLine(db.stock, x.warehouse, x.lines[k]);
    var unflagged := forall k :: 0 <= k < |x.lines| && !Flagged(x.lines[k]) ==>
      LineConflict(db.stock, x.warehouse, x.lines[k]) == None;
    if x.Active() || (!HasActive(db.sessions, x.warehouse) && unflagged) {
      assert LinesMatch(db.stock, y);
      SessionEditKeepsLock(db, s, y);
    } else if LockInv(d) {
      assert LinesMatch(d.stock, y);
      forall k | 0 <= k < |x.lines| && !Flagged(x.lines[k])
        ensures LineConflict(db.stock, x.warehouse, x.lines[k]) == None
      {
        assert y.lines[k] == x.lines[k];
      }
      ActiveStandsAlone(db.sessions, s, y);
    }
  }
}

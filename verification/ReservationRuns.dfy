/** What a run can do to one stock row: every way it changes, that a row is reserved again only after
    its reservation was released, and that a shipped row stands. */
module ReservationRuns {
  import opened Stock
  import opened Tables
  import opened Movements
  import opened CycleCount
  import opened LedgerRuns
  import opened MovementEffects
  import opened IssueEffects

  /** The ways an accepted request turns row `r` from `a` into `b`. */
  ghost predicate Change(op: Op, r: RowId, a: Row, b: Row) {
    match op
    case Move(DoReserve(id)) => id == r && a.status == Available && b == a.(status := Reserved)
    case Move(DoAllocate(_, _, id, take)) =>
      id == r && a.status == Available && b == a.(status := Reserved, quantity := Kept(a, take))
    case Move(DoRelease(ids)) => r in ids && Releasable(a.status) && b == a.(status := Available)
    case Move(DoPick(id)) => id == r && (a.status == Reserved || a.status == Picking) && b == a.(status := Picked)
    case Move(DoIssue(items)) =>
      && (a.status == Picked || a.status == Reserved)
      && exists j :: 0 <= j < |items| && items[j].id == r && b == ShippedRow(a, items[j].qty)
    case Move(DoStatus(id, to, _)) => id == r && SetByHand(a.status) && SetByHand(to) && b == a.(status := to)
    case Move(DoRelocate(id, target)) =>
      id == r && target.Some? && !Fixed(a.status) && b == a.(warehouse := target.value)
    case Adjust(DoApproveAdjustment(_, _, _)) => OnHand(a.status) && b == a.(quantity := b.quantity)
    case Count(DoApprove(_, _, _)) => a.status == Available && b == a.(quantity := b.quantity)
    case _ => false
  }

  lemma {:induction false} IssueChanges(db: Db, items: seq<IssueItem>, r: RowId)
    requires Issue(db, items).Ok? && r < |db.stock|
    ensures var after := Issue(db, items).value.stock;
      && r < |after|
      && (after[r] == db.stock[r] ||
            (&& (db.stock[r].status == Picked || db.stock[r].status == Reserved) && after[r].status == Shipped
             && exists j :: 0 <= j < |items| && items[j].id == r && after[r] == ShippedRow(db.stock[r], items[j].qty)))
  {
    if items != [] {
      var front, item := items[..|items| - 1], items[|items| - 1];
      IssueChanges(db, front, r);
      var d := Issue(db, front).value;
      if j :| 0 <= j < |front| && front[j].id == r && d.stock[r] == ShippedRow(db.stock[r], front[j].qty) {
        assert items[j] == front[j];
      }
      if item.id < |d.stock| { IssueOneIs(d, item); }
    }
  }

  lemma {:induction false} ApplyChanges(start: Applied, lines: seq<Line>, user: User, r: RowId)
    requires ApplyLines(start, lines, user).Ok? && r < |start.stock|
    ensures var after := ApplyLines(start, lines, user).value.stock;
      && |after| == |start.stock|
      && (after[r] == start.stock[r] ||
            (start.stock[r].status == Available && after[r] == start.stock[r].(quantity := after[r].quantity)))
  {
    if lines != [] { ApplyChanges(start, lines[..|lines| - 1], user, r); }
  }

  lemma MovementChanges(h: History, m: Movement, r: RowId)
    requires StepMovement(h, m).Ok? && r < |Now(h).stock|
    ensures var after := StepMovement(h, m).value.stock;
      r < |after| && (after[r] == Now(h).stock[r] || Change(Move(m), r, Now(h).stock[r], after[r]))
  {
    match m
    case DoCreate(_) =>
    case DoReserve(id) => ReserveIs(h, id);
    case DoAllocate(product, from, id, take) => AllocateIs(h, product, from, id, take);
    case DoRelease(ids) => ReleaseIs(h, ids);
    case DoPick(id) => PickIs(h, id);
    case DoIssue(items) => IssueChanges(Now(h), items, r);
    case DoStatus(id, to, seen) => StatusIs(h, id, to, seen);
    case DoRelocate(id, target) => RelocateIs(h, id, target);
  }

  lemma AdjustmentChanges(h: History, c: AdjustmentCall, r: RowId)
    requires StepAdjustment(h, c).Ok? && r < |Now(h).stock|
    ensures var after := StepAdjustment(h, c).value.stock;
      r < |after| && (after[r] == Now(h).stock[r] || Change(Adjust(c), r, Now(h).stock[r], after[r]))
  {
    match c
    case DoRequest(_, _, _, _) =>
    case DoApproveAdjustment(a, user, seen) => ApproveAdjustmentIs(h, a, user, seen);
    case DoRejectAdjustment(a, user, seen) => RejectAdjustmentIs(h, a, user, seen);
  }

  lemma CountChanges(h: History, c: CountCall, r: RowId)
    requires StepCount(h, c).Ok? && r < |Now(h).stock|
    ensures var after := StepCount(h, c).value.stock;
      r < |after| && (after[r] == Now(h).stock[r] || Change(Count(c), r, Now(h).stock[r], after[r]))
  {
    if c.DoApprove? {
      var db, x := Now(h), h[c.seen].sessions[c.s];
      if Approve(db, c.s, x, c.user).value.Done? {
        ApplyChanges(Applied(db.stock, db.adjustments), x.lines, c.user, r);
      }
    }
  }

  /** Row `r` before and after the `n`-th request of a run. */
  ghost predicate Stands(ops: seq<Op>, n: nat, r: RowId)
    requires n <= |ops|
  {
    r < |Now(Run(ops[..n])).stock|
  }

  ghost function RowAt(ops: seq<Op>, n: nat, r: RowId): Row
    requires n <= |ops| && Stands(ops, n, r)
  {
    Now(Run(ops[..n])).stock[r]
  }

  /** One request leaves a row as it was, or is accepted and changes it in the one way it can. */
  lemma RowChanges(ops: seq<Op>, n: nat, r: RowId)
    requires n < |ops| && Stands(ops, n, r)
    ensures Stands(ops, n + 1, r)
    ensures RowAt(ops, n + 1, r) == RowAt(ops, n, r) ||
      (Step(Run(ops[..n]), ops[n]).Ok? && Change(ops[n], r, RowAt(ops, n, r), RowAt(ops, n + 1, r)))
  {
    var h, op := Run(ops[..n]), ops[n];
    assert ops[..n + 1][..n] == ops[..n];
    if Step(h, op).Ok? {
      match op
      case Move(m) => MovementChanges(h, m, r);
      case Adjust(a) => AdjustmentChanges(h, a, r);
      case Count(c) => CountChanges(h, c, r);
    }
  }

  // ----- over runs -----

  /** The `n`-th request is an accepted reservation of row `r`, alone or by allocation. */
  ghost predicate ReservesAt(ops: seq<Op>, n: nat, r: RowId) {
    && n < |ops| && Step(Run(ops[..n]), ops[n]).Ok? && ops[n].Move?
    && ((ops[n].m.DoReserve? || ops[n].m.DoAllocate?) && ops[n].m.id == r)
  }

  /** The `n`-th request releases row `r`: it names the row, finds it reserved, being picked or picked,
      and leaves it AVAILABLE. */
  ghost predicate ReleasesAt(ops: seq<Op>, n: nat, r: RowId) {
    && n < |ops| && ops[n].Move? && ops[n].m.DoRelease? && r in ops[n].m.ids
    && Stands(ops, n, r) && Releasable(RowAt(ops, n, r).status)
    && Stands(ops, n + 1, r) && RowAt(ops, n + 1, r) == RowAt(ops, n, r).(status := Available)
  }

  predicate Committed(status: Status) { Releasable(status) || status == Shipped }

  lemma OnlyReleaseFrees(op: Op, r: RowId, a: Row, b: Row)
    requires Committed(a.status) && !Committed(b.status) && Change(op, r, a, b)
    ensures op.Move? && op.m.DoRelease? && r in op.m.ids && Releasable(a.status) && b == a.(status := Available)
  {
  }

  /** A reserved row stays committed until it is released. */
  lemma {:induction false} CommittedUntilReleased(ops: seq<Op>, i: nat, j: nat, r: RowId)
    requires i <= j <= |ops| && Stands(ops, i, r) && Committed(RowAt(ops, i, r).status)
    ensures Stands(ops, j, r)
    ensures Committed(RowAt(ops, j, r).status) || exists n :: i <= n < j && ReleasesAt(ops, n, r)
  {
    if i < j {
      CommittedUntilReleased(ops, i, j - 1, r);
      RowChanges(ops, j - 1, r);
      var a, b := RowAt(ops, j - 1, r), RowAt(ops, j, r);
      if Committed(a.status) && !Committed(b.status) {
        OnlyReleaseFrees(ops[j - 1], r, a, b);
        assert ReleasesAt(ops, j - 1, r);
      }
    }
  }

  lemma ReservationTakes(ops: seq<Op>, n: nat, r: RowId)
    requires ReservesAt(ops, n, r)
    ensures Stands(ops, n, r) && RowAt(ops, n, r).status == Available
    ensures Stands(ops, n + 1, r) && RowAt(ops, n + 1, r).status == Reserved
  {
    var h := Run(ops[..n]);
    assert ops[..n + 1][..n] == ops[..n];
    match ops[n].m
    case DoReserve(id) => ReserveIs(h, id);
    case DoAllocate(product, from, id, take) => AllocateIs(h, product, from, id, take);
  }

  /** Over any run, between two accepted reservations of one row there is a release that names the row and
      makes it AVAILABLE again. */
  lemma ReservedAgainOnlyAfterRelease(ops: seq<Op>, i: nat, j: nat, r: RowId)
    requires i < j && ReservesAt(ops, i, r) && ReservesAt(ops, j, r)
    ensures exists n :: i < n < j && ReleasesAt(ops, n, r)
  {
    ReservationTakes(ops, i, r);
    ReservationTakes(ops, j, r);
    CommittedUntilReleased(ops, i + 1, j, r);
    var n :| i + 1 <= n < j && ReleasesAt(ops, n, r);
    assert i < n < j;
  }

  lemma NothingChangesShipped(op: Op, r: RowId, a: Row, b: Row)
    requires a.status == Shipped
    ensures !Change(op, r, a, b)
  {
  }

  /** Over any run, a shipped row stands as it is. */
  lemma {:induction false} ShippedRowStands(ops: seq<Op>, i: nat, j: nat, r: RowId)
    requires i <= j <= |ops| && Stands(ops, i, r) && RowAt(ops, i, r).status == Shipped
    ensures Stands(ops, j, r) && RowAt(ops, j, r) == RowAt(ops, i, r)
  {
    if i < j {
      ShippedRowStands(ops, i, j - 1, r);
      RowChanges(ops, j - 1, r);
      NothingChangesShipped(ops[j - 1], r, RowAt(ops, j - 1, r), RowAt(ops, j, r));
    }
  }
}

/** What each stock movement does to the rows, and exactly when it is accepted, in the statuses and
    fields of the rows themselves. */
module MovementEffects {
  import opened Stock
  import opened Tables
  import opened Movements
  import opened LedgerRuns

  /** A line of a running count names the row. */
  ghost predicate InCount(db: Db, r: RowId) {
    exists s: nat, k: nat :: CountNames(db, s, k, r)
  }

  predicate CountNames(db: Db, s: nat, k: nat, r: RowId) {
    && s < |db.sessions| && db.sessions[s].status in {Open, InProgress, Review}
    && k < |db.sessions[s].lines| && !db.sessions[s].lines[k].excluded && db.sessions[s].lines[k].row == Some(r)
  }

  lemma LockedIffInCount(db: Db, r: RowId)
    ensures CountLocked(db.sessions, r) <==> InCount(db, r)
  {
    LockedIffHeld(db.sessions, r);
    forall s: nat, k: nat ensures Tables.Holds(db.sessions, s, k, r) <==> CountNames(db, s, k, r) {}
  }

  /** The tables with one row in another status. */
  function Marked(db: Db, id: RowId, status: Status): Db
    requires id < |db.stock|
  {
    db.(stock := db.stock[id := db.stock[id].(status := status)])
  }

  // ----- movements of one row -----

  lemma ReserveIs(h: History, id: RowId)
    ensures var db, r := Now(h), StepMovement(h, DoReserve(id));
      && (r.Ok? <==> id < |db.stock| && db.stock[id].status == Available && !InCount(db, id))
      && (r.Ok? ==> r.value == Marked(db, id, Reserved))
      && (r.Err? ==> r.error == if id >= |db.stock| && !InCount(db, id) then NotFound else Conflict)
  {
    LockedIffInCount(Now(h), id);
  }

  /** Picking confirms what is reserved or being picked, counted or not. */
  lemma PickIs(h: History, id: RowId)
    ensures var db, r := Now(h), StepMovement(h, DoPick(id));
      && (r.Ok? <==> id < |db.stock| && (db.stock[id].status == Reserved || db.stock[id].status == Picking))
      && (r.Ok? ==> r.value == Marked(db, id, Picked))
      && (r.Err? ==> r.error == if id >= |db.stock| then NotFound else Conflict)
  {
  }

  predicate SetByHand(status: Status) {
    status == Available || status == Quarantine || status == Damaged || status == Doa
  }

  /** A manual change is from one manual status, still the one read, to another; a counted row stays
      AVAILABLE. */
  lemma StatusIs(h: History, id: RowId, to: Status, seen: nat)
    ensures var db, r := Now(h), StepMovement(h, DoStatus(id, to, seen));
      && (r.Ok? <==>
            && seen < |h| && id < |h[seen].stock| && id < |db.stock|
            && SetByHand(to) && SetByHand(h[seen].stock[id].status) && db.stock[id].status == h[seen].stock[id].status
            && (db.stock[id].status == Available ==> !InCount(db, id)))
      && (r.Ok? ==> r.value == Marked(db, id, to))
  {
    LockedIffInCount(Now(h), id);
  }

  /** Allocation takes an AVAILABLE row with units of the product, in the warehouse asked for and not
      counted; the row keeps the units taken, and what is left over is a new AVAILABLE row. */
  lemma AllocateIs(h: History, product: ProductId, from: Option<WarehouseId>, id: RowId, take: real)
    ensures var db, r := Now(h), StepMovement(h, DoAllocate(product, from, id, take));
      && (r.Ok? <==>
            && id < |db.stock| && db.stock[id].product == product && db.stock[id].status == Available
            && db.stock[id].quantity > 0.0 && (from == None || db.stock[id].warehouse == from) && !InCount(db, id))
      && (r.Ok? ==>
            var row := db.stock[id];
            r.value == db.(stock := db.stock[id := row.(status := Reserved, quantity := Kept(row, take))]
              + if Cut(row, take) then [Rest(row, take, Available)] else []))
      && (r.Err? ==> r.error == Conflict)
  {
    var db := Now(h);
    LockedIffInCount(db, id);
    SplitMakesRestIff(db.stock, id, take, Available);
  }

  predicate Releasable(status: Status) {
    status == Reserved || status == Picking || status == Picked
  }

  /** A release is never refused: it makes the named rows that are reserved, being picked or picked
      AVAILABLE again, and leaves every other row alone. */
  lemma ReleaseIs(h: History, ids: seq<RowId>)
    ensures var db, r := Now(h), StepMovement(h, DoRelease(ids));
      && r.Ok? && r.value == db.(stock := r.value.stock) && |r.value.stock| == |db.stock|
      && forall i :: 0 <= i < |db.stock| ==>
           r.value.stock[i] == if i in ids && Releasable(db.stock[i].status)
                               then db.stock[i].(status := Available) else db.stock[i]
  {
    ReleasedRows(Now(h).stock, ids);
  }

  lemma {:induction false} ReleasedRows(stock: seq<Row>, ids: seq<RowId>)
    ensures |ReleaseRows(stock, ids)| == |stock|
    ensures forall i :: 0 <= i < |stock| ==>
      ReleaseRows(stock, ids)[i] ==
        if i in ids && Releasable(stock[i].status) then stock[i].(status := Available) else stock[i]
  {
    if ids != [] {
      var front, last := ids[..|ids| - 1], ids[|ids| - 1];
      ReleasedRows(stock, front);
      assert ids == front + [last];
    }
  }

  predicate Fixed(status: Status) {
    || status == Picking || status == Picked || status == Packed || status == ReadyForPickup || status == Shipped
    || status == IssuedToRma || status == Consumed || status == Closed || status == Cancelled || status == RtvShipped
  }

  /** A row moves to another place unless it is counted, being handled or gone. */
  lemma RelocateIs(h: History, id: RowId, target: Option<Option<WarehouseId>>)
    ensures var db, r := Now(h), StepMovement(h, DoRelocate(id, target));
      && (r.Ok? <==> id < |db.stock| && !InCount(db, id) && !Fixed(db.stock[id].status))
      && (r.Ok? ==>
            r.value == if target.None? then db
                       else db.(stock := db.stock[id := db.stock[id].(warehouse := target.value)]))
      && (r.Err? ==> r.error == if id >= |db.stock| && !InCount(db, id) then NotFound else Conflict)
  {
    LockedIffInCount(Now(h), id);
  }

  /** A row is created in a manual status or to be inspected. */
  lemma CreateIs(h: History, row: Row)
    ensures var db, r := Now(h), StepMovement(h, DoCreate(row));
      && (r.Ok? <==> SetByHand(row.status) || row.status == PendingInspection)
      && (r.Ok? ==> r.value == Db(db.stock + [row], db.sessions, db.adjustments, db.received + row.quantity))
      && (r.Err? ==> r.error == BadRequest)
  {
  }

  // ----- adjustments -----

  predicate OnHand(status: Status) {
    || SetByHand(status) || status == RtvPending || status == ReturnedUnused
  }

  function Decided(adj: Adjustment, status: AdjStatus, user: User): Adjustment {
    Adjustment(adj.row, adj.before, adj.after, status, adj.requester, Some(user))
  }

  /** A request is never refused; it waits for approval and names who asked. */
  lemma RequestIs(h: History, link: Option<RowId>, before: real, after: real, user: User)
    ensures var db, r := Now(h), StepAdjustment(h, DoRequest(link, before, after, user));
      && r.Ok?
      && |r.value.adjustments| == |db.adjustments| + 1
      && r.value == db.(adjustments := db.adjustments + [r.value.adjustments[|db.adjustments|]])
      && r.value.adjustments[|db.adjustments|]
           == Adjustment(link, before, after, PendingApproval, Some(user), None)
  {
  }

  /** An adjustment is approved when it was pending as read and still is, by somebody other than its
      requester, and, if it is linked, its row is there, not counted, on hand and still holds what was
      written down; the row then holds the new quantity. */
  lemma ApproveAdjustmentIs(h: History, a: nat, user: User, seen: nat)
    requires seen < |h| && a < |h[seen].adjustments|
    ensures var db, adj, r := Now(h), h[seen].adjustments[a], StepAdjustment(h, DoApproveAdjustment(a, user, seen));
      && (r.Ok? <==>
            && adj.status == PendingApproval && (user == "" || adj.requester != Some(user))
            && a < |db.adjustments| && db.adjustments[a].status == PendingApproval
            && (adj.row.Some? ==>
                  && !InCount(db, adj.row.value) && adj.row.value < |db.stock|
                  && db.stock[adj.row.value].quantity == adj.before && OnHand(db.stock[adj.row.value].status)))
      && (r.Ok? ==>
            r.value == Db(
              if adj.row.None? then db.stock
              else db.stock[adj.row.value := db.stock[adj.row.value].(quantity := adj.after)],
              db.sessions, db.adjustments[a := Decided(db.adjustments[a], Completed, user)], db.received))
  {
    var adj := h[seen].adjustments[a];
    assert NotSelfApproval(user, [adj.requester]) <==> user == "" || [adj.requester][0] != Some(user);
    if adj.row.Some? { LockedIffInCount(Now(h), adj.row.value); }
  }

  lemma RejectAdjustmentIs(h: History, a: nat, user: User, seen: nat)
    requires seen < |h| && a < |h[seen].adjustments|
    ensures var db, r := Now(h), StepAdjustment(h, DoRejectAdjustment(a, user, seen));
      && (r.Ok? <==>
            && h[seen].adjustments[a].status == PendingApproval
            && a < |db.adjustments| && db.adjustments[a].status == PendingApproval)
      && (r.Ok? ==>
            r.value == db.(adjustments := db.adjustments[a := Decided(db.adjustments[a], Rejected, user)]))
  {
  }
}

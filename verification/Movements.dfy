/** The stock movements of the inventory, orchestration and adjustment services, each one
    transaction as a function of the tables: a thrown error rolls back, so it returns no tables. */
module Movements {
  import opened Stock
  import opened Tables

  /** Compare-and-set: `id` moves to `to` only from one of `from`, and a counted row cannot leave AVAILABLE. */
  function Transition(db: Db, id: RowId, from: set<Status>, to: Status): Result<Db> {
    if Available in from && CountLocked(db.sessions, id) then Err(Conflict)
    else if id >= |db.stock| then Err(NotFound)
    else if db.stock[id].status !in from then Err(Conflict)
    else Ok(db.(stock := db.stock[id := db.stock[id].(status := to)]))
  }

  function CreateStock(db: Db, row: Row): Result<Db> {
    if row.status !in CREATABLE then Err(BadRequest)
    else Ok(db.(stock := db.stock + [row], received := db.received + row.quantity))
  }

  function Reserve(db: Db, id: RowId): Result<Db> { Transition(db, id, {Available}, Reserved) }

  /** An AVAILABLE, unlocked row with quantity: what allocation may pick. */
  predicate Allocatable(db: Db, product: ProductId, warehouse: Option<WarehouseId>, r: RowId) {
    && r < |db.stock| && db.stock[r].product == product
    && db.stock[r].status == Available && db.stock[r].quantity > 0.0
    && (warehouse == None || db.stock[r].warehouse == warehouse)
    && !CountLocked(db.sessions, r)
  }

  /** One chosen row of an allocation: keep `take` units on it, return the rest, reserve it. */
  function AllocateRow(db: Db, product: ProductId, warehouse: Option<WarehouseId>, id: RowId, take: real): Result<Db> {
    if !Allocatable(db, product, warehouse, id) then Err(Conflict)
    else
      var split :- SplitRow(db.stock, id, take, Available);
      Reserve(db.(stock := split.stock), id)
  }

  const RELEASABLE: set<Status> := {Reserved, Picking, Picked}

  function ReleaseOne(stock: seq<Row>, id: RowId): seq<Row> {
    if id < |stock| && stock[id].status in RELEASABLE
    then stock[id := stock[id].(status := Available)] else stock
  }

  /** Releases the items in order; rows already issued are left alone. */
  function ReleaseRows(stock: seq<Row>, ids: seq<RowId>): seq<Row> {
    if ids == [] then stock
    else ReleaseOne(ReleaseRows(stock, ids[..|ids| - 1]), ids[|ids| - 1])
  }

  function Release(db: Db, ids: seq<RowId>): Result<Db> {
    Ok(db.(stock := ReleaseRows(db.stock, ids)))
  }

  function Pick(db: Db, id: RowId): Result<Db> { Transition(db, id, {Reserved, Picking}, Picked) }

  datatype IssueItem = IssueItem(id: RowId, qty: real)

  /** Goods issue of one row: split off what was not issued (back to AVAILABLE), ship the row. */
  function IssueOne(db: Db, item: IssueItem): Result<Db> {
    if item.id >= |db.stock| then Ok(db)
    else
      var split :- SplitRow(db.stock, item.id, item.qty, Available);
      Transition(db.(stock := split.stock), item.id, {Picked, Reserved}, Shipped)
  }

  function Issue(db: Db, items: seq<IssueItem>): Result<Db> {
    if items == [] then Ok(db)
    else
      var d :- Issue(db, items[..|items| - 1]);
      IssueOne(d, items[|items| - 1])
  }

  /** Manual status change; `found` is the status read before the transaction. */
  function UpdateStatus(db: Db, id: RowId, found: Status, to: Status): Result<Db> {
    if to !in MANUAL || found !in MANUAL then Err(BadRequest)
    else Transition(db, id, {found}, to)
  }

  /** Relocation; `warehouse` is None when the location leaves the warehouse as it is. */
  function UpdateLocation(db: Db, id: RowId, warehouse: Option<Option<WarehouseId>>): Result<Db> {
    if CountLocked(db.sessions, id) then Err(Conflict)
    else if id >= |db.stock| then Err(NotFound)
    else if db.stock[id].status in NOT_RELOCATABLE then Err(Conflict)
    else if warehouse == None then Ok(db)
    else Ok(db.(stock := db.stock[id := db.stock[id].(warehouse := warehouse.value)]))
  }

  // ----- adjustments -----

  function RequestAdjustment(db: Db, row: Option<RowId>, before: real, after: real, user: User): Result<Db> {
    Ok(db.(adjustments := db.adjustments + [Adjustment(row, before, after, PendingApproval, Some(user), None)]))
  }

  /** Approval of the adjustment `adj` read before the transaction: claim, then guarded write. */
  function ApproveAdjustment(db: Db, id: nat, adj: Adjustment, user: User): Result<Db> {
    if adj.status != PendingApproval then Err(BadRequest)
    else if !NotSelfApproval(user, [adj.requester]) then Err(Forbidden)
    else if id >= |db.adjustments| || db.adjustments[id].status != PendingApproval then Err(Conflict)
    else
      var completed := db.adjustments[id].(status := Completed, approver := Some(user));
      var claimed := db.(adjustments := db.adjustments[id := completed]);
      if adj.row == None then Ok(claimed)
      else
        var r := adj.row.value;
        if CountLocked(db.sessions, r) then Err(Conflict)
        else if r >= |db.stock| then Err(NotFound)
        else if db.stock[r].quantity != adj.before || db.stock[r].status !in ON_HAND_UNCOMMITTED then Err(Conflict)
        else Ok(claimed.(stock := db.stock[r := db.stock[r].(quantity := adj.after)]))
  }

  function RejectAdjustment(db: Db, id: nat, adj: Adjustment, user: User): Result<Db> {
    if adj.status != PendingApproval then Err(BadRequest)
    else if id >= |db.adjustments| || db.adjustments[id].status != PendingApproval then Err(Conflict)
    else Ok(db.(adjustments := db.adjustments[id := db.adjustments[id].(status := Rejected, approver := Some(user))]))
  }
}

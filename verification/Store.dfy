/** The services' transactions as they run: tables updated in place, row by row, and put back when
    a step throws. Each method is tied to its transaction function. */
module Store {
  import opened Stock
  import opened Tables
  import opened Movements
  import opened CycleCount

  class WarehouseStore {
    var stock: seq<Row>
    var sessions: seq<Session>
    var adjustments: seq<Adjustment>
    var received: real

    function Tables(): Db reads this { Db(stock, sessions, adjustments, received) }

    /** The transaction ended as `spec` says: committed, or rolled back with the same error. */
    ghost predicate Ended(before: Db, spec: Result<Db>, r: Result<()>) reads this {
      match spec
      case Ok(d) => r == Ok(()) && Tables() == d
      case Err(e) => r == Err(e) && Tables() == before
    }

    constructor ()
      ensures Tables() == EMPTY
    {
      stock, sessions, adjustments, received := [], [], [], 0.0;
    }

    method Rollback(db: Db)
      modifies this
      ensures Tables() == db
    {
      stock, sessions, adjustments, received := db.stock, db.sessions, db.adjustments, db.received;
    }

    method CreateStockRow(row: Row) returns (r: Result<()>)
      modifies `stock, `received
      ensures Ended(old(Tables()), CreateStock(old(Tables()), row), r)
    {
      if row.status !in CREATABLE { return Err(BadRequest); }
      stock, received := stock + [row], received + row.quantity;
      return Ok(());
    }

    method TransitionStock(id: RowId, from: set<Status>, to: Status) returns (r: Result<()>)
      modifies `stock
      ensures Ended(old(Tables()), Transition(old(Tables()), id, from, to), r)
    {
      if Available in from && CountLocked(sessions, id) { return Err(Conflict); }
      if id < |stock| && stock[id].status in from {
        stock := stock[id := stock[id].(status := to)];
        return Ok(());
      }
      return if id >= |stock| then Err(NotFound) else Err(Conflict);
    }

    method SplitStockRow(id: RowId, qty: real, remainderStatus: Status) returns (r: Result<Option<RowId>>)
      modifies `stock
      ensures match SplitRow(old(stock), id, qty, remainderStatus)
        case Ok(split) => r == Ok(split.remainder) && stock == split.stock
        case Err(e) => r == Err(e) && stock == old(stock)
    {
      if id >= |stock| { return Err(NotFound); }
      var row := stock[id];
      if qty <= 0.0 || row.quantity <= qty || row.HasSerial() { return Ok(None); }
      stock := stock[id := row.(quantity := qty)];
      var remainder := |stock|;
      stock := stock + [row.(quantity := row.quantity - qty, status := remainderStatus, serial := None)];
      return Ok(Some(remainder));
    }

    method ReleaseReservation(items: seq<RowId>)
      modifies `stock
      ensures stock == ReleaseRows(old(stock), items)
    {
      assert items[..0] == [];
      for i := 0 to |items|
        invariant stock == ReleaseRows(old(stock), items[..i])
      {
        assert items[..i + 1][..i] == items[..i];
        var id := items[i];
        if id < |stock| && stock[id].status in RELEASABLE {
          stock := stock[id := stock[id].(status := Available)];
        }
      }
      assert items[..|items|] == items;
    }

    lemma IssueFails(db: Db, items: seq<IssueItem>, i: nat)
      requires i <= |items| && Issue(db, items[..i]).Err?
      ensures Issue(db, items) == Issue(db, items[..i])
      decreases |items| - i
    {
      if i < |items| {
        assert items[..i + 1][..i] == items[..i];
        IssueFails(db, items, i + 1);
      } else {
        assert items[..i] == items;
      }
    }

    method IssueStockForShipment(items: seq<IssueItem>) returns (r: Result<()>)
      modifies this
      ensures Ended(old(Tables()), Issue(old(Tables()), items), r)
    {
      var start := Tables();
      assert items[..0] == [];
      for i := 0 to |items|
        invariant Issue(start, items[..i]) == Ok(Tables())
      {
        assert items[..i + 1][..i] == items[..i];
        var item := items[i];
        if item.id >= |stock| { continue; }
        var split := SplitStockRow(item.id, item.qty, Available);
        var moved := TransitionStock(item.id, {Picked, Reserved}, Shipped);
        if moved.Err? {
          IssueFails(start, items, i + 1);
          Rollback(start);
          return moved;
        }
      }
      assert items[..|items|] == items;
      return Ok(());
    }

    /** Reserves a row an allocation chose, cut to the units it takes. */
    method AllocateRow(product: ProductId, warehouse: Option<WarehouseId>, id: RowId, take: real)
      returns (r: Result<()>)
      modifies this
      ensures Ended(old(Tables()), Movements.AllocateRow(old(Tables()), product, warehouse, id, take), r)
    {
      if !Allocatable(Tables(), product, warehouse, id) { return Err(Conflict); }
      var split := SplitStockRow(id, take, Available);
      r := TransitionStock(id, {Available}, Reserved);
    }

    method UpdateStatus(id: RowId, found: Status, to: Status) returns (r: Result<()>)
      modifies `stock
      ensures Ended(old(Tables()), Movements.UpdateStatus(old(Tables()), id, found, to), r)
    {
      if to !in MANUAL || found !in MANUAL { return Err(BadRequest); }
      r := TransitionStock(id, {found}, to);
    }

    method UpdateLocation(id: RowId, warehouse: Option<Option<WarehouseId>>) returns (r: Result<()>)
      modifies `stock
      ensures Ended(old(Tables()), Movements.UpdateLocation(old(Tables()), id, warehouse), r)
    {
      if CountLocked(sessions, id) { return Err(Conflict); }
      if id >= |stock| { return Err(NotFound); }
      if stock[id].status in NOT_RELOCATABLE { return Err(Conflict); }
      if warehouse.Some? { stock := stock[id := stock[id].(warehouse := warehouse.value)]; }
      return Ok(());
    }

    method RequestAdjustment(row: Option<RowId>, before: real, after: real, user: User) returns (r: Result<()>)
      modifies `adjustments
      ensures Ended(old(Tables()), Movements.RequestAdjustment(old(Tables()), row, before, after, user), r)
    {
      adjustments := adjustments + [Adjustment(row, before, after, PendingApproval, Some(user), None)];
      return Ok(());
    }

    method ApproveAdjustment(id: nat, adj: Adjustment, user: User) returns (r: Result<()>)
      modifies this
      ensures Ended(old(Tables()), Movements.ApproveAdjustment(old(Tables()), id, adj, user), r)
    {
      if adj.status != PendingApproval { return Err(BadRequest); }
      if !NotSelfApproval(user, [adj.requester]) { return Err(Forbidden); }
      var start := Tables();
      if id >= |adjustments| || adjustments[id].status != PendingApproval { return Err(Conflict); }
      adjustments := adjustments[id := adjustments[id].(status := Completed, approver := Some(user))];
      if adj.row.Some? {
        var row := adj.row.value;
        if CountLocked(sessions, row) { Rollback(start); return Err(Conflict); }
        if row >= |stock| { Rollback(start); return Err(NotFound); }
        if stock[row].quantity != adj.before || stock[row].status !in ON_HAND_UNCOMMITTED {
          Rollback(start);
          return Err(Conflict);
        }
        stock := stock[row := stock[row].(quantity := adj.after)];
      }
      return Ok(());
    }

    method RejectAdjustment(id: nat, adj: Adjustment, user: User) returns (r: Result<()>)
      modifies `adjustments
      ensures Ended(old(Tables()), Movements.RejectAdjustment(old(Tables()), id, adj, user), r)
    {
      if adj.status != PendingApproval { return Err(BadRequest); }
      if id >= |adjustments| || adjustments[id].status != PendingApproval { return Err(Conflict); }
      adjustments := adjustments[id := adjustments[id].(status := Rejected, approver := Some(user))];
      return Ok(());
    }

    // ----- cycle counts -----

    method OpenSession(warehouse: WarehouseId) returns (r: Result<()>)
      modifies `sessions
      ensures Ended(old(Tables()), CreateSession(old(Tables()), warehouse), r)
    {
      if HasActive(sessions, warehouse) { return Err(Conflict); }
      var lines: seq<Line> := [];
      assert stock[..0] == [];
      for i := 0 to |stock|
        invariant lines == NewLines(stock[..i], warehouse)
      {
        assert stock[..i + 1][..i] == stock[..i];
        if stock[i].warehouse == Some(warehouse) && stock[i].status == Available {
          lines := lines + [Line(Some(i), stock[i].quantity, None, None, None, None, false)];
        }
      }
      assert stock[..|stock|] == stock;
      sessions := sessions + [Session(warehouse, Open, lines)];
      return Ok(());
    }

    method Count(s: nat, seen: Session, read: Session, k: nat, qty: real, user: User) returns (r: Result<()>)
      modifies `sessions
      ensures Ended(old(Tables()), CountLine(old(Tables()), s, seen, read, k, qty, user), r)
    {
      if s >= |sessions| { return Err(NotFound); }
      if seen.status !in {Open, InProgress} || qty < 0.0 { return Err(BadRequest); }
      if k >= |read.lines| || k >= |sessions[s].lines| { return Err(NotFound); }
      if read.lines[k].excluded { return Err(BadRequest); }
      var variance := qty - read.lines[k].expected;
      var line := sessions[s].lines[k].(counted := Some(qty), variance := Some(variance),
                                        countedBy := Some(user), conflict := None);
      sessions := sessions[s := sessions[s].(lines := sessions[s].lines[k := line])];
      if seen.status == Open && sessions[s].status == Open {
        sessions := sessions[s := sessions[s].(status := InProgress)];
      }
      return Ok(());
    }

    method SubmitForReview(s: nat, seen: Session) returns (r: Result<()>)
      modifies `sessions
      ensures Ended(old(Tables()), Submit(old(Tables()), s, seen), r)
    {
      if s >= |sessions| { return Err(NotFound); }
      if Uncounted(seen.lines) { return Err(BadRequest); }
      if sessions[s].status !in {Open, InProgress} { return Err(Conflict); }
      sessions := sessions[s := sessions[s].(status := Review)];
      return Ok(());
    }

    method CancelSession(s: nat) returns (r: Result<()>)
      modifies `sessions
      ensures Ended(old(Tables()), Cancel(old(Tables()), s), r)
    {
      if s >= |sessions| { return Err(NotFound); }
      if !sessions[s].Active() { return Err(Conflict); }
      sessions := sessions[s := sessions[s].(status := CancelledCount)];
      return Ok(());
    }

    method Conflicting(warehouse: WarehouseId, lines: seq<Line>) returns (conflicts: seq<Flag>)
      ensures conflicts == FindConflicts(stock, warehouse, lines)
    {
      conflicts := [];
      assert lines[..0] == [];
      for k := 0 to |lines|
        invariant conflicts == FindConflicts(stock, warehouse, lines[..k])
      {
        assert lines[..k + 1][..k] == lines[..k];
        var line := lines[k];
        if line.excluded || line.row.None? { continue; }
        var id := line.row.value;
        if id >= |stock| {
          conflicts := conflicts + [Flag(k, RowVanished)];
        } else if stock[id].status != Available {
          conflicts := conflicts + [Flag(k, LeftAvailable)];
        } else if stock[id].warehouse != Some(warehouse) {
          conflicts := conflicts + [Flag(k, MovedWarehouse)];
        } else if stock[id].quantity != line.expected {
          conflicts := conflicts + [Flag(k, QuantityChanged)];
        }
      }
      assert lines[..|lines|] == lines;
    }

    lemma ApplyFails(start: Applied, lines: seq<Line>, user: User, k: nat)
      requires k <= |lines| && ApplyLines(start, lines[..k], user).Err?
      ensures ApplyLines(start, lines, user) == ApplyLines(start, lines[..k], user)
      decreases |lines| - k
    {
      if k < |lines| {
        assert lines[..k + 1][..k] == lines[..k];
        ApplyFails(start, lines, user, k + 1);
      } else {
        assert lines[..k] == lines;
      }
    }

    /** Writes the variances of the lines one by one; stops at the first guarded write that misses. */
    method ApplyVariances(lines: seq<Line>, user: User) returns (r: Result<()>)
      modifies `stock, `adjustments
      ensures match ApplyLines(Applied(old(stock), old(adjustments)), lines, user)
        case Ok(a) => r == Ok(()) && stock == a.stock && adjustments == a.adjustments
        case Err(e) => r == Err(e)
    {
      var start := Applied(stock, adjustments);
      assert lines[..0] == [];
      for k := 0 to |lines|
        invariant ApplyLines(start, lines[..k], user) == Ok(Applied(stock, adjustments))
      {
        assert lines[..k + 1][..k] == lines[..k];
        var line := lines[k];
        if line.excluded || line.row.None? || line.counted.None? || line.variance == Some(0.0) { continue; }
        var id := line.row.value;
        if id >= |stock| || stock[id].status != Available || stock[id].quantity != line.expected {
          ApplyFails(start, lines, user, k + 1);
          return Err(Conflict);
        }
        stock := stock[id := stock[id].(quantity := line.counted.value)];
        var requester := if line.countedBy.Some? then line.countedBy.value else user;
        adjustments := adjustments
          + [Adjustment(line.row, line.expected, line.counted.value, Completed, Some(requester), Some(user))];
      }
      assert lines[..|lines|] == lines;
      return Ok(());
    }

    method ApproveSession(s: nat, seen: Session, user: User) returns (r: Result<Outcome>)
      modifies this
      ensures r == Approve(old(Tables()), s, seen, user)
      ensures Tables() == if r.Ok? && r.value.Done? then r.value.db else old(Tables())
    {
      if s >= |sessions| { return Err(NotFound); }
      if seen.status != Review { return Err(BadRequest); }
      if !NotSelfApproval(user, Counters(seen.lines)) { return Err(Forbidden); }
      var start := Tables();
      var conflicts := Conflicting(seen.warehouse, seen.lines);
      if conflicts != [] { return Ok(Conflicts(conflicts)); }
      if sessions[s].status != Review { return Err(Conflict); }
      sessions := sessions[s := sessions[s].(status := CountStatus.Approved)];
      var applied := ApplyVariances(seen.lines, user);
      if applied.Err? {
        Rollback(start);
        return Err(applied.error);
      }
      return Ok(Done(Tables()));
    }

    method FlagConflicts(s: nat, flags: seq<Flag>) returns (r: Result<()>)
      modifies `sessions
      ensures Ended(old(Tables()), RecordConflicts(old(Tables()), s, flags), r)
    {
      if s >= |sessions| { return Err(NotFound); }
      var lines := sessions[s].lines;
      assert flags[..0] == [];
      for i := 0 to |flags|
        invariant lines == FlagLines(sessions[s].lines, flags[..i])
      {
        assert flags[..i + 1][..i] == flags[..i];
        if flags[i].line < |lines| {
          lines := lines[flags[i].line := lines[flags[i].line].(conflict := Some(flags[i].reason))];
        }
      }
      assert flags[..|flags|] == flags;
      sessions := sessions[s := sessions[s].(lines := lines)];
      return Ok(());
    }

    method RecountConflicts(s: nat, seen: Session) returns (r: Result<()>)
      modifies `sessions
      ensures Ended(old(Tables()), Recount(old(Tables()), s, seen), r)
    {
      if s >= |sessions| { return Err(NotFound); }
      if seen.status !in {Review, InProgress} { return Err(BadRequest); }
      var before := sessions[s].lines;
      var lines := before;
      var found := false;
      for k := 0 to |before|
        invariant |lines| == |before|
        invariant found <==> exists i :: 0 <= i < k && Flagged(before[i])
        invariant forall i :: 0 <= i < k ==> lines[i] == RecountLine(stock, seen.warehouse, before[i])
        invariant forall i :: k <= i < |before| ==> lines[i] == before[i]
      {
        var line := before[k];
        if line.excluded || line.conflict.None? { continue; }
        found := true;
        if line.row.Some? && line.row.value < |stock| && stock[line.row.value].status == Available
           && stock[line.row.value].warehouse == Some(seen.warehouse) {
          lines := lines[k := line.(expected := stock[line.row.value].quantity, counted := None,
                                    variance := None, countedBy := None, conflict := None)];
        } else {
          lines := lines[k := line.(excluded := true, conflict := None)];
        }
      }
      if !found { return Err(BadRequest); }
      assert lines == RecountLines(stock, seen.warehouse, before);
      sessions := sessions[s := sessions[s].(lines := lines, status := InProgress)];
      return Ok(());
    }
  }
}

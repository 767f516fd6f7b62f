/** Any sequence of requests carried out on the store in place: the store ends where the run does, so
    what is proved of runs holds of its tables. */
module StoreRuns {
  import opened Stock
  import opened Tables
  import opened Movements
  import opened CycleCount
  import opened LedgerRuns
  import opened CountLock
  import opened LockRuns
  import opened Store

  method PerformMovement(store: WarehouseStore, h: History, m: Movement)
    requires store.Tables() == Now(h)
    modifies store
    ensures store.Tables() == Next(h, Move(m))
  {
    var r: Result<()> := Ok(());
    match m
    case DoCreate(row) => r := store.CreateStockRow(row);
    case DoReserve(id) => r := store.TransitionStock(id, {Available}, Reserved);
    case DoAllocate(product, from, id, take) => r := store.AllocateRow(product, from, id, take);
    case DoRelease(ids) => store.ReleaseReservation(ids);
    case DoPick(id) => r := store.TransitionStock(id, {Reserved, Picking}, Picked);
    case DoIssue(items) => r := store.IssueStockForShipment(items);
    case DoStatus(id, to, seen) =>
      if seen < |h| && id < |h[seen].stock| {
        r := store.UpdateStatus(id, h[seen].stock[id].status, to);
      }
    case DoRelocate(id, target) => r := store.UpdateLocation(id, target);
  }

  method PerformAdjustment(store: WarehouseStore, h: History, c: AdjustmentCall)
    requires store.Tables() == Now(h)
    modifies store
    ensures store.Tables() == Next(h, Adjust(c))
  {
    var r: Result<()> := Ok(());
    match c
    case DoRequest(link, before, after, user) => r := store.RequestAdjustment(link, before, after, user);
    case DoApproveAdjustment(a, user, seen) =>
      var adj := SeenAdjustment(h, seen, a);
      if adj.Ok? { r := store.ApproveAdjustment(a, adj.value, user); }
    case DoRejectAdjustment(a, user, seen) =>
      var adj := SeenAdjustment(h, seen, a);
      if adj.Ok? { r := store.RejectAdjustment(a, adj.value, user); }
  }

  /** Approval in two transactions: its conflicts, if any, are recorded by the second one, DoFlag. */
  method PerformApproval(store: WarehouseStore, h: History, s: nat, user: User, seen: nat)
    requires store.Tables() == Now(h)
    modifies store
    ensures store.Tables() == Next(h, Count(DoApprove(s, user, seen)))
  {
    var x := SeenSession(h, seen, s);
    if x.Ok? {
      var outcome := store.ApproveSession(s, x.value, user);
    }
  }

  method PerformFlag(store: WarehouseStore, h: History, s: nat, user: User, seen: nat, at: nat)
    requires store.Tables() == Now(h)
    modifies store
    ensures store.Tables() == Next(h, Count(DoFlag(s, user, seen, at)))
  {
    var x := SeenSession(h, seen, s);
    if x.Ok? && at < |h| {
      var outcome := Approve(h[at], s, x.value, user);
      if outcome.Ok? && outcome.value.Conflicts? {
        var r := store.FlagConflicts(s, outcome.value.flags);
      }
    }
  }

  method PerformCount(store: WarehouseStore, h: History, c: CountCall)
    requires store.Tables() == Now(h)
    modifies store
    ensures store.Tables() == Next(h, Count(c))
  {
    var r: Result<()> := Ok(());
    match c
    case DoOpen(warehouse) => r := store.OpenSession(warehouse);
    case DoCount(s, k, qty, user, seen, read) =>
      var x, y := SeenSession(h, seen, s), SeenSession(h, read, s);
      if x.Ok? && y.Ok? { r := store.Count(s, x.value, y.value, k, qty, user); }
    case DoSubmit(s, seen) =>
      var x := SeenSession(h, seen, s);
      if x.Ok? { r := store.SubmitForReview(s, x.value); }
    case DoApprove(s, user, seen) => PerformApproval(store, h, s, user, seen);
    case DoFlag(s, user, seen, at) => PerformFlag(store, h, s, user, seen, at);
    case DoRecount(s, seen) =>
      var x := SeenSession(h, seen, s);
      if x.Ok? { r := store.RecountConflicts(s, x.value); }
    case DoCancel(s) => r := store.CancelSession(s);
  }

  /** Carries the requests out one after the other, each with the tables it read, from an empty store. */
  method Perform(ops: seq<Op>) returns (store: WarehouseStore)
    ensures fresh(store) && store.Tables() == Now(Run(ops))
    ensures Balanced(store.Tables()) && MakerNotChecker(store.Tables().adjustments)
    ensures RecountsCurrent(ops) ==> LockInv(store.Tables())
  {
    store := new WarehouseStore();
    var h: History := [EMPTY];
    assert ops[..0] == [];
    for n := 0 to |ops|
      invariant fresh(store) && h == Run(ops[..n]) && store.Tables() == Now(h)
    {
      assert ops[..n + 1][..n] == ops[..n];
      match ops[n] {
        case Move(m) => PerformMovement(store, h, m);
        case Adjust(a) => PerformAdjustment(store, h, a);
        case Count(c) => PerformCount(store, h, c);
      }
      h := h + [store.Tables()];
    }
    assert ops[..|ops|] == ops;
    RunCoherent(ops);
    if RecountsCurrent(ops) { LockHolds(ops); }
  }
}

/** FIFO selection of stock to reserve, and the availability total that has to agree with it. */
module FifoPool {
  import opened Stock
  import opened Tables
  import opened Movements

  /** The units a request can draw on: the summed quantity of the first `n` rows of the pool. */
  function UnitsIn(db: Db, pool: set<RowId>, n: nat): real
    requires n <= |db.stock|
  {
    if n == 0 then 0.0
    else UnitsIn(db, pool, n - 1) + (if n - 1 in pool then db.stock[n - 1].quantity else 0.0)
  }

  function Pool(db: Db, product: ProductId, warehouse: Option<WarehouseId>): set<RowId> {
    set r | 0 <= r < |db.stock| && Allocatable(db, product, warehouse, r)
  }

  /** The per-product aggregate: any warehouse. */
  function AvailableUnits(db: Db, product: ProductId): real {
    UnitsIn(db, Pool(db, product, None), |db.stock|)
  }

  lemma {:induction false} UnitsWithout(db: Db, pool: set<RowId>, r: RowId, n: nat)
    requires n <= |db.stock| && r in pool
    ensures UnitsIn(db, pool - {r}, n) == UnitsIn(db, pool, n) - (if r < n then db.stock[r].quantity else 0.0)
  {
    if n > 0 { UnitsWithout(db, pool, r, n - 1); }
  }

  lemma {:induction false} NoUnits(db: Db, n: nat)
    requires n <= |db.stock|
    ensures UnitsIn(db, {}, n) == 0.0
  {
    if n > 0 { NoUnits(db, n - 1); }
  }

  lemma {:induction false} UnitsPositive(db: Db, pool: set<RowId>, n: nat)
    requires n <= |db.stock| && forall r :: r in pool && r < n ==> db.stock[r].quantity > 0.0
    ensures UnitsIn(db, pool, n) >= 0.0
    ensures UnitsIn(db, pool, n) == 0.0 ==> forall r :: 0 <= r < n ==> r !in pool
  {
    if n > 0 { UnitsPositive(db, pool, n - 1); }
  }

  lemma {:induction false} UnitsSplit(db: Db, pool: set<RowId>, part: set<RowId>, n: nat)
    requires n <= |db.stock| && part <= pool
    ensures UnitsIn(db, pool, n) == UnitsIn(db, part, n) + UnitsIn(db, pool - part, n)
  {
    if n > 0 { UnitsSplit(db, pool, part, n - 1); }
  }

  ghost predicate Oldest(db: Db, r: RowId, among: set<RowId>) {
    && r in among && r < |db.stock|
    && forall q :: q in among && q < |db.stock| ==> db.stock[r].receivedDate <= db.stock[q].receivedDate
  }

  /** The oldest row of the pool that is not excluded and that no other transaction holds locked;
      rows locked elsewhere are skipped, not waited for. */
  method LockAvailableRow(db: Db, product: ProductId, warehouse: Option<WarehouseId>, exclude: set<RowId>,
        heldElsewhere: set<RowId>)
    returns (row: Option<RowId>)
    ensures row.Some? ==> Oldest(db, row.value, Pool(db, product, warehouse) - exclude - heldElsewhere)
    ensures row.None? ==> Pool(db, product, warehouse) - exclude - heldElsewhere == {}
  {
    row := None;
    ghost var open := Pool(db, product, warehouse) - exclude - heldElsewhere;
    for r := 0 to |db.stock|
      invariant row.Some? ==> row.value in open && row.value < r
      invariant row.Some? ==> forall q :: q in open && q < r ==>
        db.stock[row.value].receivedDate <= db.stock[q].receivedDate
      invariant row.None? ==> forall q :: q in open ==> q >= r
    {
      if Allocatable(db, product, warehouse, r) && r !in exclude && r !in heldElsewhere
         && (row.None? || db.stock[r].receivedDate < db.stock[row.value].receivedDate) {
        row := Some(r);
      }
    }
  }

  function Quantities(db: Db, rows: seq<RowId>): real
    requires forall i :: 0 <= i < |rows| ==> rows[i] < |db.stock|
  {
    if rows == [] then 0.0 else Quantities(db, rows[..|rows| - 1]) + db.stock[rows[|rows| - 1]].quantity
  }

  function Rows(taken: seq<RowId>): set<RowId> { set r | r in taken }

  ghost predicate FifoOrder(db: Db, taken: seq<RowId>)
    requires forall i :: 0 <= i < |taken| ==> taken[i] < |db.stock|
  {
    forall i, j :: 0 <= i < j < |taken| ==>
      taken[i] != taken[j] && db.stock[taken[i]].receivedDate <= db.stock[taken[j]].receivedDate
  }

  /** Part of the pool `open` was taken, oldest rows first, and the units add up. */
  ghost predicate Draining(db: Db, open: set<RowId>, taken: seq<RowId>) {
    && Rows(taken) <= open
    && (forall i :: 0 <= i < |taken| ==> taken[i] < |db.stock|)
    && FifoOrder(db, taken)
    && (forall i, q :: 0 <= i < |taken| && q in open - Rows(taken) && q < |db.stock| ==>
          db.stock[taken[i]].receivedDate <= db.stock[q].receivedDate)
    && Quantities(db, taken) + UnitsIn(db, open - Rows(taken), |db.stock|) == UnitsIn(db, open, |db.stock|)
  }

  lemma RowsOneMore(taken: seq<RowId>, r: RowId)
    ensures Rows(taken + [r]) == Rows(taken) + {r}
  {
  }

  lemma TakeOldestOrders(db: Db, open: set<RowId>, taken: seq<RowId>, r: RowId)
    requires Draining(db, open, taken) && Oldest(db, r, open - Rows(taken))
    ensures FifoOrder(db, taken + [r])
  {
    forall i | 0 <= i < |taken|
      ensures taken[i] != r && db.stock[taken[i]].receivedDate <= db.stock[r].receivedDate
    {
      assert taken[i] in Rows(taken);
    }
  }

  lemma TakeOldestLeavesLater(db: Db, open: set<RowId>, taken: seq<RowId>, r: RowId, i: nat, q: RowId)
    requires Draining(db, open, taken) && Oldest(db, r, open - Rows(taken))
    requires i <= |taken| && q in open - Rows(taken) && q < |db.stock|
    ensures db.stock[(taken + [r])[i]].receivedDate <= db.stock[q].receivedDate
  {
    if i < |taken| { assert (taken + [r])[i] == taken[i]; }
  }

  lemma TakeOldestAdds(db: Db, open: set<RowId>, taken: seq<RowId>, r: RowId)
    requires Draining(db, open, taken) && Oldest(db, r, open - Rows(taken))
    ensures Quantities(db, taken + [r]) + UnitsIn(db, open - Rows(taken) - {r}, |db.stock|) ==
      UnitsIn(db, open, |db.stock|)
  {
    UnitsWithout(db, open - Rows(taken), r, |db.stock|);
    assert (taken + [r])[..|taken|] == taken;
  }

  lemma TakeOldest(db: Db, open: set<RowId>, taken: seq<RowId>, r: RowId)
    requires Draining(db, open, taken) && Oldest(db, r, open - Rows(taken))
    ensures Rows(taken + [r]) == Rows(taken) + {r} && Draining(db, open, taken + [r])
  {
    RowsOneMore(taken, r);
    TakeOldestOrders(db, open, taken, r);
    forall i, q | 0 <= i < |taken + [r]| && q in open - Rows(taken + [r]) && q < |db.stock|
      ensures db.stock[(taken + [r])[i]].receivedDate <= db.stock[q].receivedDate
    {
      TakeOldestLeavesLater(db, open, taken, r, i, q);
    }
    assert open - Rows(taken + [r]) == open - Rows(taken) - {r};
    TakeOldestAdds(db, open, taken, r);
  }

  lemma StillOpen(pool: set<RowId>, taken: set<RowId>, held: set<RowId>)
    ensures pool - taken - held == pool - held - taken
  {
  }

  lemma TookAll(db: Db, open: set<RowId>, taken: seq<RowId>)
    requires Draining(db, open, taken) && open - Rows(taken) == {}
    ensures Rows(taken) == open && Quantities(db, taken) == UnitsIn(db, open, |db.stock|)
  {
    NoUnits(db, |db.stock|);
    forall r | r in open ensures r in Rows(taken) {
      assert r !in open - Rows(taken);
    }
  }

  /** Calling the selection until it finds nothing, excluding what was taken, visits each free row
      of the pool once, oldest first, and collects the pool's units. */
  method Drain(db: Db, product: ProductId, warehouse: Option<WarehouseId>, heldElsewhere: set<RowId>)
    returns (taken: seq<RowId>)
    ensures forall i :: 0 <= i < |taken| ==> taken[i] < |db.stock|
    ensures FifoOrder(db, taken)
    ensures Rows(taken) == Pool(db, product, warehouse) - heldElsewhere
    ensures Quantities(db, taken) == UnitsIn(db, Pool(db, product, warehouse) - heldElsewhere, |db.stock|)
  {
    taken := [];
    ghost var open := Pool(db, product, warehouse) - heldElsewhere;
    assert open - Rows(taken) == open;
    while true
      invariant Draining(db, open, taken)
      decreases open - Rows(taken)
    {
      var row := LockAvailableRow(db, product, warehouse, Rows(taken), heldElsewhere);
      StillOpen(Pool(db, product, warehouse), Rows(taken), heldElsewhere);
      if row.None? {
        TookAll(db, open, taken);
        break;
      }
      TakeOldest(db, open, taken, row.value);
      taken := taken + [row.value];
    }
  }

  /** What a drain over every warehouse collects is the aggregate exactly when no other transaction
      holds a row of the pool. */
  lemma DrainMeetsAggregateIff(db: Db, product: ProductId, heldElsewhere: set<RowId>)
    ensures var pool := Pool(db, product, None);
      UnitsIn(db, pool - heldElsewhere, |db.stock|) == AvailableUnits(db, product) <==> pool !! heldElsewhere
  {
    var pool := Pool(db, product, None);
    var held := pool * heldElsewhere;
    UnitsSplit(db, pool, held, |db.stock|);
    assert pool - held == pool - heldElsewhere;
    UnitsPositive(db, held, |db.stock|);
    if held == {} { NoUnits(db, |db.stock|); }
  }
}

/** Stock rows, their statuses, and the two writes every movement is made of:
    the compare-and-set transition and the quantity split. */
module Stock {

  datatype Option<+T> = None | Some(value: T)

  /** The HTTP error a service throws; the message text is not modelled. */
  datatype Error = NotFound | BadRequest | Conflict | Forbidden

  datatype Result<+T> = Ok(value: T) | Err(error: Error) {
    predicate IsFailure() { Err? }
    function PropagateFailure<U>(): Result<U> requires Err? { Err(error) }
    function Extract(): T requires Ok? { value }
  }

  type User = string
  type RowId = nat
  type WarehouseId = nat
  type ProductId = nat

  datatype Status =
    | PendingReceiving | PendingInspection | Available | Reserved | Picking | Picked | Packed
    | ReadyForPickup | Shipped | IssuedToRma | Consumed | ReturnedUnused | Quarantine | Damaged
    | Doa | RtvPending | RtvShipped | Closed | Cancelled

  const MANUAL: set<Status> := {Available, Quarantine, Damaged, Doa}
  const CREATABLE: set<Status> := MANUAL + {PendingInspection}
  const ON_HAND_UNCOMMITTED: set<Status> :=
    {Available, Quarantine, Damaged, Doa, RtvPending, ReturnedUnused}
  const ISSUED: set<Status> := {Shipped, IssuedToRma}
  const FINAL: set<Status> := {Consumed, Closed, Cancelled, RtvShipped}
  const NOT_RELOCATABLE: set<Status> := {Picking, Picked, Packed, ReadyForPickup} + ISSUED + FINAL

  /** A stock row; its id is its index in the table (rows are never deleted).
      `receivedDate` orders the FIFO selection. */
  datatype Row = Row(
    product: ProductId, quantity: real, status: Status, warehouse: Option<WarehouseId>,
    serial: Option<string>, receivedDate: int)
  {
    /** JavaScript truthiness of `row.serialNumber`. */
    predicate HasSerial() { serial.Some? && serial.value != "" }
  }

  /** Total quantity on record, whatever the status. */
  function Total(stock: seq<Row>): real {
    if stock == [] then 0.0 else Total(stock[..|stock| - 1]) + stock[|stock| - 1].quantity
  }

  lemma {:induction false} TotalUpdate(stock: seq<Row>, i: nat, row: Row)
    requires i < |stock|
    ensures Total(stock[i := row]) == Total(stock) - stock[i].quantity + row.quantity
  {
    var n := |stock| - 1;
    if i == n {
      assert stock[i := row][..n] == stock[..n];
    } else {
      TotalUpdate(stock[..n], i, row);
      assert stock[i := row][..n] == stock[..n][i := row];
    }
  }

  lemma TotalAppend(stock: seq<Row>, row: Row)
    ensures Total(stock + [row]) == Total(stock) + row.quantity
  {
    assert (stock + [row])[..|stock|] == stock;
  }

  /** What a split did: the remainder's id, when one was made. */
  datatype Split = Split(stock: seq<Row>, remainder: Option<RowId>)

  function SplitRow(stock: seq<Row>, id: RowId, qty: real, remainderStatus: Status): Result<Split> {
    if id >= |stock| then Err(NotFound)
    else
      var row := stock[id];
      if qty <= 0.0 || row.quantity <= qty || row.HasSerial() then Ok(Split(stock, None))
      else
        var remainder := row.(quantity := row.quantity - qty, status := remainderStatus, serial := None);
        Ok(Split(stock[id := row.(quantity := qty)] + [remainder], Some(|stock|)))
  }

  /** The row is cut: fewer units are asked for than it holds, and it has no serial. */
  predicate Cut(row: Row, qty: real) {
    0.0 < qty < row.quantity && (row.serial == None || row.serial == Some(""))
  }

  /** What a row that is cut keeps, and what goes to the new row. */
  function Kept(row: Row, qty: real): real { if Cut(row, qty) then qty else row.quantity }

  function Rest(row: Row, qty: real, status: Status): Row {
    Row(row.product, row.quantity - qty, status, row.warehouse, None, row.receivedDate)
  }

  /** A remainder is made exactly when the row holds more than is asked for and has no serial; it is like
      the row but for its quantity, status and serial. */
  lemma SplitMakesRestIff(stock: seq<Row>, id: RowId, qty: real, status: Status)
    ensures var s := SplitRow(stock, id, qty, status);
      if id >= |stock| then s == Err(NotFound)
      else
        && s.Ok? && (s.value.remainder == if Cut(stock[id], qty) then Some(|stock|) else None)
        && s.value.stock == stock[id := stock[id].(quantity := Kept(stock[id], qty))]
             + if Cut(stock[id], qty) then [Rest(stock[id], qty, status)] else []
  {
    if id < |stock| && !Cut(stock[id], qty) {
      assert stock[id := stock[id].(quantity := stock[id].quantity)] == stock;
    }
  }

  /** A split loses nothing: the row and its remainder add up to what the row held, the row keeps
      everything but its quantity, and rows with a serial are never split. */
  lemma SplitConserves(stock: seq<Row>, id: RowId, qty: real, remainderStatus: Status)
    requires id < |stock|
    ensures var s := SplitRow(stock, id, qty, remainderStatus).value;
      && Total(s.stock) == Total(stock)
      && s.stock[id] == stock[id].(quantity := s.stock[id].quantity)
      && (stock[id].HasSerial() ==> s.stock == stock)
      && (s.remainder.Some? ==>
            && s.remainder.value == |stock|
            && s.stock[id].quantity == qty
            && 0.0 < s.stock[|stock|].quantity == stock[id].quantity - qty
            && !s.stock[|stock|].HasSerial()
            && s.stock[|stock|].product == stock[id].product
            && s.stock[|stock|].status == remainderStatus
            && s.stock[|stock|].warehouse == stock[id].warehouse
            && s.stock[|stock|].receivedDate == stock[id].receivedDate)
      && (s.remainder.Some? <==>
            0.0 < qty < stock[id].quantity && (stock[id].serial == None || stock[id].serial == Some("")))
      && (forall r :: 0 <= r < |stock| && r != id ==> s.stock[r] == stock[r])
  {
    var s := SplitRow(stock, id, qty, remainderStatus).value;
    if s.remainder.Some? {
      var shrunk := stock[id := stock[id].(quantity := qty)];
      TotalUpdate(stock, id, stock[id].(quantity := qty));
      TotalAppend(shrunk, s.stock[|stock|]);
    }
  }
}

/** The cycle-count transactions. Calls that read a session before their transaction take that
    snapshot (`seen`) apart from the tables they write. */
module CycleCount {
  import opened Stock
  import opened Tables

  /** Lines for the rows counted: the AVAILABLE rows of the warehouse, in id order. */
  function NewLines(stock: seq<Row>, warehouse: WarehouseId): seq<Line> {
    if stock == [] then []
    else
      var r := |stock| - 1;
      NewLines(stock[..r], warehouse)
        + (if stock[r].warehouse == Some(warehouse) && stock[r].status == Available
           then [Line(Some(r), stock[r].quantity, None, None, None, None, false)] else [])
  }

  predicate HasActive(sessions: seq<Session>, warehouse: WarehouseId) {
    exists s | 0 <= s < |sessions| :: sessions[s].warehouse == warehouse && sessions[s].Active()
  }

  function CreateSession(db: Db, warehouse: WarehouseId): Result<Db> {
    if HasActive(db.sessions, warehouse) then Err(Conflict)
    else Ok(db.(sessions := db.sessions + [Session(warehouse, Open, NewLines(db.stock, warehouse))]))
  }

  /** Counts line `k`: the status checked is the session's as first read (`seen`), the variance uses the
      line as read after that (`read`). */
  function CountLine(db: Db, s: nat, seen: Session, read: Session, k: nat, qty: real, user: User): Result<Db> {
    if s >= |db.sessions| then Err(NotFound)
    else if seen.status !in {Open, InProgress} then Err(BadRequest)
    else if qty < 0.0 then Err(BadRequest)
    else if k >= |read.lines| || k >= |db.sessions[s].lines| then Err(NotFound)
    else if read.lines[k].excluded then Err(BadRequest)
    else
      var now := db.sessions[s];
      var line := now.lines[k].(counted := Some(qty), variance := Some(qty - read.lines[k].expected),
                                countedBy := Some(user), conflict := None);
      var status := if seen.status == Open && now.status == Open then InProgress else now.status;
      Ok(db.(sessions := db.sessions[s := now.(lines := now.lines[k := line], status := status)]))
  }

  predicate Uncounted(lines: seq<Line>) {
    exists k | 0 <= k < |lines| :: !lines[k].excluded && lines[k].counted == None
  }

  function Submit(db: Db, s: nat, seen: Session): Result<Db> {
    if s >= |db.sessions| then Err(NotFound)
    else if Uncounted(seen.lines) then Err(BadRequest)
    else if db.sessions[s].status !in {Open, InProgress} then Err(Conflict)
    else Ok(db.(sessions := db.sessions[s := db.sessions[s].(status := Review)]))
  }

  /** Why an expected line no longer matches the stock, if it does not. */
  function LineConflict(stock: seq<Row>, warehouse: WarehouseId, line: Line): Option<Reason> {
    if !line.Live() then None
    else
      var r := line.row.value;
      if r >= |stock| then Some(RowVanished)
      else if stock[r].status != Available then Some(LeftAvailable)
      else if stock[r].warehouse != Some(warehouse) then Some(MovedWarehouse)
      else if stock[r].quantity != line.expected then Some(QuantityChanged)
      else None
  }

  datatype Flag = Flag(line: nat, reason: Reason)

  function FindConflicts(stock: seq<Row>, warehouse: WarehouseId, lines: seq<Line>): seq<Flag> {
    if lines == [] then []
    else
      var k := |lines| - 1;
      var c := LineConflict(stock, warehouse, lines[k]);
      FindConflicts(stock, warehouse, lines[..k]) + (if c == None then [] else [Flag(k, c.value)])
  }

  /** The lines whose variance approval writes to the stock. */
  predicate Applies(line: Line) {
    line.Live() && line.counted.Some? && line.variance != Some(0.0)
  }

  datatype Applied = Applied(stock: seq<Row>, adjustments: seq<Adjustment>)

  function Record(line: Line, user: User): Adjustment
    requires Applies(line)
  {
    Adjustment(line.row, line.expected, line.counted.value, Completed,
               Some(if line.countedBy.Some? then line.countedBy.value else user), Some(user))
  }

  /** The approval loop over the lines read before the transaction, each write guarded. */
  function ApplyLines(start: Applied, lines: seq<Line>, user: User): Result<Applied> {
    if lines == [] then Ok(start)
    else
      var line := lines[|lines| - 1];
      var a :- ApplyLines(start, lines[..|lines| - 1], user);
      if !Applies(line) then Ok(a)
      else
        var r := line.row.value;
        if r >= |a.stock| || a.stock[r].status != Available || a.stock[r].quantity != line.expected then Err(Conflict)
        else Ok(Applied(a.stock[r := a.stock[r].(quantity := line.counted.value)],
          a.adjustments + [Record(line, user)]))
  }

  datatype Outcome = Conflicts(flags: seq<Flag>) | Done(db: Db)

  function Approve(db: Db, s: nat, seen: Session, user: User): Result<Outcome> {
    if s >= |db.sessions| then Err(NotFound)
    else if seen.status != Review then Err(BadRequest)
    else if !NotSelfApproval(user, Counters(seen.lines)) then Err(Forbidden)
    else
      var flags := FindConflicts(db.stock, seen.warehouse, seen.lines);
      if flags != [] then Ok(Conflicts(flags))
      else if db.sessions[s].status != Review then Err(Conflict)
      else
        var a :- ApplyLines(Applied(db.stock, db.adjustments), seen.lines, user);
        Ok(Done(db.(stock := a.stock, adjustments := a.adjustments,
                    sessions := db.sessions[s := db.sessions[s].(status := Approved)])))
  }

  /** The second transaction of a refused approval: record why on the lines. */
  function FlagLines(lines: seq<Line>, flags: seq<Flag>): (r: seq<Line>)
    ensures |r| == |lines|
  {
    if flags == [] then lines
    else
      var f := flags[|flags| - 1];
      var rest := FlagLines(lines, flags[..|flags| - 1]);
      if f.line < |rest| then rest[f.line := rest[f.line].(conflict := Some(f.reason))] else rest
  }

  function RecordConflicts(db: Db, s: nat, flags: seq<Flag>): Result<Db> {
    if s >= |db.sessions| then Err(NotFound)
    else Ok(db.(sessions := db.sessions[s := db.sessions[s].(lines := FlagLines(db.sessions[s].lines, flags))]))
  }

  predicate Flagged(line: Line) { !line.excluded && line.conflict.Some? }

  /** Recount of one flagged line: refresh it from the stock, or drop it from the count. */
  function RecountLine(stock: seq<Row>, warehouse: WarehouseId, line: Line): Line {
    if !Flagged(line) then line
    else if line.row.Some? && line.row.value < |stock|
         && stock[line.row.value].status == Available && stock[line.row.value].warehouse == Some(warehouse)
    then line.(expected := stock[line.row.value].quantity, counted := None, variance := None,
               countedBy := None, conflict := None)
    else line.(excluded := true, conflict := None)
  }

  function RecountLines(stock: seq<Row>, warehouse: WarehouseId, lines: seq<Line>): (r: seq<Line>)
    ensures |r| == |lines|
    ensures forall k :: 0 <= k < |lines| ==> r[k] == RecountLine(stock, warehouse, lines[k])
  {
    seq(|lines|, k requires 0 <= k < |lines| => RecountLine(stock, warehouse, lines[k]))
  }

  /** Recount: the status was checked on the snapshot and is written unconditionally. */
  function Recount(db: Db, s: nat, seen: Session): Result<Db> {
    if s >= |db.sessions| then Err(NotFound)
    else if seen.status !in {Review, InProgress} then Err(BadRequest)
    else
      var now := db.sessions[s];
      if !exists k | 0 <= k < |now.lines| :: Flagged(now.lines[k]) then Err(BadRequest)
      else Ok(db.(sessions := db.sessions[s :=
             now.(status := InProgress, lines := RecountLines(db.stock, seen.warehouse, now.lines))]))
  }

  function Cancel(db: Db, s: nat): Result<Db> {
    if s >= |db.sessions| then Err(NotFound)
    else if !db.sessions[s].Active() then Err(Conflict)
    else Ok(db.(sessions := db.sessions[s := db.sessions[s].(status := CancelledCount)]))
  }
}

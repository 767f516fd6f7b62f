/** Runs of the ledger: any sequence of requests, where every call that reads before its
    transaction may act on any earlier state of the run. */
module LedgerRuns {
  import opened Stock
  import opened Tables
  import opened Movements
  import opened CycleCount

  type History = h: seq<Db> | h != [] witness [EMPTY]

  function Now(h: History): Db { h[|h| - 1] }

  // In every call, `seen` is the index of the state it read before its transaction started; counting
  // reads twice, the session at `seen` and the line at `read`.

  datatype Movement =
    | DoCreate(row: Row)
    | DoReserve(id: RowId)
    | DoAllocate(product: ProductId, from: Option<WarehouseId>, id: RowId, take: real)
    | DoRelease(ids: seq<RowId>)
    | DoPick(id: RowId)
    | DoIssue(items: seq<IssueItem>)
    | DoStatus(id: RowId, to: Status, seen: nat)
    | DoRelocate(id: RowId, target: Option<Option<WarehouseId>>)

  datatype AdjustmentCall =
    | DoRequest(link: Option<RowId>, before: real, after: real, user: User)
    | DoApproveAdjustment(adj: nat, user: User, seen: nat)
    | DoRejectAdjustment(adj: nat, user: User, seen: nat)

  /** DoFlag is the second transaction of the approval that met conflicts in state `at`. */
  datatype CountCall =
    | DoOpen(warehouse: WarehouseId)
    | DoCount(s: nat, k: nat, qty: real, user: User, seen: nat, read: nat)
    | DoSubmit(s: nat, seen: nat)
    | DoApprove(s: nat, user: User, seen: nat)
    | DoFlag(s: nat, user: User, seen: nat, at: nat)
    | DoRecount(s: nat, seen: nat)
    | DoCancel(s: nat)

  datatype Op = Move(m: Movement) | Adjust(a: AdjustmentCall) | Count(c: CountCall)

  function SeenSession(h: History, seen: nat, s: nat): Result<Session> {
    if seen < |h| && s < |h[seen].sessions| then Ok(h[seen].sessions[s]) else Err(NotFound)
  }

  function SeenAdjustment(h: History, seen: nat, a: nat): Result<Adjustment> {
    if seen < |h| && a < |h[seen].adjustments| then Ok(h[seen].adjustments[a]) else Err(NotFound)
  }

  function StepMovement(h: History, m: Movement): Result<Db> {
    var db := Now(h);
    match m
    case DoCreate(row) => CreateStock(db, row)
    case DoReserve(id) => Reserve(db, id)
    case DoAllocate(product, from, id, take) => AllocateRow(db, product, from, id, take)
    case DoRelease(ids) => Release(db, ids)
    case DoPick(id) => Pick(db, id)
    case DoIssue(items) => Issue(db, items)
    case DoStatus(id, to, seen) =>
      if seen < |h| && id < |h[seen].stock| then UpdateStatus(db, id, h[seen].stock[id].status, to) else Err(NotFound)
    case DoRelocate(id, target) => UpdateLocation(db, id, target)
  }

  function StepAdjustment(h: History, c: AdjustmentCall): Result<Db> {
    var db := Now(h);
    match c
    case DoRequest(link, before, after, user) => RequestAdjustment(db, link, before, after, user)
    case DoApproveAdjustment(a, user, seen) =>
      var adj :- SeenAdjustment(h, seen, a);
      ApproveAdjustment(db, a, adj, user)
    case DoRejectAdjustment(a, user, seen) =>
      var adj :- SeenAdjustment(h, seen, a);
      RejectAdjustment(db, a, adj, user)
  }

  function StepCount(h: History, c: CountCall): Result<Db> {
    var db := Now(h);
    match c
    case DoOpen(warehouse) => CreateSession(db, warehouse)
    case DoCount(s, k, qty, user, seen, read) =>
      var x :- SeenSession(h, seen, s);
      var y :- SeenSession(h, read, s);
      CountLine(db, s, x, y, k, qty, user)
    case DoSubmit(s, seen) =>
      var x :- SeenSession(h, seen, s);
      Submit(db, s, x)
    case DoApprove(s, user, seen) =>
      var x :- SeenSession(h, seen, s);
      var o :- Approve(db, s, x, user);
      Ok(if o.Done? then o.db else db)
    case DoFlag(s, user, seen, at) =>
      var x :- SeenSession(h, seen, s);
      if at >= |h| then Err(NotFound)
      else
        var o :- Approve(h[at], s, x, user);
        if o.Done? then Err(Conflict) else RecordConflicts(db, s, o.flags)
    case DoRecount(s, seen) =>
      var x :- SeenSession(h, seen, s);
      Recount(db, s, x)
    case DoCancel(s) => Cancel(db, s)
  }

  function Step(h: History, op: Op): Result<Db> {
    match op
    case Move(m) => StepMovement(h, m)
    case Adjust(a) => StepAdjustment(h, a)
    case Count(c) => StepCount(h, c)
  }

  /** A rejected request leaves the tables as they were. */
  function Next(h: History, op: Op): Db {
    match Step(h, op) case Ok(db) => db case Err(_) => Now(h)
  }

  function Run(ops: seq<Op>): History {
    if ops == [] then [EMPTY]
    else var h := Run(ops[..|ops| - 1]); h + [Next(h, ops[|ops| - 1])]
  }

  // ----- what every state of a run satisfies -----

  predicate Balanced(db: Db) { Total(db.stock) == db.received + Adjusted(db.adjustments) }

  /** Maker is not checker; an approver without an id was never compared. */
  predicate MakerNotChecker(adjs: seq<Adjustment>) {
    forall a | 0 <= a < |adjs| :: adjs[a].status.Completed? ==>
      adjs[a].approver.Some? && (adjs[a].approver == Some("") || adjs[a].requester != adjs[a].approver)
  }

  /** Every count has its counter. */
  predicate CountersKnown(lines: seq<Line>) {
    forall k | 0 <= k < |lines| :: lines[k].counted.Some? ==> lines[k].countedBy.Some?
  }

  ghost predicate Sound(db: Db) {
    && Balanced(db) && MakerNotChecker(db.adjustments)
    && forall s :: 0 <= s < |db.sessions| ==> CountersKnown(db.sessions[s].lines) && DistinctRows(db.sessions[s].lines)
  }

  /** What an adjustment says never changes, only its decision. */
  predicate SameRequest(a: Adjustment, b: Adjustment) {
    a.row == b.row && a.before == b.before && a.after == b.after && a.requester == b.requester
  }

  predicate SameLines(a: Session, b: Session) {
    && a.warehouse == b.warehouse && |a.lines| == |b.lines|
    && forall k | 0 <= k < |a.lines| :: a.lines[k].row == b.lines[k].row
  }

  /** How a later state relates to an earlier one, whatever happened in between. */
  ghost predicate Evolves(a: Db, b: Db) {
    && |a.stock| <= |b.stock|
    && |a.adjustments| <= |b.adjustments|
    && (forall i :: 0 <= i < |a.adjustments| ==> SameRequest(a.adjustments[i], b.adjustments[i]))
    && |a.sessions| <= |b.sessions|
    && (forall s :: 0 <= s < |a.sessions| ==> SameLines(a.sessions[s], b.sessions[s]))
  }

  ghost predicate Coherent(h: History) {
    && (forall i :: 0 <= i < |h| ==> Sound(h[i]))
    && (forall i :: 0 <= i < |h| ==> Evolves(h[i], Now(h)))
  }

  // ----- one step -----

  /** A movement changes stock rows only, never their total. */
  ghost predicate Moves(a: Db, b: Db) {
    b == a.(stock := b.stock) && |a.stock| <= |b.stock| && Total(b.stock) == Total(a.stock)
  }

  lemma TransitionMoves(db: Db, id: RowId, from: set<Status>, to: Status)
    requires Transition(db, id, from, to).Ok?
    ensures Moves(db, Transition(db, id, from, to).value)
  {
    TotalUpdate(db.stock, id, db.stock[id].(status := to));
  }

  lemma AllocateMoves(db: Db, product: ProductId, from: Option<WarehouseId>, id: RowId, take: real)
    requires AllocateRow(db, product, from, id, take).Ok?
    ensures Moves(db, AllocateRow(db, product, from, id, take).value)
  {
    SplitConserves(db.stock, id, take, Available);
    var split := SplitRow(db.stock, id, take, Available).value;
    TransitionMoves(db.(stock := split.stock), id, {Available}, Reserved);
  }

  lemma {:induction false} ReleaseMoves(stock: seq<Row>, ids: seq<RowId>)
    ensures |ReleaseRows(stock, ids)| == |stock| && Total(ReleaseRows(stock, ids)) == Total(stock)
  {
    if ids != [] {
      var rest := ReleaseRows(stock, ids[..|ids| - 1]);
      var id := ids[|ids| - 1];
      ReleaseMoves(stock, ids[..|ids| - 1]);
      if id < |rest| { TotalUpdate(rest, id, rest[id].(status := Available)); }
    }
  }

  lemma {:induction false} IssueMoves(db: Db, items: seq<IssueItem>)
    requires Issue(db, items).Ok?
    ensures Moves(db, Issue(db, items).value)
  {
    if items != [] {
      IssueMoves(db, items[..|items| - 1]);
      var d := Issue(db, items[..|items| - 1]).value;
      var item := items[|items| - 1];
      if item.id < |d.stock| {
        SplitConserves(d.stock, item.id, item.qty, Available);
        var split := SplitRow(d.stock, item.id, item.qty, Available).value;
        TransitionMoves(d.(stock := split.stock), item.id, {Picked, Reserved}, Shipped);
      }
    }
  }

  lemma MovesKeeps(a: Db, b: Db)
    requires Sound(a) && Moves(a, b)
    ensures Sound(b) && Evolves(a, b)
  {
  }

  /** A session edit that keeps lines in place and counters known is invisible to the ledger. */
  lemma SessionKeeps(db: Db, s: nat, x: Session)
    requires Sound(db) && s < |db.sessions| && SameLines(db.sessions[s], x) && CountersKnown(x.lines)
    ensures Sound(db.(sessions := db.sessions[s := x])) && Evolves(db, db.(sessions := db.sessions[s := x]))
  {
  }

  lemma ApproveAdjustmentKeeps(db: Db, id: nat, adj: Adjustment, user: User)
    requires Sound(db) && ApproveAdjustment(db, id, adj, user).Ok?
    requires id < |db.adjustments| ==> SameRequest(adj, db.adjustments[id])
    ensures var d := ApproveAdjustment(db, id, adj, user).value; Sound(d) && Evolves(db, d)
  {
    var d := ApproveAdjustment(db, id, adj, user).value;
    assert [adj.requester][0] == adj.requester;
    AdjustedUpdate(db.adjustments, id, d.adjustments[id]);
    if adj.row.Some? { TotalUpdate(db.stock, adj.row.value, d.stock[adj.row.value]); }
  }

  lemma RejectAdjustmentKeeps(db: Db, id: nat, adj: Adjustment, user: User)
    requires Sound(db) && RejectAdjustment(db, id, adj, user).Ok?
    ensures var d := RejectAdjustment(db, id, adj, user).value; Sound(d) && Evolves(db, d)
  {
    AdjustedUpdate(db.adjustments, id, RejectAdjustment(db, id, adj, user).value.adjustments[id]);
  }

  /** The approval loop adds to the stock exactly what it records, under the approver's name,
      and never in the name of the approver. */
  lemma {:induction false} ApplyRecords(start: Applied, lines: seq<Line>, user: User)
    requires ApplyLines(start, lines, user).Ok?
    requires CountersKnown(lines) && NotSelfApproval(user, Counters(lines))
    requires MakerNotChecker(start.adjustments)
    ensures var a := ApplyLines(start, lines, user).value;
      && Total(a.stock) - Adjusted(a.adjustments) == Total(start.stock) - Adjusted(start.adjustments)
      && MakerNotChecker(a.adjustments)
      && |a.stock| == |start.stock| && start.adjustments <= a.adjustments
  {
    if lines != [] {
      var front, line := lines[..|lines| - 1], lines[|lines| - 1];
      assert forall k :: 0 <= k < |front| ==> Counters(front)[k] == Counters(lines)[k];
      ApplyRecords(start, front, user);
      var a := ApplyLines(start, front, user).value;
      if Applies(line) {
        var r := line.row.value;
        assert Counters(lines)[|lines| - 1] == line.countedBy;
        TotalUpdate(a.stock, r, a.stock[r].(quantity := line.counted.value));
        AdjustedAppend(a.adjustments, Record(line, user));
      }
    }
  }

  lemma ApproveKeeps(db: Db, s: nat, seen: Session, user: User)
    requires Sound(db) && CountersKnown(seen.lines)
    requires Approve(db, s, seen, user).Ok? && Approve(db, s, seen, user).value.Done?
    ensures var d := Approve(db, s, seen, user).value.db; Sound(d) && Evolves(db, d)
  {
    ApplyRecords(Applied(db.stock, db.adjustments), seen.lines, user);
    var d := Approve(db, s, seen, user).value.db;
    assert d.sessions[s].lines == db.sessions[s].lines;
  }

  lemma {:induction false} FlagsKeepCounts(lines: seq<Line>, flags: seq<Flag>)
    ensures forall k :: 0 <= k < |lines| ==>
      FlagLines(lines, flags)[k] == lines[k].(conflict := FlagLines(lines, flags)[k].conflict)
  {
    if flags != [] { FlagsKeepCounts(lines, flags[..|flags| - 1]); }
  }

  lemma CreateStockKeeps(db: Db, row: Row)
    requires Sound(db) && CreateStock(db, row).Ok?
    ensures var d := CreateStock(db, row).value; Sound(d) && Evolves(db, d)
  {
    TotalAppend(db.stock, row);
    OnlyMoreStock(db, CreateStock(db, row).value);
  }

  lemma OnlyMoreStock(a: Db, b: Db)
    requires |a.stock| <= |b.stock| && b.adjustments == a.adjustments && b.sessions == a.sessions
    ensures Evolves(a, b)
  {
  }

  lemma RequestKeeps(db: Db, a: Adjustment)
    requires Sound(db) && a.status.PendingApproval?
    ensures var d := db.(adjustments := db.adjustments + [a]); Sound(d) && Evolves(db, d)
  {
    AdjustedAppend(db.adjustments, a);
  }

  predicate Counted(row: Row, warehouse: WarehouseId) {
    row.status == Available && row.warehouse == Some(warehouse)
  }

  predicate NewLine(stock: seq<Row>, warehouse: WarehouseId, line: Line) {
    && line.row.Some? && line.row.value < |stock| && Counted(stock[line.row.value], warehouse)
    && line.expected == stock[line.row.value].quantity && !line.excluded && line.counted == None
  }

  lemma {:induction false} NewLinesMatch(stock: seq<Row>, warehouse: WarehouseId)
    ensures forall k :: 0 <= k < |NewLines(stock, warehouse)| ==>
      NewLine(stock, warehouse, NewLines(stock, warehouse)[k])
    ensures DistinctRows(NewLines(stock, warehouse))
  {
    if stock != [] {
      NewLinesMatch(stock[..|stock| - 1], warehouse);
    }
  }

  lemma {:induction false} NewLinesCover(stock: seq<Row>, warehouse: WarehouseId, r: RowId)
    requires r < |stock| && Counted(stock[r], warehouse)
    ensures exists k :: 0 <= k < |NewLines(stock, warehouse)| && NewLines(stock, warehouse)[k].row == Some(r)
  {
    var n := |stock| - 1;
    var front, lines := NewLines(stock[..n], warehouse), NewLines(stock, warehouse);
    if r == n {
      assert lines[|front|].row == Some(r);
    } else {
      NewLinesCover(stock[..n], warehouse, r);
      var k :| 0 <= k < |front| && front[k].row == Some(r);
      assert lines[k].row == Some(r);
    }
  }

  lemma NewLinesAre(stock: seq<Row>, warehouse: WarehouseId)
    ensures var lines := NewLines(stock, warehouse);
      && (forall k :: 0 <= k < |lines| ==> NewLine(stock, warehouse, lines[k]))
      && DistinctRows(lines)
      && (forall r :: 0 <= r < |stock| && Counted(stock[r], warehouse) ==>
            exists k :: 0 <= k < |lines| && lines[k].row == Some(r))
  {
    NewLinesMatch(stock, warehouse);
    forall r | 0 <= r < |stock| && Counted(stock[r], warehouse)
      ensures exists k :: 0 <= k < |NewLines(stock, warehouse)| && NewLines(stock, warehouse)[k].row == Some(r)
    {
      NewLinesCover(stock, warehouse, r);
    }
  }

  lemma MovementKeeps(h: History, m: Movement)
    requires Sound(Now(h)) && StepMovement(h, m).Ok?
    ensures Sound(StepMovement(h, m).value) && Evolves(Now(h), StepMovement(h, m).value)
  {
    var db, d := Now(h), StepMovement(h, m).value;
    match m
    case DoCreate(row) => CreateStockKeeps(db, row);
    case DoReserve(id) => TransitionMoves(db, id, {Available}, Reserved); MovesKeeps(db, d);
    case DoAllocate(product, from, id, take) => AllocateMoves(db, product, from, id, take); MovesKeeps(db, d);
    case DoRelease(ids) => ReleaseMoves(db.stock, ids); MovesKeeps(db, d);
    case DoPick(id) => TransitionMoves(db, id, {Reserved, Picking}, Picked); MovesKeeps(db, d);
    case DoIssue(items) => IssueMoves(db, items); MovesKeeps(db, d);
    case DoStatus(id, to, seen) => TransitionMoves(db, id, {h[seen].stock[id].status}, to); MovesKeeps(db, d);
    case DoRelocate(id, target) =>
      if target.Some? { TotalUpdate(db.stock, id, db.stock[id].(warehouse := target.value)); }
      MovesKeeps(db, d);
  }

  lemma AdjustmentCallKeeps(h: History, c: AdjustmentCall)
    requires Coherent(h) && StepAdjustment(h, c).Ok?
    ensures Sound(StepAdjustment(h, c).value) && Evolves(Now(h), StepAdjustment(h, c).value)
  {
    match c
    case DoRequest(link, before, after, user) =>
      RequestKeeps(Now(h), Adjustment(link, before, after, PendingApproval, Some(user), None));
    case DoApproveAdjustment(a, user, seen) =>
      assert Evolves(h[seen], Now(h));
      ApproveAdjustmentKeeps(Now(h), a, h[seen].adjustments[a], user);
    case DoRejectAdjustment(a, user, seen) => RejectAdjustmentKeeps(Now(h), a, h[seen].adjustments[a], user);
  }

  lemma CreateSessionKeeps(db: Db, warehouse: WarehouseId)
    requires Sound(db) && CreateSession(db, warehouse).Ok?
    ensures var d := CreateSession(db, warehouse).value; Sound(d) && Evolves(db, d)
  {
    NewLinesAre(db.stock, warehouse);
  }

  lemma FlagKeeps(db: Db, s: nat, flags: seq<Flag>)
    requires Sound(db) && s < |db.sessions|
    ensures var d := RecordConflicts(db, s, flags).value; Sound(d) && Evolves(db, d)
  {
    FlagsKeepCounts(db.sessions[s].lines, flags);
    SessionKeeps(db, s, RecordConflicts(db, s, flags).value.sessions[s]);
  }

  lemma RecountKeeps(db: Db, s: nat, seen: Session)
    requires Sound(db) && Recount(db, s, seen).Ok?
    ensures var d := Recount(db, s, seen).value; Sound(d) && Evolves(db, d)
  {
    SessionKeeps(db, s, Recount(db, s, seen).value.sessions[s]);
  }

  lemma CountLineKeeps(db: Db, s: nat, seen: Session, read: Session, k: nat, qty: real, user: User)
    requires Sound(db) && CountLine(db, s, seen, read, k, qty, user).Ok?
    ensures var d := CountLine(db, s, seen, read, k, qty, user).value; Sound(d) && Evolves(db, d)
  {
    SessionKeeps(db, s, CountLine(db, s, seen, read, k, qty, user).value.sessions[s]);
  }

  lemma StatusKeeps(db: Db, s: nat, status: CountStatus)
    requires Sound(db) && s < |db.sessions|
    ensures var d := db.(sessions := db.sessions[s := db.sessions[s].(status := status)]); Sound(d) && Evolves(db, d)
  {
    SessionKeeps(db, s, db.sessions[s].(status := status));
  }

  lemma ApprovalCallKeeps(h: History, c: CountCall)
    requires Coherent(h) && StepCount(h, c).Ok? && c.DoApprove?
    ensures Sound(StepCount(h, c).value) && Evolves(Now(h), StepCount(h, c).value)
  {
    var x := h[c.seen].sessions[c.s];
    assert Sound(h[c.seen]);
    if Approve(Now(h), c.s, x, c.user).value.Done? { ApproveKeeps(Now(h), c.s, x, c.user); }
  }

  lemma CountCallKeeps(h: History, c: CountCall)
    requires Coherent(h) && StepCount(h, c).Ok?
    ensures Sound(StepCount(h, c).value) && Evolves(Now(h), StepCount(h, c).value)
  {
    var db := Now(h);
    match c
    case DoOpen(warehouse) => CreateSessionKeeps(db, warehouse);
    case DoCount(s, k, qty, user, seen, read) =>
      CountLineKeeps(db, s, h[seen].sessions[s], h[read].sessions[s], k, qty, user);
    case DoSubmit(s, _) => StatusKeeps(db, s, Review);
    case DoApprove(_, _, _) => ApprovalCallKeeps(h, c);
    case DoFlag(s, user, seen, at) => FlagKeeps(db, s, Approve(h[at], s, h[seen].sessions[s], user).value.flags);
    case DoRecount(s, seen) => RecountKeeps(db, s, h[seen].sessions[s]);
    case DoCancel(s) => StatusKeeps(db, s, CancelledCount);
  }

  lemma StepKeeps(h: History, op: Op)
    requires Coherent(h) && Step(h, op).Ok?
    ensures Sound(Step(h, op).value) && Evolves(Now(h), Step(h, op).value)
  {
    match op
    case Move(m) => MovementKeeps(h, m);
    case Adjust(a) => AdjustmentCallKeeps(h, a);
    case Count(c) => CountCallKeeps(h, c);
  }

  lemma EvolvesTransitive(a: Db, b: Db, c: Db)
    requires Evolves(a, b) && Evolves(b, c)
    ensures Evolves(a, c)
  {
  }

  lemma NextCoherent(h: History, op: Op)
    requires Coherent(h)
    ensures Coherent(h + [Next(h, op)])
  {
    var d := Next(h, op);
    if Step(h, op).Ok? { StepKeeps(h, op); }
    var h' := h + [d];
    forall i | 0 <= i < |h'| ensures Sound(h'[i]) && Evolves(h'[i], d) {
      if i < |h| { EvolvesTransitive(h[i], Now(h), d); }
    }
  }

  lemma {:induction false} RunCoherent(ops: seq<Op>)
    ensures Coherent(Run(ops))
  {
    if ops != [] {
      RunCoherent(ops[..|ops| - 1]);
      NextCoherent(Run(ops[..|ops| - 1]), ops[|ops| - 1]);
    }
  }

  /** Ledger equation, for every run and however stale the snapshots: the stock on record is what
      was created plus what completed adjustments linked to stock changed. */
  lemma LedgerEquation(ops: seq<Op>)
    ensures var d := Now(Run(ops)); Total(d.stock) == d.received + Adjusted(d.adjustments)
  {
    RunCoherent(ops);
  }

  /** Separation of duties, for every run and however stale the snapshots. */
  lemma AdjustmentsSeparated(ops: seq<Op>, a: nat)
    requires a < |Now(Run(ops)).adjustments| && Now(Run(ops)).adjustments[a].status.Completed?
    ensures var adj := Now(Run(ops)).adjustments[a];
      adj.approver.Some? && (adj.approver.value != "" ==> adj.requester != adj.approver)
  {
    RunCoherent(ops);
    assert MakerNotChecker(Now(Run(ops)).adjustments);
  }
}

/** What each cycle-count request does to its session and exactly when it is accepted, in the statuses
    and lines of the sessions themselves. */
module CountEffects {
  import opened Stock
  import opened Tables
  import opened Movements
  import opened CycleCount
  import opened LedgerRuns
  import opened CountApproval

  predicate Running(x: Session) { x.status == Open || x.status == InProgress || x.status == Review }

  /** The tables with one session replaced. */
  function Edited(db: Db, s: nat, x: Session): Db
    requires s < |db.sessions|
  {
    db.(sessions := db.sessions[s := x])
  }

  /** Every line of the session that is not excluded has a count. */
  predicate FullyCounted(x: Session) {
    forall k | 0 <= k < |x.lines| :: !x.lines[k].excluded ==> x.lines[k].counted.Some?
  }

  ghost predicate OnALine(lines: seq<Line>, r: RowId) {
    exists k :: 0 <= k < |lines| && lines[k].row == Some(r)
  }

  /** A count opens unless one of the warehouse is running. It has one blank line for every AVAILABLE row
      of the warehouse, expecting the row's quantity. */
  lemma OpenIs(h: History, w: WarehouseId)
    ensures var db, r := Now(h), StepCount(h, DoOpen(w));
      && (r.Ok? <==> forall s :: 0 <= s < |db.sessions| && db.sessions[s].warehouse == w ==> !Running(db.sessions[s]))
      && (r.Err? ==> r.error == Conflict)
      && (r.Ok? ==>
            && |r.value.sessions| == |db.sessions| + 1
            && r.value == db.(sessions := db.sessions + [r.value.sessions[|db.sessions|]])
            && var x := r.value.sessions[|db.sessions|];
               && x.warehouse == w && x.status == Open && DistinctRows(x.lines)
               && (forall k :: 0 <= k < |x.lines| ==> NewLine(db.stock, w, x.lines[k]))
               && forall i :: 0 <= i < |db.stock| && Counted(db.stock[i], w) ==> OnALine(x.lines, i))
  {
    NewLinesAre(Now(h).stock, w);
  }

  /** A line is counted while the session was open or in progress as first read, unless it was excluded
      as read. The line gets the count and its counter and loses its conflict; an open session goes into
      progress. */
  lemma CountIs(h: History, s: nat, k: nat, qty: real, user: User, seen: nat, read: nat)
    requires seen < |h| && read < |h| && s < |h[seen].sessions| && s < |h[read].sessions| && s < |Now(h).sessions|
    ensures var db, x, y, r := Now(h), h[seen].sessions[s], h[read].sessions[s],
                               StepCount(h, DoCount(s, k, qty, user, seen, read));
      && (r.Ok? <==>
            && (x.status == Open || x.status == InProgress) && qty >= 0.0
            && k < |y.lines| && k < |db.sessions[s].lines| && !y.lines[k].excluded)
      && (r.Ok? ==>
            var now := db.sessions[s];
            var line := Line(now.lines[k].row, now.lines[k].expected, Some(qty),
                             Some(qty - y.lines[k].expected), Some(user), None, now.lines[k].excluded);
            r.value == Edited(db, s, Session(now.warehouse,
              if x.status == Open && now.status == Open then InProgress else now.status, now.lines[k := line])))
  {
  }

  /** A count is submitted exactly when every line of the session as read that is not excluded has a
      count and the session is open or in progress as written; nothing but its status changes. */
  lemma SubmitIs(h: History, s: nat, seen: nat)
    requires seen < |h| && s < |h[seen].sessions| && s < |Now(h).sessions|
    ensures var db, x, r := Now(h), h[seen].sessions[s], StepCount(h, DoSubmit(s, seen));
      && (r.Ok? <==>
            && (forall k :: 0 <= k < |x.lines| && !x.lines[k].excluded ==> x.lines[k].counted.Some?)
            && (db.sessions[s].status == Open || db.sessions[s].status == InProgress))
      && (r.Ok? ==>
            r.value == Edited(db, s, Session(db.sessions[s].warehouse, Review, db.sessions[s].lines)))
      && (r.Err? ==> r.error == if FullyCounted(x) then Conflict else BadRequest)
  {
  }

  /** The row of the line is as the line expects it. */
  predicate AsExpected(stock: seq<Row>, w: WarehouseId, line: Line) {
    line.excluded || line.row == None ||
    (&& line.row.value < |stock| && stock[line.row.value].status == Available
     && stock[line.row.value].warehouse == Some(w) && stock[line.row.value].quantity == line.expected)
  }

  /** Why a row is not as the line expects it: the first reason that applies. */
  predicate Explains(stock: seq<Row>, w: WarehouseId, line: Line, reason: Reason) {
    line.row.Some? &&
    var r := line.row.value;
    match reason
    case RowVanished => r >= |stock|
    case LeftAvailable => r < |stock| && stock[r].status != Available
    case MovedWarehouse => r < |stock| && stock[r].status == Available && stock[r].warehouse != Some(w)
    case QuantityChanged =>
      && r < |stock| && stock[r].status == Available && stock[r].warehouse == Some(w)
      && stock[r].quantity != line.expected
  }

  /** A line has a conflict exactly when its row is not as expected, and the reason given is the true one. */
  lemma ConflictIs(stock: seq<Row>, w: WarehouseId, line: Line)
    ensures var c := LineConflict(stock, w, line);
      (c == None <==> AsExpected(stock, w, line)) && (c.Some? ==> Explains(stock, w, line, c.value))
  {
  }

  lemma CleanIs(stock: seq<Row>, w: WarehouseId, lines: seq<Line>)
    ensures (forall k :: 0 <= k < |lines| ==> AsExpected(stock, w, lines[k])) <==>
      forall k :: 0 <= k < |lines| ==> LineConflict(stock, w, lines[k]) == None
  {
    forall k | 0 <= k < |lines| ensures AsExpected(stock, w, lines[k]) <==> LineConflict(stock, w, lines[k]) == None {
      ConflictIs(stock, w, lines[k]);
    }
  }

  /** An approval closes the count exactly when it was in review as read and still is, the approver
      counted none of its lines and every row is as expected; it then writes every variance. When rows
      are not as expected it writes nothing, and it is refused for any other reason. */
  lemma ApproveIs(h: History, s: nat, user: User, seen: nat)
    requires seen < |h| && s < |h[seen].sessions| && s < |Now(h).sessions| && DistinctRows(h[seen].sessions[s].lines)
    ensures var db, x, r := Now(h), h[seen].sessions[s], StepCount(h, DoApprove(s, user, seen));
      var own := user != "" && exists k :: 0 <= k < |x.lines| && x.lines[k].countedBy == Some(user);
      var clean := forall k :: 0 <= k < |x.lines| ==> AsExpected(db.stock, x.warehouse, x.lines[k]);
      && (r.Ok? <==> x.status == Review && !own && (clean ==> db.sessions[s].status == Review))
      && (r.Ok? && !clean ==> r.value == db)
      && (r.Ok? && clean ==>
            AppliedInFull(db, r.value, s, x, user) && r.value.sessions[s].status == CountStatus.Approved)
      && (r.Err? ==> r.error == if x.status != Review then BadRequest else if own then Forbidden else Conflict)
  {
    var db, x := Now(h), h[seen].sessions[s];
    CleanIs(db.stock, x.warehouse, x.lines);
    SelfApprovalIs(user, x.lines);
    if x.status == Review && NotSelfApproval(user, Counters(x.lines)) { ApprovalIsAllOrNothing(db, s, x, user); }
  }

  lemma SelfApprovalIs(user: User, lines: seq<Line>)
    ensures NotSelfApproval(user, Counters(lines)) <==>
      !(user != "" && exists k :: 0 <= k < |lines| && lines[k].countedBy == Some(user))
  {
    if k :| 0 <= k < |lines| && lines[k].countedBy == Some(user) {
      assert Counters(lines)[k] == Some(user);
    }
  }

  /** A line gets the reason of its flag, if it has one. */
  lemma {:induction false} FlagsWritten(lines: seq<Line>, flags: seq<Flag>, k: nat)
    requires k < |lines| && forall i, j :: 0 <= i < j < |flags| ==> flags[i].line < flags[j].line
    ensures forall i :: 0 <= i < |flags| && flags[i].line == k ==>
      FlagLines(lines, flags)[k].conflict == Some(flags[i].reason)
    ensures (forall i :: 0 <= i < |flags| ==> flags[i].line != k) ==> FlagLines(lines, flags)[k] == lines[k]
  {
    if flags != [] {
      var front := flags[..|flags| - 1];
      FlagsWritten(lines, front, k);
      assert forall i :: 0 <= i < |front| ==> front[i] == flags[i];
    }
  }

  /** Line `b` is line `a` with the reason written on it, if there is one. */
  predicate Told(stock: seq<Row>, w: WarehouseId, seen: Line, a: Line, b: Line) {
    && b == a.(conflict := b.conflict)
    && if AsExpected(stock, w, seen) then b == a
       else b.conflict.Some? && Explains(stock, w, seen, b.conflict.value)
  }

  lemma FlaggedLine(stock: seq<Row>, w: WarehouseId, seen: seq<Line>, lines: seq<Line>, k: nat)
    requires k < |seen| == |lines|
    ensures Told(stock, w, seen[k], lines[k], FlagLines(lines, FindConflicts(stock, w, seen))[k])
  {
    var flags := FindConflicts(stock, w, seen);
    ConflictsAreExact(stock, w, seen);
    FlagsKeepCounts(lines, flags);
    FlagsWritten(lines, flags, k);
    ConflictIs(stock, w, seen[k]);
    if LineConflict(stock, w, seen[k]) != None {
      var i :| 0 <= i < |flags| && flags[i].line == k;
    } else {
      assert forall i :: 0 <= i < |flags| ==> flags[i].line != k;
    }
  }

  /** What the second transaction writes, from the conflicts the first one found. */
  lemma FlagWrites(h: History, s: nat, user: User, seen: nat, at: nat)
    requires StepCount(h, DoFlag(s, user, seen, at)).Ok?
    ensures var x, now := h[seen].sessions[s], Now(h).sessions[s];
      var flags := FindConflicts(h[at].stock, x.warehouse, x.lines);
      && flags != []
      && StepCount(h, DoFlag(s, user, seen, at)).value == Edited(Now(h), s, now.(lines := FlagLines(now.lines, flags)))
  {
  }

  lemma SomeConflict(stock: seq<Row>, w: WarehouseId, lines: seq<Line>)
    requires FindConflicts(stock, w, lines) != []
    ensures exists k :: 0 <= k < |lines| && !AsExpected(stock, w, lines[k])
  {
    var flags := FindConflicts(stock, w, lines);
    ConflictsAreExact(stock, w, lines);
    ConflictIs(stock, w, lines[flags[0].line]);
  }

  /** The second transaction of an approval that met conflicts writes the reason on every line whose row
      was not as expected, and nothing else. */
  lemma FlagIs(h: History, s: nat, user: User, seen: nat, at: nat)
    requires StepCount(h, DoFlag(s, user, seen, at)).Ok?
    requires |h[seen].sessions[s].lines| == |Now(h).sessions[s].lines|
    ensures var db, x, d := Now(h), h[seen].sessions[s], StepCount(h, DoFlag(s, user, seen, at)).value;
      var now, y := db.sessions[s], d.sessions[s];
      && d == Edited(db, s, y) && y == now.(lines := y.lines) && |y.lines| == |now.lines|
      && (exists k :: 0 <= k < |x.lines| && !AsExpected(h[at].stock, x.warehouse, x.lines[k]))
      && forall k :: 0 <= k < |x.lines| ==>
           Told(h[at].stock, x.warehouse, x.lines[k], now.lines[k], y.lines[k])
  {
    var x, now := h[seen].sessions[s], Now(h).sessions[s];
    FlagWrites(h, s, user, seen, at);
    SomeConflict(h[at].stock, x.warehouse, x.lines);
    forall k | 0 <= k < |x.lines|
      ensures Told(h[at].stock, x.warehouse, x.lines[k], now.lines[k],
        FlagLines(now.lines, FindConflicts(h[at].stock, x.warehouse, x.lines))[k])
    {
      FlaggedLine(h[at].stock, x.warehouse, x.lines, now.lines, k);
    }
  }

  /** A recount is accepted when the count was in progress or in review as read and a line is flagged as
      written. A flagged line whose row is still AVAILABLE in the warehouse starts over at the row's
      quantity, any other flagged line leaves the count; the count is in progress again. */
  lemma RecountIs(h: History, s: nat, seen: nat)
    requires seen < |h| && s < |h[seen].sessions| && s < |Now(h).sessions|
    requires h[seen].sessions[s].warehouse == Now(h).sessions[s].warehouse
    ensures var db, x, r := Now(h), h[seen].sessions[s], StepCount(h, DoRecount(s, seen));
      var now := db.sessions[s];
      && (r.Ok? <==>
            && (x.status == InProgress || x.status == Review)
            && exists k :: 0 <= k < |now.lines| && !now.lines[k].excluded && now.lines[k].conflict.Some?)
      && (r.Err? ==> r.error == BadRequest)
      && (r.Ok? ==>
            var y := r.value.sessions[s];
            && r.value == Edited(db, s, y) && y.warehouse == now.warehouse && y.status == InProgress
            && |y.lines| == |now.lines|
            && forall k :: 0 <= k < |y.lines| ==> StartedOver(db.stock, now.warehouse, now.lines[k], y.lines[k]))
  {
  }

  /** Line `b` is line `a` after a recount. */
  predicate StartedOver(stock: seq<Row>, w: WarehouseId, a: Line, b: Line) {
    if a.excluded || a.conflict == None then b == a
    else if a.row.Some? && a.row.value < |stock| && stock[a.row.value].status == Available
      && stock[a.row.value].warehouse == Some(w)
    then b == Line(a.row, stock[a.row.value].quantity, None, None, None, None, false)
    else b == Line(a.row, a.expected, a.counted, a.variance, a.countedBy, None, true)
  }

  /** A running count can be cancelled, and no other. */
  lemma CancelIs(h: History, s: nat)
    ensures var db, r := Now(h), StepCount(h, DoCancel(s));
      && (r.Ok? <==> s < |db.sessions| && Running(db.sessions[s]))
      && (r.Ok? ==> r.value == Edited(db, s, db.sessions[s].(status := CancelledCount)))
      && (r.Err? ==> r.error == if s >= |db.sessions| then NotFound else Conflict)
  {
  }
}

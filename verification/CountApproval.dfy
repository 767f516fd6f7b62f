/** Count approval when anything may have happened to the stock: all or nothing, and the way back
    from a conflict. */
module CountApproval {
  import opened Stock
  import opened Tables
  import opened CycleCount
  import opened LedgerRuns
  import opened CountLock

  /** The flags name lines in conflict, in line order, each with its reason. */
  ghost predicate FlagsHold(stock: seq<Row>, warehouse: WarehouseId, lines: seq<Line>, flags: seq<Flag>) {
    && (forall i :: 0 <= i < |flags| ==>
          flags[i].line < |lines| && LineConflict(stock, warehouse, lines[flags[i].line]) == Some(flags[i].reason))
    && (forall i, j :: 0 <= i < j < |flags| ==> flags[i].line < flags[j].line)
  }

  /** And they name every line in conflict. */
  ghost predicate ExactFlags(stock: seq<Row>, warehouse: WarehouseId, lines: seq<Line>, flags: seq<Flag>) {
    && FlagsHold(stock, warehouse, lines, flags)
    && forall k :: 0 <= k < |lines| && LineConflict(stock, warehouse, lines[k]) != None ==>
         exists i :: 0 <= i < |flags| && flags[i].line == k
  }

  lemma {:induction false} FlagsAreConflicts(stock: seq<Row>, warehouse: WarehouseId, lines: seq<Line>)
    ensures FlagsHold(stock, warehouse, lines, FindConflicts(stock, warehouse, lines))
  {
    if lines != [] {
      var n := |lines| - 1;
      FlagsAreConflicts(stock, warehouse, lines[..n]);
      OneFlagMore(stock, warehouse, lines, FindConflicts(stock, warehouse, lines[..n]));
    }
  }

  lemma OneFlagMore(stock: seq<Row>, warehouse: WarehouseId, lines: seq<Line>, front: seq<Flag>)
    requires lines != [] && FlagsHold(stock, warehouse, lines[..|lines| - 1], front)
    ensures var c := LineConflict(stock, warehouse, lines[|lines| - 1]);
      FlagsHold(stock, warehouse, lines, front + if c == None then [] else [Flag(|lines| - 1, c.value)])
  {
  }

  lemma {:induction false} ConflictIsFlagged(stock: seq<Row>, warehouse: WarehouseId, lines: seq<Line>, k: nat)
    returns (i: nat)
    requires k < |lines| && LineConflict(stock, warehouse, lines[k]) != None
    ensures i < |FindConflicts(stock, warehouse, lines)| && FindConflicts(stock, warehouse, lines)[i].line == k
  {
    var n := |lines| - 1;
    if k == n {
      i := |FindConflicts(stock, warehouse, lines[..n])|;
    } else {
      i := ConflictIsFlagged(stock, warehouse, lines[..n], k);
    }
  }

  /** The flags name exactly the lines in conflict, in line order, each with its reason. */
  lemma ConflictsAreExact(stock: seq<Row>, warehouse: WarehouseId, lines: seq<Line>)
    ensures ExactFlags(stock, warehouse, lines, FindConflicts(stock, warehouse, lines))
  {
    var flags := FindConflicts(stock, warehouse, lines);
    FlagsAreConflicts(stock, warehouse, lines);
    forall k | 0 <= k < |lines| && LineConflict(stock, warehouse, lines[k]) != None
      ensures exists i :: 0 <= i < |flags| && flags[i].line == k
    {
      var i := ConflictIsFlagged(stock, warehouse, lines, k);
      assert flags[i].line == k;
    }
  }

  /** The adjustments approval records: one per applied variance, in line order. */
  function Records(lines: seq<Line>, user: User): seq<Adjustment> {
    if lines == [] then []
    else
      var line := lines[|lines| - 1];
      Records(lines[..|lines| - 1], user) + (if Applies(line) then [Record(line, user)] else [])
  }

  ghost predicate Written(before: seq<Row>, after: seq<Row>, lines: seq<Line>) {
    && |after| == |before|
    && (forall k :: 0 <= k < |lines| && Applies(lines[k]) ==>
          && lines[k].row.value < |before|
          && after[lines[k].row.value] == before[lines[k].row.value].(quantity := lines[k].counted.value))
    && (forall r ::
          && 0 <= r < |before|
          && (forall k :: 0 <= k < |lines| && Applies(lines[k]) ==> lines[k].row != Some(r)) ==>
          after[r] == before[r])
  }

  /** One more line's write after those of the lines before it, whose rows are others. */
  lemma WrittenOneMore(before: seq<Row>, mid: seq<Row>, after: seq<Row>, lines: seq<Line>)
    requires DistinctRows(lines) && lines != [] && Written(before, mid, lines[..|lines| - 1])
    requires var last := lines[|lines| - 1];
      if Applies(last) then
        && last.row.value < |before|
        && after == mid[last.row.value := before[last.row.value].(quantity := last.counted.value)]
      else after == mid
    ensures Written(before, after, lines)
  {
    var n := |lines| - 1;
    var front := lines[..n];
    assert forall k :: 0 <= k < n ==> front[k] == lines[k];
    forall r | 0 <= r < |before| && (forall k :: 0 <= k < |lines| && Applies(lines[k]) ==> lines[k].row != Some(r))
      ensures after[r] == before[r]
    {
      assert forall k :: 0 <= k < n && Applies(front[k]) ==> Applies(lines[k]);
      assert Applies(lines[n]) ==> lines[n].row != Some(r);
    }
  }

  /** When every line matches the stock, the guarded writes of the loop all succeed. */
  lemma {:induction false} MatchingLinesApply(start: Applied, warehouse: WarehouseId, lines: seq<Line>, user: User)
    requires DistinctRows(lines)
    requires forall k :: 0 <= k < |lines| ==> LineConflict(start.stock, warehouse, lines[k]) == None
    ensures ApplyLines(start, lines, user).Ok?
    ensures Written(start.stock, ApplyLines(start, lines, user).value.stock, lines)
    ensures ApplyLines(start, lines, user).value.adjustments == start.adjustments + Records(lines, user)
  {
    if lines != [] {
      var n := |lines| - 1;
      var front := lines[..n];
      assert forall k :: 0 <= k < n ==> front[k] == lines[k];
      MatchingLinesApply(start, warehouse, front, user);
      var a := ApplyLines(start, front, user).value;
      assert LineConflict(start.stock, warehouse, lines[n]) == None;
      if Applies(lines[n]) {
        var r := lines[n].row.value;
        assert forall k :: 0 <= k < n ==> front[k].row != Some(r);
        assert a.stock[r] == start.stock[r];
      }
      WrittenOneMore(start.stock, a.stock, ApplyLines(start, lines, user).value.stock, lines);
    }
  }

  predicate Expects(stock: seq<Row>, line: Line)
    requires line.Live()
  {
    line.row.value < |stock| && stock[line.row.value].quantity == line.expected
  }

  /** What an approval may do to the tables. */
  ghost predicate AppliedInFull(db: Db, d: Db, s: nat, seen: Session, user: User)
    requires s < |db.sessions|
  {
    && Written(db.stock, d.stock, seen.lines)
    && d.adjustments == db.adjustments + Records(seen.lines, user)
    && d.sessions == db.sessions[s := db.sessions[s].(status := CountStatus.Approved)]
    && d.received == db.received
    && forall k :: 0 <= k < |seen.lines| && seen.lines[k].Live() ==> Expects(db.stock, seen.lines[k])
  }

  /** All or nothing, whatever happened to the stock since the session was read: the approval
      reports exactly the lines that changed and writes nothing, or it finds every live line
      unchanged and writes every variance; the guarded writes never stop it half-way. */
  lemma ApprovalIsAllOrNothing(db: Db, s: nat, seen: Session, user: User)
    requires s < |db.sessions| && seen.status == Review && DistinctRows(seen.lines)
    requires NotSelfApproval(user, Counters(seen.lines))
    ensures var clean := forall k :: 0 <= k < |seen.lines| ==>
      LineConflict(db.stock, seen.warehouse, seen.lines[k]) == None;
      match Approve(db, s, seen, user)
      case Ok(Conflicts(flags)) => !clean && flags == FindConflicts(db.stock, seen.warehouse, seen.lines) != []
      case Err(e) => clean && db.sessions[s].status != Review && e == Conflict
      case Ok(Done(d)) => clean && db.sessions[s].status == Review && AppliedInFull(db, d, s, seen, user)
  {
    MatchingLinesHaveNoConflict(db.stock, seen.warehouse, seen.lines);
    if FindConflicts(db.stock, seen.warehouse, seen.lines) == [] {
      MatchingLinesApply(Applied(db.stock, db.adjustments), seen.warehouse, seen.lines, user);
      if db.sessions[s].status == Review {
        var d := Approve(db, s, seen, user).value.db;
        forall k | 0 <= k < |seen.lines| && seen.lines[k].Live()
          ensures Expects(db.stock, seen.lines[k])
        {
          assert LineConflict(db.stock, seen.warehouse, seen.lines[k]) == None;
        }
      }
    }
  }

  /** A live counted row ends at its counted quantity, unless its recorded variance is a false zero. */
  lemma CountedRowEndsAtCount(db: Db, s: nat, seen: Session, user: User, k: nat)
    requires s < |db.sessions| && DistinctRows(seen.lines)
    requires Approve(db, s, seen, user).Ok? && Approve(db, s, seen, user).value.Done?
    requires k < |seen.lines| && seen.lines[k].Live() && seen.lines[k].counted.Some?
    ensures var d, line := Approve(db, s, seen, user).value.db, seen.lines[k];
      && line.row.value < |d.stock|
      && (d.stock[line.row.value].quantity == line.counted.value <==>
            (line.variance == Some(0.0) ==> line.counted.value == line.expected))
  {
    ApprovalIsAllOrNothing(db, s, seen, user);
    var line := seen.lines[k];
    assert LineConflict(db.stock, seen.warehouse, line) == None;
    if !Applies(line) {
      assert forall l :: 0 <= l < |seen.lines| && Applies(seen.lines[l]) ==> seen.lines[l].row != line.row;
    }
  }

  predicate TrueVariance(line: Line) {
    match line.counted
    case None => true
    case Some(q) => line.variance == Some(q - line.expected)
  }

  /** A real difference on record as none: approval skips the line. */
  predicate FalseZero(line: Line) {
    line.counted.Some? && line.variance == Some(0.0) && line.counted.value != line.expected
  }

  /** Counting records the true variance exactly when the expected quantity it read is still current. */
  lemma CountRecordsTrueVarianceIff(db: Db, s: nat, seen: Session, read: Session, k: nat, qty: real, user: User)
    requires CountLine(db, s, seen, read, k, qty, user).Ok?
    ensures var line := CountLine(db, s, seen, read, k, qty, user).value.sessions[s].lines[k];
      && line.counted == Some(qty) && line.countedBy == Some(user)
      && (TrueVariance(line) <==> read.lines[k].expected == db.sessions[s].lines[k].expected)
  {
    var line := CountLine(db, s, seen, read, k, qty, user).value.sessions[s].lines[k];
    assert line.expected == db.sessions[s].lines[k].expected;
  }

  // ----- the way back from a conflict -----

  /** Counts every line still to be counted, from line `k` on, each with its quantity and by its counter. */
  function CountRest(db: Db, s: nat, k: nat, qtys: seq<real>, users: seq<User>): Result<Db>
    requires |users| == |qtys|
    decreases |qtys| - k
  {
    if s >= |db.sessions| then Err(NotFound)
    else if k >= |qtys| || k >= |db.sessions[s].lines| then Ok(db)
    else
      var line := db.sessions[s].lines[k];
      if line.excluded || line.counted.Some? then CountRest(db, s, k + 1, qtys, users)
      else
        var d :- CountLine(db, s, db.sessions[s], db.sessions[s], k, qtys[k], users[k]);
        CountRest(d, s, k + 1, qtys, users)
  }

  /** An open count whose lines match the stock, with the lines before `k` counted or excluded. */
  ghost predicate Recovering(db: Db, s: nat, k: nat, approver: User) {
    && s < |db.sessions| && db.sessions[s].status == InProgress
    && DistinctRows(db.sessions[s].lines) && LinesMatch(db.stock, db.sessions[s])
    && (forall l :: 0 <= l < |db.sessions[s].lines| ==> db.sessions[s].lines[l].countedBy != Some(approver))
    && CountedTo(db.sessions[s].lines, k)
  }

  predicate CountedTo(lines: seq<Line>, k: nat) {
    forall l :: 0 <= l < k && l < |lines| ==> lines[l].excluded || lines[l].counted.Some?
  }

  /** The same rows, in or out of the count as before, and no false zero more or less. */
  predicate NoNewZeros(a: seq<Line>, b: seq<Line>) {
    && |a| == |b|
    && forall l :: 0 <= l < |a| ==>
         a[l].row == b[l].row && a[l].excluded == b[l].excluded && (FalseZero(a[l]) <==> FalseZero(b[l]))
  }

  lemma CountLineRecovers(db: Db, s: nat, k: nat, qty: real, user: User, approver: User)
    requires Recovering(db, s, k, approver) && k < |db.sessions[s].lines|
    requires !db.sessions[s].lines[k].excluded && db.sessions[s].lines[k].counted.None?
    requires qty >= 0.0 && user != approver
    ensures var d := CountLine(db, s, db.sessions[s], db.sessions[s], k, qty, user);
      && d.Ok? && d.value.stock == db.stock && Recovering(d.value, s, k + 1, approver)
      && NoNewZeros(db.sessions[s].lines, d.value.sessions[s].lines)
  {
    var x, y := db.sessions[s], CountLine(db, s, db.sessions[s], db.sessions[s], k, qty, user).value.sessions[s];
    forall l | 0 <= l < |y.lines| ensures LineConflict(db.stock, y.warehouse, y.lines[l]) == None {
      assert LineConflict(db.stock, x.warehouse, x.lines[l]) == None;
    }
    forall l, m | 0 <= l < m < |y.lines| && y.lines[l].row.Some? ensures y.lines[l].row != y.lines[m].row {
      assert x.lines[l].row != x.lines[m].row;
    }
  }

  predicate CanCount(lines: seq<Line>, qtys: seq<real>, users: seq<User>, approver: User) {
    |qtys| == |users| == |lines| && forall i :: 0 <= i < |qtys| ==> qtys[i] >= 0.0 && users[i] != approver
  }

  lemma {:induction false} CountRestRecovers(db: Db, s: nat, k: nat, qtys: seq<real>, users: seq<User>, approver: User)
    requires Recovering(db, s, k, approver) && k <= |qtys| && CanCount(db.sessions[s].lines, qtys, users, approver)
    ensures var d := CountRest(db, s, k, qtys, users);
      && d.Ok? && d.value.stock == db.stock && Recovering(d.value, s, |qtys|, approver)
      && NoNewZeros(db.sessions[s].lines, d.value.sessions[s].lines)
    decreases |qtys| - k
  {
    if k < |qtys| {
      var line := db.sessions[s].lines[k];
      if line.excluded || line.counted.Some? {
        OneLineFurther(db, s, k, approver);
        CountRestRecovers(db, s, k + 1, qtys, users, approver);
      } else {
        CountLineRecovers(db, s, k, qtys[k], users[k], approver);
        var d := CountLine(db, s, db.sessions[s], db.sessions[s], k, qtys[k], users[k]).value;
        CountRestRecovers(d, s, k + 1, qtys, users, approver);
        var e := CountRest(d, s, k + 1, qtys, users).value;
        NoNewZerosOn(db.sessions[s].lines, d.sessions[s].lines, e.sessions[s].lines);
      }
    }
  }

  lemma OneLineFurther(db: Db, s: nat, k: nat, approver: User)
    requires Recovering(db, s, k, approver) && k < |db.sessions[s].lines|
    requires db.sessions[s].lines[k].excluded || db.sessions[s].lines[k].counted.Some?
    ensures Recovering(db, s, k + 1, approver)
  {
  }

  lemma NoNewZerosOn(a: seq<Line>, b: seq<Line>, c: seq<Line>)
    requires NoNewZeros(a, b) && NoNewZeros(b, c)
    ensures NoNewZeros(a, c)
  {
  }

  ghost predicate Names(flags: seq<Flag>, k: nat) {
    exists i :: 0 <= i < |flags| && flags[i].line == k
  }

  lemma {:induction false} FlagsReach(lines: seq<Line>, flags: seq<Flag>)
    ensures forall k :: 0 <= k < |lines| ==>
      (FlagLines(lines, flags)[k].conflict.Some? <==> lines[k].conflict.Some? || Names(flags, k))
  {
    if flags != [] {
      var front, f := flags[..|flags| - 1], flags[|flags| - 1];
      FlagsReach(lines, front);
      forall k | 0 <= k < |lines|
        ensures FlagLines(lines, flags)[k].conflict.Some? <==> lines[k].conflict.Some? || Names(flags, k)
      {
        if i :| 0 <= i < |front| && front[i].line == k { assert flags[i].line == k; }
        if i :| 0 <= i < |flags| && flags[i].line == k && k != f.line { assert front[i].line == k; }
        if k == f.line { assert flags[|flags| - 1].line == k; }
      }
    }
  }

  /** The count after a refused approval was recorded and its lines refreshed. */
  function Refreshed(db: Db, s: nat): Result<Db>
    requires s < |db.sessions|
  {
    var x := db.sessions[s];
    var flagged :- RecordConflicts(db, s, FindConflicts(db.stock, x.warehouse, x.lines));
    Recount(flagged, s, flagged.sessions[s])
  }

  /** After the conflicts were recorded, a line that is not flagged has none. */
  lemma FlaggedAreTheConflicts(stock: seq<Row>, warehouse: WarehouseId, lines: seq<Line>)
    ensures var y := FlagLines(lines, FindConflicts(stock, warehouse, lines));
      forall k :: 0 <= k < |lines| ==>
        && y[k] == lines[k].(conflict := y[k].conflict)
        && (LineConflict(stock, warehouse, lines[k]) != None ==> Flagged(y[k]))
        && (y[k].conflict.Some? <==> lines[k].conflict.Some? || LineConflict(stock, warehouse, lines[k]) != None)
  {
    var flags := FindConflicts(stock, warehouse, lines);
    ConflictsAreExact(stock, warehouse, lines);
    FlagsReach(lines, flags);
    FlagsKeepCounts(lines, flags);
    forall k | 0 <= k < |lines| && LineConflict(stock, warehouse, lines[k]) != None
      ensures Flagged(FlagLines(lines, flags)[k])
    {
      assert Names(flags, k);
    }
  }

  predicate Conflicted(stock: seq<Row>, warehouse: WarehouseId, line: Line) {
    !line.excluded && (line.conflict.Some? || LineConflict(stock, warehouse, line) != None)
  }

  /** What refreshing does to one line, with `line` as it was before its conflict was recorded: it
      matches the stock again, and a conflicted line keeps no count. */
  lemma RefreshedLine(stock: seq<Row>, warehouse: WarehouseId, line: Line, flagged: Line)
    requires flagged == line.(conflict := flagged.conflict)
    requires !line.excluded ==> (flagged.conflict.Some? <==> Conflicted(stock, warehouse, line))
    ensures var r := RecountLine(stock, warehouse, flagged);
      && LineConflict(stock, warehouse, r) == None && r.row == line.row
      && (r.countedBy == None || r.countedBy == line.countedBy)
      && (r.Live() && FalseZero(r) <==> line.Live() && FalseZero(line) && !Conflicted(stock, warehouse, line))
  {
  }

  /** The lines of a session after its conflicts were recorded and refreshed. */
  function RefreshedLines(stock: seq<Row>, x: Session): seq<Line> {
    RecountLines(stock, x.warehouse, FlagLines(x.lines, FindConflicts(stock, x.warehouse, x.lines)))
  }

  lemma RefreshedLinesAre(stock: seq<Row>, x: Session, k: nat)
    requires k < |x.lines|
    ensures var r := RefreshedLines(stock, x);
      && |r| == |x.lines| && LineConflict(stock, x.warehouse, r[k]) == None && r[k].row == x.lines[k].row
      && (r[k].countedBy == None || r[k].countedBy == x.lines[k].countedBy)
      && (r[k].Live() && FalseZero(r[k]) <==>
            x.lines[k].Live() && FalseZero(x.lines[k]) && !Conflicted(stock, x.warehouse, x.lines[k]))
  {
    FlaggedAreTheConflicts(stock, x.warehouse, x.lines);
    RefreshedLine(stock, x.warehouse, x.lines[k], FlagLines(x.lines, FindConflicts(stock, x.warehouse, x.lines))[k]);
  }

  lemma RefreshIs(db: Db, s: nat)
    requires s < |db.sessions| && db.sessions[s].status == Review
    requires FindConflicts(db.stock, db.sessions[s].warehouse, db.sessions[s].lines) != []
    ensures var x := db.sessions[s];
      Refreshed(db, s) ==
        Ok(db.(sessions := db.sessions[s := x.(status := InProgress, lines := RefreshedLines(db.stock, x))]))
  {
    var x := db.sessions[s];
    FlaggedAreTheConflicts(db.stock, x.warehouse, x.lines);
    MatchingLinesHaveNoConflict(db.stock, x.warehouse, x.lines);
    var k :| 0 <= k < |x.lines| && LineConflict(db.stock, x.warehouse, x.lines[k]) != None;
    var y := x.(lines := FlagLines(x.lines, FindConflicts(db.stock, x.warehouse, x.lines)));
    assert Flagged(y.lines[k]);
    var z := x.(status := InProgress, lines := RefreshedLines(db.stock, x));
    assert db.sessions[s := y][s := z] == db.sessions[s := z];
  }

  lemma RefreshRecovers(db: Db, s: nat, approver: User)
    requires s < |db.sessions| && db.sessions[s].status == Review && DistinctRows(db.sessions[s].lines)
    requires FindConflicts(db.stock, db.sessions[s].warehouse, db.sessions[s].lines) != []
    requires forall l :: 0 <= l < |db.sessions[s].lines| ==> db.sessions[s].lines[l].countedBy != Some(approver)
    ensures var d := Refreshed(db, s);
      && d.Ok? && d.value.stock == db.stock && Recovering(d.value, s, 0, approver)
      && d.value.sessions[s].lines == RefreshedLines(db.stock, db.sessions[s])
      && |d.value.sessions[s].lines| == |db.sessions[s].lines|
  {
    var x := db.sessions[s];
    RefreshIs(db, s);
    var r := RefreshedLines(db.stock, x);
    forall l | 0 <= l < |r|
      ensures LineConflict(db.stock, x.warehouse, r[l]) == None && r[l].row == x.lines[l].row
      ensures r[l].countedBy != Some(approver)
    {
      RefreshedLinesAre(db.stock, x, l);
    }
  }

  /** Every live line was counted, and its row holds what was counted. */
  ghost predicate AsCounted(stock: seq<Row>, lines: seq<Line>) {
    forall k :: 0 <= k < |lines| && lines[k].Live() ==> RowAsCounted(stock, lines[k])
  }

  predicate RowAsCounted(stock: seq<Row>, line: Line)
    requires line.Live()
  {
    line.counted.Some? && line.row.value < |stock| && stock[line.row.value].quantity == line.counted.value
  }

  /** Submits and approves: the approved tables. */
  function Finish(db: Db, s: nat, approver: User): Result<Db>
    requires s < |db.sessions|
  {
    var d :- Submit(db, s, db.sessions[s]);
    var o :- Approve(d, s, d.sessions[s], approver);
    if o.Done? then Ok(o.db) else Err(Conflict)
  }

  lemma ApprovedAsCounted(d: Db, s: nat, approver: User, k: nat)
    requires s < |d.sessions| && DistinctRows(d.sessions[s].lines)
    requires Approve(d, s, d.sessions[s], approver).Ok? && Approve(d, s, d.sessions[s], approver).value.Done?
    requires k < |d.sessions[s].lines| && d.sessions[s].lines[k].Live() && d.sessions[s].lines[k].counted.Some?
    ensures RowAsCounted(Approve(d, s, d.sessions[s], approver).value.db.stock, d.sessions[s].lines[k])
       <==> !FalseZero(d.sessions[s].lines[k])
  {
    CountedRowEndsAtCount(d, s, d.sessions[s], approver, k);
  }

  lemma FinishIs(db: Db, s: nat, approver: User)
    requires s < |db.sessions| && Recovering(db, s, |db.sessions[s].lines|, approver)
    ensures var d := Submit(db, s, db.sessions[s]);
      && d.Ok? && d.value.sessions[s].lines == db.sessions[s].lines
      && Approve(d.value, s, d.value.sessions[s], approver).Ok?
      && Approve(d.value, s, d.value.sessions[s], approver).value.Done?
      && Finish(db, s, approver) == Ok(Approve(d.value, s, d.value.sessions[s], approver).value.db)
  {
    var d := Submit(db, s, db.sessions[s]).value;
    var x := d.sessions[s];
    assert NotSelfApproval(approver, Counters(x.lines));
    assert forall k :: 0 <= k < |x.lines| ==> LineConflict(db.stock, x.warehouse, x.lines[k]) == None;
    ApprovalIsAllOrNothing(d, s, x, approver);
  }

  /** A fully counted session without conflicts, submitted, is approved by anybody who counted
      nothing; the live row of a line then holds its count exactly when the line is no false zero. */
  lemma SubmittedCountIsApproved(db: Db, s: nat, approver: User)
    requires s < |db.sessions| && Recovering(db, s, |db.sessions[s].lines|, approver)
    ensures Finish(db, s, approver).Ok?
    ensures forall k :: 0 <= k < |db.sessions[s].lines| && db.sessions[s].lines[k].Live() ==>
      (RowAsCounted(Finish(db, s, approver).value.stock, db.sessions[s].lines[k]) <==>
        !FalseZero(db.sessions[s].lines[k]))
  {
    FinishIs(db, s, approver);
    var d := Submit(db, s, db.sessions[s]).value;
    forall k | 0 <= k < |d.sessions[s].lines| && d.sessions[s].lines[k].Live()
      ensures RowAsCounted(Finish(db, s, approver).value.stock, d.sessions[s].lines[k]) <==>
        !FalseZero(d.sessions[s].lines[k])
    {
      ApprovedAsCounted(d, s, approver, k);
    }
  }

  /** A live line in no conflict, and so not counted again, whose difference is on record as none. */
  predicate ZeroStays(stock: seq<Row>, x: Session, k: nat)
    requires k < |x.lines|
  {
    x.lines[k].Live() && !Conflicted(stock, x.warehouse, x.lines[k]) && FalseZero(x.lines[k])
  }

  /** The recovery as a whole: refresh, count what is left, submit, approve. */
  function Recovered(db: Db, s: nat, qtys: seq<real>, users: seq<User>, approver: User): Result<Db>
    requires s < |db.sessions| && |users| == |qtys|
  {
    var d :- Refreshed(db, s);
    var counted :- CountRest(d, s, 0, qtys, users);
    if s < |counted.sessions| then Finish(counted, s, approver) else Err(NotFound)
  }

  /** Whatever happened to the stock: if nothing moves after a refused approval, one recount, a count
      of what is left by whoever counts each line, a submission and an approval by someone who counted
      nothing close the session.
      Every live row ends at its count exactly when no line left unflagged was a false zero before. */
  lemma OneRecountRecovers(db: Db, s: nat, qtys: seq<real>, users: seq<User>, approver: User)
    requires s < |db.sessions| && db.sessions[s].status == Review && DistinctRows(db.sessions[s].lines)
    requires FindConflicts(db.stock, db.sessions[s].warehouse, db.sessions[s].lines) != []
    requires forall l :: 0 <= l < |db.sessions[s].lines| ==> db.sessions[s].lines[l].countedBy != Some(approver)
    requires CanCount(db.sessions[s].lines, qtys, users, approver)
    ensures var d := Recovered(db, s, qtys, users, approver);
      && d.Ok? && s < |d.value.sessions| && d.value.sessions[s].status == CountStatus.Approved
      && (AsCounted(d.value.stock, d.value.sessions[s].lines) <==>
            forall k :: 0 <= k < |db.sessions[s].lines| ==> !ZeroStays(db.stock, db.sessions[s], k))
  {
    RefreshRecovers(db, s, approver);
    var d := Refreshed(db, s).value;
    CountRestRecovers(d, s, 0, qtys, users, approver);
    var counted := CountRest(d, s, 0, qtys, users).value;
    SubmittedCountIsApproved(counted, s, approver);
    FinishedLines(counted, s, approver);
    ZerosLeft(db, s, counted.sessions[s].lines);
  }

  lemma FinishedLines(db: Db, s: nat, approver: User)
    requires s < |db.sessions| && Recovering(db, s, |db.sessions[s].lines|, approver)
    ensures var d := Finish(db, s, approver);
      && d.Ok? && s < |d.value.sessions| && d.value.sessions[s].status == CountStatus.Approved
      && d.value.sessions[s].lines == db.sessions[s].lines
  {
    FinishIs(db, s, approver);
  }

  /** The false zeros of the counted lines are those of the unflagged lines before. */
  lemma ZerosLeft(db: Db, s: nat, lines: seq<Line>)
    requires s < |db.sessions| && NoNewZeros(RefreshedLines(db.stock, db.sessions[s]), lines)
    ensures var x := db.sessions[s];
      && |lines| == |x.lines|
      && ((forall k :: 0 <= k < |lines| && lines[k].Live() ==> !FalseZero(lines[k])) <==>
          (forall k :: 0 <= k < |x.lines| ==> !ZeroStays(db.stock, x, k)))
  {
    var x := db.sessions[s];
    forall k | 0 <= k < |x.lines| ensures lines[k].Live() && FalseZero(lines[k]) <==> ZeroStays(db.stock, x, k) {
      RefreshedLinesAre(db.stock, x, k);
    }
  }
}

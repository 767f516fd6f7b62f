/** The tables the ledger's transactions read and write, and the cycle-count lock derived from
    them. A count line belongs to its session (it is created and deleted with it), so sessions
    hold their lines in creation order. */
module Tables {
  import opened Stock

  datatype CountStatus = Open | InProgress | Review | Approved | ClosedCount | CancelledCount

  const ACTIVE: set<CountStatus> := {Open, InProgress, Review}

  datatype Reason = RowVanished | LeftAvailable | MovedWarehouse | QuantityChanged

  datatype Line = Line(
    row: Option<RowId>, expected: real, counted: Option<real>, variance: Option<real>,
    countedBy: Option<User>, conflict: Option<Reason>, excluded: bool)
  {
    /** The line takes part in conflict detection and holds its row. */
    predicate Live() { !excluded && row.Some? }
  }

  datatype Session = Session(warehouse: WarehouseId, status: CountStatus, lines: seq<Line>) {
    predicate Active() { status in ACTIVE }
  }

  datatype AdjStatus = PendingApproval | Rejected | Completed

  datatype Adjustment = Adjustment(
    row: Option<RowId>, before: real, after: real, status: AdjStatus,
    requester: Option<User>, approver: Option<User>)
  {
    /** What a completed adjustment added to the stock it is linked to. */
    function Delta(): real { if status.Completed? && row.Some? then after - before else 0.0 }
  }

  /** `received` is the model's own account: the quantity entered by creating stock rows. */
  datatype Db = Db(stock: seq<Row>, sessions: seq<Session>, adjustments: seq<Adjustment>, received: real)

  const EMPTY := Db([], [], [], 0.0)

  function Adjusted(adjs: seq<Adjustment>): real {
    if adjs == [] then 0.0 else Adjusted(adjs[..|adjs| - 1]) + adjs[|adjs| - 1].Delta()
  }

  lemma {:induction false} AdjustedUpdate(adjs: seq<Adjustment>, i: nat, a: Adjustment)
    requires i < |adjs|
    ensures Adjusted(adjs[i := a]) == Adjusted(adjs) - adjs[i].Delta() + a.Delta()
  {
    var n := |adjs| - 1;
    if i == n {
      assert adjs[i := a][..n] == adjs[..n];
    } else {
      AdjustedUpdate(adjs[..n], i, a);
      assert adjs[i := a][..n] == adjs[..n][i := a];
    }
  }

  lemma AdjustedAppend(adjs: seq<Adjustment>, a: Adjustment)
    ensures Adjusted(adjs + [a]) == Adjusted(adjs) + a.Delta()
  {
    assert (adjs + [a])[..|adjs|] == adjs;
  }

  /** No two lines of one count name the same row. */
  ghost predicate DistinctRows(lines: seq<Line>) {
    forall k, l :: 0 <= k < l < |lines| && lines[k].row.Some? ==> lines[k].row != lines[l].row
  }

  // ----- the count lock -----

  /** Line `k` of session `s` holds row `r`: the EXISTS clause of the lock predicate. */
  predicate Holds(sessions: seq<Session>, s: nat, k: nat, r: RowId) {
    && s < |sessions| && sessions[s].Active()
    && k < |sessions[s].lines| && !sessions[s].lines[k].excluded && sessions[s].lines[k].row == Some(r)
  }

  predicate SessionHolds(x: Session, r: RowId) {
    x.Active() && exists k | 0 <= k < |x.lines| :: !x.lines[k].excluded && x.lines[k].row == Some(r)
  }

  predicate CountLocked(sessions: seq<Session>, r: RowId) {
    exists s | 0 <= s < |sessions| :: SessionHolds(sessions[s], r)
  }

  lemma LockedIffHeld(sessions: seq<Session>, r: RowId)
    ensures CountLocked(sessions, r) <==> exists s: nat, k: nat :: Holds(sessions, s, k, r)
  {
    if CountLocked(sessions, r) {
      var s :| 0 <= s < |sessions| && SessionHolds(sessions[s], r);
      var k :| 0 <= k < |sessions[s].lines| && !sessions[s].lines[k].excluded && sessions[s].lines[k].row == Some(r);
      assert Holds(sessions, s, k, r);
    }
    if s: nat, k: nat :| Holds(sessions, s, k, r) {
      assert SessionHolds(sessions[s], r);
    }
  }

  /** Throws when one of the makers is the approver; an empty approver id is let through. */
  predicate NotSelfApproval(approver: User, makers: seq<Option<User>>) {
    approver == "" || forall i | 0 <= i < |makers| :: makers[i] != Some(approver)
  }

  function Counters(lines: seq<Line>): (r: seq<Option<User>>)
    ensures |r| == |lines| && forall i :: 0 <= i < |lines| ==> r[i] == lines[i].countedBy
  {
    seq(|lines|, i requires 0 <= i < |lines| => lines[i].countedBy)
  }
}

/** Releasing a reservation that no request can use any more: the unit goes back to stock, its request
    lines let go of it, and a request left without any unit is closed. */
module StuckReservation {
  import S = Stock
  import M = Movements

  type RowId = S.RowId
  type RequestId = nat

  datatype RequestStatus =
    | Draft | Submitted | PendingApproval | Approved | Rejected | Picking | Picked | Packed
    | ReadyForPickup | Shipped | IssuedToRma | Completed | Cancelled

  const LIVE: set<RequestStatus> := {Draft, Submitted, PendingApproval, Approved}
  const TERMINAL: set<RequestStatus> := {Cancelled, Rejected, Completed, Shipped, IssuedToRma}

  datatype TaskStatus =
    | TaskAllocated | TaskPicking | TaskPicked | TaskPacking | TaskPacked | TaskReadyToShip | TaskShipped
    | TaskDelivered | TaskClosed | TaskShortPick | TaskDamaged | TaskHold | TaskCancelled | TaskReturned

  const CANCELLABLE: set<TaskStatus> :=
    {TaskAllocated, TaskPicking, TaskPicked, TaskPacking, TaskPacked, TaskReadyToShip, TaskShortPick, TaskDamaged,
      TaskHold}

  datatype Line = Line(request: RequestId, unit: S.Option<RowId>, issued: real, shippedUnit: S.Option<RowId>)
  datatype Request = Request(status: RequestStatus, version: nat)
  datatype TaskItem = TaskItem(unit: S.Option<RowId>, picked: real)
  datatype Task = Task(request: RequestId, status: TaskStatus, shipped: bool, items: seq<TaskItem>)

  /** Ids are indices; tasks are in creation order. */
  datatype Tables = Tables(stock: seq<S.Row>, lines: seq<Line>, requests: seq<Request>, tasks: seq<Task>)

  predicate Linked(t: Tables) {
    forall k :: 0 <= k < |t.lines| ==> t.lines[k].request < |t.requests|
  }

  // ----- the checks -----

  /** The request's latest task that was not cancelled. */
  function LatestTask(tasks: seq<Task>, request: RequestId): S.Option<Task> {
    if tasks == [] then S.None
    else
      var last := tasks[|tasks| - 1];
      if last.request == request && last.status != TaskCancelled then S.Some(last)
      else LatestTask(tasks[..|tasks| - 1], request)
  }

  predicate PickedOn(task: Task, id: RowId) {
    exists i :: 0 <= i < |task.items| && task.items[i].unit == S.Some(id) && task.items[i].picked > 0.0
  }

  /** The line's hold on the unit leads nowhere: nothing was issued on it, and no task or open request
      can still use it. */
  predicate LeadsNowhere(t: Tables, k: nat, id: RowId)
    requires Linked(t) && k < |t.lines|
  {
    var line := t.lines[k];
    && line.issued <= 0.0 && line.shippedUnit.None?
    && match LatestTask(t.tasks, line.request)
       case Some(task) => !task.shipped && !PickedOn(task, id) && task.status !in CANCELLABLE
       case None => t.requests[line.request].status !in LIVE
  }

  function LinesOn(lines: seq<Line>, id: RowId): (r: seq<nat>)
    ensures forall i :: 0 <= i < |r| ==> r[i] < |lines| && lines[r[i]].unit == S.Some(id)
    ensures forall k :: 0 <= k < |lines| && lines[k].unit == S.Some(id) ==> k in r
    ensures forall i, j :: 0 <= i < j < |r| ==> r[i] < r[j]
  {
    if lines == [] then []
    else
      var n := |lines| - 1;
      LinesOn(lines[..n], id) + (if lines[n].unit == S.Some(id) then [n] else [])
  }

  function Check(t: Tables, id: RowId): S.Result<seq<nat>>
    requires Linked(t)
  {
    if id >= |t.stock| then S.Err(S.NotFound)
    else if t.stock[id].status != S.Reserved then S.Err(S.BadRequest)
    else if exists k :: 0 <= k < |t.lines| && t.lines[k].unit == S.Some(id) && !LeadsNowhere(t, k, id) then
      S.Err(S.Conflict)
    else S.Ok(LinesOn(t.lines, id))
  }

  /** The task is one of the request and was not cancelled. */
  predicate Serves(task: Task, request: RequestId) { task.request == request && task.status != TaskCancelled }

  /** Task `i` is the last one that serves the request. */
  predicate IsLatest(tasks: seq<Task>, request: RequestId, i: nat) {
    i < |tasks| && Serves(tasks[i], request) && forall j | i < j < |tasks| :: !Serves(tasks[j], request)
  }

  lemma {:induction false} LatestTaskIs(tasks: seq<Task>, request: RequestId) returns (at: nat)
    ensures match LatestTask(tasks, request)
      case None => forall i :: 0 <= i < |tasks| ==> !Serves(tasks[i], request)
      case Some(task) => IsLatest(tasks, request, at) && task == tasks[at]
  {
    at := 0;
    if tasks != [] {
      var n := |tasks| - 1;
      if Serves(tasks[n], request) {
        at := n;
      } else {
        at := LatestTaskIs(tasks[..n], request);
        assert forall i :: 0 <= i < n ==> tasks[..n][i] == tasks[i];
      }
    }
  }

  lemma OneLatest(tasks: seq<Task>, request: RequestId, i: nat, j: nat)
    requires IsLatest(tasks, request, i) && IsLatest(tasks, request, j)
    ensures i == j
  {
  }

  /** The task is over: shipped, delivered, closed or returned by its status. */
  predicate Over(status: TaskStatus) {
    status == TaskShipped || status == TaskDelivered || status == TaskClosed || status == TaskReturned
    || status == TaskCancelled
  }

  /** The request was refused, cancelled or is past its approval. */
  predicate NotOpen(status: RequestStatus) {
    status != Draft && status != Submitted && status != PendingApproval && status != Approved
  }

  /** Nothing on record can still use the unit for line `k`. */
  ghost predicate DeadEnd(t: Tables, k: nat, id: RowId)
    requires Linked(t) && k < |t.lines|
  {
    var line := t.lines[k];
    && line.issued <= 0.0 && line.shippedUnit == S.None
    && (forall i :: 0 <= i < |t.tasks| && IsLatest(t.tasks, line.request, i) ==>
          && !t.tasks[i].shipped && Over(t.tasks[i].status)
          && forall j :: 0 <= j < |t.tasks[i].items| && t.tasks[i].items[j].unit == S.Some(id) ==>
               t.tasks[i].items[j].picked <= 0.0)
    && ((forall i :: 0 <= i < |t.tasks| ==> !IsLatest(t.tasks, line.request, i)) ==>
          NotOpen(t.requests[line.request].status))
  }

  lemma DeadEndIff(t: Tables, k: nat, id: RowId)
    requires Linked(t) && k < |t.lines|
    ensures LeadsNowhere(t, k, id) <==> DeadEnd(t, k, id)
  {
    var request := t.lines[k].request;
    var at := LatestTaskIs(t.tasks, request);
    if LatestTask(t.tasks, request).Some? {
      forall i | 0 <= i < |t.tasks| && IsLatest(t.tasks, request, i) ensures i == at {
        OneLatest(t.tasks, request, i, at);
      }
    } else {
      assert forall i :: 0 <= i < |t.tasks| ==> !IsLatest(t.tasks, request, i);
    }
  }

  /** A reservation may be released exactly when the unit is RESERVED and each line that holds it is a dead
      end: nothing was issued on it, and the latest task of its request that was not cancelled is over and
      picked nothing of the unit or, when there is none, the request is no longer open. */
  lemma CheckIs(t: Tables, id: RowId)
    requires Linked(t)
    ensures var r := Check(t, id);
      && (r.Ok? <==>
            && id < |t.stock| && t.stock[id].status == S.Reserved
            && forall k :: 0 <= k < |t.lines| && t.lines[k].unit == S.Some(id) ==> DeadEnd(t, k, id))
      && (r.Err? ==>
            r.error == if id >= |t.stock| then S.NotFound
                       else if t.stock[id].status != S.Reserved then S.BadRequest else S.Conflict)
  {
    forall k | 0 <= k < |t.lines| ensures LeadsNowhere(t, k, id) <==> DeadEnd(t, k, id) {
      DeadEndIff(t, k, id);
    }
  }

  // ----- the writes -----

  function Unlinked(lines: seq<Line>, links: seq<nat>): (r: seq<Line>)
    ensures |r| == |lines|
    ensures forall k :: 0 <= k < |lines| ==> r[k] == if k in links then lines[k].(unit := S.None) else lines[k]
  {
    seq(|lines|, k requires 0 <= k < |lines| => if k in links then lines[k].(unit := S.None) else lines[k])
  }

  predicate HoldsUnits(lines: seq<Line>, request: RequestId) {
    exists k :: 0 <= k < |lines| && lines[k].request == request && lines[k].unit.Some?
  }

  /** The links one by one, with the request and its status as they were read before. */
  function Close(requests: seq<Request>, lines: seq<Line>, seen: Tables, links: seq<nat>): (r: seq<Request>)
    requires Linked(seen) && forall i :: 0 <= i < |links| ==> links[i] < |seen.lines|
    ensures |r| == |requests|
  {
    if links == [] then requests
    else
      var rest := Close(requests, lines, seen, links[..|links| - 1]);
      var q := seen.lines[links[|links| - 1]].request;
      if seen.requests[q].status in TERMINAL || HoldsUnits(lines, q) || q >= |rest| then rest
      else rest[q := Request(Cancelled, rest[q].version + 1)]
  }

  function ReleaseOf(now: Tables, seen: Tables, id: RowId, links: seq<nat>): Tables
    requires Linked(seen) && forall i :: 0 <= i < |links| ==> links[i] < |seen.lines|
  {
    var lines := Unlinked(now.lines, links);
    now.(stock := M.ReleaseRows(now.stock, [id]), lines := lines, requests := Close(now.requests, lines, seen, links))
  }

  class RequestStore {
    var stock: seq<S.Row>
    var lines: seq<Line>
    var requests: seq<Request>
    var tasks: seq<Task>

    function Contents(): Tables
      reads this
    {
      Tables(stock, lines, requests, tasks)
    }

    method CheckStuck(seen: Tables, id: RowId) returns (r: S.Result<seq<nat>>)
      requires Linked(seen)
      ensures r == Check(seen, id)
    {
      if id >= |seen.stock| { return S.Err(S.NotFound); }
      if seen.stock[id].status != S.Reserved { return S.Err(S.BadRequest); }
      var links := LinesOn(seen.lines, id);
      for i := 0 to |links|
        invariant forall j :: 0 <= j < i ==> LeadsNowhere(seen, links[j], id)
      {
        if !LeadsNowhere(seen, links[i], id) { return S.Err(S.Conflict); }
      }
      return S.Ok(links);
    }

    method CloseEmptied(seen: Tables, links: seq<nat>)
      requires Linked(seen) && |seen.requests| <= |requests|
      requires forall i :: 0 <= i < |links| ==> links[i] < |seen.lines|
      modifies `requests
      ensures requests == Close(old(requests), lines, seen, links)
    {
      assert links[..0] == [];
      for i := 0 to |links|
        invariant |requests| == old(|requests|) && requests == Close(old(requests), lines, seen, links[..i])
      {
        assert links[..i + 1][..i] == links[..i];
        var q := seen.lines[links[i]].request;
        if seen.requests[q].status in TERMINAL || HoldsUnits(lines, q) { continue; }
        requests := requests[q := Request(Cancelled, requests[q].version + 1)];
      }
      assert links[..|links|] == links;
    }

    method Write(seen: Tables, id: RowId, links: seq<nat>)
      requires Linked(seen) && |seen.requests| <= |requests|
      requires forall i :: 0 <= i < |links| ==> links[i] < |seen.lines|
      modifies this
      ensures Contents() == ReleaseOf(old(Contents()), seen, id, links)
    {
      ReleasingOne(stock, id);
      if id < |stock| && stock[id].status in M.RELEASABLE {
        stock := stock[id := stock[id].(status := S.Available)];
      }
      lines := Unlinked(lines, links);
      CloseEmptied(seen, links);
    }

    /** The checks ran on the tables as `seen`; the writes are one transaction. */
    method ReleaseStuck(seen: Tables, id: RowId) returns (r: S.Result<()>)
      requires Linked(seen) && |seen.lines| <= |lines| && |seen.requests| <= |requests|
      modifies this
      ensures match Check(seen, id)
        case Err(e) => r == S.Err(e) && Contents() == old(Contents())
        case Ok(links) => r == S.Ok(()) && Contents() == ReleaseOf(old(Contents()), seen, id, links)
    {
      var checked := CheckStuck(seen, id);
      if checked.Err? { return S.Err(checked.error); }
      Write(seen, id, checked.value);
      return S.Ok(());
    }
  }

  lemma ReleasingOne(stock: seq<S.Row>, id: RowId)
    ensures M.ReleaseRows(stock, [id]) ==
      if id < |stock| && stock[id].status in M.RELEASABLE then stock[id := stock[id].(status := S.Available)] else stock
  {
    assert [id][..0] == [];
  }

  // ----- what a release leaves -----

  function LinksOf(lines: seq<Line>, links: seq<nat>, q: RequestId): nat
    requires forall i :: 0 <= i < |links| ==> links[i] < |lines|
  {
    if links == [] then 0
    else LinksOf(lines, links[..|links| - 1], q) + if lines[links[|links| - 1]].request == q then 1 else 0
  }

  /** Closing is the same for every order of the links: a request that was open and has no unit left is
      cancelled, once for each of its lines; the others stay as they are. */
  lemma {:induction false} CloseIs(requests: seq<Request>, lines: seq<Line>, seen: Tables, links: seq<nat>,
        q: RequestId)
    requires Linked(seen) && forall i :: 0 <= i < |links| ==> links[i] < |seen.lines|
    requires q < |requests| && q < |seen.requests|
    ensures var n := LinksOf(seen.lines, links, q);
      Close(requests, lines, seen, links)[q] ==
        if n > 0 && seen.requests[q].status !in TERMINAL && !HoldsUnits(lines, q)
        then Request(Cancelled, requests[q].version + n) else requests[q]
  {
    if links != [] {
      CloseIs(requests, lines, seen, links[..|links| - 1], q);
    }
  }

  lemma {:induction false} LinksOfIff(lines: seq<Line>, links: seq<nat>, q: RequestId)
    requires forall i :: 0 <= i < |links| ==> links[i] < |lines|
    ensures LinksOf(lines, links, q) > 0 <==> exists i :: 0 <= i < |links| && lines[links[i]].request == q
  {
    if links != [] {
      var n := |links| - 1;
      LinksOfIff(lines, links[..n], q);
      if i :| 0 <= i < n && lines[links[..n][i]].request == q {
        assert lines[links[i]].request == q;
      }
    }
  }

  /** The request has run its course: nothing closes it again. */
  predicate Ended(status: RequestStatus) {
    status == Cancelled || status == Rejected || status == Completed || status == Shipped || status == IssuedToRma
  }

  lemma EndedIs(status: RequestStatus)
    ensures status in TERMINAL <==> Ended(status)
  {
  }

  predicate HeldBy(t: Tables, id: RowId, q: RequestId) {
    exists k :: 0 <= k < |t.lines| && t.lines[k].request == q && t.lines[k].unit == S.Some(id)
  }

  predicate HoldsAnother(t: Tables, id: RowId, q: RequestId) {
    exists k :: 0 <= k < |t.lines| && t.lines[k].request == q && t.lines[k].unit.Some? && t.lines[k].unit != S.Some(id)
  }

  /** A release that meets no other write strands nothing: the unit is available and no line holds it;
      an open request that held it is cancelled exactly when it held no other unit, and every other
      request stays as it was. */
  lemma ReleaseStrandsNothing(t: Tables, id: RowId, q: RequestId)
    requires Linked(t) && Check(t, id).Ok? && q < |t.requests|
    ensures var after := ReleaseOf(t, t, id, Check(t, id).value);
      && after.stock == t.stock[id := t.stock[id].(status := S.Available)]
      && (forall k :: 0 <= k < |after.lines| ==> after.lines[k].unit != S.Some(id))
      && (after.requests[q] != t.requests[q] <==>
            HeldBy(t, id, q) && !Ended(t.requests[q].status) && !HoldsAnother(t, id, q))
      && (after.requests[q] != t.requests[q] ==> after.requests[q].status == Cancelled)
  {
    ReleasingOne(t.stock, id);
    RequestAfter(t, id, q);
  }

  lemma RequestAfter(t: Tables, id: RowId, q: RequestId)
    requires Linked(t) && q < |t.requests|
    ensures var links := LinesOn(t.lines, id);
      var now := Close(t.requests, Unlinked(t.lines, links), t, links)[q];
      if HeldBy(t, id, q) && !Ended(t.requests[q].status) && !HoldsAnother(t, id, q)
      then now.status == Cancelled && now.version > t.requests[q].version else now == t.requests[q]
  {
    var links := LinesOn(t.lines, id);
    CloseIs(t.requests, Unlinked(t.lines, links), t, links, q);
    LinksOfIff(t.lines, links, q);
    HoldsAfterIff(t, id, q);
    EndedIs(t.requests[q].status);
  }

  lemma HoldsAfterIff(t: Tables, id: RowId, q: RequestId)
    ensures HoldsUnits(Unlinked(t.lines, LinesOn(t.lines, id)), q) <==> HoldsAnother(t, id, q)
    ensures HeldBy(t, id, q) <==>
      exists i :: 0 <= i < |LinesOn(t.lines, id)| && t.lines[LinesOn(t.lines, id)[i]].request == q
  {
    var links := LinesOn(t.lines, id);
    var lines := Unlinked(t.lines, links);
    if k :| 0 <= k < |t.lines| && t.lines[k].request == q && t.lines[k].unit.Some? && t.lines[k].unit != S.Some(id) {
      assert lines[k] == t.lines[k];
    }
    if k :| 0 <= k < |t.lines| && t.lines[k].request == q && t.lines[k].unit == S.Some(id) {
      assert k in links;
    }
  }

  /** The links are read before the transaction and cleared by line, not by unit: a release takes no
      other unit from a line exactly when no line it found was given another unit meanwhile. */
  lemma ReleaseSparesOtherUnitsIff(now: Tables, seen: Tables, id: RowId)
    requires Linked(seen) && Check(seen, id).Ok? && |seen.lines| <= |now.lines|
    ensures var after := ReleaseOf(now, seen, id, Check(seen, id).value);
      (forall k :: 0 <= k < |now.lines| && now.lines[k].unit != S.Some(id) ==> after.lines[k] == now.lines[k]) <==>
      (forall k :: 0 <= k < |seen.lines| && seen.lines[k].unit == S.Some(id) ==>
         now.lines[k].unit == S.None || now.lines[k].unit == S.Some(id))
  {
    var links := Check(seen, id).value;
    assert forall k :: 0 <= k < |seen.lines| ==> (k in links <==> seen.lines[k].unit == S.Some(id));
  }

  /** A line that was given another unit after the release had read it loses that one. */
  lemma OtherUnitIsTaken(now: Tables, seen: Tables, id: RowId, other: RowId, k: nat)
    requires Linked(seen) && Check(seen, id).Ok? && k < |seen.lines| <= |now.lines| && id != other
    requires seen.lines[k].unit == S.Some(id) && now.lines[k].unit == S.Some(other)
    ensures ReleaseOf(now, seen, id, Check(seen, id).value).lines[k].unit == S.None
  {
    assert k in Check(seen, id).value;
  }

  // ----- units that are in use -----

  predicate Carries(task: Task, id: RowId) {
    exists i :: 0 <= i < |task.items| && task.items[i].unit == S.Some(id)
  }

  /** A task that is not over, and so is under way, has the unit among its items. */
  predicate InUse(tasks: seq<Task>, id: RowId) {
    exists i :: 0 <= i < |tasks| && !Over(tasks[i].status) && Carries(tasks[i], id)
  }

  /** The release made a unit available that a task under way has. */
  predicate FreesInUse(before: Tables, after: Tables, id: RowId) {
    && id < |before.stock| == |after.stock| && after.stock[id].status == S.Available != before.stock[id].status
    && InUse(after.tasks, id)
  }

  /** Each task under way that has the unit is the latest of its request, and a line of that request holds
      the unit. */
  ghost predicate TasksFollowLines(t: Tables, id: RowId) {
    forall i :: 0 <= i < |t.tasks| && !Over(t.tasks[i].status) && Carries(t.tasks[i], id) ==>
      LatestTask(t.tasks, t.tasks[i].request) == S.Some(t.tasks[i]) && HeldBy(t, id, t.tasks[i].request)
  }

  /** A unit that passes the checks is in use by no task that follows the lines. */
  lemma CheckedIsNotInUse(t: Tables, id: RowId)
    requires Linked(t) && Check(t, id).Ok? && TasksFollowLines(t, id)
    ensures !InUse(t.tasks, id)
  {
  }

  /** The write looks at the status only: it frees a unit in use exactly when the unit, as it is now,
      is reserved, being picked or picked, and a task under way has it. */
  lemma ReleaseFreesInUseIff(now: Tables, seen: Tables, id: RowId)
    requires Linked(seen) && Check(seen, id).Ok?
    ensures FreesInUse(now, ReleaseOf(now, seen, id, Check(seen, id).value), id) <==>
      && id < |now.stock| && now.stock[id].status in {S.Reserved, S.Picking, S.Picked} && InUse(now.tasks, id)
  {
    ReleasingOne(now.stock, id);
  }

  /** While tasks follow the lines, it takes a change of the lines or the tasks since they were read. */
  lemma UndisturbedFreesNothingInUse(now: Tables, seen: Tables, id: RowId)
    requires Linked(seen) && Check(seen, id).Ok? && TasksFollowLines(seen, id)
    requires now.lines == seen.lines && now.tasks == seen.tasks
    ensures !FreesInUse(now, ReleaseOf(now, seen, id, Check(seen, id).value), id)
  {
    CheckedIsNotInUse(seen, id);
    ReleaseFreesInUseIff(now, seen, id);
  }

  /** The tables of the run below: a reserved unit nothing points to, and the unit as it is picked. */
  function Unclaimed(row: S.Row, request: Request): Tables { Tables([row], [], [request], []) }

  function InPicking(row: S.Row, request: Request, picked: real): Tables {
    Tables([row.(status := S.Picking)], [Line(0, S.Some(0), 0.0, S.None)], [request],
      [Task(0, TaskPicking, false, [TaskItem(S.Some(0), picked)])])
  }

  lemma InPickingIs(row: S.Row, request: Request, picked: real)
    ensures var now := InPicking(row, request, picked);
      Linked(now) && TasksFollowLines(now, 0) && InUse(now.tasks, 0)
  {
    var now := InPicking(row, request, picked);
    assert now.tasks[0].items[0].unit == S.Some(0) && now.lines[0].unit == S.Some(0);
    assert Carries(now.tasks[0], 0) && HeldBy(now, 0, 0);
  }

  /** A unit without lines passes the checks; before the write it is released, reserved again and picked
      for another request. The write frees it all the same. */
  lemma PickedUnitIsFreed(row: S.Row, request: Request, picked: real)
    requires row.status == S.Reserved
    ensures var seen, now := Unclaimed(row, request), InPicking(row, request, picked);
      && Linked(seen) && Check(seen, 0).Ok? && Linked(now) && TasksFollowLines(now, 0)
      && FreesInUse(now, ReleaseOf(now, seen, 0, Check(seen, 0).value), 0)
  {
    InPickingIs(row, request, picked);
    ReleaseFreesInUseIff(InPicking(row, request, picked), Unclaimed(row, request), 0);
  }
}

/** The approval engine as a machine: rule writes, decisions, and calls that make sure a document has
    one live chain. Each database access of such a call is its own step, so calls interleave freely. */
module Engine {
  import opened Stock
  import opened ApprovalRules
  import opened Decisions

  type InstanceId = nat

  /** Where a call that ensures a live chain stands: it reads, starts a chain if it read none, reads
      again, cancels every chain but the oldest it read, and returns that one. */
  datatype Phase =
    | MustRead | MustStart | MustReread
    | MustCancel(keep: InstanceId, extras: set<InstanceId>)
    | Returned(kept: Option<InstanceId>)

  datatype Call = Call(entityType: string, entity: string, requester: User, phase: Phase)

  datatype State = State(rules: seq<Rule>, instances: seq<Instance>, calls: seq<Call>)

  const START := State([], [], [])

  predicate LiveOn(x: Instance, entityType: string, entity: string) {
    x.status == Live && x.entityType == entityType && x.entity == entity
  }

  function LiveIds(instances: seq<Instance>, entityType: string, entity: string): set<InstanceId> {
    set i | 0 <= i < |instances| && LiveOn(instances[i], entityType, entity)
  }

  /** The first live chain of a document in (createdAt, id) order. */
  function OldestLive(instances: seq<Instance>, entityType: string, entity: string): (r: Option<InstanceId>)
    ensures r.Some? ==> r.value < |instances| && LiveOn(instances[r.value], entityType, entity)
  {
    if instances == [] then None
    else
      var n := |instances| - 1;
      var best := OldestLive(instances[..n], entityType, entity);
      if LiveOn(instances[n], entityType, entity) && (best.None? || instances[n].stamp < instances[best.value].stamp)
      then Some(n) else best
  }

  lemma {:induction false} OldestIsOldest(instances: seq<Instance>, entityType: string, entity: string)
    ensures var r := OldestLive(instances, entityType, entity);
      && (r.None? ==> LiveIds(instances, entityType, entity) == {})
      && (r.Some? ==> forall i :: i in LiveIds(instances, entityType, entity) ==>
            instances[r.value].stamp < instances[i].stamp
              || (instances[r.value].stamp == instances[i].stamp && r.value <= i))
  {
    if instances != [] {
      var front := instances[..|instances| - 1];
      OldestIsOldest(front, entityType, entity);
      assert forall i :: i in LiveIds(instances, entityType, entity) && i < |front| ==>
        i in LiveIds(front, entityType, entity);
    }
  }

  function Withdraw(instances: seq<Instance>, ids: set<InstanceId>): (r: seq<Instance>)
    ensures |r| == |instances|
    ensures forall i :: 0 <= i < |instances| ==> r[i] == WithdrawOne(instances[i], i in ids)
  {
    seq(|instances|, i requires 0 <= i < |instances| => WithdrawOne(instances[i], i in ids))
  }

  function WithdrawOne(x: Instance, extra: bool): Instance {
    if extra && x.status == Live then x.(status := Withdrawn) else x
  }

  /** After reading the live chains of the document. */
  function AfterRead(instances: seq<Instance>, call: Call, none: Phase): Phase {
    var oldest := OldestLive(instances, call.entityType, call.entity);
    if oldest.None? then none
    else MustCancel(oldest.value, LiveIds(instances, call.entityType, call.entity) - {oldest.value})
  }

  /** The next database access of call `c`; `rules` is the rule table it reads and `stamp` the place
      of the instance it creates, if it does. */
  function Advance(st: State, c: nat, rules: seq<Rule>, stamp: int): Result<State> {
    if c >= |st.calls| then Err(NotFound)
    else
      var call := st.calls[c];
      match call.phase
      case MustRead => Ok(st.(calls := st.calls[c := call.(phase := AfterRead(st.instances, call, MustStart))]))
      case MustStart =>
        var x :- StartApproval(rules, call.entityType, call.entity, call.requester, stamp, true);
        Ok(st.(instances := st.instances + [x], calls := st.calls[c := call.(phase := MustReread)]))
      case MustReread => Ok(st.(calls := st.calls[c := call.(phase := AfterRead(st.instances, call, Returned(None)))]))
      case MustCancel(keep, extras) =>
        Ok(st.(instances := Withdraw(st.instances, extras),
          calls := st.calls[c := call.(phase := Returned(Some(keep)))]))
      case Returned(_) => Err(BadRequest)
  }

  datatype RuleWrite =
    | Create(dto: RuleInput, roles: map<string, Role>)
    | Update(id: nat, dto: RuleInput, roles: map<string, Role>)
    | Activate(id: nat, active: bool, roles: map<string, Role>)

  function WriteRules(now: seq<Rule>, seen: seq<Rule>, w: RuleWrite): Result<seq<Rule>> {
    match w
    case Create(dto, roles) => CreateRule(now, seen, roles, dto)
    case Update(id, dto, roles) => UpdateRule(now, seen, roles, id, dto)
    case Activate(id, active, roles) => SetActive(now, seen, roles, id, active)
  }

  // ----- runs -----

  type History = h: seq<State> | h != [] witness [START]

  function Now(h: History): State { h[|h| - 1] }

  /** `seen` is the index of the state a call read before writing. */
  datatype Op =
    | DoWriteRule(w: RuleWrite, seen: nat)
    | DoDecide(i: InstanceId, order: int, actor: Option<Principal>, approved: bool, internal: bool, seen: nat)
    | DoStart(entityType: string, entity: string, requester: User, stamp: int, seen: nat)
    | DoEnsure(entityType: string, entity: string, requester: User)
    | DoAdvance(c: nat, stamp: int, seen: nat)

  function Step(h: History, op: Op): Result<State> {
    var st := Now(h);
    match op
    case DoWriteRule(w, seen) =>
      if seen >= |h| then Err(NotFound)
      else
        var rules :- WriteRules(st.rules, h[seen].rules, w);
        Ok(st.(rules := rules))
    case DoDecide(i, order, actor, approved, internal, seen) =>
      if seen >= |h| || i >= |h[seen].instances| || i >= |st.instances| then Err(NotFound)
      else
        var x :- Decide(st.instances[i], h[seen].instances[i], order, actor, approved, internal);
        Ok(st.(instances := st.instances[i := x]))
    case DoStart(entityType, entity, requester, stamp, seen) =>
      if seen >= |h| then Err(NotFound)
      else
        var x :- StartApproval(h[seen].rules, entityType, entity, requester, stamp, false);
        Ok(st.(instances := st.instances + [x]))
    case DoEnsure(entityType, entity, requester) =>
      Ok(st.(calls := st.calls + [Call(entityType, entity, requester, MustRead)]))
    case DoAdvance(c, stamp, seen) =>
      if seen >= |h| then Err(NotFound) else Advance(st, c, h[seen].rules, stamp)
  }

  function Next(h: History, op: Op): State {
    match Step(h, op) case Ok(st) => st case Err(_) => Now(h)
  }

  function Run(ops: seq<Op>): History {
    if ops == [] then [START]
    else var h := Run(ops[..|ops| - 1]); h + [Next(h, ops[|ops| - 1])]
  }
}

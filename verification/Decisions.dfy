/** Approval instances: starting a chain, and a decision as a check on the instance read first and
    a guarded claim on the instance as it is when written. */
module Decisions {
  import opened Stock
  import opened ApprovalRules

  datatype StepStatus = StepPending | StepApproved | StepRejected

  datatype InstanceStep = InstanceStep(order: int, role: string, status: StepStatus, actor: Option<User>)

  datatype InstanceStatus = Live | Accepted | Refused | Withdrawn

  /** `stamp` is the instance's place in (createdAt, id) order. */
  datatype Instance = Instance(
    entityType: string, entity: string, requester: Option<User>, ruleless: bool,
    status: InstanceStatus, current: int, steps: seq<InstanceStep>, stamp: int)

  const DOMAIN_OWNED := {"WithdrawalRequest"}

  const DEFAULT_STEP := InstanceStep(1, "WAREHOUSE_MANAGER", StepPending, None)

  function PendingSteps(steps: seq<RuleStep>): (r: seq<InstanceStep>)
    ensures |r| == |steps|
  {
    seq(|steps|, i requires 0 <= i < |steps| => InstanceStep(steps[i].order, steps[i].role, StepPending, None))
  }

  function StartApproval(rules: seq<Rule>, entityType: string, entity: string, requester: User, stamp: int,
        internal: bool): Result<Instance> {
    if entityType in DOMAIN_OWNED && !internal then Err(BadRequest)
    else
      var best := BestRule(rules, entityType);
      if best.None? || rules[best.value].steps == []
      then Ok(Instance(entityType, entity, Some(requester), true, Live, 0, [DEFAULT_STEP], stamp))
      else
        var steps := rules[best.value].steps;
        Ok(Instance(entityType, entity, Some(requester), false, Live, steps[0].order, PendingSteps(steps), stamp))
  }

  // ----- who may decide -----

  datatype Principal = Principal(id: User, role: string, roleKeys: set<string>, rbacAssigned: bool)

  predicate CanDecideStep(p: Principal, role: string, defaultStep: bool) {
    || "SUPER_ADMIN" in p.roleKeys
    || defaultStep
    || (if p.rbacAssigned then role in p.roleKeys else p.role == role || p.role == "SYSTEM_ADMIN")
  }

  // ----- decide -----

  function FindStep(steps: seq<InstanceStep>, p: InstanceStep -> bool, from: nat): (k: Option<nat>)
    requires from <= |steps|
    ensures k.Some? ==>
      from <= k.value < |steps| && p(steps[k.value]) && forall i :: from <= i < k.value ==> !p(steps[i])
    ensures k.None? ==> forall i :: from <= i < |steps| ==> !p(steps[i])
    decreases |steps| - from
  {
    if from == |steps| then None else if p(steps[from]) then Some(from) else FindStep(steps, p, from + 1)
  }

  function StepOf(steps: seq<InstanceStep>, order: int): Option<nat> {
    FindStep(steps, (s: InstanceStep) => s.order == order, 0)
  }

  function FirstPending(steps: seq<InstanceStep>): Option<nat> {
    FindStep(steps, (s: InstanceStep) => s.status == StepPending, 0)
  }

  function NextPending(steps: seq<InstanceStep>, order: int): Option<nat> {
    FindStep(steps, (s: InstanceStep) => s.order > order && s.status == StepPending, 0)
  }

  predicate ApprovedEarlier(steps: seq<InstanceStep>, actor: User) {
    exists i | 0 <= i < |steps| :: steps[i].status == StepApproved && steps[i].actor == Some(actor)
  }

  /** What the checks on the instance read first decide: which step, and where the chain goes next. */
  datatype Plan = Plan(step: nat, next: Option<nat>)

  function Check(seen: Instance, order: int, actor: Option<Principal>, approved: bool, internal: bool): Result<Plan> {
    if seen.entityType in DOMAIN_OWNED && !internal then Err(BadRequest)
    else if seen.status != Live then Err(BadRequest)
    else
      var step := StepOf(seen.steps, order);
      if step.None? then Err(NotFound)
      else if seen.steps[step.value].status != StepPending then Err(BadRequest)
      else
        var current := FirstPending(seen.steps);
        if current.Some? && seen.steps[current.value].order != order then Err(BadRequest)
        else if actor.None? then Err(Forbidden)
        else if !CanDecideStep(actor.value, seen.steps[step.value].role, seen.ruleless) then Err(Forbidden)
        else if approved && actor.value.id != "" && seen.requester == Some(actor.value.id) then Err(Forbidden)
        else if approved && ApprovedEarlier(seen.steps, actor.value.id) then Err(Forbidden)
        else Ok(Plan(step.value, if approved then NextPending(seen.steps, order) else None))
  }

  /** The claim transaction on the instance as it is now. */
  function Claim(now: Instance, seen: Instance, plan: Plan, actor: User, approved: bool): Result<Instance>
    requires plan.step < |seen.steps| && (plan.next.Some? ==> plan.next.value < |seen.steps|)
  {
    if plan.step >= |now.steps| || now.steps[plan.step].status != StepPending then Err(Conflict)
    else if now.status != Live then Err(Conflict)
    else
      var status := if approved then StepApproved else StepRejected;
      var decided := now.steps[plan.step].(status := status, actor := Some(actor));
      var claimed := now.(steps := now.steps[plan.step := decided]);
      Ok(if !approved then claimed.(status := Refused)
         else if plan.next.Some? then claimed.(current := seen.steps[plan.next.value].order)
         else claimed.(status := Accepted, current := seen.steps[plan.step].order))
  }

  function Decide(now: Instance, seen: Instance, order: int, actor: Option<Principal>, approved: bool,
        internal: bool): Result<Instance> {
    var plan :- Check(seen, order, actor, approved, internal);
    Claim(now, seen, plan, actor.value.id, approved)
  }

  // ----- what every instance satisfies -----

  predicate Increasing(steps: seq<InstanceStep>) {
    forall i, j | 0 <= i < j < |steps| :: steps[i].order < steps[j].order
  }

  predicate AllPending(steps: seq<InstanceStep>, from: nat) {
    forall i | from <= i < |steps| :: steps[i].status == StepPending && steps[i].actor == None
  }

  predicate AllApproved(steps: seq<InstanceStep>, to: nat) {
    forall i | 0 <= i < to && i < |steps| :: steps[i].status == StepApproved
  }

  /** The first `p` steps are approved, by people who differ from each other and from the requester
      (a requester without an id is never compared). */
  predicate ApprovedBy(steps: seq<InstanceStep>, requester: Option<User>, p: nat)
    requires p <= |steps|
  {
    && AllApproved(steps, p)
    && (forall i | 0 <= i < p :: steps[i].actor.Some? && (steps[i].actor == Some("") || steps[i].actor != requester))
    && (forall i, j | 0 <= i < j < p :: steps[i].actor != steps[j].actor)
  }

  /** `p` approved steps; then, by status, all pending, none left, or one rejected and the rest pending. */
  predicate ChainAt(x: Instance, p: nat) {
    && p <= |x.steps| && ApprovedBy(x.steps, x.requester, p)
    && match x.status
       case Accepted => p == |x.steps|
       case Refused => p < |x.steps| && x.steps[p].status == StepRejected && AllPending(x.steps, p + 1)
       case _ => p < |x.steps| && AllPending(x.steps, p)
  }

  ghost predicate ChainOk(x: Instance) {
    Increasing(x.steps) && exists p: nat :: ChainAt(x, p)
  }

  /** Later versions of an instance: decided steps and final statuses stay as they are. */
  ghost predicate Grows(a: Instance, b: Instance) {
    && b.entityType == a.entityType && b.entity == a.entity && b.requester == a.requester
    && b.ruleless == a.ruleless && b.stamp == a.stamp
    && |b.steps| == |a.steps|
    && (forall i :: 0 <= i < |a.steps| ==>
          && b.steps[i].order == a.steps[i].order && b.steps[i].role == a.steps[i].role
          && (a.steps[i].status != StepPending ==> b.steps[i] == a.steps[i]))
    && (a.status != Live ==> b.status == a.status)
  }

  /** What the invariant says in the terms of the documentation. */
  lemma ChainMeaning(x: Instance)
    requires ChainOk(x)
    ensures forall i, j :: 0 <= i < j < |x.steps| && x.steps[j].status == StepApproved ==>
      x.steps[i].status == StepApproved && x.steps[i].actor != x.steps[j].actor
    ensures forall i :: 0 <= i < |x.steps| && x.steps[i].status == StepApproved ==>
      x.steps[i].actor.Some? && (x.steps[i].actor.value != "" ==> x.steps[i].actor != x.requester)
    ensures x.status == Accepted <==> forall i :: 0 <= i < |x.steps| ==> x.steps[i].status == StepApproved
    ensures x.status == Refused <==> exists i :: 0 <= i < |x.steps| && OnlyRejection(x.steps, i)
  {
    var p: nat :| ChainAt(x, p);
    if x.status == Refused {
      assert OnlyRejection(x.steps, p);
    } else {
      forall i | 0 <= i < |x.steps| ensures x.steps[i].status != StepRejected {
        assert i < p ==> x.steps[i].status == StepApproved;
      }
    }
    if x.status != Accepted { assert x.steps[p].status != StepApproved; }
  }

  /** Step `i` is the one rejected step and nothing after it was decided. */
  predicate OnlyRejection(steps: seq<InstanceStep>, i: nat)
    requires i < |steps|
  {
    && steps[i].status == StepRejected && AllPending(steps, i + 1)
    && forall j | 0 <= j < i :: steps[j].status != StepRejected
  }

  lemma PlanIsTheFirstPending(seen: Instance, p: nat, order: int, actor: Option<Principal>, approved: bool,
        internal: bool)
    requires Increasing(seen.steps) && ChainAt(seen, p) && Check(seen, order, actor, approved, internal).Ok?
    ensures var plan := Check(seen, order, actor, approved, internal).value;
      && plan.step == p && seen.status == Live && p < |seen.steps| && seen.steps[p].order == order
      && (approved ==> (plan.next.Some? <==> p + 1 < |seen.steps|))
      && (plan.next.Some? ==> plan.next.value == p + 1)
  {
    var plan := Check(seen, order, actor, approved, internal).value;
    assert FirstPending(seen.steps) == Some(p) by { assert seen.steps[p].status == StepPending; }
    assert seen.steps[plan.step].order == seen.steps[p].order;
    assert plan.step == p;
    if approved && p + 1 < |seen.steps| {
      assert seen.steps[p + 1].order > order && seen.steps[p + 1].status == StepPending;
    }
  }

  /** A decision that gets through found the chain exactly as it had read it: nothing was decided in
      between, however stale the read was allowed to be. */
  lemma AcceptedDecisionIsCurrent(now: Instance, seen: Instance, order: int, actor: Option<Principal>,
        approved: bool, internal: bool)
    requires ChainOk(seen) && ChainOk(now) && Grows(seen, now)
    requires Decide(now, seen, order, actor, approved, internal).Ok?
    ensures now.steps == seen.steps && now.status == seen.status == Live
  {
    var p: nat :| ChainAt(seen, p);
    var q: nat :| ChainAt(now, q);
    PlanIsTheFirstPending(seen, p, order, actor, approved, internal);
    assert now.steps[p].status == StepPending && q <= p;
    if q < p { assert seen.steps[q].status == StepApproved && now.steps[q] == seen.steps[q]; }
  }

  /** One more approver, different from those before, keeps the approvals in order. */
  lemma ApproverJoins(steps: seq<InstanceStep>, requester: Option<User>, p: nat, actor: User)
    requires p < |steps| && ApprovedBy(steps, requester, p)
    requires (actor == "" || requester != Some(actor)) && !ApprovedEarlier(steps, actor)
    ensures ApprovedBy(steps[p := steps[p].(status := StepApproved, actor := Some(actor))], requester, p + 1)
  {
    forall i | 0 <= i < p ensures steps[i].actor != Some(actor) {
      assert steps[i].status == StepApproved;
    }
  }

  /** What the claim of the first pending step `p` needs. */
  predicate Claimable(now: Instance, seen: Instance, p: nat, plan: Plan, approved: bool) {
    && Increasing(now.steps) && ChainAt(now, p) && now.status == Live && now.steps == seen.steps
    && plan.step == p && (plan.next.Some? ==> plan.next.value == p + 1 < |seen.steps|)
    && (approved ==> (plan.next.Some? <==> p + 1 < |seen.steps|))
  }

  lemma ClaimGrows(now: Instance, seen: Instance, p: nat, plan: Plan, actor: User, approved: bool)
    requires Claimable(now, seen, p, plan, approved)
    ensures Claim(now, seen, plan, actor, approved).Ok?
    ensures var d := Claim(now, seen, plan, actor, approved).value;
      && |d.steps| == |now.steps| && Increasing(d.steps) && Grows(now, d)
      && (d.status == Live ==> p + 1 < |d.steps|)
      && d.current == (if d.status == Live then d.steps[p + 1].order
                       else if approved then now.steps[p].order else now.current)
  {
  }

  /** The claim of the first pending step `p`, by an actor who may approve it. */
  lemma ClaimAt(now: Instance, seen: Instance, p: nat, plan: Plan, actor: User, approved: bool)
    requires Claimable(now, seen, p, plan, approved)
    requires approved ==> (actor == "" || now.requester != Some(actor)) && !ApprovedEarlier(now.steps, actor)
    ensures Claim(now, seen, plan, actor, approved).Ok?
    ensures ChainAt(Claim(now, seen, plan, actor, approved).value, if approved then p + 1 else p)
  {
    if approved { ApproverJoins(now.steps, now.requester, p, actor); }
  }

  lemma CheckedActor(seen: Instance, order: int, actor: Option<Principal>, approved: bool, internal: bool)
    requires Check(seen, order, actor, approved, internal).Ok?
    ensures actor.Some?
    ensures approved ==>
      (actor.value.id == "" || seen.requester != Some(actor.value.id)) && !ApprovedEarlier(seen.steps, actor.value.id)
  {
  }

  /** A decision keeps the chain in order, whatever version of the instance it had read, and moves
      `current` to the first step still pending. */
  lemma DecisionKeepsChain(now: Instance, seen: Instance, order: int, actor: Option<Principal>, approved: bool,
        internal: bool)
    requires ChainOk(seen) && ChainOk(now) && Grows(seen, now)
    requires Decide(now, seen, order, actor, approved, internal).Ok?
    ensures var d := Decide(now, seen, order, actor, approved, internal).value;
      && ChainOk(d) && Grows(now, d)
      && (d.status == Live ==> FirstPending(d.steps).Some? && d.current == d.steps[FirstPending(d.steps).value].order)
      && (d.status == Refused <==> !approved)
  {
    var p := CheckedPlan(now, seen, order, actor, approved, internal);
    var plan := Check(seen, order, actor, approved, internal).value;
    ClaimGrows(now, seen, p, plan, actor.value.id, approved);
    ClaimAt(now, seen, p, plan, actor.value.id, approved);
    var d := Decide(now, seen, order, actor, approved, internal).value;
    if d.status == Live { FirstPendingAt(d, if approved then p + 1 else p); }
  }

  lemma FirstPendingAt(x: Instance, p: nat)
    requires ChainAt(x, p) && x.status == Live
    ensures FirstPending(x.steps) == Some(p)
  {
    assert x.steps[p].status == StepPending;
  }

  /** The snapshot's chain, its next step and its actor, as the claim needs them. */
  lemma CheckedPlan(now: Instance, seen: Instance, order: int, actor: Option<Principal>, approved: bool, internal: bool)
    returns (p: nat)
    requires ChainOk(seen) && ChainOk(now) && Grows(seen, now)
    requires Decide(now, seen, order, actor, approved, internal).Ok?
    ensures ChainAt(now, p) && now.steps == seen.steps && now.status == Live && actor.Some?
    ensures var plan := Check(seen, order, actor, approved, internal).value;
      && plan.step == p && (plan.next.Some? ==> plan.next.value == p + 1 < |seen.steps|)
      && (approved ==> (plan.next.Some? <==> p + 1 < |seen.steps|))
    ensures approved ==>
      (actor.value.id == "" || now.requester != Some(actor.value.id)) && !ApprovedEarlier(now.steps, actor.value.id)
  {
    AcceptedDecisionIsCurrent(now, seen, order, actor, approved, internal);
    p :| ChainAt(seen, p);
    PlanIsTheFirstPending(seen, p, order, actor, approved, internal);
    CheckedActor(seen, order, actor, approved, internal);
  }

  /** Starting a chain from a rule with numbered steps gives an untouched, ordered one. */
  lemma StartedChain(rules: seq<Rule>, entityType: string, entity: string, requester: User, stamp: int, internal: bool)
    requires forall i :: 0 <= i < |rules| ==> StepsNumbered(rules[i])
    requires StartApproval(rules, entityType, entity, requester, stamp, internal).Ok?
    ensures ChainOk(StartApproval(rules, entityType, entity, requester, stamp, internal).value)
  {
    BestRuleIsBest(rules, entityType);
    assert ChainAt(StartApproval(rules, entityType, entity, requester, stamp, internal).value, 0);
  }

  lemma WithdrawnChain(x: Instance)
    requires ChainOk(x) && x.status == Live
    ensures ChainOk(x.(status := Withdrawn)) && Grows(x, x.(status := Withdrawn))
  {
    var p: nat :| ChainAt(x, p);
    assert ChainAt(x.(status := Withdrawn), p);
  }

  lemma GrowsTransitive(a: Instance, b: Instance, c: Instance)
    requires Grows(a, b) && Grows(b, c)
    ensures Grows(a, c)
  {
  }
}

/** Who may decide a step, what the decision does, and that nobody else ever decided one. */
module DecisionRights {
  import opened Stock
  import opened ApprovalRules
  import opened Decisions
  import opened Engine
  import opened EngineRuns

  /** The principal holds the role of the step: as a database role, or as their own role before they were
      given database roles; a super admin decides everything, and a step without a rule is open. */
  predicate Entitled(p: Principal, role: string, ruleless: bool) {
    || "SUPER_ADMIN" in p.roleKeys
    || ruleless
    || (p.rbacAssigned && role in p.roleKeys)
    || (!p.rbacAssigned && (p.role == role || p.role == "SYSTEM_ADMIN"))
  }

  /** Step `k` is the first one still to be decided. */
  predicate IsNextStep(x: Instance, k: nat) {
    && x.status == Live && k < |x.steps| && x.steps[k].status == StepPending
    && forall j | 0 <= j < k :: x.steps[j].status == StepApproved
  }

  /** The approver neither asked for the approval nor approved an earlier step. */
  predicate Independent(x: Instance, p: Principal) {
    && (p.id == "" || x.requester != Some(p.id))
    && forall j | 0 <= j < |x.steps| :: x.steps[j].status == StepApproved ==> x.steps[j].actor != Some(p.id)
  }

  predicate MayDecide(x: Instance, k: nat, order: int, actor: Option<Principal>, approved: bool, internal: bool) {
    && IsNextStep(x, k) && x.steps[k].order == order
    && (x.entityType == "WithdrawalRequest" ==> internal)
    && actor.Some? && Entitled(actor.value, x.steps[k].role, x.ruleless)
    && (approved ==> Independent(x, actor.value))
  }

  /** Step `k` decided: a rejection ends the chain, an approval moves it to the next step or, after the last
      one, accepts it. */
  function AfterDecision(x: Instance, k: nat, user: User, approved: bool): Instance
    requires k < |x.steps|
  {
    var done := InstanceStep(x.steps[k].order, x.steps[k].role,
                             if approved then StepApproved else StepRejected, Some(user));
    var last := k + 1 == |x.steps|;
    Instance(x.entityType, x.entity, x.requester, x.ruleless,
      if !approved then Refused else if last then Accepted else Live,
      if !approved then x.current else if last then x.steps[k].order else x.steps[k + 1].order,
      x.steps[k := done], x.stamp)
  }

  lemma StepOfIs(steps: seq<InstanceStep>, k: nat)
    requires Increasing(steps) && k < |steps|
    ensures StepOf(steps, steps[k].order) == Some(k)
  {
    var r := StepOf(steps, steps[k].order);
    assert steps[r.value].order == steps[k].order;
  }

  lemma FirstPendingIs(x: Instance, k: nat)
    requires IsNextStep(x, k)
    ensures FirstPending(x.steps) == Some(k)
  {
  }

  lemma NextPendingIs(x: Instance, k: nat)
    requires Increasing(x.steps) && ChainAt(x, k) && x.status == Live
    ensures NextPending(x.steps, x.steps[k].order) == if k + 1 < |x.steps| then Some(k + 1) else None
  {
    var r := NextPending(x.steps, x.steps[k].order);
    if k + 1 < |x.steps| { assert x.steps[k + 1].order > x.steps[k].order && x.steps[k + 1].status == StepPending; }
    if r.Some? { assert r.value > k; }
  }

  lemma NextStepOf(x: Instance, k: nat)
    requires ChainOk(x) && IsNextStep(x, k)
    ensures Increasing(x.steps) && ChainAt(x, k)
  {
    var p: nat :| ChainAt(x, p);
    assert x.steps[p].status == StepPending;
    assert AllApproved(x.steps, p);
    assert p == k;
  }

  /** The checks on the chain as read let a decision pass exactly when it may be made. */
  lemma CheckPassesIff(x: Instance, order: int, actor: Option<Principal>, approved: bool, internal: bool)
    requires ChainOk(x)
    ensures Check(x, order, actor, approved, internal).Ok? <==>
      exists k: nat :: MayDecide(x, k, order, actor, approved, internal)
    ensures forall k: nat :: MayDecide(x, k, order, actor, approved, internal) ==>
      Check(x, order, actor, approved, internal) ==
        Ok(Plan(k, if approved && k + 1 < |x.steps| then Some(k + 1) else None))
  {
    var r := Check(x, order, actor, approved, internal);
    if r.Ok? {
      var p: nat :| ChainAt(x, p);
      PlanIsTheFirstPending(x, p, order, actor, approved, internal);
      assert MayDecide(x, p, order, actor, approved, internal);
    }
    forall k: nat | MayDecide(x, k, order, actor, approved, internal)
      ensures r == Ok(Plan(k, if approved && k + 1 < |x.steps| then Some(k + 1) else None))
    {
      NextStepOf(x, k);
      StepOfIs(x.steps, k);
      FirstPendingIs(x, k);
      NextPendingIs(x, k);
    }
  }

  /** The decision is made on step `k` as read, and finds the step and the chain still open when written. */
  predicate Decides(h: History, op: Op, k: nat) {
    && op.DoDecide? && op.seen < |h| && op.i < |h[op.seen].instances| && op.i < |Now(h).instances|
    && MayDecide(h[op.seen].instances[op.i], k, op.order, op.actor, op.approved, op.internal)
    && var now := Now(h).instances[op.i];
       now.status == Live && k < |now.steps| && now.steps[k].status == StepPending
  }

  lemma ChainAsRead(ops: seq<Op>, seen: nat, i: InstanceId)
    requires seen < |Run(ops)| && i < |Run(ops)[seen].instances|
    ensures i < |Now(Run(ops)).instances|
    ensures var x, now := Run(ops)[seen].instances[i], Now(Run(ops)).instances[i];
      ChainOk(x) && ChainOk(now) && Grows(x, now)
  {
    RunCoherent(ops);
    assert Sound(Run(ops)[seen]) && Evolves(Run(ops)[seen], Now(Run(ops)));
  }

  /** A decision is accepted exactly when it is on the first step still pending as read, by somebody
      entitled to decide it and, for an approval, independent, on a path open for the type, and step and
      chain are still open when it is written. It decides that step and nothing else. */
  lemma DecideIs(ops: seq<Op>, op: Op)
    requires op.DoDecide?
    ensures var h := Run(ops);
      && (Step(h, op).Ok? <==> exists k: nat :: Decides(h, op, k))
      && forall k: nat :: Decides(h, op, k) ==>
           Step(h, op) == Ok(Now(h).(instances :=
             Now(h).instances[op.i := AfterDecision(Now(h).instances[op.i], k, op.actor.value.id, op.approved)]))
  {
    var h := Run(ops);
    if op.seen < |h| && op.i < |h[op.seen].instances| && op.i < |Now(h).instances| {
      ChainAsRead(ops, op.seen, op.i);
      var x, now := h[op.seen].instances[op.i], Now(h).instances[op.i];
      CheckPassesIff(x, op.order, op.actor, op.approved, op.internal);
      if Step(h, op).Ok? {
        var k: nat :| MayDecide(x, k, op.order, op.actor, op.approved, op.internal);
        assert Decides(h, op, k);
      }
      forall k: nat | Decides(h, op, k)
        ensures Step(h, op) == Ok(Now(h).(instances :=
          Now(h).instances[op.i := AfterDecision(now, k, op.actor.value.id, op.approved)]))
      {
        DecidedAs(x, now, k, op);
      }
    }
  }

  lemma DecidedAs(x: Instance, now: Instance, k: nat, op: Op)
    requires op.DoDecide? && ChainOk(x) && Grows(x, now)
    requires MayDecide(x, k, op.order, op.actor, op.approved, op.internal)
    requires now.status == Live && now.steps[k].status == StepPending
    ensures Decide(now, x, op.order, op.actor, op.approved, op.internal) ==
      Ok(AfterDecision(now, k, op.actor.value.id, op.approved))
  {
    CheckPassesIff(x, op.order, op.actor, op.approved, op.internal);
  }

  predicate HasStep(x: Instance, order: int) {
    exists k | 0 <= k < |x.steps| :: x.steps[k].order == order
  }

  predicate IsNextOrder(x: Instance, order: int) {
    exists k | 0 <= k < |x.steps| :: IsNextStep(x, k) && x.steps[k].order == order
  }

  lemma LiveRefusal(x: Instance, p: nat, order: int, actor: Option<Principal>, approved: bool, internal: bool)
    requires Increasing(x.steps) && ChainAt(x, p) && x.status == Live
    requires x.entityType == "WithdrawalRequest" ==> internal
    requires Check(x, order, actor, approved, internal).Err?
    ensures Check(x, order, actor, approved, internal).error ==
      if !HasStep(x, order) then NotFound else if x.steps[p].order != order then BadRequest else Forbidden
  {
    FirstPendingIs(x, p);
    if k :| 0 <= k < |x.steps| && x.steps[k].order == order { StepOfIs(x.steps, k); }
  }

  lemma NextOrderIs(x: Instance, p: nat, order: int)
    requires Increasing(x.steps) && ChainAt(x, p) && x.status == Live
    ensures IsNextOrder(x, order) <==> x.steps[p].order == order
  {
    assert IsNextStep(x, p);
    forall k | 0 <= k < |x.steps| && IsNextStep(x, k) ensures k == p {
      FirstPendingIs(x, k);
      FirstPendingIs(x, p);
    }
  }

  lemma CheckRefusalIs(x: Instance, order: int, actor: Option<Principal>, approved: bool, internal: bool)
    requires ChainOk(x) && Check(x, order, actor, approved, internal).Err?
    ensures Check(x, order, actor, approved, internal).error ==
      if (x.entityType == "WithdrawalRequest" && !internal) || x.status != Live then BadRequest
      else if !HasStep(x, order) then NotFound
      else if !IsNextOrder(x, order) then BadRequest
      else Forbidden
  {
    if x.status == Live && (x.entityType == "WithdrawalRequest" ==> internal) {
      var p: nat :| ChainAt(x, p);
      LiveRefusal(x, p, order, actor, approved, internal);
      NextOrderIs(x, p, order);
    }
  }

  /** Why a decision is refused: the first check that fails on the chain as read, or else a conflict with
      the chain as it is when written. */
  lemma RefusalIs(ops: seq<Op>, op: Op)
    requires op.DoDecide? && op.seen < |Run(ops)| && op.i < |Run(ops)[op.seen].instances|
    requires Step(Run(ops), op).Err?
    ensures var x, e := Run(ops)[op.seen].instances[op.i], Step(Run(ops), op).error;
      e == if (x.entityType == "WithdrawalRequest" && !op.internal) || x.status != Live then BadRequest
           else if !HasStep(x, op.order) then NotFound
           else if !IsNextOrder(x, op.order) then BadRequest
           else if forall k: nat :: !MayDecide(x, k, op.order, op.actor, op.approved, op.internal) then Forbidden
           else Conflict
  {
    var x := Run(ops)[op.seen].instances[op.i];
    ChainAsRead(ops, op.seen, op.i);
    CheckPassesIff(x, op.order, op.actor, op.approved, op.internal);
    if Check(x, op.order, op.actor, op.approved, op.internal).Err? {
      CheckRefusalIs(x, op.order, op.actor, op.approved, op.internal);
    } else {
      var k: nat :| MayDecide(x, k, op.order, op.actor, op.approved, op.internal);
      assert HasStep(x, op.order) && IsNextOrder(x, op.order);
    }
  }

  // ----- over runs -----

  /** The `n`-th request was an accepted decision of step `k` of chain `i`, by somebody entitled to it whose
      name stands on the step. */
  ghost predicate DecidedAt(ops: seq<Op>, n: nat, i: InstanceId, x: Instance, k: nat)
    requires k < |x.steps|
  {
    && n < |ops| && ops[n].DoDecide? && ops[n].i == i && Step(Run(ops[..n]), ops[n]).Ok?
    && ops[n].actor.Some? && x.steps[k].actor == Some(ops[n].actor.value.id)
    && x.steps[k].status == (if ops[n].approved then StepApproved else StepRejected)
    && Entitled(ops[n].actor.value, x.steps[k].role, x.ruleless)
    && (x.entityType == "WithdrawalRequest" ==> ops[n].internal)
  }

  /** An accepted request other than a decision of chain `i` decides no step of it. */
  lemma OthersDecideNothing(h: History, op: Op, i: InstanceId, k: nat)
    requires Coherent(h) && Step(h, op).Ok? && !(op.DoDecide? && op.i == i)
    requires i < |Step(h, op).value.instances| && k < |Step(h, op).value.instances[i].steps|
    requires Step(h, op).value.instances[i].steps[k].status != StepPending
    ensures i < |Now(h).instances| && k < |Now(h).instances[i].steps|
    ensures Step(h, op).value.instances[i].steps[k] == Now(h).instances[i].steps[k]
  {
  }

  /** The step decided by an accepted decision was decided by the one who made it. */
  lemma DeciderIsNamed(ops: seq<Op>, op: Op, k: nat)
    requires op.DoDecide? && Step(Run(ops), op).Ok?
    requires var d := Step(Run(ops), op).value.instances[op.i];
      k < |d.steps| && d.steps[k].status != StepPending
    requires var now := Now(Run(ops)).instances[op.i]; k < |now.steps| && now.steps[k].status == StepPending
    ensures var x := Step(Run(ops), op).value.instances[op.i];
      && op.actor.Some? && x.steps[k].actor == Some(op.actor.value.id)
      && x.steps[k].status == (if op.approved then StepApproved else StepRejected)
      && Entitled(op.actor.value, x.steps[k].role, x.ruleless)
      && (x.entityType == "WithdrawalRequest" ==> op.internal)
  {
    var h := Run(ops);
    DecideIs(ops, op);
    ChainAsRead(ops, op.seen, op.i);
    var j: nat :| Decides(h, op, j);
    assert j == k;
  }

  lemma StaysDecided(ops: seq<Op>, n: nat, i: InstanceId, x: Instance, k: nat, op: Op)
    requires k < |x.steps| && DecidedAt(ops, n, i, x, k)
    ensures DecidedAt(ops + [op], n, i, x, k)
  {
    assert (ops + [op])[..n] == ops[..n];
  }

  /** The request is an accepted decision of chain `i` and step `k` is not decided before it. */
  predicate DecidesNow(ops: seq<Op>, op: Op, i: InstanceId, k: nat) {
    && Step(Run(ops), op).Ok? && op.DoDecide? && op.i == i
    && var now := Now(Run(ops)).instances[i];
       k < |now.steps| && now.steps[k].status == StepPending
  }

  /** A step that was decided before the last request is still decided by the same one after it. */
  lemma StillDecided(ops: seq<Op>, op: Op, i: InstanceId, k: nat)
    requires i < |Now(Run(ops)).instances| && i < |Next(Run(ops), op).instances|
    requires var a, b := Now(Run(ops)).instances[i], Next(Run(ops), op).instances[i];
      && k < |a.steps| && k < |b.steps| && a.steps[k] == b.steps[k]
      && a.ruleless == b.ruleless && a.entityType == b.entityType
    requires exists n :: DecidedAt(ops, n, i, Now(Run(ops)).instances[i], k)
    ensures exists n :: DecidedAt(ops + [op], n, i, Next(Run(ops), op).instances[i], k)
  {
    var n :| DecidedAt(ops, n, i, Now(Run(ops)).instances[i], k);
    StaysDecided(ops, n, i, Next(Run(ops), op).instances[i], k, op);
  }

  lemma DecidedEarlier(ops: seq<Op>, op: Op, i: InstanceId, k: nat)
    requires i < |Next(Run(ops), op).instances|
    requires var x := Next(Run(ops), op).instances[i]; k < |x.steps| && x.steps[k].status != StepPending
    requires !DecidesNow(ops, op, i, k)
    ensures i < |Now(Run(ops)).instances|
    ensures var a, b := Now(Run(ops)).instances[i], Next(Run(ops), op).instances[i];
      && k < |a.steps| && a.steps[k] == b.steps[k] && a.ruleless == b.ruleless && a.entityType == b.entityType
  {
    var h := Run(ops);
    RunCoherent(ops);
    if Step(h, op).Ok? {
      StepKeeps(h, op);
      if !(op.DoDecide? && op.i == i) { OthersDecideNothing(h, op, i, k); }
      assert Grows(Now(h).instances[i], Next(h, op).instances[i]);
    }
  }

  /** Over any run, every step that was ever decided was decided by an accepted decision of somebody
      entitled to it, on a path open for its type. */
  lemma {:induction false} EveryDeciderWasEntitled(ops: seq<Op>, i: InstanceId, k: nat)
    requires i < |Now(Run(ops)).instances| && k < |Now(Run(ops)).instances[i].steps|
    requires Now(Run(ops)).instances[i].steps[k].status != StepPending
    ensures exists n :: DecidedAt(ops, n, i, Now(Run(ops)).instances[i], k)
  {
    if ops != [] {
      var front, op := ops[..|ops| - 1], ops[|ops| - 1];
      assert ops == front + [op];
      if DecidesNow(front, op, i, k) {
        DeciderIsNamed(front, op, k);
        assert DecidedAt(ops, |front|, i, Now(Run(ops)).instances[i], k) by { assert ops[..|front|] == front; }
      } else {
        DecidedEarlier(front, op, i, k);
        EveryDeciderWasEntitled(front, i, k);
        StillDecided(front, op, i, k);
      }
    }
  }
}

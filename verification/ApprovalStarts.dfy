/** Which chain a started approval gets: the steps of the best rule of its type, over any run. */
module ApprovalStarts {
  import opened Stock
  import opened ApprovalRules
  import opened Decisions
  import opened Engine
  import opened EngineRuns

  /** The chain has the steps of the rule, in its order, each for the rule's role. */
  predicate FollowsRule(x: Instance, rule: Rule) {
    && !x.ruleless && |x.steps| == |rule.steps|
    && forall k | 0 <= k < |x.steps| :: x.steps[k].order == rule.steps[k].order && x.steps[k].role == rule.steps[k].role
  }

  /** The chain has one step for the warehouse manager and follows no rule. */
  predicate IsDefault(x: Instance) {
    x.ruleless && |x.steps| == 1 && x.steps[0].order == 1 && x.steps[0].role == "WAREHOUSE_MANAGER"
  }

  /** The type has an active rule. */
  predicate HasRule(rules: seq<Rule>, entityType: string) {
    exists i | 0 <= i < |rules| :: rules[i].active && rules[i].entityType == entityType
  }

  /** The chain follows an active rule of its type with the highest priority, or is the default one when
      the type has no active rule. */
  ghost predicate FollowsBest(x: Instance, rules: seq<Rule>) {
    if HasRule(rules, x.entityType) then exists b: nat :: IsBest(rules, x.entityType, b) && FollowsRule(x, rules[b])
    else IsDefault(x)
  }

  /** What every new chain has in common. */
  predicate Fresh(x: Instance, entityType: string, entity: string, requester: User, stamp: int) {
    && x.entityType == entityType && x.entity == entity && x.requester == Some(requester) && x.stamp == stamp
    && x.status == Live && forall k | 0 <= k < |x.steps| :: x.steps[k].status == StepPending && x.steps[k].actor == None
  }

  /** An approval is refused exactly for a withdrawal request from outside its workflow. Otherwise it starts
      an untouched chain that follows a best rule, or the default chain when the best rule it meets has
      no steps or there is none. */
  lemma StartIs(rules: seq<Rule>, entityType: string, entity: string, requester: User, stamp: int, internal: bool)
    ensures var r := StartApproval(rules, entityType, entity, requester, stamp, internal);
      && (r.Err? <==> entityType == "WithdrawalRequest" && !internal)
      && (r.Err? ==> r.error == BadRequest)
      && (r.Ok? ==>
            var x := r.value;
            && Fresh(x, entityType, entity, requester, stamp)
            && ((exists b: nat :: IsBest(rules, entityType, b) && rules[b].steps != [] && FollowsRule(x, rules[b])
                             && x.current == rules[b].steps[0].order)
                || (IsDefault(x)
                    && (!HasRule(rules, entityType)
                        || exists b: nat :: IsBest(rules, entityType, b) && rules[b].steps == []))))
  {
    BestRuleIsBest(rules, entityType);
    var best := BestRule(rules, entityType);
    if best.None? { assert !HasRule(rules, entityType); } else { assert IsBest(rules, entityType, best.value); }
  }

  /** When no rule is without steps, the chain follows a best rule exactly when the type has an active one. */
  lemma StartFollowsBest(rules: seq<Rule>, entityType: string, entity: string, requester: User, stamp: int,
        internal: bool)
    requires forall i :: 0 <= i < |rules| ==> rules[i].steps != []
    requires entityType == "WithdrawalRequest" ==> internal
    ensures var r := StartApproval(rules, entityType, entity, requester, stamp, internal);
      && r.Ok? && Fresh(r.value, entityType, entity, requester, stamp) && FollowsBest(r.value, rules)
      && (r.value.ruleless <==> !HasRule(rules, entityType))
  {
    StartIs(rules, entityType, entity, requester, stamp, internal);
    var x := StartApproval(rules, entityType, entity, requester, stamp, internal).value;
    if b: nat :| IsBest(rules, entityType, b) && rules[b].steps != [] && FollowsRule(x, rules[b]) {
      assert rules[b].active && rules[b].entityType == entityType;
    }
  }

  // ----- over runs -----

  /** The chain follows the rules as they stood in some state of the run. */
  ghost predicate FollowsSome(h: History, x: Instance) {
    exists m :: 0 <= m < |h| && FollowsBest(x, h[m].rules)
  }

  lemma GrownStillFollows(a: Instance, b: Instance, rules: seq<Rule>)
    requires Grows(a, b) && FollowsBest(a, rules)
    ensures FollowsBest(b, rules)
  {
    if r: nat :| IsBest(rules, a.entityType, r) && FollowsRule(a, rules[r]) { assert FollowsRule(b, rules[r]); }
  }

  lemma SoundRulesHaveSteps(st: State)
    requires Sound(st)
    ensures forall i :: 0 <= i < |st.rules| ==> st.rules[i].steps != []
  {
    forall i | 0 <= i < |st.rules| ensures st.rules[i].steps != [] { assert StepsNumbered(st.rules[i]); }
  }

  lemma NewChainFollows(h: History, op: Op)
    requires Coherent(h) && Step(h, op).Ok? && |Step(h, op).value.instances| > |Now(h).instances|
    ensures var d := Step(h, op).value;
      |d.instances| == |Now(h).instances| + 1 && FollowsSome(h, d.instances[|Now(h).instances|])
  {
    SoundRulesHaveSteps(h[op.seen]);
    var rules := h[op.seen].rules;
    if op.DoStart? {
      StartIs(rules, op.entityType, op.entity, op.requester, op.stamp, false);
      StartFollowsBest(rules, op.entityType, op.entity, op.requester, op.stamp, false);
    } else {
      var call := Now(h).calls[op.c];
      StartFollowsBest(rules, call.entityType, call.entity, call.requester, op.stamp, true);
    }
    assert FollowsBest(Step(h, op).value.instances[|Now(h).instances|], h[op.seen].rules);
  }

  lemma StillFollows(h: History, op: Op, i: InstanceId)
    requires Coherent(h) && i < |Now(h).instances| && FollowsSome(h, Now(h).instances[i])
    ensures i < |Next(h, op).instances| && FollowsSome(h + [Next(h, op)], Next(h, op).instances[i])
  {
    var m :| 0 <= m < |h| && FollowsBest(Now(h).instances[i], h[m].rules);
    if Step(h, op).Ok? {
      StepKeeps(h, op);
      GrownStillFollows(Now(h).instances[i], Next(h, op).instances[i], h[m].rules);
    }
    assert (h + [Next(h, op)])[m] == h[m];
  }

  lemma FollowsOn(h: History, st: State, x: Instance)
    requires FollowsSome(h, x)
    ensures FollowsSome(h + [st], x)
  {
    var m :| 0 <= m < |h| && FollowsBest(x, h[m].rules);
    assert (h + [st])[m] == h[m];
  }

  /** Over any run, every chain follows the best rule of its type as the rules stood when they were read,
      step by step, or is the default chain because the type had no active rule then. */
  lemma {:induction false} ChainsFollowRules(ops: seq<Op>, i: nat)
    requires i < |Now(Run(ops)).instances|
    ensures FollowsSome(Run(ops), Now(Run(ops)).instances[i])
  {
    if ops != [] {
      var front, op := ops[..|ops| - 1], ops[|ops| - 1];
      var h := Run(front);
      RunCoherent(front);
      if i < |Now(h).instances| {
        ChainsFollowRules(front, i);
        StillFollows(h, op, i);
      } else {
        NewChainFollows(h, op);
        FollowsOn(h, Next(h, op), Now(Run(ops)).instances[i]);
      }
    }
  }
}

/** Which rule writes are accepted, what they store, and what every rule of a run therefore satisfies. */
module RuleWrites {
  import opened Stock
  import opened Text
  import opened ApprovalRules
  import opened Decisions
  import opened Engine
  import opened EngineRuns

  /** The role exists, is active and may approve withdrawals. */
  predicate MayApprove(roles: map<string, Role>, role: string) {
    && role != "" && role in roles && roles[role].active
    && (role == "SUPER_ADMIN" || "request.approve" in roles[role].permissions)
  }

  function Asked(steps: seq<StepInput>, i: nat): int
    requires i < |steps|
  {
    match steps[i].order case Some(order) => order case None => i + 1
  }

  /** What an administrator may submit, whatever rules there are. */
  predicate Acceptable(roles: map<string, Role>, dto: RuleInput) {
    && 1 <= |Trim(dto.name)| <= 120 && dto.entityType == "WithdrawalRequest" && !dto.hasConditions
    && (dto.priority.Some? ==> 0 <= dto.priority.value <= 1000)
    && 1 <= |dto.steps| <= 10
    && (forall i | 0 <= i < |dto.steps| :: Asked(dto.steps, i) >= 1)
    && (forall i, j | 0 <= i < j < |dto.steps| :: Asked(dto.steps, i) != Asked(dto.steps, j))
    && forall i | 0 <= i < |dto.steps| ::
         && Trim(dto.steps[i].name) != "" && MayApprove(roles, dto.steps[i].role)
         && (dto.steps[i].timeout.Some? ==> 1 <= dto.steps[i].timeout.value <= 720)
  }

  lemma AcceptableIff(roles: map<string, Role>, dto: RuleInput)
    ensures InputOk(roles, dto) <==> Acceptable(roles, dto)
  {
    assert forall i :: 0 <= i < |dto.steps| ==> Orders(dto.steps)[i] == Asked(dto.steps, i);
    forall i | 0 <= i < |dto.steps| && dto.entityType == "WithdrawalRequest"
      ensures StepOk(roles, dto.entityType, dto.steps[i]) <==>
        && Trim(dto.steps[i].name) != "" && MayApprove(roles, dto.steps[i].role)
        && (dto.steps[i].timeout.Some? ==> 1 <= dto.steps[i].timeout.value <= 720)
    {
    }
  }

  function AskedPriority(dto: RuleInput): int {
    match dto.priority case Some(p) => p case None => 0
  }

  /** No other active rule of the type has the priority. */
  predicate PriorityFree(rules: seq<Rule>, entityType: string, priority: int, id: Option<nat>) {
    forall i | 0 <= i < |rules| && Some(i) != id ::
      !(rules[i].active && rules[i].entityType == entityType && rules[i].priority == priority)
  }

  /** The rule says what was submitted, its steps numbered in the order asked for. */
  ghost predicate SavedAs(rule: Rule, dto: RuleInput, active: bool) {
    && rule.name == Trim(dto.name) && rule.entityType == dto.entityType && rule.priority == AskedPriority(dto)
    && rule.active == active && |rule.steps| == |dto.steps|
    && (forall k :: 0 <= k < |rule.steps| ==> rule.steps[k].order == k + 1)
    && forall i :: 0 <= i < |dto.steps| ==>
         && Place(dto.steps, i) < |rule.steps|
         && SavedStep(rule.steps[Place(dto.steps, i)], dto.steps[i])
  }

  predicate SavedStep(saved: RuleStep, step: StepInput) {
    && saved.role == step.role && saved.name == Trim(step.name) && saved.timeout == step.timeout
    && (saved.mandatory <==> step.mandatory != Some(false))
  }

  lemma FreeIffNoClash(rules: seq<Rule>, entityType: string, priority: int, id: Option<nat>)
    ensures Clash(rules, entityType, priority, id) <==> !PriorityFree(rules, entityType, priority, id)
  {
  }

  lemma NormalStepsAreSaved(dto: RuleInput, rule: Rule, active: bool)
    requires Distinct(Orders(dto.steps))
    requires rule == Rule(Trim(dto.name), dto.entityType, OrElse(dto.priority, 0), active, NormalSteps(dto.steps))
    ensures SavedAs(rule, dto, active)
  {
    StepsInRequestedOrder(dto.steps);
  }

  lemma ValidatedIs(rules: seq<Rule>, roles: map<string, Role>, dto: RuleInput, id: Option<nat>)
    ensures var v := Validate(rules, roles, dto, id);
      && (v.Ok? <==>
            && Acceptable(roles, dto)
            && (dto.active != Some(false) ==> PriorityFree(rules, dto.entityType, AskedPriority(dto), id)))
      && (v.Err? ==> v.error == BadRequest)
      && (v.Ok? ==> SavedAs(v.value, dto, dto.active != Some(false)))
  {
    AcceptableIff(roles, dto);
    FreeIffNoClash(rules, dto.entityType, AskedPriority(dto), id);
    var v := Validate(rules, roles, dto, id);
    if v.Ok? { NormalStepsAreSaved(dto, v.value, dto.active != Some(false)); }
  }

  /** A rule is created exactly from an acceptable submission whose priority is free among the rules as
      read, unless it is submitted inactive; it is added at the end. */
  lemma CreateIs(h: History, dto: RuleInput, roles: map<string, Role>, seen: nat)
    requires seen < |h|
    ensures var st, r := Now(h), Step(h, DoWriteRule(Create(dto, roles), seen));
      && (r.Ok? <==>
            && Acceptable(roles, dto)
            && (dto.active != Some(false) ==> PriorityFree(h[seen].rules, dto.entityType, AskedPriority(dto), None)))
      && (r.Err? ==> r.error == BadRequest)
      && (r.Ok? ==>
            && |r.value.rules| == |st.rules| + 1
            && r.value == st.(rules := st.rules + [r.value.rules[|st.rules|]])
            && SavedAs(r.value.rules[|st.rules|], dto, dto.active != Some(false)))
  {
    ValidatedIs(h[seen].rules, roles, dto, None);
  }

  /** An update replaces the rule; without a word on activity the rule stays as active as it was read,
      but its priority has to be free all the same. */
  lemma UpdateIs(h: History, id: nat, dto: RuleInput, roles: map<string, Role>, seen: nat)
    requires seen < |h|
    ensures var st, r, rules := Now(h), Step(h, DoWriteRule(Update(id, dto, roles), seen)), h[seen].rules;
      && (r.Ok? <==>
            && id < |rules| && id < |st.rules| && Acceptable(roles, dto)
            && (dto.active != Some(false) ==> PriorityFree(rules, dto.entityType, AskedPriority(dto), Some(id))))
      && (r.Err? ==> r.error == if id >= |rules| || id >= |st.rules| then NotFound else BadRequest)
      && (r.Ok? ==>
            && |r.value.rules| == |st.rules| && r.value == st.(rules := st.rules[id := r.value.rules[id]])
            && SavedAs(r.value.rules[id], dto, if dto.active.Some? then dto.active.value else rules[id].active))
  {
    if id < |h[seen].rules| && id < |Now(h).rules| { ValidatedIs(h[seen].rules, roles, dto, Some(id)); }
  }

  // ----- every rule of a run -----

  predicate WellFormed(rule: Rule) {
    && 1 <= |Trim(rule.name)| <= 120 && rule.entityType == "WithdrawalRequest" && 0 <= rule.priority <= 1000
    && 1 <= |rule.steps| <= 10
    && forall k | 0 <= k < |rule.steps| ::
         && rule.steps[k].order == k + 1 && rule.steps[k].role != "" && Trim(rule.steps[k].name) != ""
         && (rule.steps[k].timeout.Some? ==> 1 <= rule.steps[k].timeout.value <= 720)
  }

  lemma TrimTwice(s: string)
    ensures Trim(Trim(s)) == Trim(s)
  {
    TrimTrims(s);
    TrimmedIsFixed(Trim(s));
  }

  /** Every place is taken by a submitted step. */
  lemma {:induction false} PlaceTaken(steps: seq<StepInput>, k: nat) returns (i: nat)
    requires Distinct(Orders(steps)) && k < |steps|
    ensures i < |steps| && Place(steps, i) == k
  {
    var pairs := Pairs(steps);
    var sorted := Sort(pairs);
    NormalPairs(steps);
    assert sorted[k] in multiset(pairs) by { assert sorted[k] in multiset(sorted); }
    i :| 0 <= i < |pairs| && pairs[i] == sorted[k];
    BelowInSorted(sorted, k, |sorted|);
    assert sorted[..|sorted|] == sorted;
    SortCounts(pairs, Orders(steps)[i]);
  }

  lemma SavedIsWellFormed(roles: map<string, Role>, dto: RuleInput, rule: Rule, active: bool)
    requires Acceptable(roles, dto) && SavedAs(rule, dto, active)
    ensures WellFormed(rule)
  {
    TrimTwice(dto.name);
    AcceptableIff(roles, dto);
    forall k | 0 <= k < |rule.steps|
      ensures rule.steps[k].role != "" && Trim(rule.steps[k].name) != ""
      ensures rule.steps[k].timeout.Some? ==> 1 <= rule.steps[k].timeout.value <= 720
    {
      var i := PlaceTaken(dto.steps, k);
      TrimTwice(dto.steps[i].name);
      assert SavedStep(rule.steps[k], dto.steps[i]);
    }
  }

  ghost predicate AllWellFormed(rules: seq<Rule>) {
    forall i :: 0 <= i < |rules| ==> WellFormed(rules[i])
  }

  lemma WriteKeepsWellFormed(h: History, w: RuleWrite, seen: nat)
    requires AllWellFormed(Now(h).rules) && Step(h, DoWriteRule(w, seen)).Ok?
    ensures AllWellFormed(Step(h, DoWriteRule(w, seen)).value.rules)
  {
    var d := Step(h, DoWriteRule(w, seen)).value;
    match w
    case Create(dto, roles) =>
      CreateIs(h, dto, roles, seen);
      SavedIsWellFormed(roles, dto, d.rules[|Now(h).rules|], dto.active != Some(false));
    case Update(id, dto, roles) =>
      UpdateIs(h, id, dto, roles, seen);
      SavedIsWellFormed(roles, dto, d.rules[id], d.rules[id].active);
    case Activate(id, active, roles) =>
      assert WellFormed(Now(h).rules[id]);
  }

  lemma OthersLeaveRules(h: History, op: Op)
    requires Step(h, op).Ok? && !op.DoWriteRule?
    ensures Step(h, op).value.rules == Now(h).rules
  {
  }

  /** Over any run, every rule has a name and a priority within the limits and one to ten steps numbered
      from 1, each for a role, named, and with a timeout within the limits if it has one. */
  lemma {:induction false} RulesAreWellFormed(ops: seq<Op>)
    ensures AllWellFormed(Now(Run(ops)).rules)
  {
    if ops != [] {
      var h, op := Run(ops[..|ops| - 1]), ops[|ops| - 1];
      RulesAreWellFormed(ops[..|ops| - 1]);
      if Step(h, op).Ok? {
        if op.DoWriteRule? { WriteKeepsWellFormed(h, op.w, op.seen); } else { OthersLeaveRules(h, op); }
      }
    }
  }

  lemma {:induction false} RulesWereWellFormed(ops: seq<Op>, n: nat)
    requires n < |Run(ops)|
    ensures AllWellFormed(Run(ops)[n].rules)
  {
    RulesAreWellFormed(ops);
    if ops != [] && n < |Run(ops)| - 1 { RulesWereWellFormed(ops[..|ops| - 1], n); }
  }

  lemma OwnInputIs(roles: map<string, Role>, rule: Rule)
    requires WellFormed(rule)
    ensures Acceptable(roles, AsInput(rule)) <==>
      forall k :: 0 <= k < |rule.steps| ==> MayApprove(roles, rule.steps[k].role)
  {
    var dto := AsInput(rule);
    assert forall k :: 0 <= k < |rule.steps| ==> Asked(dto.steps, k) == k + 1;
    if forall k :: 0 <= k < |rule.steps| ==> MayApprove(roles, rule.steps[k].role) {
      forall k | 0 <= k < |dto.steps|
        ensures Trim(dto.steps[k].name) != "" && MayApprove(roles, dto.steps[k].role)
        ensures dto.steps[k].timeout.Some? ==> 1 <= dto.steps[k].timeout.value <= 720
      {
        assert dto.steps[k].role == rule.steps[k].role && dto.steps[k].name == rule.steps[k].name;
      }
    }
    if Acceptable(roles, dto) {
      forall k | 0 <= k < |rule.steps| ensures MayApprove(roles, rule.steps[k].role) {
        assert dto.steps[k].role == rule.steps[k].role;
      }
    }
  }

  /** A rule of a run can always be switched off. It can be switched on exactly when the roles of all its
      steps still may approve and its priority is free as read: what else was checked when it was saved
      never needs checking again. */
  lemma ActivateIs(ops: seq<Op>, id: nat, active: bool, roles: map<string, Role>, seen: nat)
    requires seen < |Run(ops)| && id < |Run(ops)[seen].rules| && id < |Now(Run(ops)).rules|
    ensures var h := Run(ops);
      var st, rule, r := Now(h), h[seen].rules[id], Step(h, DoWriteRule(Activate(id, active, roles), seen));
      && (r.Ok? <==>
            active ==>
              && (forall k :: 0 <= k < |rule.steps| ==> MayApprove(roles, rule.steps[k].role))
              && PriorityFree(h[seen].rules, rule.entityType, rule.priority, Some(id)))
      && (r.Ok? ==> r.value == st.(rules := st.rules[id := st.rules[id].(active := active)]))
      && (r.Err? ==> r.error == BadRequest)
  {
    var rule := Run(ops)[seen].rules[id];
    RulesWereWellFormed(ops, seen);
    assert WellFormed(rule);
    OwnInputIs(roles, rule);
    ValidatedIs(Run(ops)[seen].rules, roles, AsInput(rule), Some(id));
  }
}

/** What every run of the approval engine keeps. */
module EngineRuns {
  import opened Stock
  import opened ApprovalRules
  import opened Decisions
  import opened Engine

  // ----- decisions and rules -----

  ghost predicate Sound(st: State) {
    && (forall i :: 0 <= i < |st.rules| ==> StepsNumbered(st.rules[i]))
    && (forall i :: 0 <= i < |st.instances| ==> ChainOk(st.instances[i]))
  }

  ghost predicate Evolves(a: State, b: State) {
    |a.instances| <= |b.instances| && forall i :: 0 <= i < |a.instances| ==> Grows(a.instances[i], b.instances[i])
  }

  ghost predicate Coherent(h: History) {
    && (forall n :: 0 <= n < |h| ==> Sound(h[n]))
    && (forall n :: 0 <= n < |h| ==> Evolves(h[n], Now(h)))
  }

  lemma RuleWriteKeeps(now: seq<Rule>, seen: seq<Rule>, w: RuleWrite)
    requires WriteRules(now, seen, w).Ok?
    requires forall i :: 0 <= i < |now| ==> StepsNumbered(now[i])
    ensures forall i :: 0 <= i < |WriteRules(now, seen, w).value| ==> StepsNumbered(WriteRules(now, seen, w).value[i])
  {
    match w
    case Create(dto, roles) => ValidatedIsNumbered(seen, roles, dto, None);
    case Update(id, dto, roles) => ValidatedIsNumbered(seen, roles, dto, Some(id));
    case Activate(id, active, roles) =>
  }

  lemma AdvanceKeeps(st: State, c: nat, rules: seq<Rule>, stamp: int)
    requires Sound(st) && Advance(st, c, rules, stamp).Ok?
    requires forall i :: 0 <= i < |rules| ==> StepsNumbered(rules[i])
    ensures var d := Advance(st, c, rules, stamp).value; Sound(d) && Evolves(st, d)
  {
    var d, call := Advance(st, c, rules, stamp).value, st.calls[c];
    match call.phase
    case MustStart => StartedChain(rules, call.entityType, call.entity, call.requester, stamp, true);
    case MustCancel(keep, extras) =>
      forall i | 0 <= i < |st.instances| ensures ChainOk(d.instances[i]) && Grows(st.instances[i], d.instances[i]) {
        if st.instances[i].status == Live { WithdrawnChain(st.instances[i]); }
      }
    case _ =>
  }

  lemma DecideKeeps(h: History, op: Op)
    requires Coherent(h) && Step(h, op).Ok? && op.DoDecide?
    ensures Sound(Step(h, op).value) && Evolves(Now(h), Step(h, op).value)
  {
    var st, seen := Now(h), h[op.seen];
    assert Sound(seen) && Evolves(seen, st);
    DecisionKeepsChain(st.instances[op.i], seen.instances[op.i], op.order, op.actor, op.approved, op.internal);
    OneChainEvolves(st, op.i, Step(h, op).value.instances[op.i]);
  }

  lemma OneChainEvolves(st: State, i: InstanceId, x: Instance)
    requires Sound(st) && i < |st.instances| && ChainOk(x) && Grows(st.instances[i], x)
    ensures var d := st.(instances := st.instances[i := x]); Sound(d) && Evolves(st, d)
  {
  }

  lemma StepKeeps(h: History, op: Op)
    requires Coherent(h) && Step(h, op).Ok?
    ensures Sound(Step(h, op).value) && Evolves(Now(h), Step(h, op).value)
  {
    var st := Now(h);
    match op
    case DoWriteRule(w, seen) => RuleWriteKeeps(st.rules, h[seen].rules, w);
    case DoDecide(_, _, _, _, _, _) => DecideKeeps(h, op);
    case DoStart(entityType, entity, requester, stamp, seen) =>
      assert Sound(h[seen]);
      StartedChain(h[seen].rules, entityType, entity, requester, stamp, false);
    case DoEnsure(_, _, _) =>
    case DoAdvance(c, stamp, seen) =>
      assert Sound(h[seen]);
      AdvanceKeeps(st, c, h[seen].rules, stamp);
  }

  lemma EvolvesTransitive(a: State, b: State, c: State)
    requires Evolves(a, b) && Evolves(b, c)
    ensures Evolves(a, c)
  {
    forall i | 0 <= i < |a.instances| ensures Grows(a.instances[i], c.instances[i]) {
      GrowsTransitive(a.instances[i], b.instances[i], c.instances[i]);
    }
  }

  lemma {:induction false} RunCoherent(ops: seq<Op>)
    ensures Coherent(Run(ops))
  {
    if ops != [] {
      var h, op := Run(ops[..|ops| - 1]), ops[|ops| - 1];
      RunCoherent(ops[..|ops| - 1]);
      if Step(h, op).Ok? { StepKeeps(h, op); }
      forall n | 0 <= n < |h| ensures Evolves(h[n], Next(h, op)) {
        EvolvesTransitive(h[n], Now(h), Next(h, op));
      }
    }
  }

  /** For any number of deciders and any staleness of what they read, every instance has its approved
      steps first, by pairwise different people who are not the requester; it is accepted exactly
      when all steps are approved, and refused exactly when one is rejected and no later one decided. */
  lemma DecisionsAreSafe(ops: seq<Op>, i: nat)
    requires i < |Now(Run(ops)).instances|
    ensures var x := Now(Run(ops)).instances[i];
      && (forall j, k :: 0 <= j < k < |x.steps| && x.steps[k].status == StepApproved ==>
            x.steps[j].status == StepApproved && x.steps[j].actor != x.steps[k].actor)
      && (forall j :: 0 <= j < |x.steps| && x.steps[j].status == StepApproved && x.steps[j].actor != Some("") ==>
            x.steps[j].actor.Some? && x.steps[j].actor != x.requester)
      && (x.status == Accepted <==> forall j :: 0 <= j < |x.steps| ==> x.steps[j].status == StepApproved)
      && (x.status == Refused <==> exists j :: 0 <= j < |x.steps| && OnlyRejection(x.steps, j))
  {
    RunCoherent(ops);
    ChainMeaning(Now(Run(ops)).instances[i]);
  }

  // ----- one live chain per document -----

  predicate SameDocument(x: Instance, entityType: string, entity: string) {
    x.entityType == entityType && x.entity == entity
  }

  /** Call `c` will withdraw one of the chains `i` and `j`. */
  predicate WillResolve(call: Call, x: Instance, i: InstanceId, j: InstanceId) {
    && SameDocument(x, call.entityType, call.entity)
    && (call.phase.MustReread? || (call.phase.MustCancel? && (i in call.phase.extras || j in call.phase.extras)))
  }

  predicate Rivals(instances: seq<Instance>, i: InstanceId, j: InstanceId) {
    && i < j < |instances| && instances[i].status == Live && instances[j].status == Live
    && instances[i].entityType in DOMAIN_OWNED
    && SameDocument(instances[i], instances[j].entityType, instances[j].entity)
  }

  ghost predicate Converging(st: State) {
    forall i: nat, j: nat :: Rivals(st.instances, i, j) ==>
      exists c :: 0 <= c < |st.calls| && WillResolve(st.calls[c], st.instances[i], i, j)
  }

  lemma AdvanceConverges(st: State, c: nat, rules: seq<Rule>, stamp: int)
    requires Converging(st) && Advance(st, c, rules, stamp).Ok?
    ensures Converging(Advance(st, c, rules, stamp).value)
  {
    var d, call := Advance(st, c, rules, stamp).value, st.calls[c];
    forall i: nat, j: nat | Rivals(d.instances, i, j)
      ensures exists k :: 0 <= k < |d.calls| && WillResolve(d.calls[k], d.instances[i], i, j)
    {
      if j < |st.instances| {
        assert Rivals(st.instances, i, j);
        var k :| 0 <= k < |st.calls| && WillResolve(st.calls[k], st.instances[i], i, j);
        if k != c {
          assert WillResolve(d.calls[k], d.instances[i], i, j);
        } else if call.phase.MustReread? {
          OldestIsOldest(st.instances, call.entityType, call.entity);
          assert i in LiveIds(st.instances, call.entityType, call.entity)
            && j in LiveIds(st.instances, call.entityType, call.entity);
          assert WillResolve(d.calls[c], d.instances[i], i, j);
        }
      } else {
        assert WillResolve(d.calls[c], d.instances[i], i, j);
      }
    }
  }

  lemma StepConverges(h: History, op: Op)
    requires Coherent(h) && Converging(Now(h)) && Step(h, op).Ok?
    ensures Converging(Step(h, op).value)
  {
    var st, d := Now(h), Step(h, op).value;
    if op.DoAdvance? {
      AdvanceConverges(st, op.c, h[op.seen].rules, op.stamp);
    } else {
      StepKeeps(h, op);
      forall i: nat, j: nat | Rivals(d.instances, i, j)
        ensures exists k :: 0 <= k < |d.calls| && WillResolve(d.calls[k], d.instances[i], i, j)
      {
        assert j < |st.instances|;
        assert Grows(st.instances[i], d.instances[i]) && Grows(st.instances[j], d.instances[j]);
        assert Rivals(st.instances, i, j);
        var k :| 0 <= k < |st.calls| && WillResolve(st.calls[k], st.instances[i], i, j);
        assert d.calls[k] == st.calls[k];
      }
    }
  }

  lemma {:induction false} RunConverges(ops: seq<Op>)
    ensures Converging(Now(Run(ops)))
  {
    if ops != [] {
      RunConverges(ops[..|ops| - 1]);
      RunCoherent(ops[..|ops| - 1]);
      if Step(Run(ops[..|ops| - 1]), ops[|ops| - 1]).Ok? { StepConverges(Run(ops[..|ops| - 1]), ops[|ops| - 1]); }
    }
  }

  /** A call on the document has started a chain or read some and has not cleaned up yet. */
  predicate InFlight(st: State, entityType: string, entity: string) {
    exists c | 0 <= c < |st.calls| :: st.calls[c].entityType == entityType && st.calls[c].entity == entity
      && (st.calls[c].phase.MustReread? || st.calls[c].phase.MustCancel?)
  }

  /** However the calls and decisions interleave, once no call is between starting and cleaning up, a
      domain-owned document has at most one live chain. */
  lemma AtMostOneLiveChain(ops: seq<Op>, entityType: string, entity: string)
    requires entityType in DOMAIN_OWNED && !InFlight(Now(Run(ops)), entityType, entity)
    ensures var live := LiveIds(Now(Run(ops)).instances, entityType, entity);
      forall i, j :: i in live && j in live ==> i == j
  {
    RunConverges(ops);
    var st := Now(Run(ops));
    var live := LiveIds(st.instances, entityType, entity);
    forall i, j | i in live && j in live ensures i == j {
      if i != j {
        assert Rivals(st.instances, if i < j then i else j, if i < j then j else i);
      }
    }
  }

  // ----- one priority per active rule -----

  /** The place and the rule that an accepted write stores. */
  function Stored(now: seq<Rule>, seen: seq<Rule>, w: RuleWrite): (nat, Rule)
    requires WriteRules(now, seen, w).Ok?
  {
    match w
    case Create(_, _) => (|now|, CreateRule(now, seen, w.roles, w.dto).value[|now|])
    case Update(id, _, _) => (id, WriteRules(now, seen, w).value[id])
    case Activate(id, _, _) => (id, WriteRules(now, seen, w).value[id])
  }

  /** Every accepted rule write found its priority free at the time it was written. */
  ghost predicate WritesFree(ops: seq<Op>) {
    ops == [] ||
    (var h, op := Run(ops[..|ops| - 1]), ops[|ops| - 1];
     && WritesFree(ops[..|ops| - 1])
     && (op.DoWriteRule? && Step(h, op).Ok? ==>
           var (id, rule) := Stored(Now(h).rules, h[op.seen].rules, op.w);
           rule.active ==> !Clash(Now(h).rules, rule.entityType, rule.priority, Some(id))))
  }

  ghost predicate UniqueAlways(ops: seq<Op>) {
    UniquePriorities(Now(Run(ops)).rules) && (ops != [] ==> UniqueAlways(ops[..|ops| - 1]))
  }

  lemma WriteStores(now: seq<Rule>, seen: seq<Rule>, w: RuleWrite)
    requires WriteRules(now, seen, w).Ok?
    ensures var (id, rule) := Stored(now, seen, w);
      && id <= |now| && WriteRules(now, seen, w).value == if id < |now| then now[id := rule] else now + [rule]
  {
  }

  /** Active rules of one type have different priorities in every state of a run exactly when every
      write found its priority still free. */
  lemma {:induction false} PrioritiesUniqueIff(ops: seq<Op>)
    ensures UniqueAlways(ops) <==> WritesFree(ops)
  {
    if ops != [] {
      var front, op := ops[..|ops| - 1], ops[|ops| - 1];
      PrioritiesUniqueIff(front);
      var h := Run(front);
      assert Now(Run(ops)) == Next(h, op);
      if UniqueAlways(front) && op.DoWriteRule? && Step(h, op).Ok? {
        WriteStores(Now(h).rules, h[op.seen].rules, op.w);
        var (id, rule) := Stored(Now(h).rules, h[op.seen].rules, op.w);
        WriteKeepsUniqueIff(Now(h).rules, id, rule);
      }
    }
  }

  predicate WritesCurrent(ops: seq<Op>) {
    forall n | 0 <= n < |ops| :: ops[n].DoWriteRule? ==> ops[n].seen == n
  }

  lemma {:induction false} RunLength(ops: seq<Op>)
    ensures |Run(ops)| == |ops| + 1
  {
    if ops != [] { RunLength(ops[..|ops| - 1]); }
  }

  lemma CurrentWriteIsFree(rules: seq<Rule>, w: RuleWrite)
    requires WriteRules(rules, rules, w).Ok?
    ensures var (id, rule) := Stored(rules, rules, w);
      rule.active ==> !Clash(rules, rule.entityType, rule.priority, Some(id))
  {
  }

  /** Rule writes that validate and store in one go keep priorities unique over every run. */
  lemma {:induction false} CurrentWritesAreFree(ops: seq<Op>)
    requires WritesCurrent(ops)
    ensures WritesFree(ops) && UniqueAlways(ops)
  {
    if ops != [] {
      var front, op := ops[..|ops| - 1], ops[|ops| - 1];
      CurrentWritesAreFree(front);
      RunLength(front);
      if op.DoWriteRule? && Step(Run(front), op).Ok? { CurrentWriteIsFree(Now(Run(front)).rules, op.w); }
    }
    PrioritiesUniqueIff(ops);
  }

  /** Two administrators who validate against the same table both succeed and share a priority. */
  lemma ConcurrentCreatesClash(dto: RuleInput, roles: map<string, Role>)
    requires InputOk(roles, dto) && OrElse(dto.active, true)
    ensures var op := DoWriteRule(Create(dto, roles), 0);
      && Step(Run([op]), op).Ok? && !UniquePriorities(Now(Run([op, op])).rules)
  {
    var op := DoWriteRule(Create(dto, roles), 0);
    assert [op][..0] == [] && [op, op][..1] == [op];
    var v := Validate([], roles, dto, None).value;
    assert Now(Run([op])).rules == [v];
    assert Now(Run([op, op])).rules == [v, v];
    assert [v, v][0].priority == [v, v][1].priority && v.active;
  }
}

/** Approval rules: validation, the normalised step order, and the priority each active rule owns. */
module ApprovalRules {
  import opened Stock
  import opened Text

  datatype StepInput = StepInput(order: Option<int>, role: string, name: string, mandatory: Option<bool>,
    timeout: Option<int>)

  datatype RuleInput = RuleInput(
    name: string, entityType: string, priority: Option<int>, active: Option<bool>,
    hasConditions: bool, steps: seq<StepInput>)

  datatype RuleStep = RuleStep(order: int, role: string, name: string, mandatory: bool, timeout: Option<int>)

  datatype Rule = Rule(name: string, entityType: string, priority: int, active: bool, steps: seq<RuleStep>)

  datatype Role = Role(active: bool, permissions: set<string>)

  const ENTITY_TYPES := {"WithdrawalRequest"}
  const STEP_PERMISSION: map<string, string> := map["WithdrawalRequest" := "request.approve"]
  const MAX_STEPS := 10

  function OrElse<T>(v: Option<T>, default: T): T { if v.Some? then v.value else default }

  /** The order each step asked for, its position by default. */
  function Orders(steps: seq<StepInput>): (r: seq<int>)
    ensures |r| == |steps| && forall i :: 0 <= i < |steps| ==> r[i] == OrElse(steps[i].order, i + 1)
  {
    seq(|steps|, i requires 0 <= i < |steps| => OrElse(steps[i].order, i + 1))
  }

  predicate Distinct(s: seq<int>) {
    forall i, j | 0 <= i < j < |s| :: s[i] != s[j]
  }

  predicate StepOk(roles: map<string, Role>, entityType: string, s: StepInput) {
    && Trim(s.name) != ""
    && s.role != "" && s.role in roles && roles[s.role].active
    && (entityType in STEP_PERMISSION && s.role != "SUPER_ADMIN" ==>
          STEP_PERMISSION[entityType] in roles[s.role].permissions)
    && (s.timeout.Some? ==> 1 <= s.timeout.value <= 720)
  }

  predicate InputOk(roles: map<string, Role>, dto: RuleInput) {
    && 0 < |Trim(dto.name)| <= 120
    && dto.entityType in ENTITY_TYPES
    && 0 <= OrElse(dto.priority, 0) <= 1000
    && !dto.hasConditions
    && 0 < |dto.steps| <= MAX_STEPS
    && (forall i | 0 <= i < |dto.steps| :: Orders(dto.steps)[i] >= 1)
    && Distinct(Orders(dto.steps))
    && (forall i | 0 <= i < |dto.steps| :: StepOk(roles, dto.entityType, dto.steps[i]))
  }

  /** Another active rule of the type already has the priority. */
  predicate Clash(rules: seq<Rule>, entityType: string, priority: int, except: Option<nat>) {
    exists i | 0 <= i < |rules| ::
      Some(i) != except && rules[i].active && rules[i].entityType == entityType && rules[i].priority == priority
  }

  // ----- normalised steps -----

  datatype Ordered = Ordered(order: int, step: StepInput)

  function Pairs(steps: seq<StepInput>): (r: seq<Ordered>)
    ensures |r| == |steps| && forall i :: 0 <= i < |steps| ==> r[i] == Ordered(Orders(steps)[i], steps[i])
  {
    seq(|steps|, i requires 0 <= i < |steps| => Ordered(Orders(steps)[i], steps[i]))
  }

  function Insert(s: seq<Ordered>, p: Ordered): seq<Ordered> {
    if s == [] || s[|s| - 1].order <= p.order then s + [p]
    else Insert(s[..|s| - 1], p) + [s[|s| - 1]]
  }

  function Sort(s: seq<Ordered>): seq<Ordered> {
    if s == [] then [] else Insert(Sort(s[..|s| - 1]), s[|s| - 1])
  }

  function Renumber(sorted: seq<Ordered>): (r: seq<RuleStep>)
    ensures |r| == |sorted| && forall i :: 0 <= i < |sorted| ==> r[i] == Numbered(i + 1, sorted[i].step)
  {
    seq(|sorted|, i requires 0 <= i < |sorted| => Numbered(i + 1, sorted[i].step))
  }

  function Numbered(order: int, s: StepInput): RuleStep {
    RuleStep(order, s.role, Trim(s.name), OrElse(s.mandatory, true), s.timeout)
  }

  function NormalSteps(steps: seq<StepInput>): seq<RuleStep> { Renumber(Sort(Pairs(steps))) }

  function Validate(rules: seq<Rule>, roles: map<string, Role>, dto: RuleInput, except: Option<nat>): Result<Rule> {
    if !InputOk(roles, dto) then Err(BadRequest)
    else
      var active, priority := OrElse(dto.active, true), OrElse(dto.priority, 0);
      if active && Clash(rules, dto.entityType, priority, except) then Err(BadRequest)
      else Ok(Rule(Trim(dto.name), dto.entityType, priority, active, NormalSteps(dto.steps)))
  }

  predicate Sorted(s: seq<Ordered>) {
    forall i, j | 0 <= i < j < |s| :: s[i].order <= s[j].order
  }

  /** How many entries ask for a smaller order. */
  function Below(s: seq<Ordered>, order: int): nat {
    if s == [] then 0 else Below(s[..|s| - 1], order) + (if s[|s| - 1].order < order then 1 else 0)
  }

  lemma {:induction false} InsertCounts(s: seq<Ordered>, p: Ordered, order: int)
    ensures |Insert(s, p)| == |s| + 1
    ensures Below(Insert(s, p), order) == Below(s, order) + (if p.order < order then 1 else 0)
  {
    if s == [] || s[|s| - 1].order <= p.order {
      assert (s + [p])[..|s|] == s;
    } else {
      var t := Insert(s[..|s| - 1], p);
      InsertCounts(s[..|s| - 1], p, order);
      assert (t + [s[|s| - 1]])[..|t|] == t;
    }
  }

  lemma {:induction false} InsertKeeps(s: seq<Ordered>, p: Ordered)
    ensures multiset(Insert(s, p)) == multiset(s) + multiset{p}
  {
    if s != [] && s[|s| - 1].order > p.order {
      assert s == s[..|s| - 1] + [s[|s| - 1]];
      InsertKeeps(s[..|s| - 1], p);
    }
  }

  /** What is not below any entry of `s` nor below `p` is not below any entry of the insertion. */
  lemma InsertBelow(s: seq<Ordered>, p: Ordered, top: int)
    requires p.order <= top && forall i :: 0 <= i < |s| ==> s[i].order <= top
    ensures forall i :: 0 <= i < |Insert(s, p)| ==> Insert(s, p)[i].order <= top
  {
    var t := Insert(s, p);
    InsertKeeps(s, p);
    forall i | 0 <= i < |t| ensures t[i].order <= top {
      assert t[i] in multiset(t);
      assert t[i] in s || t[i] == p;
    }
  }

  lemma {:induction false} InsertSorts(s: seq<Ordered>, p: Ordered)
    requires Sorted(s)
    ensures Sorted(Insert(s, p))
  {
    if s != [] && s[|s| - 1].order > p.order {
      InsertSorts(s[..|s| - 1], p);
      InsertBelow(s[..|s| - 1], p, s[|s| - 1].order);
    }
  }

  lemma {:induction false} SortKeeps(s: seq<Ordered>)
    ensures multiset(Sort(s)) == multiset(s)
  {
    if s != [] {
      SortKeeps(s[..|s| - 1]);
      InsertKeeps(Sort(s[..|s| - 1]), s[|s| - 1]);
      assert s == s[..|s| - 1] + [s[|s| - 1]];
    }
  }

  lemma {:induction false} SortSorts(s: seq<Ordered>)
    ensures Sorted(Sort(s))
  {
    if s != [] {
      SortSorts(s[..|s| - 1]);
      InsertSorts(Sort(s[..|s| - 1]), s[|s| - 1]);
    }
  }

  lemma {:induction false} SortCounts(s: seq<Ordered>, order: int)
    ensures |Sort(s)| == |s| && Below(Sort(s), order) == Below(s, order)
  {
    if s != [] {
      SortCounts(s[..|s| - 1], order);
      InsertCounts(Sort(s[..|s| - 1]), s[|s| - 1], order);
    }
  }

  lemma {:induction false} BelowInSorted(s: seq<Ordered>, i: nat, n: nat)
    requires i < |s| && n <= |s| && forall j, k :: 0 <= j < k < |s| ==> s[j].order < s[k].order
    ensures Below(s[..n], s[i].order) == if n <= i then n else i
  {
    if n > 0 {
      assert s[..n][..n - 1] == s[..n - 1];
      BelowInSorted(s, i, n - 1);
    }
  }

  /** In a sorted arrangement of entries that ask for different orders, no two are equal. */
  lemma StrictlySorted(s: seq<Ordered>, t: seq<Ordered>)
    requires Sorted(t) && multiset(t) == multiset(s) && |t| == |s|
    requires forall i, j :: 0 <= i < j < |s| ==> s[i].order != s[j].order
    ensures forall i, j :: 0 <= i < j < |t| ==> t[i].order < t[j].order
  {
    forall i, j | 0 <= i < j < |t| ensures t[i].order < t[j].order {
      if t[i].order == t[j].order {
        SameOrderSameEntry(s, t[i], t[j]) by {
          assert t[i] in multiset(t) && t[j] in multiset(t);
        }
        assert t == t[..j] + [t[j]] + t[j + 1..];
        assert t[..j][i] == t[i];
        assert multiset(t[..j])[t[i]] >= 1;
        assert multiset(t)[t[i]] >= 2;
        OnceEach(s, t[i]);
      }
    }
  }

  lemma SameOrderSameEntry(s: seq<Ordered>, p: Ordered, q: Ordered)
    requires p in multiset(s) && q in multiset(s) && p.order == q.order
    requires forall i, j :: 0 <= i < j < |s| ==> s[i].order != s[j].order
    ensures p == q
  {
    var i :| 0 <= i < |s| && s[i] == p;
    var j :| 0 <= j < |s| && s[j] == q;
  }

  lemma {:induction false} OnceEach(s: seq<Ordered>, p: Ordered)
    requires forall i, j :: 0 <= i < j < |s| ==> s[i].order != s[j].order
    ensures multiset(s)[p] <= 1
  {
    if s != [] {
      var front := s[..|s| - 1];
      assert s == front + [s[|s| - 1]];
      OnceEach(front, p);
      forall i | 0 <= i < |front| ensures front[i] != s[|s| - 1] {
        assert s[i].order != s[|s| - 1].order;
      }
    }
  }

  lemma NormalPairs(steps: seq<StepInput>)
    requires Distinct(Orders(steps))
    ensures |Sort(Pairs(steps))| == |steps|
    ensures forall i, j :: 0 <= i < j < |steps| ==> Sort(Pairs(steps))[i].order < Sort(Pairs(steps))[j].order
    ensures multiset(Sort(Pairs(steps))) == multiset(Pairs(steps))
  {
    SortSorts(Pairs(steps));
    SortKeeps(Pairs(steps));
    SortCounts(Pairs(steps), 0);
    StrictlySorted(Pairs(steps), Sort(Pairs(steps)));
  }

  /** Where step `i` of the input belongs: after every step that asked for a smaller order. */
  function Place(steps: seq<StepInput>, i: nat): nat
    requires i < |steps|
  {
    Below(Pairs(steps), Orders(steps)[i])
  }

  lemma StepLands(steps: seq<StepInput>, i: nat)
    requires Distinct(Orders(steps)) && i < |steps|
    ensures Place(steps, i) < |Sort(Pairs(steps))| && Sort(Pairs(steps))[Place(steps, i)] == Pairs(steps)[i]
  {
    var pairs := Pairs(steps);
    var sorted := Sort(pairs);
    NormalPairs(steps);
    assert pairs[i] in multiset(sorted) by { assert pairs[i] in multiset(pairs); }
    var at :| 0 <= at < |sorted| && sorted[at] == pairs[i];
    BelowInSorted(sorted, at, |sorted|);
    assert sorted[..|sorted|] == sorted;
    SortCounts(pairs, Orders(steps)[i]);
  }

  lemma PlacesAreOrdered(steps: seq<StepInput>, i: nat, j: nat)
    requires Distinct(Orders(steps)) && i < |steps| && j < |steps| && Orders(steps)[i] < Orders(steps)[j]
    ensures Place(steps, i) < Place(steps, j)
  {
    NormalPairs(steps);
    StepLands(steps, i);
    StepLands(steps, j);
  }

  lemma StepIsSaved(steps: seq<StepInput>, i: nat)
    requires Distinct(Orders(steps)) && i < |steps|
    ensures Place(steps, i) < |NormalSteps(steps)|
    ensures NormalSteps(steps)[Place(steps, i)] == Numbered(Place(steps, i) + 1, steps[i])
  {
    var sorted, at := Sort(Pairs(steps)), Place(steps, i);
    assert at < |sorted| && sorted[at].step == steps[i] by { StepLands(steps, i); }
    assert Renumber(sorted)[at] == Numbered(at + 1, sorted[at].step);
  }

  /** As many steps are saved as were requested, and each is saved at its place. */
  lemma StepsAreSaved(steps: seq<StepInput>)
    requires Distinct(Orders(steps))
    ensures |NormalSteps(steps)| == |steps|
    ensures forall i :: 0 <= i < |steps| ==>
      && Place(steps, i) < |NormalSteps(steps)|
      && NormalSteps(steps)[Place(steps, i)] == Numbered(Place(steps, i) + 1, steps[i])
  {
    SortCounts(Pairs(steps), 0);
    forall i | 0 <= i < |steps|
      ensures Place(steps, i) < |NormalSteps(steps)|
      ensures NormalSteps(steps)[Place(steps, i)] == Numbered(Place(steps, i) + 1, steps[i])
    {
      StepIsSaved(steps, i);
    }
  }

  /** Saved steps are the requested ones in the requested order, numbered 1 to n. */
  lemma StepsInRequestedOrder(steps: seq<StepInput>)
    requires Distinct(Orders(steps))
    ensures |NormalSteps(steps)| == |steps|
    ensures forall k :: 0 <= k < |steps| ==> NormalSteps(steps)[k].order == k + 1
    ensures forall i :: 0 <= i < |steps| ==>
      && Place(steps, i) < |steps|
      && NormalSteps(steps)[Place(steps, i)] == Numbered(Place(steps, i) + 1, steps[i])
    ensures forall i, j :: 0 <= i < |steps| && 0 <= j < |steps| && Orders(steps)[i] < Orders(steps)[j] ==>
      Place(steps, i) < Place(steps, j)
  {
    StepsAreSaved(steps);
    forall i, j | 0 <= i < |steps| && 0 <= j < |steps| && Orders(steps)[i] < Orders(steps)[j]
      ensures Place(steps, i) < Place(steps, j)
    {
      PlacesAreOrdered(steps, i, j);
    }
  }

  // ----- the rule table -----

  function CreateRule(now: seq<Rule>, seen: seq<Rule>, roles: map<string, Role>, dto: RuleInput): Result<seq<Rule>> {
    var v :- Validate(seen, roles, dto, None);
    Ok(now + [v])
  }

  /** The check treats a missing `active` as true; the write keeps the rule's own. */
  function UpdateRule(now: seq<Rule>, seen: seq<Rule>, roles: map<string, Role>, id: nat,
        dto: RuleInput): Result<seq<Rule>>
  {
    if id >= |seen| || id >= |now| then Err(NotFound)
    else
      var v :- Validate(seen, roles, dto, Some(id));
      Ok(now[id := v.(active := OrElse(dto.active, seen[id].active))])
  }

  function AsInput(rule: Rule): RuleInput {
    RuleInput(rule.name, rule.entityType, Some(rule.priority), Some(true), false,
      seq(|rule.steps|, i requires 0 <= i < |rule.steps| =>
        StepInput(Some(rule.steps[i].order), rule.steps[i].role, rule.steps[i].name, Some(rule.steps[i].mandatory),
          rule.steps[i].timeout)))
  }

  function SetActive(now: seq<Rule>, seen: seq<Rule>, roles: map<string, Role>, id: nat,
        active: bool): Result<seq<Rule>>
  {
    if id >= |seen| || id >= |now| then Err(NotFound)
    else
      var v :- if active then Validate(seen, roles, AsInput(seen[id]), Some(id)) else Ok(seen[id]);
      Ok(now[id := now[id].(active := active)])
  }

  predicate UniquePriorities(rules: seq<Rule>) {
    forall i, j | 0 <= i < j < |rules| ::
      rules[i].active && rules[j].active && rules[i].entityType == rules[j].entityType ==>
        rules[i].priority != rules[j].priority
  }

  predicate StepsNumbered(rule: Rule) {
    rule.steps != [] && forall i | 0 <= i < |rule.steps| :: rule.steps[i].order == i + 1
  }

  lemma ValidatedIsNumbered(rules: seq<Rule>, roles: map<string, Role>, dto: RuleInput, except: Option<nat>)
    requires Validate(rules, roles, dto, except).Ok?
    ensures StepsNumbered(Validate(rules, roles, dto, except).value)
  {
    StepsInRequestedOrder(dto.steps);
  }

  /** A written rule keeps priorities unique exactly when it is inactive or its priority is free
      at the time of the write. */
  lemma WriteKeepsUniqueIff(rules: seq<Rule>, id: nat, rule: Rule)
    requires UniquePriorities(rules) && id <= |rules|
    ensures var after := if id < |rules| then rules[id := rule] else rules + [rule];
      UniquePriorities(after) <==> (rule.active ==> !Clash(rules, rule.entityType, rule.priority, Some(id)))
  {
    var after := if id < |rules| then rules[id := rule] else rules + [rule];
    if rule.active && Clash(rules, rule.entityType, rule.priority, Some(id)) {
      var i :| 0 <= i < |rules| && Some(i) != Some(id) && rules[i].active
        && rules[i].entityType == rule.entityType && rules[i].priority == rule.priority;
      assert after[i] == rules[i] && after[id] == rule;
      var lo, hi := if i < id then i else id, if i < id then id else i;
      assert after[lo].priority == after[hi].priority;
    }
  }

  /** The rule that starts an approval: active, of the type, with the highest priority. */
  function BestRule(rules: seq<Rule>, entityType: string): (b: Option<nat>)
    ensures b.Some? ==> b.value < |rules|
  {
    if rules == [] then None
    else
      var best := BestRule(rules[..|rules| - 1], entityType);
      var r := rules[|rules| - 1];
      if r.active && r.entityType == entityType && (best.None? || rules[best.value].priority < r.priority)
      then Some(|rules| - 1) else best
  }

  ghost predicate IsBest(rules: seq<Rule>, entityType: string, b: nat) {
    && b < |rules| && rules[b].active && rules[b].entityType == entityType
    && forall i :: 0 <= i < |rules| && rules[i].active && rules[i].entityType == entityType ==>
          rules[i].priority <= rules[b].priority
  }

  lemma {:induction false} BestRuleIsBest(rules: seq<Rule>, entityType: string)
    ensures match BestRule(rules, entityType)
      case None => forall i :: 0 <= i < |rules| && rules[i].entityType == entityType ==> !rules[i].active
      case Some(b) => IsBest(rules, entityType, b)
  {
    if rules != [] {
      var front := rules[..|rules| - 1];
      BestRuleIsBest(front, entityType);
      assert forall i :: 0 <= i < |front| ==> front[i] == rules[i];
    }
  }

  /** With unique priorities the winner beats every other rule, whatever order they are read in. */
  lemma WinnerIsUnique(rules: seq<Rule>, entityType: string, i: nat)
    requires UniquePriorities(rules) && i < |rules| && rules[i].active && rules[i].entityType == entityType
    ensures var b := BestRule(rules, entityType);
      b.Some? && IsBest(rules, entityType, b.value) && (i != b.value ==> rules[i].priority < rules[b.value].priority)
  {
    BestRuleIsBest(rules, entityType);
    var b := BestRule(rules, entityType).value;
    if i < b { assert rules[i].priority != rules[b].priority; }
    if b < i { assert rules[b].priority != rules[i].priority; }
  }
}

/** The approval service's writes as they run on its tables. */
module ApprovalStore {
  import opened Stock
  import opened ApprovalRules
  import opened Decisions
  import opened Engine

  class ApprovalTables {
    var rules: seq<Rule>
    var instances: seq<Instance>

    constructor ()
      ensures rules == [] && instances == []
    {
      rules, instances := [], [];
    }

    /** The claim of a decision checked on `seen`: step first, then the instance; both or neither. */
    method ClaimDecision(i: InstanceId, seen: Instance, order: int, actor: Option<Principal>, approved: bool,
          internal: bool)
      returns (r: Result<()>)
      requires i < |instances|
      modifies `instances
      ensures match Decide(old(instances[i]), seen, order, actor, approved, internal)
        case Ok(x) => r == Ok(()) && instances == old(instances)[i := x]
        case Err(e) => r == Err(e) && instances == old(instances)
    {
      var check := Check(seen, order, actor, approved, internal);
      if check.Err? { return Err(check.error); }
      var plan := check.value;
      var before := instances;
      var x := instances[i];
      if plan.step >= |x.steps| || x.steps[plan.step].status != StepPending { return Err(Conflict); }
      var status := if approved then StepApproved else StepRejected;
      var step := x.steps[plan.step].(status := status, actor := Some(actor.value.id));
      instances := instances[i := x.(steps := x.steps[plan.step := step])];
      if instances[i].status != Live {
        instances := before;
        return Err(Conflict);
      }
      if !approved {
        instances := instances[i := instances[i].(status := Refused)];
      } else if plan.next.Some? {
        instances := instances[i := instances[i].(current := seen.steps[plan.next.value].order)];
      } else {
        instances := instances[i := instances[i].(status := Accepted, current := order)];
      }
      assert seen.steps[plan.step].order == order;
      return Ok(());
    }

    /** The live chains of a document: the one to keep, and the others. */
    method ReadLive(entityType: string, entity: string) returns (keep: Option<InstanceId>, extras: set<InstanceId>)
      ensures keep == OldestLive(instances, entityType, entity)
      ensures extras == LiveIds(instances, entityType, entity) - (if keep.Some? then {keep.value} else {})
    {
      keep, extras := None, {};
      assert instances[..0] == [];
      for i := 0 to |instances|
        invariant keep == OldestLive(instances[..i], entityType, entity)
        invariant extras == (set j | 0 <= j < i && LiveOn(instances[j], entityType, entity))
          - (if keep.Some? then {keep.value} else {})
      {
        assert instances[..i + 1][..i] == instances[..i];
        if LiveOn(instances[i], entityType, entity) {
          if keep.None? {
            keep := Some(i);
          } else if instances[i].stamp < instances[keep.value].stamp {
            extras := extras + {keep.value};
            keep := Some(i);
          } else {
            extras := extras + {i};
          }
        }
      }
      assert instances[..|instances|] == instances;
    }

    method CancelExtras(extras: set<InstanceId>)
      modifies `instances
      ensures instances == Withdraw(old(instances), extras)
    {
      for i := 0 to |instances|
        invariant |instances| == |old(instances)|
        invariant forall j :: 0 <= j < i ==> instances[j] == WithdrawOne(old(instances)[j], j in extras)
        invariant forall j :: i <= j < |instances| ==> instances[j] == old(instances)[j]
      {
        if i in extras && instances[i].status == Live {
          instances := instances[i := instances[i].(status := Withdrawn)];
        }
      }
    }

    lemma CancelledLeavesOne(before: seq<Instance>, keep: InstanceId, entityType: string, entity: string)
      requires keep in LiveIds(before, entityType, entity)
      ensures LiveIds(Withdraw(before, LiveIds(before, entityType, entity) - {keep}), entityType, entity) == {keep}
    {
      var after := Withdraw(before, LiveIds(before, entityType, entity) - {keep});
      assert forall i :: 0 <= i < |before| ==>
        after[i] == WithdrawOne(before[i], i in LiveIds(before, entityType, entity) - {keep});
    }

    /** A whole call with nobody in between: the document is left with the chain returned and no other. */
    method EnsurePendingInstance(entityType: string, entity: string, requester: User, stamp: int)
      returns (kept: Option<InstanceId>)
      modifies `instances
      ensures kept.Some? && LiveIds(instances, entityType, entity) == {kept.value}
      ensures OldestLive(old(instances), entityType, entity).Some? ==>
        kept == OldestLive(old(instances), entityType, entity) && |instances| == |old(instances)|
    {
      var keep, extras := ReadLive(entityType, entity);
      if keep.None? {
        var x := StartApproval(rules, entityType, entity, requester, stamp, true);
        instances := instances + [x.value];
        assert |instances| - 1 in LiveIds(instances, entityType, entity);
        OldestIsOldest(instances, entityType, entity);
        keep, extras := ReadLive(entityType, entity);
      }
      CancelledLeavesOne(instances, keep.value, entityType, entity);
      CancelExtras(extras);
      return keep;
    }
  }
}

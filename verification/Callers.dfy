/** When concurrent calls that make sure a document has a live chain return the same one. A window of a
    run is looked at: it starts, whatever was decided before, when no call on the document is between
    starting and cleaning up, and lasts as long as nothing is decided on the document. */
module Callers {
  import opened Stock
  import opened ApprovalRules
  import opened Decisions
  import opened Engine
  import opened EngineRuns

  datatype Doc = Doc(entityType: string, entity: string)

  predicate On(x: Instance, doc: Doc) { SameDocument(x, doc.entityType, doc.entity) }

  predicate Asks(call: Call, doc: Doc) { call.entityType == doc.entityType && call.entity == doc.entity }

  // ----- the chains and calls of a window -----

  /** A chain of the document that was live when the window started or was created in it. */
  predicate Candidate(start: State, st: State, doc: Doc, i: InstanceId) {
    && i < |st.instances| && On(st.instances[i], doc)
    && (i < |start.instances| ==> start.instances[i].status == Live)
  }

  /** The order (createdAt, id). */
  predicate Earlier(instances: seq<Instance>, i: InstanceId, j: InstanceId) {
    && i < |instances| && j < |instances|
    && (instances[i].stamp < instances[j].stamp || (instances[i].stamp == instances[j].stamp && i <= j))
  }

  ghost predicate FirstChain(start: State, st: State, doc: Doc, i: InstanceId) {
    Candidate(start, st, doc, i) && forall j: nat :: Candidate(start, st, doc, j) ==> Earlier(st.instances, i, j)
  }

  /** A call on the document that had not returned when the window started. */
  predicate Joined(start: State, st: State, doc: Doc, c: nat) {
    && c < |st.calls| && Asks(st.calls[c], doc)
    && (c < |start.calls| ==> !start.calls[c].phase.Returned?)
  }

  predicate HasReturned(start: State, st: State, doc: Doc, c: nat) {
    Joined(start, st, doc, c) && st.calls[c].phase.Returned?
  }

  function KeptBy(call: Call): Option<InstanceId> {
    match call.phase
    case MustCancel(keep, _) => Some(keep)
    case Returned(kept) => kept
    case _ => None
  }

  /** What a call settled on: no candidate that was there when it read comes before it. */
  ghost predicate Settled(start: State, st: State, doc: Doc, k: InstanceId) {
    && Candidate(start, st, doc, k)
    && forall j: nat :: Candidate(start, st, doc, j) && (j < |start.instances| || j < k) ==> Earlier(st.instances, k, j)
  }

  ghost predicate CallOk(start: State, st: State, doc: Doc, call: Call) {
    match call.phase
    case MustReread => exists j: nat :: Candidate(start, st, doc, j)
    case MustCancel(keep, extras) =>
      && Settled(start, st, doc, keep)
      && forall x :: x in extras ==> x != keep && Candidate(start, st, doc, x) && Earlier(st.instances, keep, x)
    case Returned(kept) => kept.Some? && Settled(start, st, doc, kept.value)
    case _ => true
  }

  /** Call `c` created chain `i`, or settled on one that is no later. */
  predicate Answers(start: State, st: State, doc: Doc, i: InstanceId, c: nat) {
    && Joined(start, st, doc, c)
    && (st.calls[c].phase.MustReread?
        || (KeptBy(st.calls[c]).Some? && Earlier(st.instances, KeptBy(st.calls[c]).value, i)))
  }

  predicate CancelsElsewhere(st: State, doc: Doc, call: Call) {
    call.phase.MustCancel? ==> forall x | x in call.phase.extras :: x < |st.instances| && !On(st.instances[x], doc)
  }

  predicate OthersElsewhere(st: State, doc: Doc) {
    forall c | 0 <= c < |st.calls| :: !Asks(st.calls[c], doc) ==> CancelsElsewhere(st, doc, st.calls[c])
  }

  ghost predicate CallsStand(start: State, st: State, doc: Doc) {
    && |start.calls| <= |st.calls|
    && (forall c :: 0 <= c < |start.calls| && start.calls[c].phase.Returned? ==> st.calls[c] == start.calls[c])
    && OthersElsewhere(st, doc)
    && (forall c: nat :: Joined(start, st, doc, c) ==> CallOk(start, st, doc, st.calls[c]))
  }

  ghost predicate Converged(start: State, st: State, doc: Doc) {
    && CallsStand(start, st, doc)
    && (forall i: nat :: Candidate(start, st, doc, i) && i >= |start.instances| ==>
          exists c: nat :: Answers(start, st, doc, i, c))
    && (forall i: nat :: FirstChain(start, st, doc, i) ==> st.instances[i].status == Live)
  }

  // ----- first chains -----

  lemma {:induction false} SomeFirst(start: State, st: State, doc: Doc, n: nat, k: InstanceId) returns (f: InstanceId)
    requires n <= |st.instances| && k < n && Candidate(start, st, doc, k)
    ensures Candidate(start, st, doc, f) && f < n
    ensures forall j: nat :: j < n && Candidate(start, st, doc, j) ==> Earlier(st.instances, f, j)
  {
    if exists j: nat :: j < n - 1 && Candidate(start, st, doc, j) {
      var j: nat :| j < n - 1 && Candidate(start, st, doc, j);
      f := SomeFirst(start, st, doc, n - 1, j);
      if Candidate(start, st, doc, n - 1) && !Earlier(st.instances, f, n - 1) {
        f := n - 1;
      }
    } else {
      f := n - 1;
    }
  }

  lemma FirstIsOne(start: State, st: State, doc: Doc, i: InstanceId, j: InstanceId)
    requires FirstChain(start, st, doc, i) && Candidate(start, st, doc, j) && Earlier(st.instances, j, i)
    ensures i == j
  {
  }

  /** While the invariant holds, reading the live chains finds the first one, unless there is none. */
  lemma ReadsFirst(start: State, st: State, doc: Doc)
    requires Evolves(start, st) && Converged(start, st, doc)
    ensures var k := OldestLive(st.instances, doc.entityType, doc.entity);
      && (k.None? ==> forall j: nat :: !Candidate(start, st, doc, j))
      && (k.Some? ==> FirstChain(start, st, doc, k.value))
    ensures forall x :: x in LiveIds(st.instances, doc.entityType, doc.entity) ==> Candidate(start, st, doc, x)
  {
    OldestIsOldest(st.instances, doc.entityType, doc.entity);
    var live := LiveIds(st.instances, doc.entityType, doc.entity);
    forall x | x in live ensures Candidate(start, st, doc, x) {
      assert x < |start.instances| ==> Grows(start.instances[x], st.instances[x]);
    }
    if j: nat :| Candidate(start, st, doc, j) {
      var f := SomeFirst(start, st, doc, |st.instances|, j);
      assert FirstChain(start, st, doc, f);
      assert f in live;
    }
  }

  // ----- steps -----

  /** What a step that does not concern the document leaves as it was. */
  ghost predicate Aside(a: State, b: State, doc: Doc) {
    && |a.instances| <= |b.instances| && |a.calls| <= |b.calls|
    && (forall i :: 0 <= i < |a.instances| ==> (On(b.instances[i], doc) <==> On(a.instances[i], doc)))
    && (forall i :: 0 <= i < |a.instances| && On(a.instances[i], doc) ==> b.instances[i] == a.instances[i])
    && (forall i :: |a.instances| <= i < |b.instances| ==> !On(b.instances[i], doc))
    && (forall c :: 0 <= c < |a.calls| ==> (Asks(b.calls[c], doc) <==> Asks(a.calls[c], doc)))
    && (forall c :: 0 <= c < |a.calls| && (Asks(a.calls[c], doc) || a.calls[c].phase.Returned?) ==>
          b.calls[c] == a.calls[c])
    && (forall c :: |a.calls| <= c < |b.calls| ==> b.calls[c].phase.MustRead?)
    && OthersElsewhere(b, doc)
  }

  lemma AsideCandidates(start: State, a: State, b: State, doc: Doc)
    requires Aside(a, b, doc) && |start.instances| <= |a.instances|
    ensures forall i: nat :: Candidate(start, a, doc, i) <==> Candidate(start, b, doc, i)
    ensures forall i: nat, j: nat :: Candidate(start, a, doc, i) && Candidate(start, a, doc, j) ==>
      (Earlier(a.instances, i, j) <==> Earlier(b.instances, i, j))
  {
  }

  lemma AsideCallOk(start: State, a: State, b: State, doc: Doc, call: Call)
    requires Aside(a, b, doc) && |start.instances| <= |a.instances| && CallOk(start, a, doc, call)
    ensures CallOk(start, b, doc, call)
  {
    AsideCandidates(start, a, b, doc);
    if call.phase.MustReread? {
      var j: nat :| Candidate(start, a, doc, j);
      assert Candidate(start, b, doc, j);
    }
  }

  lemma AsideAnswers(start: State, a: State, b: State, doc: Doc, i: InstanceId, c: nat)
    requires Aside(a, b, doc) && |start.instances| <= |a.instances| && |start.calls| <= |a.calls|
    requires Candidate(start, a, doc, i) && Answers(start, a, doc, i, c) && CallOk(start, a, doc, a.calls[c])
    ensures Answers(start, b, doc, i, c)
  {
    AsideCandidates(start, a, b, doc);
  }

  lemma AsideConverges(start: State, a: State, b: State, doc: Doc)
    requires |start.instances| <= |a.instances| && Converged(start, a, doc) && Aside(a, b, doc)
    ensures Converged(start, b, doc)
  {
    AsideCandidates(start, a, b, doc);
    forall c: nat | Joined(start, b, doc, c) ensures CallOk(start, b, doc, b.calls[c]) {
      if c < |a.calls| {
        assert Joined(start, a, doc, c);
        AsideCallOk(start, a, b, doc, a.calls[c]);
      }
    }
    forall i: nat | Candidate(start, b, doc, i) && i >= |start.instances|
      ensures exists c: nat :: Answers(start, b, doc, i, c)
    {
      assert Candidate(start, a, doc, i);
      var c: nat :| Answers(start, a, doc, i, c);
      AsideAnswers(start, a, b, doc, i, c);
    }
    forall i: nat | FirstChain(start, b, doc, i) ensures b.instances[i].status == Live {
      assert FirstChain(start, a, doc, i);
    }
  }

  /** A call on the document reads: its phase changes, the chains do not. */
  lemma ReadConverges(start: State, st: State, doc: Doc, c: nat)
    requires Evolves(start, st) && Converged(start, st, doc) && Joined(start, st, doc, c)
    requires st.calls[c].phase.MustRead? || st.calls[c].phase.MustReread?
    ensures var none := if st.calls[c].phase.MustRead? then MustStart else Returned(None);
      Converged(start, st.(calls := st.calls[c := st.calls[c].(phase := AfterRead(st.instances, st.calls[c], none))]),
        doc)
  {
    var none := if st.calls[c].phase.MustRead? then MustStart else Returned(None);
    var now := st.calls[c].(phase := AfterRead(st.instances, st.calls[c], none));
    var d := st.(calls := st.calls[c := now]);
    ReadsFirst(start, st, doc);
    assert forall i: nat :: Candidate(start, d, doc, i) <==> Candidate(start, st, doc, i);
    assert CallOk(start, st, doc, st.calls[c]);
    ReadCallOk(start, st, doc, c);
    forall k: nat | Joined(start, d, doc, k) ensures CallOk(start, d, doc, d.calls[k]) {
      assert Joined(start, st, doc, k);
      assert k != c ==> CallOk(start, st, doc, st.calls[k]);
      CallOkLooksAtChains(start, st, d, doc, d.calls[k]);
    }
    forall i: nat | Candidate(start, d, doc, i) && i >= |start.instances|
      ensures exists k: nat :: Answers(start, d, doc, i, k)
    {
      assert Candidate(start, st, doc, i);
      var k: nat :| Answers(start, st, doc, i, k);
      assert Answers(start, d, doc, i, k);
    }
    forall i: nat | FirstChain(start, d, doc, i) ensures d.instances[i].status == Live {
      assert FirstChain(start, st, doc, i);
    }
  }

  lemma ReadCallOk(start: State, st: State, doc: Doc, c: nat)
    requires Evolves(start, st) && Converged(start, st, doc) && Joined(start, st, doc, c)
    requires st.calls[c].phase.MustRead? || st.calls[c].phase.MustReread?
    ensures var none := if st.calls[c].phase.MustRead? then MustStart else Returned(None);
      CallOk(start, st, doc, st.calls[c].(phase := AfterRead(st.instances, st.calls[c], none)))
  {
    ReadsFirst(start, st, doc);
    assert CallOk(start, st, doc, st.calls[c]);
  }

  lemma CallOkLooksAtChains(start: State, a: State, b: State, doc: Doc, call: Call)
    requires a.instances == b.instances && CallOk(start, a, doc, call)
    ensures CallOk(start, b, doc, call)
  {
    assert forall i: nat :: Candidate(start, a, doc, i) <==> Candidate(start, b, doc, i);
  }

  /** A call on the document creates a chain. */
  lemma CreateConverges(start: State, st: State, doc: Doc, c: nat, x: Instance)
    requires |start.instances| <= |st.instances| && Converged(start, st, doc) && Joined(start, st, doc, c)
    requires st.calls[c].phase.MustStart? && On(x, doc) && x.status == Live
    ensures Converged(start, State(st.rules, st.instances + [x], st.calls[c := st.calls[c].(phase := MustReread)]), doc)
  {
    var d := State(st.rules, st.instances + [x], st.calls[c := st.calls[c].(phase := MustReread)]);
    var n := |st.instances|;
    assert Candidate(start, d, doc, n);
    forall k: nat | Joined(start, d, doc, k) ensures CallOk(start, d, doc, d.calls[k]) {
      assert Joined(start, st, doc, k);
      if k != c { CreatedCallOk(start, st, d, doc, x, st.calls[k]); }
    }
    forall i: nat | Candidate(start, d, doc, i) && i >= |start.instances|
      ensures exists k: nat :: Answers(start, d, doc, i, k)
    {
      if i == n {
        assert Answers(start, d, doc, i, c);
      } else {
        CreatedAnswers(start, st, d, doc, c, x, i);
      }
    }
    forall i: nat | FirstChain(start, d, doc, i) ensures d.instances[i].status == Live {
      if i < n { CreatedFirst(start, st, d, doc, x, i); }
    }
  }

  lemma CreatedCallOk(start: State, a: State, b: State, doc: Doc, x: Instance, call: Call)
    requires |start.instances| <= |a.instances| && b.instances == a.instances + [x] && CallOk(start, a, doc, call)
    ensures CallOk(start, b, doc, call)
  {
    assert forall i: nat :: i < |a.instances| ==> (Candidate(start, a, doc, i) <==> Candidate(start, b, doc, i));
    if call.phase.MustReread? {
      var j: nat :| Candidate(start, a, doc, j);
      assert Candidate(start, b, doc, j);
    }
  }

  lemma CreatedAnswers(start: State, a: State, b: State, doc: Doc, c: nat, x: Instance, i: InstanceId)
    requires |start.instances| <= i < |a.instances| && Converged(start, a, doc) && c < |a.calls|
      && a.calls[c].phase.MustStart?
    requires b.instances == a.instances + [x] && b.calls == a.calls[c := a.calls[c].(phase := MustReread)]
    requires Candidate(start, b, doc, i)
    ensures exists k: nat :: Answers(start, b, doc, i, k)
  {
    assert Candidate(start, a, doc, i);
    var k: nat :| Answers(start, a, doc, i, k);
    assert Answers(start, b, doc, i, k);
  }

  lemma CreatedFirst(start: State, a: State, b: State, doc: Doc, x: Instance, i: InstanceId)
    requires b.instances == a.instances + [x] && i < |a.instances| && FirstChain(start, b, doc, i)
    ensures FirstChain(start, a, doc, i)
  {
    forall j: nat | Candidate(start, a, doc, j) ensures Earlier(a.instances, i, j) {
      assert Candidate(start, b, doc, j);
    }
  }

  /** Call `c` cancels its extras and returns. */
  ghost predicate Cancels(start: State, a: State, b: State, doc: Doc, c: nat, keep: InstanceId,
        extras: set<InstanceId>)
  {
    && Converged(start, a, doc) && Joined(start, a, doc, c) && a.calls[c].phase == MustCancel(keep, extras)
    && b == State(a.rules, Withdraw(a.instances, extras), a.calls[c := a.calls[c].(phase := Returned(Some(keep)))])
  }

  lemma CancelledCallsStand(start: State, a: State, b: State, doc: Doc, c: nat, keep: InstanceId,
        extras: set<InstanceId>)
    requires Cancels(start, a, b, doc, c, keep, extras)
    ensures CallsStand(start, b, doc)
  {
    assert CallOk(start, a, doc, a.calls[c]);
    forall k: nat | Joined(start, b, doc, k) ensures CallOk(start, b, doc, b.calls[k]) {
      assert Joined(start, a, doc, k);
      CancelledCallOk(start, a, b, doc, extras, if k == c then b.calls[c] else a.calls[k]);
    }
  }

  lemma CancelledAnswers(start: State, a: State, b: State, doc: Doc, c: nat, keep: InstanceId, extras: set<InstanceId>,
        i: InstanceId)
    returns (k: nat)
    requires Cancels(start, a, b, doc, c, keep, extras)
    requires Candidate(start, b, doc, i) && i >= |start.instances|
    ensures Answers(start, b, doc, i, k)
  {
    assert Candidate(start, a, doc, i);
    k :| Answers(start, a, doc, i, k);
  }

  lemma CancelledFirstIsLive(start: State, a: State, b: State, doc: Doc, c: nat, keep: InstanceId,
        extras: set<InstanceId>, i: InstanceId)
    requires Cancels(start, a, b, doc, c, keep, extras) && FirstChain(start, b, doc, i)
    ensures b.instances[i].status == Live
  {
    assert CallOk(start, a, doc, a.calls[c]);
    CancelledFirst(start, a, b, doc, extras, i);
    assert i !in extras;
  }

  /** A call on the document cancels the extras: never the first chain. */
  lemma CancelConverges(start: State, a: State, b: State, doc: Doc, c: nat, keep: InstanceId, extras: set<InstanceId>)
    requires Cancels(start, a, b, doc, c, keep, extras)
    ensures Converged(start, b, doc)
  {
    CancelledCallsStand(start, a, b, doc, c, keep, extras);
    forall i: nat | Candidate(start, b, doc, i) && i >= |start.instances|
      ensures exists k: nat :: Answers(start, b, doc, i, k)
    {
      var k := CancelledAnswers(start, a, b, doc, c, keep, extras, i);
    }
    forall i: nat | FirstChain(start, b, doc, i) ensures b.instances[i].status == Live {
      CancelledFirstIsLive(start, a, b, doc, c, keep, extras, i);
    }
  }

  lemma CancelledFirst(start: State, a: State, b: State, doc: Doc, extras: set<InstanceId>, i: InstanceId)
    requires b.instances == Withdraw(a.instances, extras) && FirstChain(start, b, doc, i)
    ensures FirstChain(start, a, doc, i)
  {
    forall j: nat | Candidate(start, a, doc, j) ensures Earlier(a.instances, i, j) {
      assert Candidate(start, b, doc, j);
    }
  }

  lemma CancelledCallOk(start: State, a: State, b: State, doc: Doc, extras: set<InstanceId>, call: Call)
    requires b.instances == Withdraw(a.instances, extras) && CallOk(start, a, doc, call)
    ensures CallOk(start, b, doc, call)
  {
    assert forall i: nat :: Candidate(start, b, doc, i) <==> Candidate(start, a, doc, i);
    if call.phase.MustReread? {
      var j: nat :| Candidate(start, a, doc, j);
      assert Candidate(start, b, doc, j);
    }
  }

  // ----- every step -----

  /** Something is decided on the document. */
  predicate DecidesOn(h: History, op: Op, doc: Doc) {
    op.DoDecide? && Step(h, op).Ok? && On(Now(h).instances[op.i], doc)
  }

  /** A call that cancels nothing of the document still does not once the chains have evolved. */
  lemma StaysElsewhere(a: State, b: State, doc: Doc, call: Call)
    requires Evolves(a, b) && CancelsElsewhere(a, doc, call)
    ensures CancelsElsewhere(b, doc, call)
  {
    assert forall i: nat :: i < |a.instances| ==> Grows(a.instances[i], b.instances[i]);
  }

  /** A step other than a call's keeps the calls there are and adds none that has read. */
  lemma OtherStepCalls(h: History, op: Op)
    requires Step(h, op).Ok? && !op.DoAdvance?
    ensures Now(h).calls <= Step(h, op).value.calls
    ensures forall c :: |Now(h).calls| <= c < |Step(h, op).value.calls| ==> Step(h, op).value.calls[c].phase.MustRead?
  {
  }

  lemma OtherStepCancelsOwn(h: History, op: Op, doc: Doc)
    requires Coherent(h) && Step(h, op).Ok? && !op.DoAdvance? && OthersElsewhere(Now(h), doc)
    ensures OthersElsewhere(Step(h, op).value, doc)
  {
    StepKeeps(h, op);
    OtherStepCalls(h, op);
    var st, d := Now(h), Step(h, op).value;
    forall c | 0 <= c < |d.calls| && !Asks(d.calls[c], doc) ensures CancelsElsewhere(d, doc, d.calls[c]) {
      if c < |st.calls| { StaysElsewhere(st, d, doc, st.calls[c]); }
    }
  }

  lemma OtherStepChains(h: History, op: Op, doc: Doc)
    requires Coherent(h) && Step(h, op).Ok? && doc.entityType in DOMAIN_OWNED && !DecidesOn(h, op, doc)
    requires !op.DoAdvance?
    ensures var a, b := Now(h).instances, Step(h, op).value.instances;
      && |a| <= |b|
      && (forall i :: 0 <= i < |a| ==> (On(b[i], doc) <==> On(a[i], doc)))
      && (forall i :: 0 <= i < |a| && On(a[i], doc) ==> b[i] == a[i])
      && (forall i :: |a| <= i < |b| ==> !On(b[i], doc))
  {
    StepKeeps(h, op);
  }

  lemma OtherStepAside(h: History, op: Op, doc: Doc)
    requires Coherent(h) && Step(h, op).Ok? && doc.entityType in DOMAIN_OWNED && !DecidesOn(h, op, doc)
    requires !op.DoAdvance?
    requires OthersElsewhere(Now(h), doc)
    ensures Aside(Now(h), Step(h, op).value, doc)
  {
    OtherStepChains(h, op, doc);
    OtherStepCalls(h, op);
    OtherStepCancelsOwn(h, op, doc);
  }

  /** A call on another document. */
  lemma OtherCallAside(st: State, doc: Doc, c: nat, rules: seq<Rule>, stamp: int)
    requires Advance(st, c, rules, stamp).Ok? && !Asks(st.calls[c], doc)
    requires OthersElsewhere(st, doc)
    ensures Aside(st, Advance(st, c, rules, stamp).value, doc)
  {
    var d := Advance(st, c, rules, stamp).value;
    assert CancelsElsewhere(st, doc, st.calls[c]);
    forall k | 0 <= k < |d.calls| && !Asks(d.calls[k], doc) ensures CancelsElsewhere(d, doc, d.calls[k]) {
      assert k != c ==> CancelsElsewhere(st, doc, st.calls[k]);
    }
  }

  lemma StartedOn(rules: seq<Rule>, call: Call, stamp: int)
    ensures var x := StartApproval(rules, call.entityType, call.entity, call.requester, stamp, true);
      x.Ok? && SameDocument(x.value, call.entityType, call.entity) && x.value.status == Live
  {
  }

  /** A call on the document. */
  lemma CallConverges(start: State, st: State, doc: Doc, c: nat, rules: seq<Rule>, stamp: int)
    requires Evolves(start, st) && Converged(start, st, doc) && doc.entityType in DOMAIN_OWNED
    requires Advance(st, c, rules, stamp).Ok? && Asks(st.calls[c], doc)
    ensures Converged(start, Advance(st, c, rules, stamp).value, doc)
  {
    var call := st.calls[c];
    assert Joined(start, st, doc, c);
    match call.phase
    case MustRead => ReadConverges(start, st, doc, c);
    case MustReread => ReadConverges(start, st, doc, c);
    case MustStart =>
      var x := StartApproval(rules, call.entityType, call.entity, call.requester, stamp, true).value;
      StartedOn(rules, call, stamp);
      CreateConverges(start, st, doc, c, x);
    case MustCancel(keep, extras) =>
      CancelConverges(start, st, Advance(st, c, rules, stamp).value, doc, c, keep, extras);
    case Returned(_) =>
  }

  lemma StepConverges(start: State, h: History, op: Op, doc: Doc)
    requires Coherent(h) && Evolves(start, Now(h)) && Converged(start, Now(h), doc) && doc.entityType in DOMAIN_OWNED
    requires Step(h, op).Ok? && !DecidesOn(h, op, doc)
    ensures Converged(start, Step(h, op).value, doc)
  {
    var st := Now(h);
    if !op.DoAdvance? {
      OtherStepAside(h, op, doc);
      AsideConverges(start, st, Step(h, op).value, doc);
    } else if Asks(st.calls[op.c], doc) {
      CallConverges(start, st, doc, op.c, h[op.seen].rules, op.stamp);
    } else {
      OtherCallAside(st, doc, op.c, h[op.seen].rules, op.stamp);
      AsideConverges(start, st, Step(h, op).value, doc);
    }
  }

  // ----- windows of a run -----

  /** In every run a call cancels chains of its own document only. */
  lemma {:induction false} CancelsOwn(ops: seq<Op>, doc: Doc)
    ensures OthersElsewhere(Now(Run(ops)), doc)
  {
    if ops != [] {
      var front, op := ops[..|ops| - 1], ops[|ops| - 1];
      CancelsOwn(front, doc);
      RunCoherent(front);
      if Step(Run(front), op).Ok? { StepCancelsOwn(Run(front), op, doc); }
    }
  }

  lemma StepCancelsOwn(h: History, op: Op, doc: Doc)
    requires Coherent(h) && Step(h, op).Ok?
    requires OthersElsewhere(Now(h), doc)
    ensures OthersElsewhere(Step(h, op).value, doc)
  {
    if !op.DoAdvance? {
      OtherStepCancelsOwn(h, op, doc);
    } else {
      StepKeeps(h, op);
      AdvanceCancelsOwn(Now(h), doc, op.c, h[op.seen].rules, op.stamp);
    }
  }

  lemma AdvanceCancelsOwn(st: State, doc: Doc, c: nat, rules: seq<Rule>, stamp: int)
    requires Advance(st, c, rules, stamp).Ok? && OthersElsewhere(st, doc)
    requires Evolves(st, Advance(st, c, rules, stamp).value)
    ensures OthersElsewhere(Advance(st, c, rules, stamp).value, doc)
  {
    var d := Advance(st, c, rules, stamp).value;
    forall k | 0 <= k < |d.calls| && !Asks(d.calls[k], doc) ensures CancelsElsewhere(d, doc, d.calls[k]) {
      if k == c {
        AdvancedCancelsOwn(st, doc, c, rules, stamp);
      } else {
        StaysElsewhere(st, d, doc, st.calls[k]);
      }
    }
  }

  lemma AdvancedCancelsOwn(st: State, doc: Doc, c: nat, rules: seq<Rule>, stamp: int)
    requires Advance(st, c, rules, stamp).Ok? && !Asks(st.calls[c], doc)
    ensures var d := Advance(st, c, rules, stamp).value; CancelsElsewhere(d, doc, d.calls[c])
  {
  }

  /** Nothing is decided on the document from state `k` of the run on. */
  ghost predicate Undecided(ops: seq<Op>, k: nat, doc: Doc) {
    |ops| <= k ||
    (var front, op := ops[..|ops| - 1], ops[|ops| - 1];
     Undecided(front, k, doc) && !DecidesOn(Run(front), op, doc))
  }

  /** The window from state `k` on: nobody is between starting and cleaning up at its start. */
  ghost predicate Window(ops: seq<Op>, k: nat, doc: Doc) {
    && k < |Run(ops)| && doc.entityType in DOMAIN_OWNED && Undecided(ops, k, doc)
    && !InFlight(Run(ops)[k], doc.entityType, doc.entity)
  }

  lemma StartConverged(start: State, doc: Doc)
    requires !InFlight(start, doc.entityType, doc.entity)
    requires OthersElsewhere(start, doc)
    ensures Converged(start, start, doc)
  {
    forall c: nat | Joined(start, start, doc, c) ensures CallOk(start, start, doc, start.calls[c]) {
      assert !start.calls[c].phase.MustReread? && !start.calls[c].phase.MustCancel?;
    }
  }

  lemma {:induction false} WindowConverges(ops: seq<Op>, k: nat, doc: Doc)
    requires Window(ops, k, doc)
    ensures Converged(Run(ops)[k], Now(Run(ops)), doc) && Evolves(Run(ops)[k], Now(Run(ops)))
  {
    RunCoherent(ops);
    RunLength(ops);
    if k == |ops| {
      CancelsOwn(ops, doc);
      StartConverged(Now(Run(ops)), doc);
    } else {
      var front, op := ops[..|ops| - 1], ops[|ops| - 1];
      RunLength(front);
      WindowConverges(front, k, doc);
      RunCoherent(front);
      if Step(Run(front), op).Ok? { StepConverges(Run(front)[k], Run(front), op, doc); }
    }
  }

  // ----- agreement -----

  /** Every call of the window that returned holds the same chain. */
  ghost predicate Agree(start: State, st: State, doc: Doc) {
    forall c: nat, d: nat :: HasReturned(start, st, doc, c) && HasReturned(start, st, doc, d) ==>
      KeptBy(st.calls[c]) == KeptBy(st.calls[d])
  }

  /** Every call of the window that returned holds the chain that is first by (createdAt, id). */
  ghost predicate AllOnFirst(start: State, st: State, doc: Doc) {
    forall c: nat :: HasReturned(start, st, doc, c) ==>
      KeptBy(st.calls[c]).Some? && FirstChain(start, st, doc, KeptBy(st.calls[c]).value)
  }

  /** At the end of a window in which every call has finished: the callers agree exactly when each of
      them holds the chain that is first by (createdAt, id), and that one is live. */
  lemma CallersAgreeIff(ops: seq<Op>, k: nat, doc: Doc)
    requires Window(ops, k, doc) && !InFlight(Now(Run(ops)), doc.entityType, doc.entity)
    ensures Agree(Run(ops)[k], Now(Run(ops)), doc) <==> AllOnFirst(Run(ops)[k], Now(Run(ops)), doc)
    ensures forall f: nat :: FirstChain(Run(ops)[k], Now(Run(ops)), doc, f) ==>
      Now(Run(ops)).instances[f].status == Live
  {
    WindowConverges(ops, k, doc);
    var start, st := Run(ops)[k], Now(Run(ops));
    if AllOnFirst(start, st, doc) { OnFirstAgree(start, st, doc); }
    if Agree(start, st, doc) {
      forall c: nat | HasReturned(start, st, doc, c)
        ensures KeptBy(st.calls[c]).Some? && FirstChain(start, st, doc, KeptBy(st.calls[c]).value)
      {
        AgreedOnFirst(start, st, doc, c);
      }
    }
  }

  lemma AgreedOnFirst(start: State, st: State, doc: Doc, c: nat)
    requires Converged(start, st, doc) && !InFlight(st, doc.entityType, doc.entity) && Agree(start, st, doc)
    requires HasReturned(start, st, doc, c)
    ensures KeptBy(st.calls[c]).Some? && FirstChain(start, st, doc, KeptBy(st.calls[c]).value)
  {
    assert CallOk(start, st, doc, st.calls[c]);
    var kept := KeptBy(st.calls[c]).value;
    var f := SomeFirst(start, st, doc, |st.instances|, kept);
    assert FirstChain(start, st, doc, f);
    if f >= |start.instances| {
      var d: nat :| Answers(start, st, doc, f, d);
      assert HasReturned(start, st, doc, d) && CallOk(start, st, doc, st.calls[d]);
      FirstIsOne(start, st, doc, f, KeptBy(st.calls[d]).value);
    } else {
      FirstIsOne(start, st, doc, f, kept);
    }
  }

  /** A call that joins a chain that was there before the window and stays first returns that chain. */
  lemma StandingChainIsJoined(ops: seq<Op>, k: nat, doc: Doc, f: InstanceId, c: nat)
    requires Window(ops, k, doc) && FirstChain(Run(ops)[k], Now(Run(ops)), doc, f) && f < |Run(ops)[k].instances|
    requires HasReturned(Run(ops)[k], Now(Run(ops)), doc, c)
    ensures KeptBy(Now(Run(ops)).calls[c]) == Some(f)
  {
    WindowConverges(ops, k, doc);
    var start, st := Run(ops)[k], Now(Run(ops));
    assert CallOk(start, st, doc, st.calls[c]);
    FirstIsOne(start, st, doc, f, KeptBy(st.calls[c]).value);
  }

  /** The chains of the window were created in (createdAt, id) order. */
  ghost predicate CreatedInOrder(start: State, st: State, doc: Doc) {
    forall i: nat, j: nat :: i < j && Candidate(start, st, doc, i) && Candidate(start, st, doc, j) ==>
      Earlier(st.instances, i, j)
  }

  /** If creation follows (createdAt, id), every call that returned holds the first chain, and so the
      same one, whether or not others are still under way. */
  lemma CallersAgree(ops: seq<Op>, k: nat, doc: Doc)
    requires Window(ops, k, doc) && CreatedInOrder(Run(ops)[k], Now(Run(ops)), doc)
    ensures Agree(Run(ops)[k], Now(Run(ops)), doc) && AllOnFirst(Run(ops)[k], Now(Run(ops)), doc)
  {
    WindowConverges(ops, k, doc);
    var start, st := Run(ops)[k], Now(Run(ops));
    forall c: nat | HasReturned(start, st, doc, c)
      ensures KeptBy(st.calls[c]).Some? && FirstChain(start, st, doc, KeptBy(st.calls[c]).value)
    {
      assert CallOk(start, st, doc, st.calls[c]);
      InOrderOnFirst(start, st, doc, KeptBy(st.calls[c]).value);
    }
    OnFirstAgree(start, st, doc);
  }

  lemma InOrderIsEarlier(start: State, st: State, doc: Doc, kept: InstanceId, f: InstanceId)
    requires CreatedInOrder(start, st, doc) && Settled(start, st, doc, kept) && Candidate(start, st, doc, f)
    ensures Earlier(st.instances, kept, f)
  {
    if kept < f { assert Earlier(st.instances, kept, f); }
  }

  lemma InOrderOnFirst(start: State, st: State, doc: Doc, kept: InstanceId)
    requires CreatedInOrder(start, st, doc) && Settled(start, st, doc, kept)
    ensures FirstChain(start, st, doc, kept)
  {
    forall f: nat | Candidate(start, st, doc, f) ensures Earlier(st.instances, kept, f) {
      InOrderIsEarlier(start, st, doc, kept, f);
    }
  }

  lemma OnFirstAgree(start: State, st: State, doc: Doc)
    requires AllOnFirst(start, st, doc)
    ensures Agree(start, st, doc)
  {
    forall c: nat, d: nat | HasReturned(start, st, doc, c) && HasReturned(start, st, doc, d)
      ensures KeptBy(st.calls[c]) == KeptBy(st.calls[d])
    {
      FirstIsOne(start, st, doc, KeptBy(st.calls[c]).value, KeptBy(st.calls[d]).value);
    }
  }

  // ----- agreement as a matter of timing -----

  /** A call on the document reads and finds live chains: it settles on one. */
  predicate Settles(h: History, op: Op, doc: Doc) {
    && op.DoAdvance? && Step(h, op).Ok? && Asks(Now(h).calls[op.c], doc)
    && (Now(h).calls[op.c].phase.MustRead? || Now(h).calls[op.c].phase.MustReread?)
    && OldestLive(Now(h).instances, doc.entityType, doc.entity).Some?
  }

  /** No call settles, from state `k` on, before chain `f` exists. */
  ghost predicate SettledAfter(ops: seq<Op>, k: nat, doc: Doc, f: InstanceId) {
    |ops| <= k ||
    (var front, op := ops[..|ops| - 1], ops[|ops| - 1];
     SettledAfter(front, k, doc, f) && (Settles(Run(front), op, doc) ==> f < |Now(Run(front)).instances|))
  }

  ghost predicate SettledOn(start: State, st: State, doc: Doc, f: InstanceId) {
    forall c: nat :: Joined(start, st, doc, c) && KeptBy(st.calls[c]).Some? ==> KeptBy(st.calls[c]) == Some(f)
  }

  /** The chain that ends up first was first as soon as it existed. */
  lemma FirstBefore(start: State, st: State, last: State, doc: Doc, f: InstanceId)
    requires Evolves(start, st) && Evolves(st, last) && FirstChain(start, last, doc, f) && f < |st.instances|
    ensures FirstChain(start, st, doc, f)
  {
    assert forall i: nat :: i < |st.instances| ==> Grows(st.instances[i], last.instances[i]);
    forall j: nat | Candidate(start, st, doc, j) ensures Earlier(st.instances, f, j) {
      assert Candidate(start, last, doc, j);
    }
  }

  /** The call that settles goes from holding nothing to holding the chain it read; no other changes. */
  lemma SettlingStep(h: History, op: Op, doc: Doc)
    requires Settles(h, op, doc)
    ensures var st, d := Now(h), Step(h, op).value;
      && |d.calls| == |st.calls| && op.c < |st.calls| && Asks(d.calls[op.c], doc)
      && KeptBy(st.calls[op.c]) == None
      && KeptBy(d.calls[op.c]) == OldestLive(st.instances, doc.entityType, doc.entity)
      && (forall c :: 0 <= c < |st.calls| && c != op.c ==> d.calls[c] == st.calls[c])
  {
  }

  lemma SettlingHolds(start: State, h: History, op: Op, doc: Doc, last: State, f: InstanceId)
    requires Evolves(start, Now(h)) && Converged(start, Now(h), doc) && Settles(h, op, doc)
    requires Evolves(Now(h), last) && FirstChain(start, last, doc, f)
    ensures SettledOn(start, Step(h, op).value, doc, f) <==>
      SettledOn(start, Now(h), doc, f) && f < |Now(h).instances|
  {
    var st, d := Now(h), Step(h, op).value;
    SettlingStep(h, op, doc);
    ReadsFirst(start, st, doc);
    assert Joined(start, st, doc, op.c) && Joined(start, d, doc, op.c);
    assert forall c: nat :: Joined(start, st, doc, c) <==> Joined(start, d, doc, c);
    var k := OldestLive(st.instances, doc.entityType, doc.entity).value;
    if f < |st.instances| {
      FirstBefore(start, st, last, doc, f);
      FirstIsOne(start, st, doc, f, k);
    }
    assert k == f <==> f < |st.instances|;
  }

  lemma UnsettlingHolds(start: State, h: History, op: Op, doc: Doc, f: InstanceId)
    requires |start.calls| <= |Now(h).calls| && Step(h, op).Ok? && !Settles(h, op, doc)
    ensures SettledOn(start, Step(h, op).value, doc, f) <==> SettledOn(start, Now(h), doc, f)
  {
    var st, d := Now(h), Step(h, op).value;
    NewCallsSettleNothing(h, op);
    forall c: nat | c < |st.calls|
      ensures Joined(start, st, doc, c) <==> Joined(start, d, doc, c)
      ensures Joined(start, st, doc, c) ==> KeptBy(d.calls[c]) == KeptBy(st.calls[c])
    {
      UnsettledKeeps(h, op, doc, c);
    }
  }

  /** One step, for the calls that have settled: only a settling call changes what they hold. */
  lemma StepSettles(start: State, h: History, op: Op, doc: Doc, last: State, f: InstanceId)
    requires Evolves(start, Now(h)) && Converged(start, Now(h), doc) && Step(h, op).Ok?
    requires Evolves(Now(h), last) && FirstChain(start, last, doc, f)
    ensures SettledOn(start, Step(h, op).value, doc, f) <==>
      SettledOn(start, Now(h), doc, f) && (Settles(h, op, doc) ==> f < |Now(h).instances|)
  {
    if Settles(h, op, doc) {
      SettlingHolds(start, h, op, doc, last, f);
    } else {
      UnsettlingHolds(start, h, op, doc, f);
    }
  }

  lemma UnsettledKeeps(h: History, op: Op, doc: Doc, c: nat)
    requires Step(h, op).Ok? && !Settles(h, op, doc) && c < |Now(h).calls|
    ensures var d := Step(h, op).value;
      && c < |d.calls| && (Asks(d.calls[c], doc) <==> Asks(Now(h).calls[c], doc))
      && (Asks(d.calls[c], doc) ==> KeptBy(d.calls[c]) == KeptBy(Now(h).calls[c]))
  {
  }

  lemma NewCallsSettleNothing(h: History, op: Op)
    requires Step(h, op).Ok?
    ensures |Now(h).calls| <= |Step(h, op).value.calls|
    ensures forall c :: |Now(h).calls| <= c < |Step(h, op).value.calls| ==> KeptBy(Step(h, op).value.calls[c]) == None
  {
  }

  lemma {:induction false} SettledOnIff(ops: seq<Op>, k: nat, doc: Doc, last: State, f: InstanceId)
    requires Window(ops, k, doc) && Evolves(Now(Run(ops)), last) && FirstChain(Run(ops)[k], last, doc, f)
    ensures SettledOn(Run(ops)[k], Now(Run(ops)), doc, f) <==> SettledAfter(ops, k, doc, f)
  {
    RunLength(ops);
    WindowConverges(ops, k, doc);
    if k == |ops| {
      NobodySettled(Now(Run(ops)), doc, f);
    } else {
      var front, op := ops[..|ops| - 1], ops[|ops| - 1];
      RunLength(front);
      RunCoherent(ops);
      RunCoherent(front);
      assert Run(ops)[|front|] == Now(Run(front));
      EvolvesTransitive(Now(Run(front)), Now(Run(ops)), last);
      SettledOnIff(front, k, doc, last, f);
      WindowConverges(front, k, doc);
      if Step(Run(front), op).Ok? { StepSettles(Run(ops)[k], Run(front), op, doc, last, f); }
    }
  }

  lemma NobodySettled(start: State, doc: Doc, f: InstanceId)
    requires !InFlight(start, doc.entityType, doc.entity)
    ensures SettledOn(start, start, doc, f)
  {
  }

  /** The same as a matter of timing: the callers agree exactly when no call settled before the chain
      that turns out to be first existed. */
  lemma CallersAgreeInTimeIff(ops: seq<Op>, k: nat, doc: Doc, f: InstanceId)
    requires Window(ops, k, doc) && !InFlight(Now(Run(ops)), doc.entityType, doc.entity)
    requires FirstChain(Run(ops)[k], Now(Run(ops)), doc, f)
    ensures Agree(Run(ops)[k], Now(Run(ops)), doc) <==> SettledAfter(ops, k, doc, f)
  {
    CallersAgreeIff(ops, k, doc);
    EvolvesToItself(Now(Run(ops)));
    SettledOnIff(ops, k, doc, Now(Run(ops)), f);
    WindowConverges(ops, k, doc);
    OnFirstIsSettledOn(Run(ops)[k], Now(Run(ops)), doc, f);
  }

  lemma EvolvesToItself(st: State)
    ensures Evolves(st, st)
  {
  }

  lemma OnFirstIsSettledOn(start: State, st: State, doc: Doc, f: InstanceId)
    requires Converged(start, st, doc) && !InFlight(st, doc.entityType, doc.entity) && FirstChain(start, st, doc, f)
    ensures AllOnFirst(start, st, doc) <==> SettledOn(start, st, doc, f)
  {
    forall c: nat | Joined(start, st, doc, c)
      ensures KeptBy(st.calls[c]).Some? <==> HasReturned(start, st, doc, c)
      ensures HasReturned(start, st, doc, c) ==>
        (FirstChain(start, st, doc, KeptBy(st.calls[c]).value) <==> KeptBy(st.calls[c]) == Some(f))
    {
      assert CallOk(start, st, doc, st.calls[c]);
      if HasReturned(start, st, doc, c) && FirstChain(start, st, doc, KeptBy(st.calls[c]).value) {
        FirstIsOne(start, st, doc, f, KeptBy(st.calls[c]).value);
      }
    }
  }
}

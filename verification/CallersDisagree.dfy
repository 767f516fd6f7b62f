/** A run in which two callers return different chains: the one that creates last creates the chain
    that sorts first, after the other has settled. */
module CallersDisagree {
  import opened Stock
  import opened ApprovalRules
  import opened Decisions
  import opened Engine
  import opened Callers

  const TYPE := "WithdrawalRequest"

  function Chain(status: InstanceStatus, stamp: int): Instance {
    Instance(TYPE, "doc", Some("ann"), true, status, 0, [DEFAULT_STEP], stamp)
  }

  function Caller(phase: Phase): Call { Call(TYPE, "doc", "ann", phase) }

  function Two(instances: seq<Instance>, a: Phase, b: Phase): State { State([], instances, [Caller(a), Caller(b)]) }

  const EARLY := Chain(Live, 1)
  const LATE := Chain(Live, 2)

  // The states of the run, in order.
  const T1 := State([], [], [Caller(MustRead)])
  const T2 := Two([], MustRead, MustRead)
  const T3 := Two([], MustStart, MustRead)
  const T4 := Two([], MustStart, MustStart)
  const T5 := Two([LATE], MustReread, MustStart)
  const T6 := Two([LATE], MustCancel(0, {}), MustStart)
  const T7 := Two([LATE], Returned(Some(0)), MustStart)
  const T8 := Two([LATE, EARLY], Returned(Some(0)), MustReread)
  const T9 := Two([LATE, EARLY], Returned(Some(0)), MustCancel(1, {0}))
  const T10 := Two([Chain(Withdrawn, 2), EARLY], Returned(Some(0)), Returned(Some(1)))

  predicate Disagreeing(ops: seq<Op>) {
    && |ops| == 10 && ops[0] == DoEnsure(TYPE, "doc", "ann") && ops[1] == DoEnsure(TYPE, "doc", "ann")
    && ops[2] == DoAdvance(0, 0, 0) && ops[3] == DoAdvance(1, 0, 0)
    && ops[4] == DoAdvance(0, 2, 0) && ops[5] == DoAdvance(0, 0, 0) && ops[6] == DoAdvance(0, 0, 0)
    && ops[7] == DoAdvance(1, 1, 0) && ops[8] == DoAdvance(1, 0, 0) && ops[9] == DoAdvance(1, 0, 0)
  }

  lemma PairUpdate(p: Phase, q: Phase, r: Phase)
    ensures [Caller(p), Caller(q)][0 := Caller(r)] == [Caller(r), Caller(q)]
    ensures [Caller(p), Caller(q)][1 := Caller(r)] == [Caller(p), Caller(r)]
  {
  }

  lemma BothRead()
    ensures Advance(T2, 0, [], 0) == Ok(T3) && Advance(T3, 1, [], 0) == Ok(T4)
  {
    PairUpdate(MustRead, MustRead, MustStart);
    PairUpdate(MustStart, MustRead, MustStart);
  }

  lemma FirstCreates()
    ensures Advance(T4, 0, [], 2) == Ok(T5)
  {
    PairUpdate(MustStart, MustStart, MustReread);
    assert [] + [LATE] == [LATE];
  }

  lemma FirstSettles()
    ensures Advance(T5, 0, [], 0) == Ok(T6)
  {
    PairUpdate(MustReread, MustStart, MustCancel(0, {}));
    assert [LATE][..0] == [] && OldestLive([LATE], TYPE, "doc") == Some(0);
    assert LiveIds([LATE], TYPE, "doc") - {0} == {};
  }

  lemma FirstReturns()
    ensures Advance(T6, 0, [], 0) == Ok(T7)
  {
    PairUpdate(MustCancel(0, {}), MustStart, Returned(Some(0)));
    assert Withdraw([LATE], {}) == [LATE];
  }

  lemma SecondCreates()
    ensures Advance(T7, 1, [], 1) == Ok(T8)
  {
    PairUpdate(Returned(Some(0)), MustStart, MustReread);
    assert [LATE] + [EARLY] == [LATE, EARLY];
  }

  lemma SecondSettles()
    ensures Advance(T8, 1, [], 0) == Ok(T9)
  {
    PairUpdate(Returned(Some(0)), MustReread, MustCancel(1, {0}));
    var both := [LATE, EARLY];
    assert both[..1] == [LATE] && [LATE][..0] == [];
    assert OldestLive([LATE], TYPE, "doc") == Some(0) && OldestLive(both, TYPE, "doc") == Some(1);
    assert LiveIds(both, TYPE, "doc") - {1} == {0};
  }

  lemma SecondReturns()
    ensures Advance(T9, 1, [], 0) == Ok(T10)
  {
    PairUpdate(Returned(Some(0)), MustCancel(1, {0}), Returned(Some(1)));
    assert Withdraw([LATE, EARLY], {0}) == [Chain(Withdrawn, 2), EARLY];
  }

  /** The run is in state `st` after `n` steps. */
  ghost predicate At(ops: seq<Op>, n: nat, st: State) {
    n <= |ops| && Run(ops[..n])[0] == START && Now(Run(ops[..n])) == st
  }

  /** One more step, accepted. */
  lemma Extend(ops: seq<Op>, n: nat, was: State, st: State)
    requires n < |ops| && At(ops, n, was) && Step(Run(ops[..n]), ops[n]) == Ok(st)
    ensures At(ops, n + 1, st)
  {
    assert ops[..n + 1][..n] == ops[..n];
  }

  /** One more database access of call `c`, with the rule table of the start. */
  lemma Access(ops: seq<Op>, n: nat, c: nat, stamp: int, was: State, st: State)
    requires n < |ops| && At(ops, n, was) && ops[n] == DoAdvance(c, stamp, 0) && Advance(was, c, [], stamp) == Ok(st)
    ensures At(ops, n + 1, st)
  {
    Extend(ops, n, was, st);
  }

  lemma Asked(ops: seq<Op>)
    requires Disagreeing(ops)
    ensures At(ops, 2, T2)
  {
    assert ops[..0] == [] && Run(ops[..0]) == [START];
    assert START.calls + [Caller(MustRead)] == T1.calls && T1.calls + [Caller(MustRead)] == T2.calls;
    Extend(ops, 0, START, T1);
    Extend(ops, 1, T1, T2);
  }

  lemma BothFoundNone(ops: seq<Op>)
    requires |ops| == 10 && ops[2] == DoAdvance(0, 0, 0) && ops[3] == DoAdvance(1, 0, 0) && At(ops, 2, T2)
    ensures At(ops, 4, T4)
  {
    BothRead();
    Access(ops, 2, 0, 0, T2, T3);
    Access(ops, 3, 1, 0, T3, T4);
  }

  lemma FirstCreated(ops: seq<Op>)
    requires |ops| == 10 && ops[4] == DoAdvance(0, 2, 0) && At(ops, 4, T4)
    ensures At(ops, 5, T5)
  {
    FirstCreates();
    Access(ops, 4, 0, 2, T4, T5);
  }

  lemma FirstReturned(ops: seq<Op>)
    requires |ops| == 10 && ops[5] == DoAdvance(0, 0, 0) && ops[6] == DoAdvance(0, 0, 0) && At(ops, 5, T5)
    ensures At(ops, 7, T7)
  {
    FirstSettles();
    Access(ops, 5, 0, 0, T5, T6);
    FirstReturns();
    Access(ops, 6, 0, 0, T6, T7);
  }

  lemma SecondRuns(ops: seq<Op>)
    requires Disagreeing(ops) && At(ops, 7, T7)
    ensures At(ops, 10, T10)
  {
    SecondCreates();
    Access(ops, 7, 1, 1, T7, T8);
    SecondSettles();
    Access(ops, 8, 1, 0, T8, T9);
    SecondReturns();
    Access(ops, 9, 1, 0, T9, T10);
  }

  lemma TheyDisagree()
    ensures !Agree(START, T10, Doc(TYPE, "doc"))
  {
    var doc := Doc(TYPE, "doc");
    assert HasReturned(START, T10, doc, 0) && HasReturned(START, T10, doc, 1);
    assert KeptBy(T10.calls[0]) == Some(0) && KeptBy(T10.calls[1]) == Some(1);
  }

  /** Two calls that both found no chain. The first creates one, settles and returns it; the second
      then creates one that sorts before it, and cancels the first one's. */
  lemma ClocksOutOfOrderDisagree(ops: seq<Op>)
    requires Disagreeing(ops)
    ensures Run(ops)[0] == START && Now(Run(ops)) == T10 && !Agree(START, T10, Doc(TYPE, "doc"))
    ensures T10.instances[0].status == Withdrawn && T10.calls[0].phase == Returned(Some(0))
  {
    Asked(ops);
    BothFoundNone(ops);
    FirstCreated(ops);
    FirstReturned(ops);
    SecondRuns(ops);
    assert ops[..10] == ops;
    TheyDisagree();
  }
}

/** Logins that overlap: each reads the record, checks the password and then writes what it read plus
    one, whatever was written in between. How many checks can so many logins at once get before the
    lock holds? */
module LoginOverlap {
  import S = Stock
  import opened LoginLockout

  /** `slots` are the logins that may be under way at once; a taken one holds the record it read. */
  datatype State = State(user: User, slots: seq<S.Option<User>>)

  /** A login reads the record; a failed check writes. */
  datatype Act = Read(slot: nat, at: Time) | Fail(slot: nat, written: Time)

  predicate IsLocked(user: User, at: Time) {
    user.lockedUntil.Some? && user.lockedUntil.value > at
  }

  /** What a failed check writes, counting from the record it had read. */
  function Written(now: User, seen: User, written: Time): User {
    var failures := seen.failedLoginCount + 1;
    now.(failedLoginCount := failures,
         lockedUntil := if failures >= MAX_FAILURES then S.Some(written + LOCK_TIME) else S.None)
  }

  /** Undisturbed, that is the failed attempt of `LoginLockout`. */
  lemma UndisturbedIsAttempt(user: User, a: Attempt)
    requires OutcomeOf(user, a) == Invalid
    ensures AfterAttempt(user, a) == Written(user, user, a.written)
  {
  }

  function Next(st: State, act: Act): State {
    match act
    case Read(i, at) =>
      if i < |st.slots| && st.slots[i].None? && !IsLocked(st.user, at)
      then st.(slots := st.slots[i := S.Some(st.user)]) else st
    case Fail(i, written) =>
      if i < |st.slots| && st.slots[i].Some?
      then State(Written(st.user, st.slots[i].value, written), st.slots[i := S.None]) else st
  }

  function Run(st: State, acts: seq<Act>): State {
    if acts == [] then st else Next(Run(st, acts[..|acts| - 1]), acts[|acts| - 1])
  }

  /** The passwords that were checked, and failed. */
  function Checks(st: State, acts: seq<Act>): nat {
    if acts == [] then 0
    else
      var front, last := acts[..|acts| - 1], acts[|acts| - 1];
      Checks(st, front) + if Counts(Run(st, front), last) then 1 else 0
  }

  predicate Counts(st: State, act: Act) {
    act.Fail? && act.slot < |st.slots| && st.slots[act.slot].Some?
  }

  /** Everything happens before a lock written in the window can run out. */
  predicate InWindow(act: Act, start: Time) {
    match act
    case Read(_, at) => at < start + LOCK_TIME
    case Fail(_, written) => start <= written
  }

  predicate AllInWindow(acts: seq<Act>, start: Time) {
    forall n | 0 <= n < |acts| :: InWindow(acts[n], start)
  }

  function Idle(k: nat): State {
    State(FRESH, seq(k, i requires 0 <= i < k => S.None))
  }

  // ----- how far each login has come -----

  /** The failures a slot counts from: those it read, or, if it is free, those it would read. */
  function Value(st: State, i: nat): nat
    requires i < |st.slots|
  {
    var c := if st.slots[i].Some? then st.slots[i].value.failedLoginCount else st.user.failedLoginCount;
    if c < MAX_FAILURES then c else MAX_FAILURES
  }

  /** The record is locked from the fifth failure on, for the rest of the window, and what was read was not. */
  predicate Sound(st: State, start: Time) {
    && (st.user.failedLoginCount >= MAX_FAILURES ==>
          st.user.lockedUntil.Some? && st.user.lockedUntil.value >= start + LOCK_TIME)
    && forall i | 0 <= i < |st.slots| :: st.slots[i].Some? ==> st.slots[i].value.failedLoginCount < MAX_FAILURES
  }

  lemma StepKeepsSound(st: State, act: Act, start: Time)
    requires Sound(st, start) && InWindow(act, start)
    ensures Sound(Next(st, act), start) && |Next(st, act).slots| == |st.slots|
  {
  }

  /** How many of the first `n` slots have the value. */
  function Tally(st: State, n: nat, value: nat): nat
    requires n <= |st.slots|
  {
    if n == 0 then 0 else Tally(st, n - 1, value) + if Value(st, n - 1) == value then 1 else 0
  }

  /** The slots by value, from none to five failures. */
  function Tallies(st: State): (r: seq<nat>)
    ensures |r| == MAX_FAILURES + 1 && forall v :: 0 <= v < |r| ==> r[v] == Tally(st, |st.slots|, v)
  {
    seq(MAX_FAILURES + 1, v requires 0 <= v < MAX_FAILURES + 1 => Tally(st, |st.slots|, v))
  }

  function Sum(ns: seq<nat>): nat {
    if ns == [] then 0 else ns[0] + Sum(ns[1..])
  }

  lemma {:induction false} TalliedOnce(st: State, n: nat)
    requires n <= |st.slots|
    ensures Tally(st, n, 0) + Tally(st, n, 1) + Tally(st, n, 2)
      + Tally(st, n, 3) + Tally(st, n, 4) + Tally(st, n, 5) == n
  {
    if n > 0 { TalliedOnce(st, n - 1); }
  }

  lemma TalliesSum(st: State)
    ensures Sum(Tallies(st)) == |st.slots|
  {
    var ns := Tallies(st);
    TalliedOnce(st, |st.slots|);
    SumFrom(ns, 5);
    SumFrom(ns, 4);
    SumFrom(ns, 3);
    SumFrom(ns, 2);
    SumFrom(ns, 1);
    assert ns[6..] == [];
  }

  lemma SumFrom(ns: seq<nat>, i: nat)
    requires i < |ns|
    ensures Sum(ns[i..]) == ns[i] + Sum(ns[i + 1..])
  {
    assert ns[i..][1..] == ns[i + 1..];
  }

  /** A read moves nothing: the slot had that value already. */
  lemma ReadKeepsValues(st: State, act: Act, start: Time, i: nat)
    requires Sound(st, start) && InWindow(act, start) && !Counts(st, act) && i < |st.slots|
    ensures Value(Next(st, act), i) == Value(st, i)
  {
  }

  lemma {:induction false} ReadKeepsTally(st: State, act: Act, start: Time, n: nat, value: nat)
    requires Sound(st, start) && InWindow(act, start) && !Counts(st, act) && n <= |st.slots|
    ensures Tally(Next(st, act), n, value) == Tally(st, n, value)
  {
    if n > 0 {
      ReadKeepsTally(st, act, start, n - 1, value);
      ReadKeepsValues(st, act, start, n - 1);
    }
  }

  /** A failed check that had read `c` failures moves its slot, and every free one, to `c + 1`. */
  lemma FailMoves(st: State, act: Act, start: Time, i: nat)
    requires Sound(st, start) && Counts(st, act) && i < |st.slots|
    ensures var c := st.slots[act.slot].value.failedLoginCount;
      && c < MAX_FAILURES && Value(st, act.slot) == c
      && (Value(Next(st, act), i) == c + 1 || (i != act.slot && Value(Next(st, act), i) == Value(st, i)))
  {
  }

  lemma {:induction false} FailLowers(st: State, act: Act, start: Time, n: nat, value: nat)
    requires Sound(st, start) && Counts(st, act) && n <= |st.slots|
    requires value <= st.slots[act.slot].value.failedLoginCount
    ensures Tally(Next(st, act), n, value) <= Tally(st, n, value)
    ensures value == st.slots[act.slot].value.failedLoginCount && act.slot < n ==>
      Tally(Next(st, act), n, value) < Tally(st, n, value)
  {
    if n > 0 {
      FailLowers(st, act, start, n - 1, value);
      FailMoves(st, act, start, n - 1);
    }
  }

  // ----- how many ways there are to come as far -----

  /** The ways to put `s` slots on `levels` values: s + levels - 1 over levels - 1. */
  function Ways(levels: nat, s: nat): nat
    requires levels > 0
  {
    if levels == 1 || s == 0 then 1 else Ways(levels, s - 1) + Ways(levels - 1, s)
  }

  /** Those that put fewer than `n` slots on the first value. */
  function Fewer(levels: nat, s: nat, n: nat): nat
    requires levels > 1 && n <= s + 1
  {
    if n == 0 then 0 else Fewer(levels, s, n - 1) + Ways(levels - 1, s - (n - 1))
  }

  lemma {:induction false} FewerShifts(levels: nat, s: nat, n: nat)
    requires levels > 1 && 0 < s && n <= s
    ensures Fewer(levels, s, n + 1) == Ways(levels - 1, s) + Fewer(levels, s - 1, n)
  {
    if n > 0 { FewerShifts(levels, s, n - 1); }
  }

  lemma {:induction false} AllAreFewer(levels: nat, s: nat)
    requires levels > 1
    ensures Fewer(levels, s, s + 1) == Ways(levels, s)
    decreases s
  {
    if s == 0 {
      assert Fewer(levels, 0, 1) == Fewer(levels, 0, 0) + Ways(levels - 1, 0);
    } else {
      FewerShifts(levels, s, s);
      AllAreFewer(levels, s - 1);
    }
  }

  lemma {:induction false} FewerGrows(levels: nat, s: nat, m: nat, n: nat)
    requires levels > 1 && m <= n <= s + 1
    ensures Fewer(levels, s, m) <= Fewer(levels, s, n)
  {
    if m < n { FewerGrows(levels, s, m, n - 1); }
  }

  /** The place of a distribution among all that put as many slots on as many values, those with fewer
      slots on the low values first. */
  function Rank(ns: seq<nat>): nat
    requires ns != []
    decreases |ns|
  {
    if |ns| == 1 then 0 else Fewer(|ns|, Sum(ns), ns[0]) + Rank(ns[1..])
  }

  lemma {:induction false} RankIsBelow(ns: seq<nat>)
    requires ns != []
    ensures Rank(ns) < Ways(|ns|, Sum(ns))
    decreases |ns|
  {
    if |ns| > 1 {
      RankIsBelow(ns[1..]);
      FewerGrows(|ns|, Sum(ns), ns[0] + 1, Sum(ns) + 1);
      AllAreFewer(|ns|, Sum(ns));
    }
  }

  /** Fewer slots on some value and no more on any lower one: a smaller rank. */
  lemma {:induction false} RankFalls(ms: seq<nat>, ns: seq<nat>, v: nat)
    requires |ms| == |ns| && Sum(ms) == Sum(ns) && v + 1 < |ns| && ms[v] < ns[v]
    requires forall j :: 0 <= j < v ==> ms[j] <= ns[j]
    ensures Rank(ms) < Rank(ns)
    decreases |ns|
  {
    if ms[0] < ns[0] {
      RankIsBelow(ms[1..]);
      FewerGrows(|ns|, Sum(ns), ms[0] + 1, ns[0]);
    } else {
      RankFalls(ms[1..], ns[1..], v - 1);
    }
  }

  // ----- the bound -----

  lemma StepLowersRank(st: State, act: Act, start: Time)
    requires Sound(st, start) && InWindow(act, start)
    ensures Rank(Tallies(Next(st, act))) + (if Counts(st, act) then 1 else 0) <= Rank(Tallies(st))
  {
    var next := Next(st, act);
    StepKeepsSound(st, act, start);
    if Counts(st, act) {
      var c := st.slots[act.slot].value.failedLoginCount;
      FailMoves(st, act, start, act.slot);
      forall v | 0 <= v <= c ensures Tallies(next)[v] <= Tallies(st)[v] {
        FailLowers(st, act, start, |st.slots|, v);
      }
      FailLowers(st, act, start, |st.slots|, c);
      TalliesSum(st);
      TalliesSum(next);
      RankFalls(Tallies(next), Tallies(st), c);
    } else {
      forall v | 0 <= v <= MAX_FAILURES ensures Tallies(next)[v] == Tallies(st)[v] {
        ReadKeepsTally(st, act, start, |st.slots|, v);
      }
      assert Tallies(next) == Tallies(st);
    }
  }

  lemma {:induction false} ChecksAreRanked(st: State, acts: seq<Act>, start: Time)
    requires Sound(st, start) && AllInWindow(acts, start)
    ensures Sound(Run(st, acts), start) && |Run(st, acts).slots| == |st.slots|
    ensures Checks(st, acts) + Rank(Tallies(Run(st, acts))) <= Rank(Tallies(st))
  {
    if acts != [] {
      var n := |acts| - 1;
      assert forall i :: 0 <= i < n ==> acts[..n][i] == acts[i];
      ChecksAreRanked(st, acts[..n], start);
      assert InWindow(acts[n], start);
      StepKeepsSound(Run(st, acts[..n]), acts[n], start);
      StepLowersRank(Run(st, acts[..n]), acts[n], start);
    }
  }

  /** With `k` logins at once, none of which succeeds, at most k + 5 over 5, less one, passwords are
      checked within a lock time: five for one login after the other, twenty for two at once. */
  lemma OverlapBound(k: nat, acts: seq<Act>, start: Time)
    requires AllInWindow(acts, start)
    ensures Checks(Idle(k), acts) <= Ways(MAX_FAILURES + 1, k) - 1
  {
    ChecksAreRanked(Idle(k), acts, start);
    TalliesSum(Idle(k));
    RankIsBelow(Tallies(Idle(k)));
  }

  // ----- the bound is reached -----

  lemma RunSnoc(st: State, acts: seq<Act>, act: Act)
    ensures Run(st, acts + [act]) == Next(Run(st, acts), act)
    ensures Checks(st, acts + [act]) == Checks(st, acts) + if Counts(Run(st, acts), act) then 1 else 0
  {
    assert (acts + [act])[..|acts|] == acts;
  }

  lemma {:induction false} RunOn(st: State, a: seq<Act>, b: seq<Act>)
    ensures Run(st, a + b) == Run(Run(st, a), b)
    ensures Checks(st, a + b) == Checks(st, a) + Checks(Run(st, a), b)
  {
    if b == [] {
      assert a + b == a;
    } else {
      var front, last := b[..|b| - 1], b[|b| - 1];
      RunOn(st, a, front);
      RunSnoc(st, a + front, last);
      assert a + b == a + front + [last];
    }
  }

  lemma RunOne(st: State, act: Act)
    ensures Run(st, [act]) == Next(st, act) && Checks(st, [act]) == if Counts(st, act) then 1 else 0
  {
    assert [act][..0] == [];
  }

  /** The first `j` slots are free, and the record is open at `v` failures. */
  predicate OpenAt(st: State, j: nat, v: nat) {
    && j <= |st.slots| && v <= MAX_FAILURES && st.user.failedLoginCount == v
    && (v < MAX_FAILURES ==> st.user.lockedUntil.None?)
    && forall i | 0 <= i < j :: st.slots[i].None?
  }

  /** One slot reads and waits while the others use up their checks; then it writes, which opens the
      record again, one failure further. */
  lemma {:induction false} UseAll(st: State, j: nat, v: nat, t: Time) returns (acts: seq<Act>)
    requires OpenAt(st, j, v)
    ensures AllInWindow(acts, t) && Run(st, acts).slots == st.slots
    ensures Checks(st, acts) == Ways(MAX_FAILURES + 1 - v, j) - 1
    decreases MAX_FAILURES - v, j
  {
    if v == MAX_FAILURES || j == 0 {
      acts := [];
    } else {
      var read, fail := Read(j - 1, t), Fail(j - 1, t);
      var waiting := Next(st, read);
      var others := UseAll(waiting, j - 1, v, t);
      var used := Run(waiting, others);
      var open := Next(used, fail);
      assert open.slots == st.slots;
      var rest := UseAll(open, j, v + 1, t);
      acts := [read] + others + [fail] + rest;
      RunOne(st, read);
      RunOn(st, [read], others);
      RunOne(used, fail);
      RunOn(st, [read] + others, [fail]);
      RunOn(st, [read] + others + [fail], rest);
    }
  }

  /** So the bound is exact: some window of `k` logins at once has that many checks. */
  lemma OverlapBoundIsReached(k: nat, start: Time) returns (acts: seq<Act>)
    ensures AllInWindow(acts, start) && Checks(Idle(k), acts) == Ways(MAX_FAILURES + 1, k) - 1
  {
    acts := UseAll(Idle(k), k, 0, start);
  }

  /** The number in figures. */
  lemma WaysOfFew()
    ensures Ways(MAX_FAILURES + 1, 1) - 1 == 5 && Ways(MAX_FAILURES + 1, 2) - 1 == 20
  {
    assert Ways(2, 1) == 2 && Ways(3, 1) == 3 && Ways(4, 1) == 4 && Ways(5, 1) == 5 && Ways(6, 1) == 6;
    assert Ways(2, 2) == 3 && Ways(3, 2) == 6 && Ways(4, 2) == 10 && Ways(5, 2) == 15;
  }
}

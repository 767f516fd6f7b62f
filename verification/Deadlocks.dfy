/** When the writers of the serial guard can deadlock: exactly when the lock hash lets serials cross. */
module Deadlocks {
  import opened Stock
  import opened Text
  import opened SerialGuard
  import opened SerialRuns

  predicate Wants(w: Writer) { w.phase.Acquiring? && w.phase.n < |w.list| }

  function Wanted(w: Writer): string requires Wants(w) { w.list[w.phase.n] }

  predicate Waiting(st: State, hash: Hash, w: nat) {
    w < |st.writers| && Wants(st.writers[w]) && HeldByOther(st, hash, w, hash(Wanted(st.writers[w])))
  }

  predicate WaitsFor(st: State, hash: Hash, w: nat, v: nat) {
    Waiting(st, hash, w) && v < |st.writers| && v != w && HoldsHash(st.writers[v], hash, hash(Wanted(st.writers[w])))
  }

  /** The writer's next step is accepted. */
  predicate Moves(st: State, hash: Hash, w: nat) {
    Step(st, hash, Acquire(w)).Ok? || Step(st, hash, Check(w)).Ok? || Step(st, hash, Commit(w)).Ok?
  }

  /** The next place around a ring of `n`. */
  function Succ(i: nat, n: nat): nat
    requires i < n
  {
    if i + 1 == n then 0 else i + 1
  }

  function Pred(i: nat, n: nat): nat
    requires i < n
  {
    if i == 0 then n - 1 else i - 1
  }

  /** Different writers that wait for each other in a ring. */
  predicate WaitRing(st: State, hash: Hash, ring: seq<nat>) {
    && |ring| >= 2
    && (forall i, j :: 0 <= i < j < |ring| ==> ring[i] != ring[j])
    && (forall i :: 0 <= i < |ring| ==> Waiting(st, hash, ring[i]))
    && forall i :: 0 <= i < |ring| ==> WaitsFor(st, hash, ring[i], ring[Succ(i, |ring|)])
  }

  ghost predicate Deadlocked(st: State, hash: Hash) {
    exists ring :: WaitRing(st, hash, ring)
  }

  /** Two serials of one request, in lock order. */
  datatype Pair = Pair(held: string, wanted: string)

  predicate IsPair(p: Pair, play: set<string>) {
    && p.held in play && p.wanted in play && Before(p.held, p.wanted)
    && Real(Some(p.held)) == Some(p.held) && Real(Some(p.wanted)) == Some(p.wanted)
  }

  /** Pairs of serials whose second ones hash, around the ring, like the next pair's first, while the
      first ones hash differently. */
  ghost predicate Crossing(hash: Hash, play: set<string>, ring: seq<Pair>) {
    |ring| >= 2 && ArePairs(ring, play) && HeldApart(hash, ring) && Chained(hash, ring)
  }

  predicate ArePairs(ring: seq<Pair>, play: set<string>) {
    forall i :: 0 <= i < |ring| ==> IsPair(ring[i], play)
  }

  predicate HeldApart(hash: Hash, ring: seq<Pair>) {
    forall i, j :: 0 <= i < j < |ring| ==> hash(ring[i].held) != hash(ring[j].held)
  }

  predicate Chained(hash: Hash, ring: seq<Pair>) {
    forall i :: 0 <= i < |ring| ==> hash(ring[i].wanted) == hash(ring[Succ(i, |ring|)].held)
  }

  /** Every serial the requests of the run ask for is in play. */
  predicate InPlay(ops: seq<Op>, play: set<string>) {
    forall n, i :: 0 <= n < |ops| && ops[n].Begin? && 0 <= i < |ops[n].items| ==>
      Real(ops[n].items[i].serial).Some? ==> Real(ops[n].items[i].serial).value in play
  }

  ghost predicate ListsInPlay(st: State, play: set<string>) {
    forall w, x :: 0 <= w < |st.writers| && x in st.writers[w].list ==> x in play
  }

  lemma {:induction false} RunPlays(hash: Hash, ops: seq<Op>, play: set<string>)
    requires InPlay(ops, play)
    ensures ListsInPlay(Run(hash, ops), play)
  {
    if ops != [] {
      var n := |ops| - 1;
      RunPlays(hash, ops[..n], play);
      if ops[n].Begin? {
        var serials := Serials(ops[n].items);
        LockListIs(serials);
        forall x | x in LockList(serials) ensures x in play {
          var i :| 0 <= i < |serials| && Real(serials[i]) == Some(x);
          assert Real(ops[n].items[i].serial).value in play;
        }
      }
    }
  }

  // ----- a deadlock crosses -----

  lemma ListedIsReal(serials: seq<Option<string>>, x: string)
    requires x in LockList(serials)
    ensures Real(Some(x)) == Some(x)
  {
    LockListIs(serials);
    var i :| 0 <= i < |serials| && Real(serials[i]) == Some(x);
    TrimTrims(serials[i].value);
    TrimmedIsFixed(x);
  }

  /** What writer `ring[i]` holds of what its predecessor wants, and what it wants itself. */
  predicate PairAt(st: State, hash: Hash, ring: seq<nat>, i: nat, p: Pair)
    requires WaitRing(st, hash, ring) && i < |ring|
  {
    var x, y := st.writers[ring[i]], st.writers[ring[Pred(i, |ring|)]];
    && p.wanted == Wanted(x) && hash(p.held) == hash(Wanted(y))
    && exists k :: 0 <= k < Held(x) && k < |x.list| && x.list[k] == p.held
  }

  lemma OnePair(st: State, hash: Hash, ring: seq<nat>, i: nat) returns (p: Pair)
    requires WaitRing(st, hash, ring) && i < |ring|
    ensures PairAt(st, hash, ring, i, p)
  {
    var q := Pred(i, |ring|);
    assert Succ(q, |ring|) == i;
    assert WaitsFor(st, hash, ring[q], ring[i]) && WaitsFor(st, hash, ring[i], ring[Succ(i, |ring|)]);
    var x, y := st.writers[ring[i]], st.writers[ring[q]];
    var k :| 0 <= k < Held(x) && k < |x.list| && hash(x.list[k]) == hash(Wanted(y));
    p := Pair(x.list[k], Wanted(x));
  }

  lemma PairIsPair(st: State, hash: Hash, play: set<string>, ring: seq<nat>, i: nat, p: Pair)
    requires Inv(st, hash) && ListsInPlay(st, play) && WaitRing(st, hash, ring) && i < |ring|
    requires PairAt(st, hash, ring, i, p)
    ensures IsPair(p, play) && HoldsHash(st.writers[ring[i]], hash, hash(p.held))
  {
    var x := st.writers[ring[i]];
    assert WaitsFor(st, hash, ring[i], ring[Succ(i, |ring|)]);
    assert WriterOk(st, x);
    var k :| 0 <= k < Held(x) && k < |x.list| && x.list[k] == p.held;
    LockListIs(Serials(x.items));
    ListedIsReal(Serials(x.items), p.held);
    ListedIsReal(Serials(x.items), p.wanted);
  }

  ghost predicate PairsOf(st: State, hash: Hash, ring: seq<nat>, pairs: seq<Pair>)
    requires WaitRing(st, hash, ring)
  {
    |pairs| == |ring| && forall i :: 0 <= i < |ring| ==> PairAt(st, hash, ring, i, pairs[i])
  }

  lemma AllPairs(st: State, hash: Hash, ring: seq<nat>) returns (pairs: seq<Pair>)
    requires WaitRing(st, hash, ring)
    ensures PairsOf(st, hash, ring, pairs)
  {
    pairs := [];
    while |pairs| < |ring|
      invariant |pairs| <= |ring|
      invariant forall i :: 0 <= i < |pairs| ==> PairAt(st, hash, ring, i, pairs[i])
    {
      var p := OnePair(st, hash, ring, |pairs|);
      pairs := pairs + [p];
    }
  }

  lemma PairsChain(st: State, hash: Hash, ring: seq<nat>, pairs: seq<Pair>)
    requires WaitRing(st, hash, ring) && PairsOf(st, hash, ring, pairs)
    ensures Chained(hash, pairs)
  {
    forall i | 0 <= i < |pairs| ensures hash(pairs[i].wanted) == hash(pairs[Succ(i, |pairs|)].held) {
      var j := Succ(i, |pairs|);
      assert Pred(j, |ring|) == i;
      assert PairAt(st, hash, ring, i, pairs[i]) && PairAt(st, hash, ring, j, pairs[j]);
    }
  }

  lemma PairsApart(st: State, hash: Hash, ring: seq<nat>, pairs: seq<Pair>)
    requires Exclusive(st, hash) && |pairs| == |ring| && forall i, j :: 0 <= i < j < |ring| ==> ring[i] != ring[j]
    requires forall i :: 0 <= i < |ring| ==>
      ring[i] < |st.writers| && HoldsHash(st.writers[ring[i]], hash, hash(pairs[i].held))
    ensures HeldApart(hash, pairs)
  {
    forall i, j | 0 <= i < j < |ring| ensures hash(pairs[i].held) != hash(pairs[j].held) {
      DifferentHolders(st, hash, ring[i], ring[j], hash(pairs[i].held));
    }
  }

  lemma RingCrosses(st: State, hash: Hash, play: set<string>, ring: seq<nat>) returns (pairs: seq<Pair>)
    requires Inv(st, hash) && ListsInPlay(st, play) && WaitRing(st, hash, ring)
    ensures Crossing(hash, play, pairs)
  {
    pairs := AllPairs(st, hash, ring);
    forall i | 0 <= i < |ring|
      ensures IsPair(pairs[i], play) && ring[i] < |st.writers|
        && HoldsHash(st.writers[ring[i]], hash, hash(pairs[i].held))
    {
      PairIsPair(st, hash, play, ring, i, pairs[i]);
    }
    PairsChain(st, hash, ring, pairs);
    PairsApart(st, hash, ring, pairs);
  }

  lemma DifferentHolders(st: State, hash: Hash, v: nat, w: nat, h: int)
    requires Exclusive(st, hash) && v < |st.writers| && w < |st.writers| && v != w && HoldsHash(st.writers[v], hash, h)
    ensures !HoldsHash(st.writers[w], hash, h)
  {
  }

  // ----- a crossing deadlocks -----

  function ItemsOf(p: Pair): seq<Item> {
    [Item(Some(p.held), Some(p.held), None, Available), Item(Some(p.wanted), Some(p.wanted), None, Available)]
  }

  /** First every writer begins, then every writer takes its first lock. */
  function OpAt(ring: seq<Pair>, k: nat): Op {
    if k < |ring| then Begin(ItemsOf(ring[k])) else Acquire(k - |ring|)
  }

  function Script(ring: seq<Pair>): (ops: seq<Op>)
    ensures |ops| == 2 * |ring| && forall k :: 0 <= k < |ops| ==> ops[k] == OpAt(ring, k)
  {
    seq(2 * |ring|, k requires 0 <= k < 2 * |ring| => OpAt(ring, k))
  }

  function WriterAt(p: Pair, n: nat): Writer {
    Writer(ItemsOf(p), [p.held, p.wanted], Acquiring(n))
  }

  function After(ring: seq<Pair>, k: nat): (st: State)
    ensures st.rows == [] && |st.writers| == (if k < |ring| then k else |ring|)
    ensures forall i :: 0 <= i < |st.writers| ==> st.writers[i] == WriterAt(ring[i], if i + |ring| < k then 1 else 0)
  {
    var n := if k < |ring| then k else |ring|;
    State([], seq(n, i requires 0 <= i < |ring| => WriterAt(ring[i], if i + |ring| < k then 1 else 0)))
  }

  lemma PairHolds(p: Pair, n: nat, hash: Hash, h: int)
    requires n <= 1
    ensures HoldsHash(WriterAt(p, n), hash, h) <==> n == 1 && h == hash(p.held)
  {
    assert WriterAt(p, n).list[0] == p.held;
  }

  lemma PairLocks(p: Pair, play: set<string>)
    requires IsPair(p, play)
    ensures LockList(Serials(ItemsOf(p))) == [p.held, p.wanted] && NoDuplicate(Serials(ItemsOf(p)))
  {
    var serials := Serials(ItemsOf(p));
    assert serials == [Some(p.held), Some(p.wanted)];
    assert serials[..1] == [Some(p.held)] && serials[..1][..0] == [];
    assert LockList(serials[..1]) == [p.held];
    BeforeOrders(p.held, p.held, p.held);
  }

  lemma BeginsNext(hash: Hash, play: set<string>, ring: seq<Pair>, k: nat)
    requires k < |ring| && IsPair(ring[k], play)
    ensures Step(After(ring, k), hash, Begin(ItemsOf(ring[k]))) == Ok(After(ring, k + 1))
  {
    PairLocks(ring[k], play);
    assert Corrected(ItemsOf(ring[k])) == {};
    assert After(ring, k).writers + [WriterAt(ring[k], 0)] == After(ring, k + 1).writers;
  }

  lemma FirstLockIsFree(hash: Hash, ring: seq<Pair>, w: nat)
    requires w < |ring| && HeldApart(hash, ring)
    ensures !HeldByOther(After(ring, |ring| + w), hash, w, hash(ring[w].held))
  {
    var st := After(ring, |ring| + w);
    forall v | 0 <= v < |ring| && v != w ensures !HoldsHash(st.writers[v], hash, hash(ring[w].held)) {
      PairHolds(ring[v], if v < w then 1 else 0, hash, hash(ring[w].held));
    }
  }

  lemma AcquiresNext(hash: Hash, ring: seq<Pair>, w: nat)
    requires w < |ring| && HeldApart(hash, ring)
    ensures Step(After(ring, |ring| + w), hash, Acquire(w)) == Ok(After(ring, |ring| + w + 1))
  {
    var st := After(ring, |ring| + w);
    FirstLockIsFree(hash, ring, w);
    assert st.writers[w] == WriterAt(ring[w], 0);
    assert st.writers[w].(phase := Acquiring(1)) == WriterAt(ring[w], 1);
    assert st.writers[w := WriterAt(ring[w], 1)] == After(ring, |ring| + w + 1).writers;
  }

  lemma PairStoresTrimmed(p: Pair, play: set<string>)
    requires IsPair(p, play)
    ensures forall i :: 0 <= i < 2 ==> StoresTrimmed(ItemsOf(p)[i])
  {
    TrimmedIsFixed(p.held);
    TrimmedIsFixed(p.wanted);
  }

  lemma ScriptStep(hash: Hash, play: set<string>, ring: seq<Pair>, k: nat)
    requires k < 2 * |ring| && ArePairs(ring, play) && HeldApart(hash, ring)
    ensures Step(After(ring, k), hash, OpAt(ring, k)) == Ok(After(ring, k + 1))
  {
    if k < |ring| {
      BeginsNext(hash, play, ring, k);
    } else {
      AcquiresNext(hash, ring, k - |ring|);
    }
  }

  lemma RunOn(hash: Hash, ops: seq<Op>, k: nat, st: State, next: State)
    requires k < |ops| && Run(hash, ops[..k]) == st && Step(st, hash, ops[k]) == Ok(next)
    ensures Run(hash, ops[..k + 1]) == next
  {
    assert ops[..k + 1][..k] == ops[..k];
  }

  lemma {:induction false} ScriptRuns(hash: Hash, play: set<string>, ring: seq<Pair>, ops: seq<Op>, k: nat)
    requires k <= |ops| && ops == Script(ring) && ArePairs(ring, play) && HeldApart(hash, ring)
    ensures Run(hash, ops[..k]) == After(ring, k)
  {
    if k == 0 {
      assert After(ring, 0).writers == [];
    } else {
      ScriptRuns(hash, play, ring, ops, k - 1);
      ScriptStep(hash, play, ring, k - 1);
      RunOn(hash, ops, k - 1, After(ring, k - 1), After(ring, k));
    }
  }

  predicate OrderlyOp(op: Op) {
    !op.SetStatus? && (op.Begin? ==> forall i :: 0 <= i < |op.items| ==> StoresTrimmed(op.items[i]))
  }

  lemma {:induction false} OrderlyOps(hash: Hash, ops: seq<Op>)
    requires forall n :: 0 <= n < |ops| ==> OrderlyOp(ops[n])
    ensures Orderly(hash, ops)
  {
    if ops != [] {
      OrderlyOps(hash, ops[..|ops| - 1]);
      assert OrderlyOp(ops[|ops| - 1]);
    }
  }

  lemma ScriptIsOrderly(hash: Hash, play: set<string>, ring: seq<Pair>)
    requires ArePairs(ring, play)
    ensures Orderly(hash, Script(ring))
  {
    var ops := Script(ring);
    forall n | 0 <= n < |ops| ensures OrderlyOp(ops[n]) {
      if n < |ring| {
        PairStoresTrimmed(ring[n], play);
      }
    }
    OrderlyOps(hash, ops);
  }

  lemma ScriptPlays(play: set<string>, ring: seq<Pair>)
    requires ArePairs(ring, play)
    ensures InPlay(Script(ring), play)
  {
  }

  lemma NextIsWaitedFor(hash: Hash, ring: seq<Pair>, i: nat)
    requires |ring| >= 2 && Chained(hash, ring) && i < |ring|
    ensures WaitsFor(After(ring, 2 * |ring|), hash, i, Succ(i, |ring|))
  {
    var st, j := After(ring, 2 * |ring|), Succ(i, |ring|);
    PairHolds(ring[j], 1, hash, hash(ring[i].wanted));
    assert st.writers[i] == WriterAt(ring[i], 1) && st.writers[j] == WriterAt(ring[j], 1);
    assert Wanted(st.writers[i]) == ring[i].wanted;
  }

  lemma CrossingDeadlocks(hash: Hash, ring: seq<Pair>)
    requires |ring| >= 2 && Chained(hash, ring)
    ensures Deadlocked(After(ring, 2 * |ring|), hash)
  {
    var st := After(ring, 2 * |ring|);
    var all := seq(|ring|, i => i);
    forall i | 0 <= i < |ring| ensures Waiting(st, hash, i) && WaitsFor(st, hash, i, Succ(i, |ring|)) {
      NextIsWaitedFor(hash, ring, i);
    }
    assert WaitRing(st, hash, all);
  }

  /** Whatever the hash and the serials in play: some orderly run ends in a deadlock exactly when the
      serials in play cross. */
  lemma DeadlockReachableIff(hash: Hash, play: set<string>)
    ensures (exists ops :: Orderly(hash, ops) && InPlay(ops, play) && Deadlocked(Run(hash, ops), hash))
       <==> (exists ring :: Crossing(hash, play, ring))
  {
    if ops :| Orderly(hash, ops) && InPlay(ops, play) && Deadlocked(Run(hash, ops), hash) {
      var ring :| WaitRing(Run(hash, ops), hash, ring);
      RunKeeps(hash, ops);
      RunPlays(hash, ops, play);
      var pairs := RingCrosses(Run(hash, ops), hash, play, ring);
    }
    if ring :| Crossing(hash, play, ring) {
      var ops := Script(ring);
      ScriptRuns(hash, play, ring, ops, |ops|);
      assert ops[..|ops|] == ops;
      ScriptIsOrderly(hash, play, ring);
      ScriptPlays(play, ring);
      CrossingDeadlocks(hash, ring);
    }
  }

  // ----- no progress is deadlock -----

  /** A writer that is not done moves, unless it waits. */
  lemma UnfinishedMovesOrWaits(st: State, hash: Hash, w: nat)
    requires w < |st.writers| && WriterOk(st, st.writers[w]) && !st.writers[w].phase.Finished?
    ensures Moves(st, hash, w) || Waiting(st, hash, w)
  {
  }

  ghost predicate Stuck(st: State, hash: Hash) {
    forall w: nat :: !Moves(st, hash, w)
  }

  ghost function HolderOf(st: State, hash: Hash, w: nat): (v: nat)
    requires Waiting(st, hash, w)
    ensures WaitsFor(st, hash, w, v)
  {
    var v :| 0 <= v < |st.writers| && v != w && HoldsHash(st.writers[v], hash, hash(Wanted(st.writers[w])));
    v
  }

  lemma HolderWaits(st: State, hash: Hash, w: nat)
    requires Inv(st, hash) && Stuck(st, hash) && Waiting(st, hash, w)
    ensures Waiting(st, hash, HolderOf(st, hash, w))
  {
    var v := HolderOf(st, hash, w);
    assert WriterOk(st, st.writers[v]);
    UnfinishedMovesOrWaits(st, hash, v);
  }

  /** Every key leads to another key. */
  predicate Leads(next: map<nat, nat>) {
    forall w :: w in next ==> next[w] in next && next[w] != w
  }

  predicate Walk(next: map<nat, nat>, walk: seq<nat>) {
    && (forall i :: 0 <= i < |walk| ==> walk[i] in next)
    && forall i, j :: 0 <= i && j == i + 1 < |walk| ==> walk[j] == next[walk[i]]
  }

  predicate Ring(next: map<nat, nat>, ring: seq<nat>) {
    && |ring| >= 2 && Walk(next, ring) && next[ring[|ring| - 1]] == ring[0]
    && forall i, j :: 0 <= i < j < |ring| ==> ring[i] != ring[j]
  }

  function Numbers(walk: seq<nat>): set<nat> { set x | x in walk }

  lemma {:induction false} ManyNumbers(walk: seq<nat>)
    requires forall i, j :: 0 <= i < j < |walk| ==> walk[i] != walk[j]
    ensures |Numbers(walk)| == |walk|
  {
    if walk == [] {
      assert Numbers(walk) == {};
    } else {
      var front, last := walk[..|walk| - 1], walk[|walk| - 1];
      ManyNumbers(front);
      assert walk == front + [last];
      assert Numbers(walk) == Numbers(front) + {last};
      assert last !in front;
    }
  }

  /** A walk as long as there are keys, and one step more, visits some key twice. */
  lemma Repeats(next: map<nat, nat>, walk: seq<nat>) returns (i: nat, j: nat)
    requires Walk(next, walk) && |walk| > |next.Keys|
    ensures i < j < |walk| && walk[i] == walk[j]
  {
    assert next.Keys == Numbers(walk) + (next.Keys - Numbers(walk));
    if forall i, j :: 0 <= i < j < |walk| ==> walk[i] != walk[j] {
      ManyNumbers(walk);
    }
    i, j :| 0 <= i < j < |walk| && walk[i] == walk[j];
  }

  lemma PartOfWalk(next: map<nat, nat>, walk: seq<nat>, i: nat, j: nat)
    requires Walk(next, walk) && i < j < |walk|
    ensures Walk(next, walk[i..j + 1])
  {
  }

  /** A walk that comes back has a ring in it. */
  lemma {:induction false} ReturningWalk(next: map<nat, nat>, walk: seq<nat>) returns (ring: seq<nat>)
    requires Leads(next) && |walk| >= 2 && Walk(next, walk) && walk[0] == walk[|walk| - 1]
    ensures Ring(next, ring)
    decreases |walk|
  {
    ring := walk[..|walk| - 1];
    if i, j :| 0 <= i < j < |ring| && ring[i] == ring[j] {
      PartOfWalk(next, walk, i, j);
      ring := ReturningWalk(next, walk[i..j + 1]);
    }
  }

  lemma {:induction false} LongWalk(next: map<nat, nat>, w: nat, n: nat) returns (walk: seq<nat>)
    requires Leads(next) && w in next
    ensures |walk| == n + 1 && Walk(next, walk)
  {
    walk := [w];
    if n > 0 {
      var front := LongWalk(next, w, n - 1);
      walk := front + [next[front[n - 1]]];
    }
  }

  lemma SomeRing(next: map<nat, nat>, w: nat) returns (ring: seq<nat>)
    requires Leads(next) && w in next
    ensures Ring(next, ring)
  {
    var walk := LongWalk(next, w, |next.Keys|);
    var i, j := Repeats(next, walk);
    PartOfWalk(next, walk, i, j);
    ring := ReturningWalk(next, walk[i..j + 1]);
  }

  ghost function WaitMap(st: State, hash: Hash): (next: map<nat, nat>)
    ensures forall w: nat :: w in next <==> Waiting(st, hash, w)
    ensures forall w :: w in next ==> WaitsFor(st, hash, w, next[w])
  {
    map w | 0 <= w < |st.writers| && Waiting(st, hash, w) :: HolderOf(st, hash, w)
  }

  lemma WaitMapLeads(st: State, hash: Hash)
    requires Inv(st, hash) && Stuck(st, hash)
    ensures Leads(WaitMap(st, hash))
  {
    var next := WaitMap(st, hash);
    forall w | w in next ensures next[w] in next && next[w] != w {
      HolderWaits(st, hash, w);
    }
  }

  lemma RingWaits(st: State, hash: Hash, next: map<nat, nat>, ring: seq<nat>)
    requires forall w :: w in next ==> WaitsFor(st, hash, w, next[w])
    requires Ring(next, ring)
    ensures WaitRing(st, hash, ring)
  {
    forall i | 0 <= i < |ring| ensures WaitsFor(st, hash, ring[i], ring[Succ(i, |ring|)]) {
      assert next[ring[i]] == ring[Succ(i, |ring|)];
    }
  }

  lemma StuckWritersRing(st: State, hash: Hash, w: nat)
    requires Inv(st, hash) && Stuck(st, hash) && w < |st.writers| && !st.writers[w].phase.Finished?
    ensures Deadlocked(st, hash)
  {
    assert WriterOk(st, st.writers[w]);
    UnfinishedMovesOrWaits(st, hash, w);
    WaitMapLeads(st, hash);
    var ring := SomeRing(WaitMap(st, hash), w);
    RingWaits(st, hash, WaitMap(st, hash), ring);
  }

  /** In a reachable state in which somebody is unfinished and nobody moves, writers wait in a ring. */
  lemma StuckIsDeadlocked(hash: Hash, ops: seq<Op>, w: nat)
    requires Orderly(hash, ops) && Stuck(Run(hash, ops), hash)
    requires w < |Run(hash, ops).writers| && !Run(hash, ops).writers[w].phase.Finished?
    ensures Deadlocked(Run(hash, ops), hash)
  {
    RunKeeps(hash, ops);
    StuckWritersRing(Run(hash, ops), hash, w);
  }

  // ----- hashes without collisions -----

  predicate Injective(hash: Hash, play: set<string>) {
    forall a, b :: a in play && b in play && hash(a) == hash(b) ==> a == b
  }

  /** Around a ring of pairs the serials would climb for ever. */
  lemma {:induction false} RingClimbs(hash: Hash, play: set<string>, ring: seq<Pair>, i: nat)
    requires Crossing(hash, play, ring) && Injective(hash, play) && i < |ring|
    ensures Before(ring[0].held, ring[i].wanted)
  {
    assert IsPair(ring[i], play);
    if i > 0 {
      RingClimbs(hash, play, ring, i - 1);
      assert Succ(i - 1, |ring|) == i && IsPair(ring[i - 1], play);
      assert ring[i - 1].wanted == ring[i].held;
      BeforeOrders(ring[0].held, ring[i].held, ring[i].wanted);
    }
  }

  lemma InjectiveNeverCrosses(hash: Hash, play: set<string>, ring: seq<Pair>)
    requires Injective(hash, play)
    ensures !Crossing(hash, play, ring)
  {
    if Crossing(hash, play, ring) {
      var n := |ring| - 1;
      assert Succ(n, |ring|) == 0 && IsPair(ring[0], play) && IsPair(ring[n], play);
      assert ring[n].wanted == ring[0].held;
      RingClimbs(hash, play, ring, n);
      BeforeOrders(ring[0].held, ring[n].wanted, ring[0].held);
    }
  }

  /** If the hash tells the serials in play apart, then while a writer is unfinished some writer moves. */
  lemma NoDeadlock(hash: Hash, play: set<string>, ops: seq<Op>, w: nat)
    requires Orderly(hash, ops) && InPlay(ops, play) && Injective(hash, play)
    requires w < |Run(hash, ops).writers| && !Run(hash, ops).writers[w].phase.Finished?
    ensures exists v: nat :: Moves(Run(hash, ops), hash, v)
  {
    if Stuck(Run(hash, ops), hash) {
      StuckIsDeadlocked(hash, ops, w);
      DeadlockReachableIff(hash, play);
      var ring: seq<Pair> :| Crossing(hash, play, ring);
      InjectiveNeverCrosses(hash, play, ring);
    }
  }

  lemma LettersArePair(a: char, b: char, play: set<string>)
    requires 'a' <= a < b <= 'd' && [a] in play && [b] in play
    ensures IsPair(Pair([a], [b]), play)
  {
    TrimmedIsFixed([a]);
    TrimmedIsFixed([b]);
  }

  /** Sorted order is no protection when "a" and "d" share a lock and so do "b" and "c". */
  lemma CollidingHashesCross(hash: Hash)
    requires hash("a") == hash("d") && hash("b") == hash("c") && hash("a") != hash("c")
    ensures Crossing(hash, {"a", "b", "c", "d"}, [Pair("a", "b"), Pair("c", "d")])
  {
    LettersArePair('a', 'b', {"a", "b", "c", "d"});
    LettersArePair('c', 'd', {"a", "b", "c", "d"});
  }
}

/** What the guard gives: unique serials, whatever the lock hash. */
module SerialRuns {
  import opened Stock
  import opened Text
  import opened SerialGuard

  // ----- uniqueness -----

  predicate SameSerial(a: SerialRow, b: SerialRow) {
    Active(a) && Active(b) && Real(a.serial).Some? && Real(a.serial) == Real(b.serial)
  }

  /** No two active rows stand for the same real serial. */
  ghost predicate UniqueExcept(rows: seq<SerialRow>, except: set<RowId>) {
    forall i, j :: 0 <= i < j < |rows| && i !in except && j !in except ==> !SameSerial(rows[i], rows[j])
  }

  ghost predicate Unique(rows: seq<SerialRow>) { UniqueExcept(rows, {}) }

  /** The writer stores the serial it had guarded, trimmed. */
  predicate StoresTrimmed(item: Item) {
    Real(item.stored) == Real(item.serial) && (item.stored.Some? ==> Trimmed(item.stored.value))
  }

  ghost predicate StoredTrimmed(rows: seq<SerialRow>) {
    forall r :: 0 <= r < |rows| && rows[r].serial.Some? ==> Trimmed(rows[r].serial.value)
  }

  /** No active row outside `except` stands for a serial of the list. */
  ghost predicate FreeOf(rows: seq<SerialRow>, except: set<RowId>, list: seq<string>) {
    forall r :: 0 <= r < |rows| && r !in except && Active(rows[r]) && Real(rows[r].serial).Some? ==>
      Real(rows[r].serial).value !in list
  }

  ghost predicate Inv(st: State, hash: Hash) {
    && Unique(st.rows) && StoredTrimmed(st.rows)
    && (forall w :: 0 <= w < |st.writers| ==> WriterOk(st, st.writers[w]))
    && Exclusive(st, hash)
  }

  ghost predicate WriterOk(st: State, w: Writer) {
    && w.list == LockList(Serials(w.items)) && NoDuplicate(Serials(w.items))
    && (forall i :: 0 <= i < |w.items| ==> StoresTrimmed(w.items[i]))
    && (forall r :: r in Corrected(w.items) ==> r < |st.rows|)
    && (w.phase.Acquiring? ==> w.phase.n <= |w.list|)
    && (w.phase.Ready? ==> FreeOf(st.rows, Corrected(w.items), w.list))
  }

  /** A lock has one holder. */
  ghost predicate Exclusive(st: State, hash: Hash) {
    forall v, w, h :: 0 <= v < w < |st.writers| && HoldsHash(st.writers[v], hash, h) ==>
      !HoldsHash(st.writers[w], hash, h)
  }

  /** Two writers that hold all their locks share no serial. */
  lemma ReadyListsDisjoint(st: State, hash: Hash, v: nat, w: nat, s: string)
    requires Exclusive(st, hash) && v < |st.writers| && w < |st.writers| && v != w
    requires st.writers[v].phase.Ready? && st.writers[w].phase.Ready? && s in st.writers[v].list
    ensures s !in st.writers[w].list
  {
    var k :| 0 <= k < |st.writers[v].list| && st.writers[v].list[k] == s;
    assert HoldsHash(st.writers[v], hash, hash(s));
    assert !HoldsHash(st.writers[w], hash, hash(s));
  }

  /** The rows are ready for the items still to be written: their serials are free and different. */
  ghost predicate Fits(rows: seq<SerialRow>, items: seq<Item>, list: seq<string>) {
    && NoDuplicate(Serials(items)) && StoredTrimmed(rows)
    && (forall i :: 0 <= i < |items| ==> StoresTrimmed(items[i]))
    && (forall r :: r in Corrected(items) ==> r < |rows|)
    && UniqueExcept(rows, Corrected(items))
    && (forall i :: 0 <= i < |items| && Real(items[i].serial).Some? ==>
          Free(rows, items, list, Real(items[i].serial).value))
  }

  ghost predicate Free(rows: seq<SerialRow>, items: seq<Item>, list: seq<string>, s: string) {
    s in list && FreeOf(rows, Corrected(items), [s])
  }

  function Written(rows: seq<SerialRow>, item: Item): RowId {
    if item.corrects.Some? then item.corrects.value else |rows|
  }

  /** One row was written, or added at the end. */
  ghost predicate Put(rows: seq<SerialRow>, mid: seq<SerialRow>, at: RowId) {
    && |rows| <= |mid| && at < |mid|
    && forall r :: 0 <= r < |mid| && r != at ==> r < |rows| && mid[r] == rows[r]
  }

  lemma PutKeepsFree(rows: seq<SerialRow>, mid: seq<SerialRow>, at: RowId, before: set<RowId>, after: set<RowId>,
        s: string)
    requires Put(rows, mid, at) && before <= after + {at}
    requires FreeOf(rows, before, [s]) && Real(mid[at].serial) != Some(s)
    ensures FreeOf(mid, after, [s])
  {
  }

  lemma PutKeepsUnique(rows: seq<SerialRow>, mid: seq<SerialRow>, at: RowId, before: set<RowId>, after: set<RowId>)
    requires Put(rows, mid, at) && before <= after + {at} && UniqueExcept(rows, before)
    requires Real(mid[at].serial).Some? ==> FreeOf(rows, before, [Real(mid[at].serial).value])
    ensures UniqueExcept(mid, after)
  {
    forall i, j | 0 <= i < j < |mid| && i !in after && j !in after ensures !SameSerial(mid[i], mid[j]) {
      var a, b := mid[i], mid[j];
      if i != at && j != at {
        assert a == rows[i] && b == rows[j];
      } else {
        var other := if i == at then j else i;
        assert mid[other] == rows[other] && other !in before;
      }
    }
  }

  lemma RestStaysFree(rows: seq<SerialRow>, items: seq<Item>, list: seq<string>, i: nat)
    requires items != [] && Fits(rows, items, list) && i < |items[1..]| && Real(items[1..][i].serial).Some?
    ensures Free(WriteItem(rows, items[0]), items[1..], list, Real(items[1..][i].serial).value)
  {
    var mid, at, serial := WriteItem(rows, items[0]), Written(rows, items[0]), Real(items[i + 1].serial).value;
    CorrectedSplits(items);
    assert items[0].corrects.Some? ==> items[0].corrects.value in Corrected(items);
    assert Free(rows, items, list, serial) && StoresTrimmed(items[0]);
    assert Real(Serials(items)[0]).None? || Real(Serials(items)[0]) != Real(Serials(items)[i + 1]);
    PutKeepsFree(rows, mid, at, Corrected(items), Corrected(items[1..]), serial);
  }

  lemma WriteOneFits(rows: seq<SerialRow>, items: seq<Item>, list: seq<string>)
    requires items != [] && Fits(rows, items, list)
    ensures var mid, at := WriteItem(rows, items[0]), Written(rows, items[0]);
      Put(rows, mid, at) && mid[at].serial == items[0].stored && Fits(mid, items[1..], list)
  {
    var item, rest := items[0], items[1..];
    var mid, at := WriteItem(rows, item), Written(rows, item);
    CorrectedSplits(items);
    assert item.corrects.Some? ==> item.corrects.value in Corrected(items);
    assert StoresTrimmed(item);
    assert forall i :: 0 <= i < |rest| ==> rest[i] == items[i + 1] && Serials(rest)[i] == Serials(items)[i + 1];
    if Real(item.serial).Some? { assert Free(rows, items, list, Real(item.serial).value); }
    PutKeepsUnique(rows, mid, at, Corrected(items), Corrected(rest));
    forall i | 0 <= i < |rest| && Real(rest[i].serial).Some?
      ensures Free(mid, rest, list, Real(rest[i].serial).value)
    {
      RestStaysFree(rows, items, list, i);
    }
  }

  /** Writing items that fit keeps serials unique; every row touched stands for one of the listed
      serials or for none. */
  lemma {:induction false} WritesKeepUnique(rows: seq<SerialRow>, items: seq<Item>, list: seq<string>)
    requires Fits(rows, items, list)
    ensures var after := WriteItems(rows, items);
      && Unique(after) && StoredTrimmed(after) && |rows| <= |after|
      && forall r :: 0 <= r < |after| ==> (r < |rows| && after[r] == rows[r]) || Listed(after[r], list)
    decreases |items|
  {
    if items != [] {
      WriteOneFits(rows, items, list);
      var mid := WriteItem(rows, items[0]);
      WritesKeepUnique(mid, items[1..], list);
      var at := Written(rows, items[0]);
      assert Listed(mid[at], list) by {
        assert StoresTrimmed(items[0]);
        if Real(items[0].serial).Some? { assert Free(rows, items, list, Real(items[0].serial).value); }
      }
    }
  }

  predicate Listed(row: SerialRow, list: seq<string>) {
    Real(row.serial).None? || Real(row.serial).value in list
  }

  lemma CorrectedSplits(items: seq<Item>)
    requires items != []
    ensures Corrected(items) ==
      Corrected(items[1..]) + (if items[0].corrects.Some? then {items[0].corrects.value} else {})
  {
    forall r | r in Corrected(items)
      ensures r in Corrected(items[1..]) || items[0].corrects == Some(r)
    {
      var i :| 0 <= i < |items| && items[i].corrects.Some? && items[i].corrects.value == r;
      if i > 0 { assert items[1..][i - 1] == items[i]; }
    }
    forall r | r in Corrected(items[1..]) ensures r in Corrected(items) {
      var i :| 0 <= i < |items[1..]| && items[1..][i].corrects.Some? && items[1..][i].corrects.value == r;
      assert items[i + 1] == items[1..][i];
    }
  }

  /** A writer that gives up its locks leaves the others' alone. */
  lemma ReleaseKeepsExclusive(st: State, d: State, hash: Hash)
    requires Exclusive(st, hash) && |d.writers| == |st.writers|
    requires forall v :: 0 <= v < |st.writers| ==> d.writers[v] == st.writers[v] || d.writers[v].phase.Finished?
    ensures Exclusive(d, hash)
  {
    forall v, h | 0 <= v < |d.writers| && HoldsHash(d.writers[v], hash, h) ensures HoldsHash(st.writers[v], hash, h) {
      assert d.writers[v] == st.writers[v];
    }
  }

  lemma CommitKeeps(st: State, hash: Hash, w: nat)
    requires Inv(st, hash) && w < |st.writers| && st.writers[w].phase.Ready?
    ensures Inv(Next(st, hash, Commit(w)), hash)
  {
    var x, d := st.writers[w], Next(st, hash, Commit(w));
    LockListIs(Serials(x.items));
    assert WriterOk(st, x);
    forall i | 0 <= i < |x.items| && Real(x.items[i].serial).Some?
      ensures Free(st.rows, x.items, x.list, Real(x.items[i].serial).value)
    {
      assert Real(Serials(x.items)[i]) == Some(Real(x.items[i].serial).value);
      assert Asks(Serials(x.items), Real(x.items[i].serial).value);
    }
    WritesKeepUnique(st.rows, x.items, x.list);
    forall v | 0 <= v < |d.writers| ensures WriterOk(d, d.writers[v]) {
      assert WriterOk(st, st.writers[v]);
      if v != w && st.writers[v].phase.Ready? {
        forall r | 0 <= r < |d.rows| && r !in Corrected(st.writers[v].items) && Active(d.rows[r])
          && Real(d.rows[r].serial).Some?
          ensures Real(d.rows[r].serial).value !in st.writers[v].list
        {
          var serial := Real(d.rows[r].serial).value;
          if serial in x.list { ReadyListsDisjoint(st, hash, w, v, serial); }
        }
      }
    }
    ReleaseKeepsExclusive(st, d, hash);
  }

  lemma AcquireKeeps(st: State, hash: Hash, w: nat)
    requires Inv(st, hash) && Step(st, hash, Acquire(w)).Ok?
    ensures Inv(Next(st, hash, Acquire(w)), hash)
  {
    var d, n := Next(st, hash, Acquire(w)), st.writers[w].phase.n;
    var taken := hash(st.writers[w].list[n]);
    assert forall v :: 0 <= v < |st.writers| && v != w ==> d.writers[v] == st.writers[v];
    forall v | 0 <= v < |d.writers| ensures WriterOk(d, d.writers[v]) { assert WriterOk(st, st.writers[v]); }
    forall h | HoldsHash(d.writers[w], hash, h) ensures h == taken || HoldsHash(st.writers[w], hash, h) {
      var k :| 0 <= k < Held(d.writers[w]) && k < |d.writers[w].list| && hash(d.writers[w].list[k]) == h;
      if k < n { assert hash(st.writers[w].list[k]) == h; }
    }
    forall v | 0 <= v < |st.writers| && v != w ensures !HoldsHash(st.writers[v], hash, taken) {}
  }

  /** A passed check means that no active row outside the corrected ones stands for a serial of the
      list: stored serials are trimmed, so comparing the stored text is enough. */
  lemma CheckMeansFree(rows: seq<SerialRow>, list: seq<string>, except: set<RowId>)
    requires StoredTrimmed(rows) && !Taken(rows, list, except)
    ensures FreeOf(rows, except, list)
  {
    forall r | 0 <= r < |rows| && r !in except && Active(rows[r]) && Real(rows[r].serial).Some?
      ensures Real(rows[r].serial).value !in list
    {
      TrimmedIsFixed(rows[r].serial.value);
    }
  }

  lemma CheckKeeps(st: State, hash: Hash, w: nat)
    requires Inv(st, hash) && Step(st, hash, Check(w)).Ok?
    ensures Inv(Next(st, hash, Check(w)), hash)
  {
    var x, d := st.writers[w], Next(st, hash, Check(w));
    if !Taken(st.rows, x.list, Corrected(x.items)) { CheckMeansFree(st.rows, x.list, Corrected(x.items)); }
    forall v | 0 <= v < |d.writers| ensures WriterOk(d, d.writers[v]) { assert WriterOk(st, st.writers[v]); }
    assert forall v, h :: 0 <= v < |d.writers| && HoldsHash(d.writers[v], hash, h) ==>
      HoldsHash(st.writers[v], hash, h);
  }

  /** Bringing a released row back. */
  predicate Reactivates(st: State, op: Op) {
    op.SetStatus? && op.r < |st.rows| && !Active(st.rows[op.r]) && op.status !in RELEASED
  }

  lemma StatusKeeps(st: State, hash: Hash, r: RowId, status: Status)
    requires Inv(st, hash) && r < |st.rows| && !Reactivates(st, SetStatus(r, status))
    ensures Inv(Next(st, hash, SetStatus(r, status)), hash)
  {
    var d := Next(st, hash, SetStatus(r, status));
    forall w | 0 <= w < |d.writers| ensures WriterOk(d, d.writers[w]) { assert WriterOk(st, st.writers[w]); }
  }

  lemma BeginKeeps(st: State, hash: Hash, items: seq<Item>)
    requires Inv(st, hash) && Step(st, hash, Begin(items)).Ok?
    requires forall i :: 0 <= i < |items| ==> StoresTrimmed(items[i])
    ensures Inv(Next(st, hash, Begin(items)), hash)
  {
    var d := Next(st, hash, Begin(items));
    forall w | 0 <= w < |d.writers| ensures WriterOk(d, d.writers[w]) {
      if w < |st.writers| { assert WriterOk(st, st.writers[w]); }
    }
  }

  lemma AbortKeeps(st: State, hash: Hash, w: nat)
    requires Inv(st, hash) && w < |st.writers|
    ensures Inv(Next(st, hash, Abort(w)), hash)
  {
    var d := Next(st, hash, Abort(w));
    ReleaseKeepsExclusive(st, d, hash);
    forall v | 0 <= v < |d.writers| ensures WriterOk(d, d.writers[v]) { assert WriterOk(st, st.writers[v]); }
  }

  lemma StepKeeps(st: State, hash: Hash, op: Op)
    requires Inv(st, hash) && Step(st, hash, op).Ok? && !Reactivates(st, op)
    requires op.Begin? ==> forall i :: 0 <= i < |op.items| ==> StoresTrimmed(op.items[i])
    ensures Inv(Next(st, hash, op), hash)
  {
    match op
    case Commit(w) => CommitKeeps(st, hash, w);
    case Acquire(w) => AcquireKeeps(st, hash, w);
    case Check(w) => CheckKeeps(st, hash, w);
    case SetStatus(r, status) => StatusKeeps(st, hash, r, status);
    case Begin(items) => BeginKeeps(st, hash, items);
    case Abort(w) => AbortKeeps(st, hash, w);
  }

  /** Every writer stores what it had guarded, trimmed, and no status step brings a released row back. */
  ghost predicate Orderly(hash: Hash, ops: seq<Op>) {
    ops == [] ||
    (var st, op := Run(hash, ops[..|ops| - 1]), ops[|ops| - 1];
     && Orderly(hash, ops[..|ops| - 1])
     && !Reactivates(st, op)
     && (op.Begin? ==> forall i :: 0 <= i < |op.items| ==> StoresTrimmed(op.items[i])))
  }

  lemma {:induction false} RunKeeps(hash: Hash, ops: seq<Op>)
    requires Orderly(hash, ops)
    ensures Inv(Run(hash, ops), hash)
  {
    if ops != [] {
      var front, op := ops[..|ops| - 1], ops[|ops| - 1];
      RunKeeps(hash, front);
      if Step(Run(hash, front), hash, op).Ok? { StepKeeps(Run(hash, front), hash, op); }
    }
  }

  /** For any number of interleaved writers and any lock hash, colliding or not, no two active rows
      ever stand for the same serial. */
  lemma SerialsStayUnique(hash: Hash, ops: seq<Op>)
    requires Orderly(hash, ops)
    ensures Unique(Run(hash, ops).rows)
  {
    RunKeeps(hash, ops);
  }

  /** Bringing a released row back keeps serials unique exactly when no active row took its serial. */
  lemma ReactivationKeepsUniqueIff(rows: seq<SerialRow>, r: RowId, status: Status)
    requires Unique(rows) && r < |rows| && !Active(rows[r]) && status !in RELEASED && Real(rows[r].serial).Some?
    ensures Unique(rows[r := rows[r].(status := status)]) <==> FreeOf(rows, {}, [Real(rows[r].serial).value])
  {
    var after := rows[r := rows[r].(status := status)];
    if !FreeOf(rows, {}, [Real(rows[r].serial).value]) {
      var q :| 0 <= q < |rows| && Active(rows[q]) && Real(rows[q].serial) == Real(rows[r].serial);
      assert after[q] == rows[q];
      assert SameSerial(after[if q < r then q else r], after[if q < r then r else q]);
    }
  }

  ghost predicate ActiveStoredTrimmed(rows: seq<SerialRow>) {
    forall r :: 0 <= r < |rows| && Active(rows[r]) && Real(rows[r].serial).Some? ==> Trimmed(rows[r].serial.value)
  }

  /** The guard's comparison of texts finds exactly the taken serials, for every serial, exactly when
      active stock stores its serials trimmed. */
  lemma GuardIsExactIff(rows: seq<SerialRow>)
    requires Unique(rows)
    ensures (forall s: string :: Real(Some(s)) == Some(s) ==> (Taken(rows, [s], {}) <==> !FreeOf(rows, {}, [s])))
       <==> ActiveStoredTrimmed(rows)
  {
    if ActiveStoredTrimmed(rows) {
      forall r | 0 <= r < |rows| && Active(rows[r]) && Real(rows[r].serial).Some?
        ensures Real(rows[r].serial) == rows[r].serial
      {
        TrimmedIsFixed(rows[r].serial.value);
      }
    } else {
      var r :| 0 <= r < |rows| && Active(rows[r]) && Real(rows[r].serial).Some? && !Trimmed(rows[r].serial.value);
      UntrimmedIsMissed(rows, r);
    }
  }

  lemma UntrimmedIsMissed(rows: seq<SerialRow>, r: RowId)
    requires Unique(rows) && r < |rows| && Active(rows[r]) && Real(rows[r].serial).Some?
      && !Trimmed(rows[r].serial.value)
    ensures var s := Real(rows[r].serial).value;
      Real(Some(s)) == Some(s) && !FreeOf(rows, {}, [s]) && !Taken(rows, [s], {})
  {
    var s := Real(rows[r].serial).value;
    TrimTrims(rows[r].serial.value);
    TrimmedIsFixed(s);
    TrimmedIsFixed(rows[r].serial.value);
    forall q | 0 <= q < |rows| && Active(rows[q]) && rows[q].serial.Some? ensures rows[q].serial.value != s {
      if rows[q].serial.value == s && q != r {
        assert SameSerial(rows[if q < r then q else r], rows[if q < r then r else q]);
      }
    }
  }

  // ----- the guard as it runs -----

  /** The advisory locks of the database: which transaction holds which hash. */
  class AdvisoryLocks {
    var owner: map<int, nat>

    constructor ()
      ensures owner == map[]
    {
      owner := map[];
    }

    /** Takes the locks of the list in order, for transaction `w`, until one is held by another;
        returns how many it took. A lock held twice by one transaction is taken again. */
    method LockAll(w: nat, list: seq<string>, hash: Hash) returns (n: nat)
      modifies this
      ensures n <= |list|
      ensures n < |list| ==> hash(list[n]) in owner && owner[hash(list[n])] != w
      ensures forall k :: 0 <= k < n ==> hash(list[k]) in owner && owner[hash(list[k])] == w
      ensures forall h :: h in old(owner) ==> h in owner && owner[h] == old(owner)[h]
      ensures forall h :: h in owner && h !in old(owner) ==>
        owner[h] == w && exists k :: 0 <= k < n && hash(list[k]) == h
    {
      n := 0;
      while n < |list|
        invariant n <= |list|
        invariant forall k :: 0 <= k < n ==> hash(list[k]) in owner && owner[hash(list[k])] == w
        invariant forall h :: h in old(owner) ==> h in owner && owner[h] == old(owner)[h]
        invariant forall h :: h in owner && h !in old(owner) ==>
          owner[h] == w && exists k :: 0 <= k < n && hash(list[k]) == h
      {
        var h := hash(list[n]);
        if h in owner && owner[h] != w { return; }
        owner := owner[h := w];
        n := n + 1;
      }
    }
  }

  /** The list of locks, gathered from a request serial by serial. */
  method GatherLocks(serials: seq<Option<string>>) returns (list: seq<string>)
    ensures list == LockList(serials) && Ascending(list)
    ensures forall x :: x in list <==> Asks(serials, x)
  {
    list := [];
    assert serials[..0] == [];
    for i := 0 to |serials|
      invariant list == LockList(serials[..i])
    {
      assert serials[..i + 1][..i] == serials[..i];
      var s := Real(serials[i]);
      if s.Some? { list := Place(list, s.value); }
    }
    assert serials[..|serials|] == serials;
    LockListIs(serials);
  }
}

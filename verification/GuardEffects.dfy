/** The serial guard step by step: which requests begin, which pass the check against active stock, and
    what a commit writes, in texts and statuses. */
module GuardEffects {
  import opened Stock
  import opened Text
  import opened SerialGuard

  predicate Placeholder(text: string) {
    text == "n/a" || text == "N/a" || text == "n/A" || text == "N/A"
  }

  /** A text stands for a serial unless it is blank or a placeholder; it stands for its trimmed form. */
  lemma RealIs(s: Option<string>)
    ensures Real(s) ==
      if s.None? || Trim(s.value) == "" || Placeholder(Trim(s.value)) then None else Some(Trim(s.value))
  {
    if s.Some? { LowersToPlaceholder(Trim(s.value)); }
  }

  lemma LowersToPlaceholder(text: string)
    ensures Lower(text) == "n/a" <==> Placeholder(text)
  {
    if Lower(text) == "n/a" {
      assert LowerChar(text[0]) == 'n' && LowerChar(text[1]) == '/' && LowerChar(text[2]) == 'a';
      assert text == [text[0], text[1], text[2]];
    }
    assert Lower("n/a") == "n/a" && Lower("N/a") == "n/a" && Lower("n/A") == "n/a" && Lower("N/A") == "n/a";
  }

  predicate Corrects(items: seq<Item>, r: RowId) {
    exists i | 0 <= i < |items| :: items[i].corrects == Some(r)
  }

  /** A request names the serial. */
  predicate Names(items: seq<Item>, serial: string) {
    exists i | 0 <= i < |items| :: Real(items[i].serial) == Some(serial)
  }

  lemma CorrectedIff(items: seq<Item>, r: RowId)
    ensures r in Corrected(items) <==> Corrects(items, r)
  {
  }

  lemma AskedIff(items: seq<Item>, x: string)
    ensures Asks(Serials(items), x) <==> Names(items, x)
  {
    if i :| 0 <= i < |items| && Real(items[i].serial) == Some(x) { assert Real(Serials(items)[i]) == Some(x); }
    if i :| 0 <= i < |items| && Real(Serials(items)[i]) == Some(x) { assert Real(items[i].serial) == Some(x); }
  }

  /** A request begins exactly when the rows it corrects are there and it names no serial twice. Its writer
      has one lock to take for each serial named, in ascending order, and none yet. */
  lemma BeginIs(st: State, hash: Hash, items: seq<Item>)
    ensures var r := Step(st, hash, Begin(items));
      && (r.Ok? <==>
            && (forall i :: 0 <= i < |items| && items[i].corrects.Some? ==> items[i].corrects.value < |st.rows|)
            && forall i, j :: 0 <= i < j < |items| && Real(items[i].serial).Some? ==>
                 Real(items[i].serial) != Real(items[j].serial))
      && (r.Ok? ==>
            && |r.value.writers| == |st.writers| + 1 && r.value == st.(writers := r.value.writers)
            && r.value.writers[..|st.writers|] == st.writers
            && var w := r.value.writers[|st.writers|];
               && w.items == items && Ascending(w.list) && (forall x :: x in w.list <==> Names(items, x))
               && w.phase == if w.list == [] then Ready else Acquiring(0))
  {
    LockListIs(Serials(items));
    forall x ensures Asks(Serials(items), x) <==> Names(items, x) { AskedIff(items, x); }
    if r :| r in Corrected(items) && r >= |st.rows| { CorrectedIff(items, r); }
    assert forall i :: 0 <= i < |items| && items[i].corrects.Some? ==> items[i].corrects.value in Corrected(items);
    forall i, j | 0 <= i < j < |items|
      ensures Real(Serials(items)[i]) == Real(items[i].serial) && Real(Serials(items)[j]) == Real(items[j].serial)
    {
    }
  }

  /** Stock that counts: not consumed, shipped, closed or cancelled. */
  predicate InStock(row: SerialRow) {
    row.status != Consumed && row.status != Shipped && row.status != Closed && row.status != Cancelled
  }

  /** The row stores the very text of a serial the request names, and is none that it corrects. */
  predicate Stands(items: seq<Item>, rows: seq<SerialRow>, q: RowId)
    requires q < |rows|
  {
    && InStock(rows[q]) && !Corrects(items, q)
    && rows[q].serial.Some? && Names(items, rows[q].serial.value)
  }

  lemma TakenIff(items: seq<Item>, rows: seq<SerialRow>)
    ensures Taken(rows, LockList(Serials(items)), Corrected(items)) <==>
      exists q :: 0 <= q < |rows| && Stands(items, rows, q)
  {
    var list := LockList(Serials(items));
    LockListIs(Serials(items));
    forall q | 0 <= q < |rows|
      ensures Stands(items, rows, q) <==>
        q !in Corrected(items) && Active(rows[q]) && rows[q].serial.Some? && rows[q].serial.value in list
    {
      CorrectedIff(items, q);
      if rows[q].serial.Some? { AskedIff(items, rows[q].serial.value); }
    }
  }

  /** A writer that holds all its locks passes exactly when no row in stock, other than those it corrects,
      stores the very text of a serial it names; otherwise it ends and nothing is written. */
  lemma CheckIs(st: State, hash: Hash, w: nat)
    requires w < |st.writers| && st.writers[w].list == LockList(Serials(st.writers[w].items))
    ensures var x, r := st.writers[w], Step(st, hash, Check(w));
      && (r.Ok? <==> x.phase == Acquiring(|x.list|))
      && (r.Ok? ==>
            var free := forall q :: 0 <= q < |st.rows| ==> !Stands(x.items, st.rows, q);
            r.value == st.(writers := st.writers[w := x.(phase := if free then Ready else Finished)]))
  {
    TakenIff(st.writers[w].items, st.rows);
  }

  /** The rows a request adds, in its order. */
  function Added(items: seq<Item>): seq<SerialRow> {
    if items == [] then []
    else
      (if items[0].corrects.None? then [SerialRow(items[0].stored, items[0].status)] else []) + Added(items[1..])
  }

  /** The text row `r` has after the corrections of a request, the last one counting. */
  function TextAfter(items: seq<Item>, r: RowId, was: Option<string>): Option<string> {
    if items == [] then was
    else TextAfter(items[1..], r, if items[0].corrects == Some(r) then items[0].stored else was)
  }

  predicate InRange(items: seq<Item>, n: nat) {
    forall i | 0 <= i < |items| :: items[i].corrects.Some? ==> items[i].corrects.value < n
  }

  /** What is left to write after the first item is in range too. */
  lemma RestInRange(items: seq<Item>, n: nat)
    requires items != [] && InRange(items, n)
    ensures InRange(items[1..], n)
  {
    assert forall i :: 0 <= i < |items[1..]| ==> items[1..][i] == items[i + 1];
  }

  lemma WriteItemIs(rows: seq<SerialRow>, n: nat, item: Item)
    requires n <= |rows| && (item.corrects.Some? ==> item.corrects.value < n)
    ensures var mid := WriteItem(rows, item);
      && mid[|rows|..] == (if item.corrects.None? then [SerialRow(item.stored, item.status)] else [])
      && |mid| == |rows| + (if item.corrects.None? then 1 else 0)
      && forall r :: 0 <= r < |rows| ==>
           mid[r] == if item.corrects == Some(r) then SerialRow(item.stored, rows[r].status) else rows[r]
  {
  }

  lemma SplitBehind(after: seq<SerialRow>, m: nat, n: nat)
    requires m <= n <= |after|
    ensures after[m..] == after[m..n] + after[n..]
  {
  }

  /** A request writes its texts on the rows it corrects, changing nothing else of them, and adds the
      others at the end. */
  lemma {:induction false} WritesAre(rows: seq<SerialRow>, n: nat, items: seq<Item>)
    requires n <= |rows| && InRange(items, n)
    ensures var after := WriteItems(rows, items);
      && |after| == |rows| + |Added(items)| && after[|rows|..] == Added(items)
      && forall r :: 0 <= r < |rows| ==>
           after[r] == if r < n then SerialRow(TextAfter(items, r, rows[r].serial), rows[r].status) else rows[r]
    decreases |items|
  {
    if items != [] {
      var mid := WriteItem(rows, items[0]);
      WriteItemIs(rows, n, items[0]);
      RestInRange(items, n);
      WritesAre(mid, n, items[1..]);
      var after := WriteItems(rows, items);
      SplitBehind(after, |rows|, |mid|);
      assert after[|rows|..|mid|] == mid[|rows|..];
    }
  }

  /** Item `i` is the last one that corrects row `r`. */
  predicate LastOn(items: seq<Item>, r: RowId, i: nat)
    requires i < |items|
  {
    items[i].corrects == Some(r) && forall j | i < j < |items| :: items[j].corrects != Some(r)
  }

  /** The text of a row that no item corrects stays, and of one that some correct becomes that of the last
      of them. */
  lemma {:induction false} TextAfterIs(items: seq<Item>, r: RowId, was: Option<string>)
    ensures !Corrects(items, r) ==> TextAfter(items, r, was) == was
    ensures forall i :: 0 <= i < |items| && LastOn(items, r, i) ==> TextAfter(items, r, was) == items[i].stored
  {
    if items != [] {
      var rest := items[1..];
      assert forall i :: 0 <= i < |rest| ==> rest[i] == items[i + 1];
      TextAfterIs(rest, r, if items[0].corrects == Some(r) then items[0].stored else was);
      if i :| 0 <= i < |rest| && rest[i].corrects == Some(r) { assert items[i + 1].corrects == Some(r); }
      forall i | 1 <= i < |items| && LastOn(items, r, i) ensures LastOn(rest, r, i - 1) {
        assert rest[i - 1] == items[i];
      }
    }
  }

  /** A commit is taken from a ready writer only; it writes the request and ends the writer. */
  lemma CommitIs(st: State, hash: Hash, w: nat)
    requires w < |st.writers| && InRange(st.writers[w].items, |st.rows|)
    ensures var items, r := st.writers[w].items, Step(st, hash, Commit(w));
      && (r.Ok? <==> st.writers[w].phase == Ready)
      && (r.Ok? ==>
            && r.value.writers == st.writers[w := st.writers[w].(phase := Finished)]
            && |r.value.rows| == |st.rows| + |Added(items)| && r.value.rows[|st.rows|..] == Added(items)
            && forall q :: 0 <= q < |st.rows| ==>
                 r.value.rows[q] == SerialRow(TextAfter(items, q, st.rows[q].serial), st.rows[q].status))
  {
    WritesAre(st.rows, |st.rows|, st.writers[w].items);
  }

  /** How many locks of its list a writer holds: the first ones, all of them once it is ready, none any more
      when it has ended. */
  function Locks(w: Writer): nat {
    match w.phase
    case Acquiring(n) => if n <= |w.list| then n else |w.list|
    case Ready => |w.list|
    case Finished => 0
  }

  /** A writer takes its next lock exactly when no other writer holds a lock of the same hash. */
  lemma AcquireIs(st: State, hash: Hash, w: nat)
    requires w < |st.writers|
    ensures var x, r := st.writers[w], Step(st, hash, Acquire(w));
      && (r.Ok? <==>
            && x.phase.Acquiring? && x.phase.n < |x.list|
            && forall v, k :: 0 <= v < |st.writers| && v != w && 0 <= k < Locks(st.writers[v]) ==>
                 hash(st.writers[v].list[k]) != hash(x.list[x.phase.n]))
      && (r.Ok? ==> r.value == st.(writers := st.writers[w := x.(phase := Acquiring(x.phase.n + 1))]))
  {
    var x := st.writers[w];
    if x.phase.Acquiring? && x.phase.n < |x.list| {
      var h := hash(x.list[x.phase.n]);
      forall v | 0 <= v < |st.writers|
        ensures HoldsHash(st.writers[v], hash, h) <==>
          exists k :: 0 <= k < Locks(st.writers[v]) && hash(st.writers[v].list[k]) == h
      {
      }
    }
  }

  /** A writer that gives up writes nothing and lets go of its locks. */
  lemma AbortIs(st: State, hash: Hash, w: nat)
    requires w < |st.writers|
    ensures Step(st, hash, Abort(w)) == Ok(st.(writers := st.writers[w := st.writers[w].(phase := Finished)]))
  {
  }

  /** A status change is taken whatever the statuses; the guard does not see it. */
  lemma SetStatusIs(st: State, hash: Hash, q: RowId, status: Status)
    ensures Step(st, hash, SetStatus(q, status)) ==
      if q >= |st.rows| then Err(NotFound)
      else Ok(st.(rows := st.rows[q := SerialRow(st.rows[q].serial, status)]))
  {
  }

  // ----- over runs -----

  /** Every writer's locks are those of its request, and the rows it corrects are there. */
  ghost predicate WritersFit(st: State) {
    forall w :: 0 <= w < |st.writers| ==> WriterFits(st, st.writers[w])
  }

  predicate WriterFits(st: State, w: Writer) {
    w.list == LockList(Serials(w.items)) && InRange(w.items, |st.rows|)
  }

  lemma StepKeepsFit(st: State, hash: Hash, op: Op)
    requires WritersFit(st) && Step(st, hash, op).Ok?
    ensures WritersFit(Step(st, hash, op).value)
  {
    var d := Step(st, hash, op).value;
    match op
    case Begin(items) => BeginIs(st, hash, items);
    case Commit(w) =>
      assert WriterFits(st, st.writers[w]);
      CommitIs(st, hash, w);
    case _ =>
  }

  /** So in every run the check and the commit of any writer are as described above. */
  lemma {:induction false} WritersFitAlways(hash: Hash, ops: seq<Op>)
    ensures WritersFit(Run(hash, ops))
  {
    if ops != [] {
      var front, op := ops[..|ops| - 1], ops[|ops| - 1];
      WritersFitAlways(hash, front);
      if Step(Run(hash, front), hash, op).Ok? { StepKeepsFit(Run(hash, front), hash, op); }
    }
  }

  /** In every run: a writer passes the check exactly when it holds all its locks and none of its serials
      stands in stock; what it then commits is its request and nothing else. */
  lemma GuardIs(hash: Hash, ops: seq<Op>, w: nat)
    requires w < |Run(hash, ops).writers|
    ensures var st := Run(hash, ops);
      var x, checked, written := st.writers[w], Step(st, hash, Check(w)), Step(st, hash, Commit(w));
      && (checked.Ok? && checked.value.writers[w].phase == Ready <==>
            x.phase == Acquiring(|x.list|) && forall q :: 0 <= q < |st.rows| ==> !Stands(x.items, st.rows, q))
      && (written.Ok? <==> x.phase == Ready)
      && (written.Ok? ==>
            && |written.value.rows| == |st.rows| + |Added(x.items)|
            && written.value.rows[|st.rows|..] == Added(x.items)
            && forall q :: 0 <= q < |st.rows| ==>
                 written.value.rows[q] == SerialRow(TextAfter(x.items, q, st.rows[q].serial), st.rows[q].status))
  {
    WritersFitAlways(hash, ops);
    assert WriterFits(Run(hash, ops), Run(hash, ops).writers[w]);
    CheckIs(Run(hash, ops), hash, w);
    CommitIs(Run(hash, ops), hash, w);
  }
}

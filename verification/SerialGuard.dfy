/** The serial-number guard: the serials of a request locked one by one in sorted order, then checked
    against active stock, then written; any number of writers at once. */
module SerialGuard {
  import opened Stock
  import opened Text

  const RELEASED: set<Status> := {Consumed, Shipped, Closed, Cancelled}

  /** The serial a text stands for, if it is a real one. */
  function Real(s: Option<string>): Option<string> {
    if s.Some? && Trim(s.value) != "" && Lower(Trim(s.value)) != "n/a" then Some(Trim(s.value)) else None
  }

  // ----- the sorted lock list -----

  predicate Before(a: string, b: string) {
    b != [] && (a == [] || a[0] < b[0] || (a[0] == b[0] && Before(a[1..], b[1..])))
  }

  lemma {:induction false} BeforeOrders(a: string, b: string, c: string)
    ensures !Before(a, a)
    ensures Before(a, b) && Before(b, c) ==> Before(a, c)
    ensures a == b || Before(a, b) || Before(b, a)
  {
    if a != [] { BeforeOrders(a[1..], if b == [] then [] else b[1..], if c == [] then [] else c[1..]); }
    if a != [] && b != [] && a[0] == b[0] { assert a == [a[0]] + a[1..] && b == [b[0]] + b[1..]; }
  }

  predicate Ascending(list: seq<string>) {
    forall i, j | 0 <= i < j < |list| :: Before(list[i], list[j])
  }

  function Place(list: seq<string>, s: string): seq<string> {
    if list == [] || Before(list[|list| - 1], s) then list + [s]
    else if list[|list| - 1] == s then list
    else Place(list[..|list| - 1], s) + [list[|list| - 1]]
  }

  lemma {:induction false} PlaceSorts(list: seq<string>, s: string)
    requires Ascending(list)
    ensures Ascending(Place(list, s))
    ensures forall x :: x in Place(list, s) <==> x in list || x == s
  {
    if list != [] {
      var front, last := list[..|list| - 1], list[|list| - 1];
      assert list == front + [last];
      BeforeOrders(last, s, s);
      if Before(last, s) {
        forall i | 0 <= i < |list| ensures Before(list[i], s) { BeforeOrders(list[i], last, s); }
      } else if last != s {
        PlaceSorts(front, s);
        var p := Place(front, s);
        forall i | 0 <= i < |p| ensures Before(p[i], last) { assert p[i] in p; }
      }
    }
  }

  /** The distinct real serials of a request, trimmed and sorted. */
  function LockList(serials: seq<Option<string>>): seq<string> {
    if serials == [] then []
    else
      var list, s := LockList(serials[..|serials| - 1]), Real(serials[|serials| - 1]);
      if s.None? then list else Place(list, s.value)
  }

  predicate Asks(serials: seq<Option<string>>, x: string) {
    exists i | 0 <= i < |serials| :: Real(serials[i]) == Some(x)
  }

  lemma AsksSplits(serials: seq<Option<string>>, x: string)
    requires serials != []
    ensures Asks(serials, x) <==> Asks(serials[..|serials| - 1], x) || Real(serials[|serials| - 1]) == Some(x)
  {
    var front := serials[..|serials| - 1];
    if i :| 0 <= i < |front| && Real(front[i]) == Some(x) { assert Real(serials[i]) == Some(x); }
    if i :| 0 <= i < |serials| && Real(serials[i]) == Some(x) && i < |front| { assert Real(front[i]) == Some(x); }
  }

  lemma {:induction false} LockListIs(serials: seq<Option<string>>)
    ensures Ascending(LockList(serials))
    ensures forall x :: x in LockList(serials) <==> Asks(serials, x)
  {
    if serials != [] {
      var front, last := serials[..|serials| - 1], Real(serials[|serials| - 1]);
      LockListIs(front);
      if last.Some? { PlaceSorts(LockList(front), last.value); }
      forall x ensures x in LockList(serials) <==> Asks(serials, x) { AsksSplits(serials, x); }
    }
  }

  predicate NoDuplicate(serials: seq<Option<string>>) {
    forall i, j | 0 <= i < j < |serials| :: Real(serials[i]).None? || Real(serials[i]) != Real(serials[j])
  }

  // ----- writers -----

  datatype SerialRow = SerialRow(serial: Option<string>, status: Status)

  /** One unit of a request: the text given to the guard, the text stored, and the row it corrects
      (None for a new row). */
  datatype Item = Item(serial: Option<string>, stored: Option<string>, corrects: Option<RowId>, status: Status)

  /** Acquiring(n): the first `n` locks are held. Ready: all held, the check passed. */
  datatype Phase = Acquiring(n: nat) | Ready | Finished

  datatype Writer = Writer(items: seq<Item>, list: seq<string>, phase: Phase)

  datatype State = State(rows: seq<SerialRow>, writers: seq<Writer>)

  type Hash = string -> int

  function Serials(items: seq<Item>): (r: seq<Option<string>>)
    ensures |r| == |items| && forall i :: 0 <= i < |items| ==> r[i] == items[i].serial
  {
    seq(|items|, i requires 0 <= i < |items| => items[i].serial)
  }

  function Corrected(items: seq<Item>): set<RowId> {
    set i | 0 <= i < |items| && items[i].corrects.Some? :: items[i].corrects.value
  }

  /** How many locks a writer holds, from the front of its list. */
  function Held(w: Writer): nat {
    match w.phase
    case Acquiring(n) => n
    case Ready => |w.list|
    case Finished => 0
  }

  predicate HoldsHash(w: Writer, hash: Hash, h: int) {
    exists k | 0 <= k < Held(w) && k < |w.list| :: hash(w.list[k]) == h
  }

  /** Another transaction holds the advisory lock; a transaction never waits for itself. */
  predicate HeldByOther(st: State, hash: Hash, w: nat, h: int) {
    exists v | 0 <= v < |st.writers| :: v != w && HoldsHash(st.writers[v], hash, h)
  }

  predicate Active(row: SerialRow) { row.status !in RELEASED }

  /** Active stock outside the corrected rows stores one of the serials. */
  predicate Taken(rows: seq<SerialRow>, list: seq<string>, except: set<RowId>) {
    exists r | 0 <= r < |rows| :: r !in except && Active(rows[r]) && rows[r].serial.Some?
      && rows[r].serial.value in list
  }

  function WriteItem(rows: seq<SerialRow>, item: Item): seq<SerialRow> {
    if item.corrects.None? then rows + [SerialRow(item.stored, item.status)]
    else if item.corrects.value < |rows| then
      rows[item.corrects.value := rows[item.corrects.value].(serial := item.stored)]
    else rows
  }

  function WriteItems(rows: seq<SerialRow>, items: seq<Item>): seq<SerialRow>
    decreases |items|
  {
    if items == [] then rows else WriteItems(WriteItem(rows, items[0]), items[1..])
  }

  datatype Op =
    | Begin(items: seq<Item>)
    | Acquire(w: nat)
    | Check(w: nat)
    | Commit(w: nat)
    | Abort(w: nat)
    | SetStatus(r: RowId, status: Status)

  function Step(st: State, hash: Hash, op: Op): Result<State> {
    match op
    case Begin(items) =>
      if exists r | r in Corrected(items) :: r >= |st.rows| then Err(NotFound)
      else if !NoDuplicate(Serials(items)) then Err(Conflict)
      else
        var list := LockList(Serials(items));
        Ok(st.(writers := st.writers + [Writer(items, list, if list == [] then Ready else Acquiring(0))]))
    case Acquire(w) =>
      if w >= |st.writers| || !st.writers[w].phase.Acquiring? then Err(BadRequest)
      else if st.writers[w].phase.n >= |st.writers[w].list| then Err(BadRequest)
      else if HeldByOther(st, hash, w, hash(st.writers[w].list[st.writers[w].phase.n])) then Err(Conflict)
      else Ok(st.(writers := st.writers[w := st.writers[w].(phase := Acquiring(st.writers[w].phase.n + 1))]))
    case Check(w) =>
      if w >= |st.writers| || st.writers[w].phase != Acquiring(|st.writers[w].list|) then Err(BadRequest)
      else
        var taken := Taken(st.rows, st.writers[w].list, Corrected(st.writers[w].items));
        Ok(st.(writers := st.writers[w := st.writers[w].(phase := if taken then Finished else Ready)]))
    case Commit(w) =>
      if w >= |st.writers| || !st.writers[w].phase.Ready? then Err(BadRequest)
      else Ok(State(WriteItems(st.rows, st.writers[w].items), st.writers[w := st.writers[w].(phase := Finished)]))
    case Abort(w) =>
      if w >= |st.writers| then Err(BadRequest)
      else Ok(st.(writers := st.writers[w := st.writers[w].(phase := Finished)]))
    case SetStatus(r, status) =>
      if r >= |st.rows| then Err(NotFound) else Ok(st.(rows := st.rows[r := st.rows[r].(status := status)]))
  }

  function Next(st: State, hash: Hash, op: Op): State {
    match Step(st, hash, op) case Ok(d) => d case Err(_) => st
  }

  function Run(hash: Hash, ops: seq<Op>): State {
    if ops == [] then State([], []) else Next(Run(hash, ops[..|ops| - 1]), hash, ops[|ops| - 1])
  }
}

/** Direct creation of a stock row: it looks for the very text among active stock, then goes through
    the serial guard, and stores the text as it was given. */
module DirectCreate {
  import opened Stock
  import opened Text
  import opened SerialGuard
  import opened SerialRuns

  predicate Stores(row: SerialRow, text: string) { Active(row) && row.serial == Some(text) }

  /** The check before the transaction. */
  predicate Precheck(rows: seq<SerialRow>, text: string) {
    text != "" && text != "N/A" ==> forall r | 0 <= r < |rows| :: !Stores(rows[r], text)
  }

  function NewItem(text: string): Item { Item(Some(text), Some(text), None, Available) }

  function NewRow(text: string): SerialRow { SerialRow(Some(text), Available) }

  /** The transaction of one creation, by writer `w`. */
  function Create(w: nat, text: string): seq<Op> {
    [Begin([NewItem(text)]), Acquire(w), Check(w), Commit(w)]
  }

  predicate Idle(st: State) {
    forall v | 0 <= v < |st.writers| :: st.writers[v].phase.Finished?
  }

  predicate IsReal(text: string) { Real(Some(text)).Some? }

  lemma OneLock(text: string)
    requires IsReal(text)
    ensures LockList(Serials([NewItem(text)])) == [Trim(text)] && NoDuplicate(Serials([NewItem(text)]))
    ensures Corrected([NewItem(text)]) == {}
  {
    var serials := Serials([NewItem(text)]);
    assert serials == [Some(text)] && serials[..0] == [];
  }

  function After(st: State, text: string, phase: Phase): State {
    st.(writers := st.writers + [Writer([NewItem(text)], [Trim(text)], phase)])
  }

  lemma Begins(st: State, hash: Hash, text: string)
    requires IsReal(text)
    ensures Step(st, hash, Begin([NewItem(text)])) == Ok(After(st, text, Acquiring(0)))
  {
    OneLock(text);
  }

  lemma Acquires(st: State, hash: Hash, text: string)
    requires Idle(st)
    ensures Step(After(st, text, Acquiring(0)), hash, Acquire(|st.writers|)) == Ok(After(st, text, Acquiring(1)))
  {
    var mid, w := After(st, text, Acquiring(0)), |st.writers|;
    forall v | 0 <= v < |mid.writers| && v != w ensures !HoldsHash(mid.writers[v], hash, hash(Trim(text))) {
      assert mid.writers[v] == st.writers[v];
    }
    assert mid.writers[w := mid.writers[w].(phase := Acquiring(1))] == After(st, text, Acquiring(1)).writers;
  }

  lemma Checks(st: State, hash: Hash, text: string)
    ensures var taken := Taken(st.rows, [Trim(text)], {});
      Step(After(st, text, Acquiring(1)), hash, Check(|st.writers|))
        == Ok(After(st, text, if taken then Finished else Ready))
  {
    var mid, w := After(st, text, Acquiring(1)), |st.writers|;
    assert Corrected([NewItem(text)]) == {};
    var next := if Taken(st.rows, [Trim(text)], {}) then Finished else Ready;
    assert mid.writers[w := mid.writers[w].(phase := next)] == After(st, text, next).writers;
  }

  lemma Commits(st: State, hash: Hash, text: string)
    ensures Step(After(st, text, Ready), hash, Commit(|st.writers|))
      == Ok(After(st, text, Finished).(rows := st.rows + [NewRow(text)]))
    ensures Step(After(st, text, Finished), hash, Commit(|st.writers|)).Err?
  {
    var mid, w := After(st, text, Ready), |st.writers|;
    assert mid.writers[w := mid.writers[w].(phase := Finished)] == After(st, text, Finished).writers;
    assert [NewItem(text)][1..] == [];
    assert WriteItems(st.rows, [NewItem(text)]) == WriteItems(WriteItem(st.rows, NewItem(text)), []);
  }

  lemma RunOn(hash: Hash, ops: seq<Op>, op: Op, st: State, next: State)
    requires Run(hash, ops) == st && Next(st, hash, op) == next
    ensures Run(hash, ops + [op]) == next
  {
    assert (ops + [op])[..|ops|] == ops;
  }

  lemma AcquireRuns(hash: Hash, ops: seq<Op>, text: string, st: State)
    requires IsReal(text) && Run(hash, ops) == st && Idle(st)
    ensures Run(hash, ops + [Begin([NewItem(text)])] + [Acquire(|st.writers|)]) == After(st, text, Acquiring(1))
  {
    Begins(st, hash, text);
    RunOn(hash, ops, Begin([NewItem(text)]), st, After(st, text, Acquiring(0)));
    Acquires(st, hash, text);
    RunOn(hash, ops + [Begin([NewItem(text)])], Acquire(|st.writers|), After(st, text, Acquiring(0)),
      After(st, text, Acquiring(1)));
  }

  lemma CheckRuns(hash: Hash, ops: seq<Op>, text: string, st: State)
    requires IsReal(text) && Run(hash, ops) == st && Idle(st)
    ensures Run(hash, ops + Create(|st.writers|, text)[..3])
      == After(st, text, if Taken(st.rows, [Trim(text)], {}) then Finished else Ready)
  {
    var w := |st.writers|;
    var front := ops + [Begin([NewItem(text)])] + [Acquire(w)];
    AcquireRuns(hash, ops, text, st);
    Checks(st, hash, text);
    RunOn(hash, front, Check(w), After(st, text, Acquiring(1)),
      After(st, text, if Taken(st.rows, [Trim(text)], {}) then Finished else Ready));
    assert ops + Create(w, text)[..3] == front + [Check(w)];
  }

  /** One creation after any run that left no writer at work: the row is written unless active stock
      stores the trimmed text. */
  lemma CreateRuns(hash: Hash, ops: seq<Op>, text: string)
    requires IsReal(text) && Idle(Run(hash, ops))
    ensures var st := Run(hash, ops);
      Run(hash, ops + Create(|st.writers|, text)) == After(st, text, Finished).(rows :=
        if Taken(st.rows, [Trim(text)], {}) then st.rows else st.rows + [NewRow(text)])
  {
    var st := Run(hash, ops);
    var w := |st.writers|;
    var taken := Taken(st.rows, [Trim(text)], {});
    CheckRuns(hash, ops, text, st);
    Commits(st, hash, text);
    RunOn(hash, ops + Create(w, text)[..3], Commit(w), After(st, text, if taken then Finished else Ready),
      After(st, text, Finished).(rows := if taken then st.rows else st.rows + [NewRow(text)]));
    assert ops + Create(w, text) == ops + Create(w, text)[..3] + [Commit(w)];
  }

  /** Both checks let the creation through. */
  ghost predicate Accepted(hash: Hash, ops: seq<Op>, text: string) {
    var st := Run(hash, ops);
    && Precheck(st.rows, text)
    && Run(hash, ops + Create(|st.writers|, text)).rows == st.rows + [NewRow(text)]
  }

  lemma TakenIffStored(rows: seq<SerialRow>, s: string)
    ensures Taken(rows, [s], {}) <==> exists r :: 0 <= r < |rows| && Stores(rows[r], s)
  {
    if r :| 0 <= r < |rows| && Stores(rows[r], s) { assert rows[r].serial.value in [s]; }
  }

  /** A creation is accepted exactly when no active row stores the text, as given or trimmed. */
  lemma CreateIsAcceptedIff(hash: Hash, ops: seq<Op>, text: string)
    requires IsReal(text) && Idle(Run(hash, ops))
    ensures var rows := Run(hash, ops).rows;
      Accepted(hash, ops, text) <==>
        forall r :: 0 <= r < |rows| ==> !Stores(rows[r], text) && !Stores(rows[r], Trim(text))
  {
    CreateRuns(hash, ops, text);
    RealIsNoBlank(text);
    TakenIffStored(Run(hash, ops).rows, Trim(text));
  }

  lemma RealIsNoBlank(text: string)
    requires IsReal(text)
    ensures text != "" && text != "N/A"
  {
    assert Trim("") == "";
    assert Trimmed("N/A");
    TrimmedIsFixed("N/A");
    assert Lower("N/A") == "n/a";
  }

  /** An active row that stands for the same serial under another text. */
  predicate Hides(row: SerialRow, text: string) {
    Active(row) && Real(row.serial) == Real(Some(text)) && row.serial != Some(text) && row.serial != Some(Trim(text))
  }

  /** A creation that is accepted gives one serial to two active rows exactly when an active row holds
      that serial under a text that is neither the one given nor its trimmed form. */
  lemma DuplicateIsAcceptedIff(hash: Hash, ops: seq<Op>, text: string)
    requires IsReal(text) && Idle(Run(hash, ops)) && Unique(Run(hash, ops).rows)
    ensures var rows := Run(hash, ops).rows;
      Accepted(hash, ops, text) && !Unique(rows + [NewRow(text)]) <==>
        exists r :: 0 <= r < |rows| && Hides(rows[r], text)
  {
    var rows := Run(hash, ops).rows;
    CreateIsAcceptedIff(hash, ops, text);
    AddedIsUniqueIff(rows, text);
    if r :| 0 <= r < |rows| && Hides(rows[r], text) {
      HiddenIsAlone(rows, r, text);
    }
  }

  lemma AddedIsUniqueIff(rows: seq<SerialRow>, text: string)
    requires IsReal(text) && Unique(rows)
    ensures Unique(rows + [NewRow(text)]) <==> forall r :: 0 <= r < |rows| ==> !SameSerial(rows[r], NewRow(text))
  {
    var after := rows + [NewRow(text)];
    if r :| 0 <= r < |rows| && SameSerial(rows[r], NewRow(text)) {
      assert SameSerial(after[r], after[|rows|]);
    }
  }

  lemma HiddenIsAlone(rows: seq<SerialRow>, r: RowId, text: string)
    requires IsReal(text) && Unique(rows) && r < |rows| && Hides(rows[r], text)
    ensures forall q :: 0 <= q < |rows| ==> !Stores(rows[q], text) && !Stores(rows[q], Trim(text))
  {
    TrimTrims(text);
    TrimmedIsFixed(Trim(text));
    forall q | 0 <= q < |rows| ensures !Stores(rows[q], text) && !Stores(rows[q], Trim(text)) {
      if q != r { assert !SameSerial(rows[if q < r then q else r], rows[if q < r then r else q]); }
    }
  }

  lemma FirstCreate(hash: Hash, text: string)
    requires IsReal(text)
    ensures var st := Run(hash, Create(0, text)); st.rows == [NewRow(text)] && |st.writers| == 1 && Idle(st)
  {
    assert Run(hash, []) == State([], []) && Idle(State([], []));
    assert [] + Create(0, text) == Create(0, text);
    CreateRuns(hash, [], text);
    assert [] + [NewRow(text)] == [NewRow(text)];
  }

  /** So a serial stored untrimmed is created once more trimmed, and both rows are active. */
  lemma UntrimmedStoreDefeatsGuard(hash: Hash, text: string)
    requires IsReal(text) && Trim(text) != text
    ensures Run(hash, Create(0, text)).rows == [NewRow(text)] && Accepted(hash, Create(0, text), Trim(text))
    ensures !Unique(Run(hash, Create(0, text) + Create(1, Trim(text))).rows)
  {
    FirstCreate(hash, text);
    TrimTrims(text);
    TrimmedIsFixed(Trim(text));
    assert Hides(Run(hash, Create(0, text)).rows[0], Trim(text));
    DuplicateIsAcceptedIff(hash, Create(0, text), Trim(text));
  }

  /** There are such texts: a space in front of a serial. */
  lemma PaddedIsUntrimmed()
    ensures var text := [' ', 'A', '1']; IsReal(text) && Trim(text) == "A1" != text
  {
    var text := [' ', 'A', '1'];
    assert TrimLeft(text) == text[1..] == "A1";
    assert Trim(text) == "A1" && Lower("A1")[0] == 'a';
  }
}

/** Archiving again until nothing remains. Every run has its own cutoff and its own mover, entries are
    logged in between, and other transactions may hold entries locked. */
module ArchiveReruns {
  import opened Stock
  import opened AuditRetention

  datatype Event = Logging(id: EntryId, entry: Entry) | Running(run: ArchiveRun)

  function Happens(t: Tables, e: Event): Tables {
    match e
    case Logging(id, entry) => Logged(t, id, entry)
    case Running(run) => AfterRun(t, run)
  }

  function After(t: Tables, events: seq<Event>): Tables {
    if events == [] then t else Happens(After(t, events[..|events| - 1]), events[|events| - 1])
  }

  /** Every id logged is new, and every run does what a run does. */
  ghost predicate Lawful(t: Tables, events: seq<Event>) {
    events == [] ||
    (var front, last := events[..|events| - 1], events[|events| - 1];
     && Lawful(t, front)
     && match last
        case Logging(id, _) => id !in After(t, front).live && id !in After(t, front).archive
        case Running(run) => RunDoes(After(t, front), run))
  }

  /** The live log if nothing had been moved. */
  function LogOf(live: map<EntryId, Entry>, events: seq<Event>): map<EntryId, Entry> {
    if events == [] then live
    else
      var log := LogOf(live, events[..|events| - 1]);
      match events[|events| - 1]
      case Logging(id, entry) => log[id := entry]
      case Running(run) => log[run.own := OwnEntry(run.at, run.detail)]
  }

  function ByMover(ids: set<EntryId>, mover: UserId): map<EntryId, UserId> {
    map id | id in ids :: mover
  }

  /** What the runs moved, each entry with the mover of its run. */
  function Movers(events: seq<Event>): map<EntryId, UserId> {
    if events == [] then map[]
    else
      var movers := Movers(events[..|events| - 1]);
      match events[|events| - 1]
      case Logging(_, _) => movers
      case Running(run) => movers + ByMover(run.gone, run.mover)
  }

  function Copied(log: map<EntryId, Entry>, movers: map<EntryId, UserId>): map<EntryId, Archived> {
    map id | id in movers && id in log :: Archived(log[id], movers[id])
  }

  /** The log and the archive after one move of the entries that have a mover. */
  function Outcome(archive: map<EntryId, Archived>, log: map<EntryId, Entry>, movers: map<EntryId, UserId>): Tables {
    Tables(log - movers.Keys, archive + Copied(log, movers))
  }

  /** What was moved is from the log, and the log and the old archive share no id. */
  predicate Apart(archive: map<EntryId, Archived>, log: map<EntryId, Entry>, movers: map<EntryId, UserId>) {
    log.Keys !! archive.Keys && movers.Keys <= log.Keys
  }

  // ----- one event -----

  lemma OutcomeApart(archive: map<EntryId, Archived>, log: map<EntryId, Entry>, movers: map<EntryId, UserId>)
    requires Apart(archive, log, movers)
    ensures OneTableEach(Outcome(archive, log, movers))
    ensures Outcome(archive, log, movers).live.Keys == log.Keys - movers.Keys
    ensures Outcome(archive, log, movers).archive.Keys == archive.Keys + movers.Keys
  {
    assert Copied(log, movers).Keys == movers.Keys;
  }

  lemma OutcomeLogs(archive: map<EntryId, Archived>, log: map<EntryId, Entry>, movers: map<EntryId, UserId>,
        id: EntryId, entry: Entry)
    requires Apart(archive, log, movers)
    requires id !in Outcome(archive, log, movers).live && id !in Outcome(archive, log, movers).archive
    ensures id !in log && Apart(archive, log[id := entry], movers)
    ensures Logged(Outcome(archive, log, movers), id, entry) == Outcome(archive, log[id := entry], movers)
  {
    OutcomeApart(archive, log, movers);
    assert id !in movers.Keys && id !in log.Keys;
    assert Copied(log[id := entry], movers) == Copied(log, movers);
    assert log[id := entry] - movers.Keys == (log - movers.Keys)[id := entry];
  }

  lemma CopiedMore(log: map<EntryId, Entry>, movers: map<EntryId, UserId>, ids: set<EntryId>, mover: UserId)
    requires ids <= log.Keys - movers.Keys
    ensures Copied(log, movers + ByMover(ids, mover)) == Copied(log, movers) + Copies(log - movers.Keys, ids, mover)
  {
  }

  lemma AddedTwice(a: map<EntryId, Archived>, b: map<EntryId, Archived>, c: map<EntryId, Archived>)
    ensures (a + b) + c == a + (b + c)
  {
  }

  lemma RemovedTwice(log: map<EntryId, Entry>, a: set<EntryId>, b: set<EntryId>)
    ensures (log - a) - b == log - (a + b)
  {
  }

  lemma OutcomeMoves(archive: map<EntryId, Archived>, log: map<EntryId, Entry>, movers: map<EntryId, UserId>,
        ids: set<EntryId>, mover: UserId)
    requires Apart(archive, log, movers) && ids <= log.Keys - movers.Keys
    ensures Apart(archive, log, movers + ByMover(ids, mover))
    ensures Moved(Outcome(archive, log, movers), ids, mover) == Outcome(archive, log, movers + ByMover(ids, mover))
  {
    OutcomeApart(archive, log, movers);
    MovedIs(Outcome(archive, log, movers), ids, mover);
    CopiedMore(log, movers, ids, mover);
    AddedTwice(archive, Copied(log, movers), Copies(log - movers.Keys, ids, mover));
    RemovedTwice(log, movers.Keys, ids);
    assert (movers + ByMover(ids, mover)).Keys == movers.Keys + ids;
  }

  lemma RunMoves(t: Tables, archive: map<EntryId, Archived>, log: map<EntryId, Entry>, movers: map<EntryId, UserId>,
        run: ArchiveRun)
    requires Apart(archive, log, movers) && t == Outcome(archive, log, movers) && RunDoes(t, run)
    ensures run.gone !! movers.Keys && run.own !in log
    ensures var more, longer := movers + ByMover(run.gone, run.mover), log[run.own := OwnEntry(run.at, run.detail)];
      Apart(archive, longer, more) && AfterRun(t, run) == Outcome(archive, longer, more)
  {
    var more := movers + ByMover(run.gone, run.mover);
    OutcomeMoves(archive, log, movers, run.gone, run.mover);
    assert run.own !in log;
    OutcomeLogs(archive, log, more, run.own, OwnEntry(run.at, run.detail));
  }

  // ----- all of them -----

  /** Any lawful sequence of events is one move of what its runs moved. */
  lemma {:induction false} EventsAreOneMove(t: Tables, events: seq<Event>)
    requires OneTableEach(t) && Lawful(t, events)
    ensures Apart(t.archive, LogOf(t.live, events), Movers(events))
    ensures After(t, events) == Outcome(t.archive, LogOf(t.live, events), Movers(events))
    ensures OneTableEach(After(t, events))
  {
    if events == [] {
      assert Outcome(t.archive, t.live, map[]) == t;
    } else {
      var front, last := events[..|events| - 1], events[|events| - 1];
      EventsAreOneMove(t, front);
      var log, movers := LogOf(t.live, front), Movers(front);
      match last
      case Logging(id, entry) => OutcomeLogs(t.archive, log, movers, id, entry);
      case Running(run) => RunMoves(After(t, front), t.archive, log, movers, run);
    }
  }

  /** The cutoffs of the runs, as far as `cutoff`. */
  predicate NoneLater(events: seq<Event>, cutoff: Time) {
    forall i | 0 <= i < |events| :: events[i].Running? ==> events[i].run.cutoff <= cutoff
  }

  lemma NewIsNoneOfThem(log: map<EntryId, Entry>, id: EntryId, entry: Entry, cutoff: Time)
    requires id !in log
    ensures Eligible(log, cutoff) <= Eligible(log[id := entry], cutoff)
  {
    assert forall k :: k in log ==> log[id := entry][k] == log[k];
  }

  lemma RunIsEligible(log: map<EntryId, Entry>, movers: map<EntryId, UserId>, run: ArchiveRun, cutoff: Time)
    requires movers.Keys <= Eligible(log, cutoff) && run.cutoff <= cutoff && run.own !in log
    requires run.gone <= Eligible(log - movers.Keys, run.cutoff)
    ensures (movers + ByMover(run.gone, run.mover)).Keys
         <= Eligible(log[run.own := OwnEntry(run.at, run.detail)], cutoff)
  {
    NewIsNoneOfThem(log, run.own, OwnEntry(run.at, run.detail), cutoff);
    EligibleLeft(log, movers.Keys, run.cutoff);
    assert run.gone <= Eligible(log, run.cutoff) <= Eligible(log, cutoff);
  }

  /** What the runs moved is eligible at any cutoff that is not before theirs. */
  lemma {:induction false} MovedIsEligible(t: Tables, events: seq<Event>, cutoff: Time)
    requires OneTableEach(t) && Lawful(t, events) && NoneLater(events, cutoff)
    ensures Movers(events).Keys <= Eligible(LogOf(t.live, events), cutoff)
  {
    if events != [] {
      var n := |events| - 1;
      var front := events[..n];
      var log, movers := LogOf(t.live, front), Movers(front);
      MovedIsEligible(t, front, cutoff);
      EventsAreOneMove(t, front);
      match events[n]
      case Logging(id, entry) =>
        OutcomeLogs(t.archive, log, movers, id, entry);
        NewIsNoneOfThem(log, id, entry, cutoff);
      case Running(run) =>
        RunMoves(After(t, front), t.archive, log, movers, run);
        RunIsEligible(log, movers, run, cutoff);
    }
  }

  // ----- until nothing remains -----

  /** The last event is a run that says that nothing more remains. */
  predicate EndsDone(events: seq<Event>) {
    && events != [] && events[|events| - 1].Running?
    && !events[|events| - 1].run.report.moreRemaining
  }

  function LastRun(events: seq<Event>): ArchiveRun
    requires EndsDone(events)
  {
    events[|events| - 1].run
  }

  /** Nobody else held an entry that the last run could have moved. */
  ghost predicate EndsUnhindered(t: Tables, events: seq<Event>)
    requires EndsDone(events)
  {
    var last := LastRun(events);
    NoneHeld(last.held, Eligible(After(t, events[..|events| - 1]).live, last.cutoff))
  }

  /** What is left at the end, and may be archived, others held locked when the last run looked. */
  lemma WhatIsLeftWasLocked(t: Tables, events: seq<Event>)
    requires OneTableEach(t) && Lawful(t, events) && EndsDone(events)
    ensures var left := Eligible(LogOf(t.live, events), LastRun(events).cutoff) - Movers(events).Keys;
      LeftLocked(left, LastRun(events).held) && (EndsUnhindered(t, events) ==> left == {})
  {
    var front, last := events[..|events| - 1], LastRun(events);
    var log, movers := LogOf(t.live, events), Movers(events);
    EventsAreOneMove(t, front);
    EventsAreOneMove(t, events);
    RunLeaves(After(t, front), last);
    EligibleLeft(log, movers.Keys, last.cutoff);
  }

  /** Every table holds the same entries; who archived them may differ. */
  ghost predicate SameEntries(a: Tables, b: Tables) {
    && a.live == b.live && a.archive.Keys == b.archive.Keys
    && forall id :: id in a.archive ==> a.archive[id].entry == b.archive[id].entry
  }

  lemma CopiedIs(log: map<EntryId, Entry>, movers: map<EntryId, UserId>, mover: UserId)
    ensures Copied(log, movers).Keys == Copies(log, movers.Keys, mover).Keys
    ensures (forall id :: id in movers ==> movers[id] == mover) ==>
      Copied(log, movers) == Copies(log, movers.Keys, mover)
  {
  }

  lemma OutcomeIsMove(archive: map<EntryId, Archived>, log: map<EntryId, Entry>, movers: map<EntryId, UserId>,
        mover: UserId)
    requires Apart(archive, log, movers)
    ensures SameEntries(Outcome(archive, log, movers), Moved(Tables(log, archive), movers.Keys, mover))
    ensures (forall id :: id in movers ==> movers[id] == mover) ==>
      Outcome(archive, log, movers) == Moved(Tables(log, archive), movers.Keys, mover)
  {
    MovedIs(Tables(log, archive), movers.Keys, mover);
    CopiedIs(log, movers, mover);
  }

  lemma OutcomeIsMoveOf(archive: map<EntryId, Archived>, log: map<EntryId, Entry>, movers: map<EntryId, UserId>,
        ids: set<EntryId>, mover: UserId)
    requires Apart(archive, log, movers) && ids <= log.Keys
    ensures SameEntries(Outcome(archive, log, movers), Moved(Tables(log, archive), ids, mover)) <==> movers.Keys == ids
  {
    MovedIs(Tables(log, archive), ids, mover);
    if movers.Keys == ids {
      OutcomeIsMove(archive, log, movers, mover);
    } else {
      assert (log - movers.Keys).Keys != (log - ids).Keys;
    }
  }

  lemma {:induction false} SomeLatest(events: seq<Event>) returns (cutoff: Time)
    ensures NoneLater(events, cutoff)
  {
    cutoff := 0;
    if events != [] {
      var n := |events| - 1;
      cutoff := SomeLatest(events[..n]);
      assert forall i :: 0 <= i < n ==> events[..n][i] == events[i];
      if events[n].Running? && events[n].run.cutoff > cutoff { cutoff := events[n].run.cutoff; }
    }
  }

  /** Only entries before the cutoff were moved. */
  predicate MovedBefore(log: map<EntryId, Entry>, movers: map<EntryId, UserId>, cutoff: Time) {
    forall id | id in movers :: id in log && log[id].createdAt < cutoff
  }

  lemma AllMovedIff(log: map<EntryId, Entry>, movers: map<EntryId, UserId>, cutoff: Time, latest: Time)
    requires Eligible(log, cutoff) - movers.Keys == {} && movers.Keys <= Eligible(log, latest)
    ensures movers.Keys == Eligible(log, cutoff) <==> MovedBefore(log, movers, cutoff)
  {
    assert forall id :: id in Eligible(log, cutoff) && id !in movers.Keys ==> id in Eligible(log, cutoff) - movers.Keys;
    if MovedBefore(log, movers, cutoff) {
      assert movers.Keys <= Eligible(log, cutoff);
    } else {
      var id :| id in movers && !(id in log && log[id].createdAt < cutoff);
      assert id in movers.Keys && id !in Eligible(log, cutoff);
    }
  }

  lemma MovedBeforeIff(t: Tables, events: seq<Event>)
    requires OneTableEach(t) && Lawful(t, events) && EndsDone(events) && EndsUnhindered(t, events)
    ensures var log, cutoff := LogOf(t.live, events), LastRun(events).cutoff;
      Movers(events).Keys == Eligible(log, cutoff) <==> MovedBefore(log, Movers(events), cutoff)
  {
    var log, movers, cutoff := LogOf(t.live, events), Movers(events), LastRun(events).cutoff;
    WhatIsLeftWasLocked(t, events);
    var latest := SomeLatest(events);
    MovedIsEligible(t, events, latest);
    AllMovedIff(log, movers, cutoff, latest);
  }

  /** Archiving again until a run says that nothing more remains leaves what one unbounded move at the
      last cutoff leaves of everything that was logged, exactly when no run moved an entry that is not
      before the last cutoff. A longer retention, set in between, is what makes the two differ. */
  lemma RerunsAreOneMoveIff(t: Tables, events: seq<Event>, mover: UserId)
    requires OneTableEach(t) && Lawful(t, events) && EndsDone(events) && EndsUnhindered(t, events)
    ensures var log, cutoff := LogOf(t.live, events), LastRun(events).cutoff;
      SameEntries(After(t, events), Moved(Tables(log, t.archive), Eligible(log, cutoff), mover)) <==>
        MovedBefore(log, Movers(events), cutoff)
  {
    var log, cutoff := LogOf(t.live, events), LastRun(events).cutoff;
    EventsAreOneMove(t, events);
    MovedBeforeIff(t, events);
    OutcomeIsMoveOf(t.archive, log, Movers(events), Eligible(log, cutoff), mover);
  }

  /** A run that moves the one entry it may and that nobody holds. */
  function Single(cutoff: Time, mover: UserId, held: set<EntryId>, gone: EntryId, own: EntryId): ArchiveRun {
    ArchiveRun(cutoff, mover, [held], {gone}, Report(1, false), own, cutoff, "")
  }

  lemma SingleDoes(t: Tables, cutoff: Time, mover: UserId, held: set<EntryId>, gone: EntryId, own: EntryId)
    requires own !in t.live && own !in t.archive && gone !in held && Eligible(t.live, cutoff) == held + {gone}
    ensures RunDoes(t, Single(cutoff, mover, held, gone, own))
  {
    assert held + {gone} - {gone} <= [held][0];
    if held != {} {
      var h :| h in held;
      assert h in Eligible(t.live, cutoff);
    }
  }

  /** Entries of the times 5, 2 and 20, the first two open to archiving, and ids for two runs to come. */
  predicate Sample(t: Tables, a: EntryId, b: EntryId, c: EntryId, first: EntryId, second: EntryId) {
    && OneTableEach(t) && t.live.Keys == {a, b, c} && a != b && b != c && c != a
    && t.live[a].createdAt == 5 && t.live[b].createdAt == 2 && t.live[c].createdAt == 20
    && !Protected(t.live[a].action) && !Protected(t.live[b].action)
    && first !in t.live && first !in t.archive && second !in t.live && second !in t.archive && first != second
  }

  /** While the second entry is locked, a run up to 10 archives the first; then the retention is made
      longer, and a run up to 3 archives the second. */
  function Longer(mover: UserId, a: EntryId, b: EntryId, first: EntryId, second: EntryId): seq<Event> {
    [Running(Single(10, mover, {b}, a, first)), Running(Single(3, mover, {}, b, second))]
  }

  lemma FirstRuns(t: Tables, mover: UserId, a: EntryId, b: EntryId, c: EntryId, first: EntryId, second: EntryId)
    requires Sample(t, a, b, c, first, second)
    ensures RunDoes(t, Single(10, mover, {b}, a, first))
  {
    assert Eligible(t.live, 10) == {b} + {a};
    SingleDoes(t, 10, mover, {b}, a, first);
  }

  lemma FirstLeaves(t: Tables, mover: UserId, a: EntryId, b: EntryId, c: EntryId, first: EntryId, second: EntryId)
    requires Sample(t, a, b, c, first, second)
    ensures var next := AfterRun(t, Single(10, mover, {b}, a, first));
      Eligible(next.live, 3) == {b} && second !in next.live && second !in next.archive
  {
    MovedIs(t, {a}, mover);
    EligibleLeft(t.live, {a}, 3);
    assert Eligible(t.live, 3) == {b};
    OwnEntryStays(t.live - {a}, 3, first, 10, "");
  }

  lemma SampleRuns(t: Tables, mover: UserId, a: EntryId, b: EntryId, c: EntryId, first: EntryId, second: EntryId)
    requires Sample(t, a, b, c, first, second)
    ensures var events := Longer(mover, a, b, first, second);
      && RunDoes(t, events[0].run) && RunDoes(AfterRun(t, events[0].run), events[1].run)
      && Eligible(AfterRun(t, events[0].run).live, 3) == {b}
  {
    FirstRuns(t, mover, a, b, c, first, second);
    FirstLeaves(t, mover, a, b, c, first, second);
    var next := AfterRun(t, Single(10, mover, {b}, a, first));
    assert {b} == {} + {b};
    SingleDoes(next, 3, mover, {}, b, second);
  }

  lemma LongerIsLawful(t: Tables, mover: UserId, a: EntryId, b: EntryId, c: EntryId, first: EntryId, second: EntryId)
    requires Sample(t, a, b, c, first, second)
    ensures var events := Longer(mover, a, b, first, second);
      Lawful(t, events) && EndsDone(events) && EndsUnhindered(t, events)
  {
    var events := Longer(mover, a, b, first, second);
    assert events[..1][..0] == [] && events[..1] == [events[0]];
    SampleRuns(t, mover, a, b, c, first, second);
    assert Lawful(t, events[..0]) && After(t, events[..0]) == t;
    assert Lawful(t, events[..1]) && After(t, events[..1]) == AfterRun(t, events[0].run);
  }

  lemma LongerMoves(t: Tables, mover: UserId, a: EntryId, b: EntryId, first: EntryId, second: EntryId)
    requires a in t.live && first != a && second != a
    ensures var events := Longer(mover, a, b, first, second);
      a in Movers(events) && a in LogOf(t.live, events) && LogOf(t.live, events)[a] == t.live[a]
  {
    var events := Longer(mover, a, b, first, second);
    assert events[..1][..0] == [] && events[..1] == [events[0]];
    assert LogOf(t.live, events[..0]) == t.live && LogOf(t.live, events[..1]) == t.live[first := OwnEntry(10, "")];
    assert Movers(events[..1]) == Movers(events[..0]) + ByMover({a}, mover);
  }

  /** That shows the difference: one move up to 3 leaves the first entry in the log. */
  lemma LongerRetentionDiffers(t: Tables, mover: UserId, a: EntryId, b: EntryId, c: EntryId, first: EntryId,
        second: EntryId)
    requires Sample(t, a, b, c, first, second)
    ensures var events := Longer(mover, a, b, first, second);
      && Lawful(t, events) && EndsDone(events) && EndsUnhindered(t, events)
      && var log := LogOf(t.live, events);
        !SameEntries(After(t, events), Moved(Tables(log, t.archive), Eligible(log, LastRun(events).cutoff), mover))
  {
    LongerIsLawful(t, mover, a, b, c, first, second);
    LongerMoves(t, mover, a, b, first, second);
    RerunsAreOneMoveIff(t, Longer(mover, a, b, first, second), mover);
  }

  lemma EligibleAreMoved(t: Tables, events: seq<Event>)
    requires OneTableEach(t) && Lawful(t, events) && EndsDone(events) && EndsUnhindered(t, events)
    requires NoneLater(events, LastRun(events).cutoff)
    ensures Movers(events).Keys == Eligible(LogOf(t.live, events), LastRun(events).cutoff)
  {
    MovedIsEligible(t, events, LastRun(events).cutoff);
    WhatIsLeftWasLocked(t, events);
  }

  /** So it does when no run had a later cutoff than the last, and every entry is archived under the run
      that moved it; if one person started all the runs, the tables are the very same. */
  lemma RepeatedRunsMoveEverything(t: Tables, events: seq<Event>, mover: UserId)
    requires OneTableEach(t) && Lawful(t, events) && EndsDone(events) && EndsUnhindered(t, events)
    requires NoneLater(events, LastRun(events).cutoff)
    ensures var log, cutoff := LogOf(t.live, events), LastRun(events).cutoff;
      var once := Moved(Tables(log, t.archive), Eligible(log, cutoff), mover);
      && SameEntries(After(t, events), once)
      && ((forall i :: 0 <= i < |events| && events[i].Running? ==> events[i].run.mover == mover) ==>
            After(t, events) == once)
      && Movers(events).Keys == Eligible(log, cutoff)
      && forall id :: id in Movers(events) ==>
           id in After(t, events).archive && After(t, events).archive[id].mover == Movers(events)[id]
  {
    var log, cutoff := LogOf(t.live, events), LastRun(events).cutoff;
    EventsAreOneMove(t, events);
    EligibleAreMoved(t, events);
    OutcomeIsMove(t.archive, log, Movers(events), mover);
    assert forall id :: id in Movers(events) ==> id in Copied(log, Movers(events));
    if forall i :: 0 <= i < |events| && events[i].Running? ==> events[i].run.mover == mover { OneMover(events, mover); }
  }

  lemma {:induction false} OneMover(events: seq<Event>, mover: UserId)
    requires forall i :: 0 <= i < |events| && events[i].Running? ==> events[i].run.mover == mover
    ensures forall id :: id in Movers(events) ==> Movers(events)[id] == mover
  {
    if events != [] {
      var n := |events| - 1;
      assert forall i :: 0 <= i < n ==> events[..n][i] == events[i];
      OneMover(events[..n], mover);
    }
  }

  // ----- how many runs it takes -----

  function Runs(events: seq<Event>): nat {
    if events == [] then 0 else Runs(events[..|events| - 1]) + if events[|events| - 1].Running? then 1 else 0
  }

  predicate EachSaysMore(events: seq<Event>) {
    forall i | 0 <= i < |events| :: events[i].Running? ==> events[i].run.report.moreRemaining
  }

  lemma KeysAdd(movers: map<EntryId, UserId>, ids: set<EntryId>, mover: UserId)
    requires ids !! movers.Keys
    ensures |(movers + ByMover(ids, mover)).Keys| == |movers.Keys| + |ids|
  {
    assert (movers + ByMover(ids, mover)).Keys == movers.Keys + ids;
  }

  lemma RunAdds(t: Tables, events: seq<Event>)
    requires OneTableEach(t) && Lawful(t, events) && events != [] && events[|events| - 1].Running?
    ensures |Movers(events).Keys| == |Movers(events[..|events| - 1]).Keys| + |events[|events| - 1].run.gone|
  {
    var front, run := events[..|events| - 1], events[|events| - 1].run;
    EventsAreOneMove(t, front);
    RunMoves(After(t, front), t.archive, LogOf(t.live, front), Movers(front), run);
    KeysAdd(Movers(front), run.gone, run.mover);
  }

  /** How many entries the runs moved. */
  function MovedCount(events: seq<Event>): nat {
    if events == [] then 0
    else
      MovedCount(events[..|events| - 1])
        + if events[|events| - 1].Running? then |events[|events| - 1].run.gone| else 0
  }

  lemma {:induction false} MoversCount(t: Tables, events: seq<Event>)
    requires OneTableEach(t) && Lawful(t, events)
    ensures |Movers(events).Keys| == MovedCount(events)
  {
    if events != [] {
      MoversCount(t, events[..|events| - 1]);
      if events[|events| - 1].Running? { RunAdds(t, events); }
    }
  }

  /** A run moves a full run's worth when it says that more remains, and less when it does not. */
  predicate Sized(e: Event) {
    e.Running? ==> if e.run.report.moreRemaining then |e.run.gone| == PER_RUN else |e.run.gone| < PER_RUN
  }

  lemma {:induction false} RunsAreSized(t: Tables, events: seq<Event>)
    requires Lawful(t, events)
    ensures forall i :: 0 <= i < |events| ==> Sized(events[i])
  {
    if events != [] {
      var n := |events| - 1;
      RunsAreSized(t, events[..n]);
      assert events[n].Running? ==> RunDoes(After(t, events[..n]), events[n].run);
      assert forall i :: 0 <= i < n ==> events[..n][i] == events[i];
    }
  }

  lemma OneMore(runs: nat)
    ensures (runs + 1) * PER_RUN == runs * PER_RUN + PER_RUN
  {
  }

  lemma {:induction false} FullRuns(events: seq<Event>)
    requires EachSaysMore(events) && forall i :: 0 <= i < |events| ==> Sized(events[i])
    ensures MovedCount(events) == Runs(events) * PER_RUN
  {
    if events != [] {
      var n := |events| - 1;
      FullRuns(events[..n]);
      OneMore(Runs(events[..n]));
      assert Sized(events[n]);
    }
  }

  /** Repeated only while they say that more remains, and whatever is locked: one run for each full
      hundred thousand entries moved and one more, even if that one moves none. */
  lemma RunsNeeded(t: Tables, events: seq<Event>)
    requires OneTableEach(t) && Lawful(t, events) && EndsDone(events) && EachSaysMore(events[..|events| - 1])
    ensures Runs(events) == |Movers(events).Keys| / 100_000 + 1
  {
    MoversCount(t, events);
    RunsAreSized(t, events);
    SizedRuns(events);
  }

  lemma SizedRuns(events: seq<Event>)
    requires EndsDone(events) && EachSaysMore(events[..|events| - 1])
    requires forall i :: 0 <= i < |events| ==> Sized(events[i])
    ensures Runs(events) == MovedCount(events) / 100_000 + 1
  {
    var n := |events| - 1;
    FullRuns(events[..n]);
    assert Sized(events[n]);
    FullAndPart(Runs(events[..n]), |LastRun(events).gone|);
  }

  /** When the runs move all that is eligible in the end, that counts the eligible entries. */
  lemma RunsForTheEligible(t: Tables, events: seq<Event>)
    requires OneTableEach(t) && Lawful(t, events) && EndsDone(events) && EachSaysMore(events[..|events| - 1])
    requires EndsUnhindered(t, events) && NoneLater(events, LastRun(events).cutoff)
    ensures Runs(events) == |Eligible(LogOf(t.live, events), LastRun(events).cutoff)| / 100_000 + 1
  {
    RunsNeeded(t, events);
    EligibleAreMoved(t, events);
  }

  lemma FullAndPart(runs: nat, part: nat)
    requires part < PER_RUN
    ensures (runs * PER_RUN + part) / PER_RUN == runs
  {
  }
}

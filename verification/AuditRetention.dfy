/** Moving old audit entries to the archive: which entries may move, batch by batch, run by run. */
module AuditRetention {
  import opened Stock

  type EntryId = string
  type UserId = string
  type Time = int

  /** `content` stands for the columns that are copied unread. */
  datatype Entry = Entry(action: string, createdAt: Time, content: string)

  datatype Archived = Archived(entry: Entry, mover: UserId)

  datatype Tables = Tables(live: map<EntryId, Entry>, archive: map<EntryId, Archived>)

  // ----- what is protected -----

  /** SQL pattern matching: `%` stands for any text and `_` for any one character. */
  predicate Like(s: string, pattern: string)
    decreases |s| + |pattern|
  {
    if pattern == [] then s == []
    else if pattern[0] == '%' then Like(s, pattern[1..]) || (s != [] && Like(s[1..], pattern))
    else s != [] && (pattern[0] == '_' || pattern[0] == s[0]) && Like(s[1..], pattern[1..])
  }

  predicate Fits(s: string, stem: string) {
    |s| == |stem| && forall i :: 0 <= i < |stem| ==> stem[i] == '_' || stem[i] == s[i]
  }

  /** Without `%` a pattern matches texts of its own length; with `%` at its end, texts that start so.
      An underscore in a stem is no literal: `USER_%` protects every longer action that starts with `USER`. */
  lemma {:induction false} LikeIff(s: string, stem: string)
    requires '%' !in stem
    ensures Like(s, stem) <==> Fits(s, stem)
    ensures Like(s, stem + "%") <==> |stem| <= |s| && Fits(s[..|stem|], stem)
  {
    if stem == [] {
      assert stem + "%" == "%";
      AnyTextFits(s);
    } else if s != [] {
      assert (stem + "%")[1..] == stem[1..] + "%";
      LikeIff(s[1..], stem[1..]);
      assert forall i :: 1 <= i < |stem| ==> stem[i] == stem[1..][i - 1];
      assert forall i :: 1 <= i < |s| ==> s[i] == s[1..][i - 1];
      assert |stem| <= |s| ==> s[..|stem|][1..] == s[1..][..|stem| - 1];
      assert |stem| <= |s| ==> forall i :: 1 <= i < |stem| ==> s[..|stem|][i] == s[..|stem|][1..][i - 1];
    }
  }

  lemma {:induction false} AnyTextFits(s: string)
    ensures Like(s, "%")
  {
    if s != [] {
      AnyTextFits(s[1..]);
    } else {
      assert Like([], "%"[1..]);
    }
  }

  const PROTECTED_ACTION_PATTERNS := [
    "LOGIN%", "LOGOUT%", "PASSWORD_%", "FORCE_PASSWORD%", "USER_%", "ROLE%", "PERMISSION%", "SETTING_%",
    "APPROVAL_%", "AUDIT_%", "TOKEN%", "REASON_CODE_%", "DEPARTMENT_%", "UOM_%", "NOTIFICATION_TEMPLATE_%",
    "REQUEST_APPROVED", "REQUEST_REJECTED", "ADJUSTMENT_%", "STOCK_RESERVATION_RELEASED"]

  predicate LikeAny(action: string, patterns: seq<string>) {
    exists i :: 0 <= i < |patterns| && Like(action, patterns[i])
  }

  predicate Protected(action: string) {
    LikeAny(action, PROTECTED_ACTION_PATTERNS)
  }

  lemma StemProtects(patterns: seq<string>, i: nat, stem: string, rest: string)
    requires i < |patterns| && patterns[i] == stem + "%" && '%' !in stem
    ensures LikeAny(stem + rest, patterns)
  {
    LikeIff(stem + rest, stem);
    assert (stem + rest)[..|stem|] == stem;
  }

  /** The entry a run writes about itself stays in the live log. */
  lemma OwnEntryIsProtected()
    ensures Protected("AUDIT_ARCHIVED")
  {
    assert "AUDIT_" + "%" == "AUDIT_%" && "AUDIT_" + "ARCHIVED" == "AUDIT_ARCHIVED";
    StemProtects(PROTECTED_ACTION_PATTERNS, 9, "AUDIT_", "ARCHIVED");
  }

  /** The actions that say what happened to people, roles, settings and approvals start so; an underscore
      stands for any one character. */
  const KEPT_STEMS := [
    "LOGIN", "LOGOUT", "PASSWORD_", "FORCE_PASSWORD", "USER_", "ROLE", "PERMISSION", "SETTING_",
    "APPROVAL_", "AUDIT_", "TOKEN", "REASON_CODE_", "DEPARTMENT_", "UOM_", "NOTIFICATION_TEMPLATE_", "ADJUSTMENT_"]

  /** And these are kept by their full name. */
  const KEPT_NAMES := ["REQUEST_APPROVED", "REQUEST_REJECTED", "STOCK_RESERVATION_RELEASED"]

  predicate StartsAs(action: string, stem: string) { |stem| <= |action| && Fits(action[..|stem|], stem) }

  predicate KeptInLog(action: string) {
    || (exists i | 0 <= i < |KEPT_STEMS| :: StartsAs(action, KEPT_STEMS[i]))
    || (exists i | 0 <= i < |KEPT_NAMES| :: Fits(action, KEPT_NAMES[i]))
  }

  /** Where a pattern comes from: the first fifteen are stems, two are names, one is a stem, one a name. */
  lemma PatternIs(i: nat)
    requires i < |PROTECTED_ACTION_PATTERNS|
    ensures |PROTECTED_ACTION_PATTERNS| == 19 && |KEPT_STEMS| == 16 && |KEPT_NAMES| == 3
    ensures var p := PROTECTED_ACTION_PATTERNS[i];
      if i < 15 then p == KEPT_STEMS[i] + "%" else if i < 17 then p == KEPT_NAMES[i - 15]
      else if i == 17 then p == KEPT_STEMS[15] + "%" else p == KEPT_NAMES[2]
  {
  }

  lemma NoPercent(i: nat)
    ensures i < |KEPT_STEMS| ==> '%' !in KEPT_STEMS[i]
    ensures i < |KEPT_NAMES| ==> '%' !in KEPT_NAMES[i]
  {
  }

  lemma PatternMatches(action: string, i: nat)
    requires i < 19
    ensures |PROTECTED_ACTION_PATTERNS| == 19 && |KEPT_STEMS| == 16 && |KEPT_NAMES| == 3
    ensures Like(action, PROTECTED_ACTION_PATTERNS[i]) <==>
      if i < 15 then StartsAs(action, KEPT_STEMS[i]) else if i < 17 then Fits(action, KEPT_NAMES[i - 15])
      else if i == 17 then StartsAs(action, KEPT_STEMS[15]) else Fits(action, KEPT_NAMES[2])
  {
    PatternIs(i);
    var stem := if i < 15 then KEPT_STEMS[i] else if i < 17 then KEPT_NAMES[i - 15]
      else if i == 17 then KEPT_STEMS[15] else KEPT_NAMES[2];
    NoPercent(if i < 15 then i else if i < 17 then i - 15 else if i == 17 then 15 else 2);
    LikeIff(action, stem);
  }

  /** Protected are exactly the actions that start with one of the stems or are one of the names. */
  lemma ProtectedIff(action: string)
    ensures Protected(action) <==> KeptInLog(action)
  {
    if i :| 0 <= i < 19 && Like(action, PROTECTED_ACTION_PATTERNS[i]) { PatternMatches(action, i); }
    if i :| 0 <= i < |KEPT_STEMS| && StartsAs(action, KEPT_STEMS[i]) {
      PatternMatches(action, if i < 15 then i else 17);
    }
    if i :| 0 <= i < |KEPT_NAMES| && Fits(action, KEPT_NAMES[i]) {
      PatternMatches(action, if i < 2 then i + 15 else 18);
    }
  }

  function Eligible(live: map<EntryId, Entry>, cutoff: Time): set<EntryId> {
    set id | id in live && live[id].createdAt < cutoff && !Protected(live[id].action)
  }

  /** Eligible are exactly the live entries older than the cutoff whose action is not kept. */
  lemma EligibleIff(live: map<EntryId, Entry>, cutoff: Time, id: EntryId)
    ensures id in Eligible(live, cutoff) <==> id in live && live[id].createdAt < cutoff && !KeptInLog(live[id].action)
  {
    if id in live { ProtectedIff(live[id].action); }
  }

  // ----- one batch -----

  /** Copies the entries, skipping those whose id the archive already has, then removes from the live
      log those the archive now has. */
  function Moved(t: Tables, ids: set<EntryId>, mover: UserId): Tables {
    var copied := t.archive + map id | id in ids && id in t.live && id !in t.archive :: Archived(t.live[id], mover);
    Tables(map id | id in t.live && !(id in ids && id in copied) :: t.live[id], copied)
  }

  function Logged(t: Tables, id: EntryId, entry: Entry): Tables {
    t.(live := t.live[id := entry])
  }

  predicate OneTableEach(t: Tables) {
    t.live.Keys !! t.archive.Keys
  }

  /** The tables hold the entry. */
  predicate Kept(t: Tables, id: EntryId, entry: Entry) {
    (id in t.live && t.live[id] == entry) || (id in t.archive && t.archive[id].entry == entry)
  }

  /** A batch loses no entry exactly when no moved id meets a different archived entry of the same id;
      the conflict rule would otherwise drop the live one. */
  lemma BatchLosesNothingIff(t: Tables, ids: set<EntryId>, mover: UserId)
    ensures (forall id, e :: Kept(t, id, e) ==> Kept(Moved(t, ids, mover), id, e))
       <==> (forall id :: id in ids && id in t.live && id in t.archive ==> t.live[id] == t.archive[id].entry)
  {
    var after := Moved(t, ids, mover);
    if forall id, e :: Kept(t, id, e) ==> Kept(after, id, e) {
      forall id | id in ids && id in t.live && id in t.archive ensures t.live[id] == t.archive[id].entry {
        assert Kept(t, id, t.live[id]);
        assert Kept(after, id, t.live[id]);
      }
    }
  }

  // ----- every interleaving of batches with new entries -----

  /** One transaction: some entry is logged, or some run moves a batch of entries it may move. Whichever
      entries other transactions held locked, and wherever a run stopped, the batch is such a set. */
  datatype Step = Log(id: EntryId, entry: Entry) | Batch(cutoff: Time, ids: set<EntryId>, mover: UserId)

  predicate Enabled(t: Tables, step: Step) {
    match step
    case Log(id, _) => id !in t.live && id !in t.archive
    case Batch(cutoff, ids, _) => ids <= Eligible(t.live, cutoff)
  }

  function Take(t: Tables, step: Step): Tables {
    match step
    case Log(id, entry) => Logged(t, id, entry)
    case Batch(_, ids, mover) => Moved(t, ids, mover)
  }

  function Run(steps: seq<Step>): Tables {
    if steps == [] then Tables(map[], map[]) else Take(Run(steps[..|steps| - 1]), steps[|steps| - 1])
  }

  predicate Possible(steps: seq<Step>) {
    steps == [] || (Possible(steps[..|steps| - 1]) && Enabled(Run(steps[..|steps| - 1]), steps[|steps| - 1]))
  }

  function Written(steps: seq<Step>): map<EntryId, Entry> {
    if steps == [] then map[]
    else
      var last := steps[|steps| - 1];
      if last.Log? then Written(steps[..|steps| - 1])[last.id := last.entry] else Written(steps[..|steps| - 1])
  }

  predicate MovedBy(step: Step, id: EntryId, a: Archived) {
    step.Batch? && id in step.ids && step.mover == a.mover && a.entry.createdAt < step.cutoff
  }

  /** What any run of the system keeps: every entry ever logged is in exactly one table with the
      content it was logged with, and what is archived was old and unprotected when a batch moved it. */
  lemma {:induction false} EveryEntryIsInOneTable(steps: seq<Step>)
    requires Possible(steps)
    ensures OneTableEach(Run(steps))
    ensures forall id, e :: Kept(Run(steps), id, e) <==> id in Written(steps) && Written(steps)[id] == e
    ensures forall id :: id in Run(steps).archive ==>
      && !Protected(Run(steps).archive[id].entry.action)
      && exists k :: 0 <= k < |steps| && MovedBy(steps[k], id, Run(steps).archive[id])
  {
    if steps != [] {
      var n := |steps| - 1;
      EveryEntryIsInOneTable(steps[..n]);
      StepKeepsEntries(Run(steps[..n]), steps[n], Written(steps[..n]));
      forall id | id in Run(steps).archive
        ensures !Protected(Run(steps).archive[id].entry.action)
        ensures exists k :: 0 <= k < |steps| && MovedBy(steps[k], id, Run(steps).archive[id])
      {
        var a := Run(steps).archive[id];
        if id in Run(steps[..n]).archive {
          var k :| 0 <= k < n && MovedBy(steps[..n][k], id, Run(steps[..n]).archive[id]);
          assert MovedBy(steps[k], id, a);
        } else {
          assert MovedBy(steps[n], id, a);
        }
      }
    }
  }

  lemma StepKeepsEntries(t: Tables, step: Step, written: map<EntryId, Entry>)
    requires Enabled(t, step) && OneTableEach(t)
    requires forall id, e :: Kept(t, id, e) <==> id in written && written[id] == e
    ensures OneTableEach(Take(t, step))
    ensures var w := if step.Log? then written[step.id := step.entry] else written;
      forall id, e :: Kept(Take(t, step), id, e) <==> id in w && w[id] == e
  {
    var after := Take(t, step);
    forall id, e
      ensures Kept(after, id, e) <==> if step.Log? && id == step.id then e == step.entry else Kept(t, id, e)
    {}
  }

  // ----- one run -----

  const BATCH := 500
  const MAX_BATCHES_PER_RUN := 200
  const PER_RUN := BATCH * MAX_BATCHES_PER_RUN
  const DAY := 86_400_000

  /** The oldest of `from`, as far as the limit goes. */
  predicate Oldest(live: map<EntryId, Entry>, from: set<EntryId>, limit: nat, ids: set<EntryId>)
    requires from <= live.Keys
  {
    && ids <= from && |ids| == (if |from| <= limit then |from| else limit)
    && forall a, b :: a in ids && b in from - ids ==> live[a].createdAt <= live[b].createdAt
  }

  /** A query for the oldest rows always has an answer; ties are the database's choice. */
  lemma {:induction false} OldestExist(live: map<EntryId, Entry>, from: set<EntryId>, limit: nat)
    requires from <= live.Keys
    ensures exists ids :: Oldest(live, from, limit, ids)
    decreases |from|
  {
    if |from| <= limit {
      assert Oldest(live, from, limit, from);
    } else {
      var newest := Newest(live, from);
      var fewer := from - {newest};
      OldestExist(live, fewer, limit);
      var ids :| Oldest(live, fewer, limit, ids);
      assert |ids| == limit;
      forall a, b | a in ids && b in from - ids ensures live[a].createdAt <= live[b].createdAt {
        assert b != newest ==> b in fewer - ids;
      }
      assert Oldest(live, from, limit, ids);
    }
  }

  lemma {:induction false} Newest(live: map<EntryId, Entry>, from: set<EntryId>) returns (newest: EntryId)
    requires from <= live.Keys && from != {}
    ensures newest in from && forall id :: id in from ==> live[id].createdAt <= live[newest].createdAt
    decreases |from|
  {
    newest :| newest in from;
    if from != {newest} {
      var rest := Newest(live, from - {newest});
      newest := if live[newest].createdAt <= live[rest].createdAt then rest else newest;
    }
  }

  function Copies(live: map<EntryId, Entry>, ids: set<EntryId>, mover: UserId): map<EntryId, Archived> {
    map id | id in ids && id in live :: Archived(live[id], mover)
  }

  /** With every id in one table, the conflict rule never applies. */
  lemma MovedIs(t: Tables, ids: set<EntryId>, mover: UserId)
    requires OneTableEach(t) && ids <= t.live.Keys
    ensures Moved(t, ids, mover) == Tables(t.live - ids, t.archive + Copies(t.live, ids, mover))
    ensures OneTableEach(Moved(t, ids, mover))
  {
    var after := Moved(t, ids, mover);
    assert after.archive == t.archive + Copies(t.live, ids, mover);
    assert after.live == t.live - ids;
  }

  lemma CopiedTwice(live: map<EntryId, Entry>, archive: map<EntryId, Archived>, a: set<EntryId>, b: set<EntryId>,
        mover: UserId)
    requires a !! b
    ensures archive + Copies(live, a, mover) + Copies(live - a, b, mover) == archive + Copies(live, a + b, mover)
  {
    assert Copies(live, a + b, mover) == Copies(live, a, mover) + Copies(live - a, b, mover);
  }

  lemma EligibleLeft(live: map<EntryId, Entry>, gone: set<EntryId>, cutoff: Time)
    ensures Eligible(live - gone, cutoff) == Eligible(live, cutoff) - gone
  {
    assert forall id :: id in live && id !in gone ==> id in live - gone && (live - gone)[id] == live[id];
  }

  /** Moving twice is moving both at once, and what was moved is no longer eligible. */
  lemma MovedTwice(t: Tables, cutoff: Time, a: set<EntryId>, b: set<EntryId>, mover: UserId)
    requires OneTableEach(t) && a <= t.live.Keys && b <= t.live.Keys && a !! b
    ensures OneTableEach(Moved(t, a, mover))
    ensures Moved(Moved(t, a, mover), b, mover) == Moved(t, a + b, mover)
    ensures Eligible(Moved(t, a, mover).live, cutoff) == Eligible(t.live, cutoff) - a
  {
    MovedIs(t, a, mover);
    MovedIs(t, a + b, mover);
    MovedIs(Moved(t, a, mover), b, mover);
    CopiedTwice(t.live, t.archive, a, b, mover);
    assert (t.live - a) - b == t.live - (a + b);
    EligibleLeft(t.live, a, cutoff);
  }

  /** The oldest, then the oldest of the others, are together the oldest. */
  lemma OldestTwice(live: map<EntryId, Entry>, left: map<EntryId, Entry>, from: set<EntryId>, a: set<EntryId>,
        b: set<EntryId>)
    requires from <= live.Keys && from - a <= left.Keys
    requires forall id :: id in from - a ==> left[id] == live[id]
    requires Oldest(live, from, |a|, a) && Oldest(left, from - a, BATCH, b)
    ensures |a + b| == |a| + |b| && |from - a| == |from| - |a|
    ensures Oldest(live, from, |a| + BATCH, a + b)
  {
    assert a !! b;
    forall x, y | x in a + b && y in from - (a + b) ensures live[x].createdAt <= live[y].createdAt {
      assert y in from - a && y in from - a - b;
    }
  }

  /** One batch more, seen from where the run began. */
  lemma BatchOnTop(t: Tables, cutoff: Time, gone: set<EntryId>, ids: set<EntryId>, mover: UserId)
    requires OneTableEach(t) && Oldest(t.live, Eligible(t.live, cutoff), |gone|, gone)
    requires var now := Moved(t, gone, mover); Oldest(now.live, Eligible(now.live, cutoff), BATCH, ids)
    ensures Oldest(t.live, Eligible(t.live, cutoff), |gone| + BATCH, gone + ids)
    ensures |gone + ids| == |gone| + |ids|
    ensures |gone| + BATCH <= |Eligible(t.live, cutoff)| <==> |ids| == BATCH
    ensures Moved(Moved(t, gone, mover), ids, mover) == Moved(t, gone + ids, mover)
  {
    MovedTwice(t, cutoff, gone, ids, mover);
    OldestTwice(t.live, Moved(t, gone, mover).live, Eligible(t.live, cutoff), gone, ids);
  }

  datatype Report = Report(moved: nat, moreRemaining: bool)

  function OwnEntry(now: Time, detail: string): Entry {
    Entry("AUDIT_ARCHIVED", now, detail)
  }

  /** A run's own entry never becomes eligible. */
  lemma OwnEntryStays(live: map<EntryId, Entry>, cutoff: Time, id: EntryId, now: Time, detail: string)
    requires id !in live
    ensures Eligible(live[id := OwnEntry(now, detail)], cutoff) == Eligible(live, cutoff)
  {
    OwnEntryIsProtected();
    assert forall k :: k in live ==> live[id := OwnEntry(now, detail)][k] == live[k];
  }

  // ----- what a run does -----

  predicate NoneHeld(held: seq<set<EntryId>>, eligible: set<EntryId>) {
    forall b | 0 <= b < |held| :: held[b] !! eligible
  }

  /** Some batch looked when everything left was locked. */
  predicate LeftLocked(left: set<EntryId>, held: seq<set<EntryId>>) {
    exists b | 0 <= b < |held| :: left <= held[b]
  }

  /** A confirmed run: by whom and up to when, what others held locked during each of its batches, what
      it moved, what it reported, and the entry it wrote about itself. */
  datatype ArchiveRun = ArchiveRun(cutoff: Time, mover: UserId, held: seq<set<EntryId>>, gone: set<EntryId>,
                                   report: Report, own: EntryId, at: Time, detail: string)

  /** What one run does: it moves eligible entries, a full run's worth when it says that more remain;
      otherwise the rest was locked. With nothing locked it moves the oldest ones, up to its limit. */
  ghost predicate RunDoes(t: Tables, run: ArchiveRun) {
    var eligible := Eligible(t.live, run.cutoff);
    && run.gone <= eligible && run.report.moved == |run.gone|
    && (if run.report.moreRemaining then |run.gone| == 100_000
        else |run.gone| < 100_000 && LeftLocked(eligible - run.gone, run.held))
    && (NoneHeld(run.held, eligible) ==>
          Oldest(t.live, eligible, 100_000, run.gone) && (run.report.moreRemaining <==> |eligible| >= 100_000))
    && run.own !in t.live && run.own !in t.archive
  }

  function AfterRun(t: Tables, run: ArchiveRun): Tables {
    Logged(Moved(t, run.gone, run.mover), run.own, Entry("AUDIT_ARCHIVED", run.at, run.detail))
  }

  /** What a run leaves of the eligible entries; its own entry is none of them. */
  lemma RunLeaves(t: Tables, run: ArchiveRun)
    requires OneTableEach(t) && RunDoes(t, run)
    ensures Eligible(AfterRun(t, run).live, run.cutoff) == Eligible(t.live, run.cutoff) - run.gone
  {
    MovedTwice(t, run.cutoff, run.gone, {}, run.mover);
    OwnEntryStays(Moved(t, run.gone, run.mover).live, run.cutoff, run.own, run.at, run.detail);
  }

  /** The report of a run that meets no locked entries is true of what is left, unless exactly one run's
      worth was eligible. */
  lemma MoreRemainsIff(t: Tables, run: ArchiveRun)
    requires OneTableEach(t) && RunDoes(t, run) && NoneHeld(run.held, Eligible(t.live, run.cutoff))
    ensures (run.report.moreRemaining <==> Eligible(AfterRun(t, run).live, run.cutoff) != {})
       <==> |Eligible(t.live, run.cutoff)| != 100_000
  {
    RunLeaves(t, run);
    CountRest(Eligible(t.live, run.cutoff), run.gone);
  }

  lemma CountRest(all: set<EntryId>, gone: set<EntryId>)
    requires gone <= all
    ensures gone + (all - gone) == all && |all - gone| == |all| - |gone|
    ensures |gone| == |all| ==> gone == all
  {
    assert |gone| == |all| ==> all - gone == {};
  }

  // ----- batch by batch -----

  /** How far a run has come after some batches, seen from where it began. */
  ghost predicate Doing(t: Tables, cutoff: Time, mover: UserId, held: seq<set<EntryId>>, batch: nat, now: Tables,
        gone: set<EntryId>, more: bool)
  {
    var eligible := Eligible(t.live, cutoff);
    && now == Moved(t, gone, mover) && OneTableEach(now) && gone <= eligible
    && (if more then |gone| == batch * BATCH else |gone| < batch * BATCH && LeftLocked(eligible - gone, held))
    && (NoneHeld(held, eligible) ==> Exact(t.live, eligible, gone, more, batch))
  }

  ghost predicate Exact(live: map<EntryId, Entry>, eligible: set<EntryId>, gone: set<EntryId>, more: bool, batch: nat)
    requires eligible <= live.Keys
  {
    Oldest(live, eligible, batch * BATCH, gone) && (more <==> batch * BATCH <= |eligible|)
  }

  lemma MoreGone(eligible: set<EntryId>, gone: set<EntryId>, ids: set<EntryId>, batch: nat, held: seq<set<EntryId>>)
    requires gone <= eligible && |gone| == batch * BATCH && batch < |held| && ids <= eligible - gone - held[batch]
    requires |ids| <= BATCH && (|ids| < BATCH ==> |ids| == |eligible - gone - held[batch]|)
    ensures |gone + ids| == |gone| + |ids|
    ensures |ids| < BATCH ==> LeftLocked(eligible - (gone + ids), held)
  {
    assert gone !! ids;
    if |ids| < BATCH {
      CountRest(eligible - gone - held[batch], ids);
      assert eligible - (gone + ids) <= held[batch];
    }
  }

  lemma NothingSkipped(eligible: set<EntryId>, gone: set<EntryId>, locked: set<EntryId>)
    requires locked !! eligible
    ensures eligible - gone - locked == eligible - gone
  {
  }

  lemma MoreExact(t: Tables, cutoff: Time, gone: set<EntryId>, batch: nat, ids: set<EntryId>, mover: UserId)
    requires OneTableEach(t) && Exact(t.live, Eligible(t.live, cutoff), gone, true, batch)
    requires var now := Moved(t, gone, mover); Oldest(now.live, Eligible(now.live, cutoff), BATCH, ids)
    ensures Exact(t.live, Eligible(t.live, cutoff), gone + ids, |ids| == BATCH, batch + 1)
  {
    assert |gone| == batch * BATCH;
    BatchOnTop(t, cutoff, gone, ids, mover);
  }

  /** One batch more. */
  lemma BatchDone(t: Tables, cutoff: Time, mover: UserId, held: seq<set<EntryId>>, batch: nat, now: Tables,
        gone: set<EntryId>, ids: set<EntryId>)
    requires OneTableEach(t) && batch < |held| && Doing(t, cutoff, mover, held, batch, now, gone, true)
    requires Oldest(now.live, Eligible(now.live, cutoff) - held[batch], BATCH, ids)
    ensures |gone + ids| == |gone| + |ids|
    ensures Doing(t, cutoff, mover, held, batch + 1, Moved(now, ids, mover), gone + ids, |ids| == BATCH)
  {
    var eligible := Eligible(t.live, cutoff);
    MovedTwice(t, cutoff, gone, {}, mover);
    MovedTwice(t, cutoff, gone, ids, mover);
    MovedIs(t, gone + ids, mover);
    MoreGone(eligible, gone, ids, batch, held);
    if NoneHeld(held, eligible) {
      NothingSkipped(eligible, gone, held[batch]);
      MoreExact(t, cutoff, gone, batch, ids, mover);
    }
  }

  lemma NothingMoves(t: Tables, mover: UserId)
    ensures Moved(t, {}, mover) == t
  {
    assert Moved(t, {}, mover).live == t.live && Moved(t, {}, mover).archive == t.archive;
  }

  /** The rows a query for the oldest ones returns. */
  method SelectOldest(live: map<EntryId, Entry>, from: set<EntryId>, limit: nat) returns (ids: set<EntryId>)
    requires from <= live.Keys
    ensures Oldest(live, from, limit, ids)
  {
    OldestExist(live, from, limit);
    ids :| ids <= from && Oldest(live, from, limit, ids);
  }

  // ----- the tables in place -----

  class AuditLog {
    var live: map<EntryId, Entry>
    var archive: map<EntryId, Archived>

    function Contents(): Tables
      reads this
    {
      Tables(live, archive)
    }

    /** One transaction of a run; rows that other transactions hold `locked` are skipped. */
    method ArchiveBatch(cutoff: Time, mover: UserId, locked: set<EntryId>) returns (n: nat, ghost ids: set<EntryId>)
      requires OneTableEach(Contents())
      modifies this
      ensures Oldest(old(live), Eligible(old(live), cutoff) - locked, BATCH, ids) && n == |ids|
      ensures Contents() == Moved(old(Contents()), ids, mover)
    {
      var list := SelectOldest(live, Eligible(live, cutoff) - locked, BATCH);
      ids, n := list, |list|;
      if list == {} {
        NothingMoves(Contents(), mover);
        return;
      }
      MoveOut(list, mover);
    }

    /** Copies what the archive has not got yet, then deletes what it has. */
    method MoveOut(ids: set<EntryId>, mover: UserId)
      modifies this
      ensures Contents() == Moved(old(Contents()), ids, mover)
    {
      archive := archive + map id | id in ids && id in live && id !in archive :: Archived(live[id], mover);
      live := map id | id in live && !(id in ids && id in archive) :: live[id];
    }

    /** Batches until one is not full, at most two hundred of them; `held` says which rows are locked
        elsewhere during each. Saying that no more remain means that the rest was locked when the last
        batch looked; with nothing locked the report is exact. */
    method ArchiveBatches(cutoff: Time, mover: UserId, held: seq<set<EntryId>>)
      returns (moved: nat, more: bool, ghost gone: set<EntryId>)
      requires OneTableEach(Contents()) && |held| == MAX_BATCHES_PER_RUN
      modifies this
      ensures gone <= Eligible(old(live), cutoff) && moved == |gone|
      ensures Contents() == Moved(old(Contents()), gone, mover)
      ensures if more then moved == PER_RUN else moved < PER_RUN && LeftLocked(Eligible(old(live), cutoff) - gone, held)
      ensures NoneHeld(held, Eligible(old(live), cutoff)) ==>
        && Oldest(old(live), Eligible(old(live), cutoff), PER_RUN, gone)
        && (more <==> |Eligible(old(live), cutoff)| >= PER_RUN)
    {
      gone := {};
      ghost var t := Contents();
      moved, more := 0, true;
      var batch := 0;
      NothingMoves(t, mover);
      while batch < MAX_BATCHES_PER_RUN && more
        invariant batch <= MAX_BATCHES_PER_RUN && moved == |gone|
        invariant Doing(t, cutoff, mover, held, batch, Contents(), gone, more)
        decreases MAX_BATCHES_PER_RUN - batch
      {
        ghost var now := Contents();
        var n, ids := ArchiveBatch(cutoff, mover, held[batch]);
        BatchDone(t, cutoff, mover, held, batch, now, gone, ids);
        gone := gone + ids;
        moved, more := moved + n, n == BATCH;
        batch := batch + 1;
      }
    }

    /** A run: refused unless confirmed and configured; else the batches, then the run's own entry. */
    method Archive(confirm: bool, days: Option<nat>, mover: UserId, now: Time, own: EntryId, at: Time, detail: string,
                   held: seq<set<EntryId>>)
      returns (r: Result<Report>, ghost gone: set<EntryId>)
      requires OneTableEach(Contents()) && own !in live && own !in archive && |held| == MAX_BATCHES_PER_RUN
      modifies this
      ensures !confirm || days.None? ==> r == Err(BadRequest) && Contents() == old(Contents())
      ensures confirm && days.Some? ==>
        && r.Ok?
        && var run := ArchiveRun(now - days.value * 86_400_000, mover, held, gone, r.value, own, at, detail);
          RunDoes(old(Contents()), run) && Contents() == AfterRun(old(Contents()), run)
    {
      if !confirm || days.None? {
        return Err(BadRequest), {};
      }
      var moved, more, ids := ArchiveBatches(now - days.value * DAY, mover, held);
      live := live[own := OwnEntry(at, detail)];
      return Ok(Report(moved, more)), ids;
    }
  }
}

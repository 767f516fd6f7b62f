/** The lockout after failed logins. */
module LoginLockout {
  import opened Stock

  type Time = int

  const MAX_FAILURES := 5
  const LOCK_TIME := 15 * 60 * 1000

  datatype User = User(failedLoginCount: nat, lockedUntil: Option<Time>, active: bool)

  /** `at` is the clock when the lock is looked at, `written` when a failure is recorded; `matches` says
      whether the password did. */
  datatype Attempt = Attempt(at: Time, written: Time, matches: bool)

  datatype Outcome = Locked | Invalid | Inactive | LoggedIn

  function OutcomeOf(user: User, a: Attempt): Outcome {
    if user.lockedUntil.Some? && user.lockedUntil.value > a.at then Locked
    else if !a.matches then Invalid
    else if !user.active then Inactive
    else LoggedIn
  }

  function AfterAttempt(user: User, a: Attempt): User {
    match OutcomeOf(user, a)
    case Invalid =>
      var failures := user.failedLoginCount + 1;
      user.(failedLoginCount := failures,
            lockedUntil := if failures >= MAX_FAILURES then Some(a.written + LOCK_TIME) else None)
    case LoggedIn => user.(failedLoginCount := 0, lockedUntil := None)
    case _ => user
  }

  class Account {
    var failedLoginCount: nat
    var lockedUntil: Option<Time>
    var active: bool

    function Contents(): User
      reads this
    {
      User(failedLoginCount, lockedUntil, active)
    }

    method Login(a: Attempt) returns (outcome: Outcome)
      modifies this
      ensures outcome == OutcomeOf(old(Contents()), a)
      ensures Contents() == AfterAttempt(old(Contents()), a)
    {
      if lockedUntil.Some? && lockedUntil.value > a.at {
        return Locked;
      }
      if !a.matches {
        failedLoginCount := failedLoginCount + 1;
        lockedUntil := if failedLoginCount >= MAX_FAILURES then Some(a.written + LOCK_TIME) else None;
        return Invalid;
      }
      if !active {
        return Inactive;
      }
      failedLoginCount, lockedUntil := 0, None;
      return LoggedIn;
    }
  }

  // ----- whole runs -----

  /** An administrator may switch the account on or off, or clear its failures with a new password. */
  datatype Event = Login(attempt: Attempt) | SetActive(on: bool) | Cleared

  function Step(user: User, e: Event): User {
    match e
    case Login(a) => AfterAttempt(user, a)
    case SetActive(on) => user.(active := on)
    case Cleared => user.(failedLoginCount := 0, lockedUntil := None)
  }

  const FRESH := User(0, None, true)

  function Run(events: seq<Event>): User {
    if events == [] then FRESH else Step(Run(events[..|events| - 1]), events[|events| - 1])
  }

  /** The failed password checks since the failures were last cleared. */
  function Failures(events: seq<Event>): seq<Attempt> {
    if events == [] then []
    else
      var before, last := events[..|events| - 1], events[|events| - 1];
      match last
      case Cleared => []
      case SetActive(_) => Failures(before)
      case Login(a) =>
        match OutcomeOf(Run(before), a)
        case Invalid => Failures(before) + [a]
        case LoggedIn => []
        case _ => Failures(before)
  }

  /** One login after the other, and a clock that does not go back. */
  predicate Sequential(events: seq<Event>) {
    && (forall i :: 0 <= i < |events| && events[i].Login? ==> events[i].attempt.at <= events[i].attempt.written)
    && (forall i, j :: 0 <= i < j < |events| && events[i].Login? && events[j].Login? ==>
         events[i].attempt.written <= events[j].attempt.at)
  }

  /** The record counts the failures since the last clearing and is locked from the fifth on. */
  lemma {:induction false} RecordFollowsFailures(events: seq<Event>)
    ensures var user, fails := Run(events), Failures(events);
      && user.failedLoginCount == |fails|
      && user.lockedUntil ==
           if |fails| >= MAX_FAILURES then Some(fails[|fails| - 1].written + LOCK_TIME) else None
  {
    if events != [] {
      RecordFollowsFailures(events[..|events| - 1]);
    }
  }

  /** An attempt is refused unseen exactly within a quarter of an hour after a failure that was at least
      the fifth; a refused attempt changes nothing, so it prolongs no lock. */
  lemma RefusedIff(events: seq<Event>, a: Attempt)
    ensures var fails := Failures(events);
      && (OutcomeOf(Run(events), a) == Locked <==> |fails| >= 5 && a.at < fails[|fails| - 1].written + 900_000)
      && (OutcomeOf(Run(events), a) == Locked ==>
          Run(events + [Login(a)]) == Run(events) && Failures(events + [Login(a)]) == fails)
  {
    RecordFollowsFailures(events);
    assert (events + [Login(a)])[..|events|] == events;
  }

  /** The account is on unless the last switch turned it off. */
  predicate SwitchedOn(events: seq<Event>) {
    events == [] ||
    (var last := events[|events| - 1];
     if last.SetActive? then last.on else SwitchedOn(events[..|events| - 1]))
  }

  lemma {:induction false} ActivityFollowsSwitch(events: seq<Event>)
    ensures Run(events).active == SwitchedOn(events)
  {
    if events != [] { ActivityFollowsSwitch(events[..|events| - 1]); }
  }

  /** An attempt logs in exactly when it is not refused, the password is right and the account is on; it
      then leaves no failures. A wrong password is one failure more; a right one on an account that is off
      changes nothing. */
  lemma LogsInIff(events: seq<Event>, a: Attempt)
    ensures var fails, outcome := Failures(events), OutcomeOf(Run(events), a);
      var refused := |fails| >= 5 && a.at < fails[|fails| - 1].written + 900_000;
      && (outcome == LoggedIn <==> !refused && a.matches && SwitchedOn(events))
      && (outcome == Invalid <==> !refused && !a.matches)
      && (outcome == LoggedIn ==> Failures(events + [Login(a)]) == [])
      && (outcome == Invalid ==> Failures(events + [Login(a)]) == fails + [a])
      && (outcome == Inactive ==> Run(events + [Login(a)]) == Run(events) && Failures(events + [Login(a)]) == fails)
      && SwitchedOn(events + [Login(a)]) == SwitchedOn(events)
  {
    RefusedIff(events, a);
    ActivityFollowsSwitch(events);
    assert (events + [Login(a)])[..|events|] == events;
  }

  /** A failure was an attempt of the run. */
  lemma {:induction false} FailureHappened(events: seq<Event>, k: nat) returns (i: nat)
    requires k < |Failures(events)|
    ensures i < |events| && events[i] == Login(Failures(events)[k])
  {
    var n := |events| - 1;
    if k < |Failures(events[..n])| {
      i := FailureHappened(events[..n], k);
    } else {
      i := n;
    }
  }

  /** From the fifth on, each failed check comes at least the lock time after the one before. */
  lemma {:induction false} FailuresAreSpaced(events: seq<Event>, k: nat)
    requires Sequential(events) && MAX_FAILURES <= k < |Failures(events)|
    ensures Failures(events)[k].at >= Failures(events)[k - 1].written + LOCK_TIME
  {
    var before := events[..|events| - 1];
    RecordFollowsFailures(before);
    if k < |Failures(before)| {
      FailuresAreSpaced(before, k);
    }
  }

  /** So the failed checks since the last success are at most five, and one more for each lock time
      that passed since the fifth. */
  lemma LockoutBound(events: seq<Event>)
    requires Sequential(events)
    ensures var fails := Failures(events);
      |fails| > MAX_FAILURES ==>
        |fails| <= MAX_FAILURES + (fails[|fails| - 1].at - fails[MAX_FAILURES - 1].at) / LOCK_TIME
  {
    var fails := Failures(events);
    if |fails| > MAX_FAILURES {
      Climb(events, |fails| - 1);
    }
  }

  lemma {:induction false} Climb(events: seq<Event>, n: nat)
    requires Sequential(events) && MAX_FAILURES - 1 <= n < |Failures(events)|
    ensures var fails := Failures(events);
      fails[n].at >= fails[MAX_FAILURES - 1].at + (n - (MAX_FAILURES - 1)) * LOCK_TIME
  {
    if n >= MAX_FAILURES {
      Climb(events, n - 1);
      FailuresAreSpaced(events, n);
      var i := FailureHappened(events, n - 1);
      assert events[i].attempt.at <= events[i].attempt.written;
    }
  }
}

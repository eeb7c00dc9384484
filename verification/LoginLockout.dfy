/**
 Brute-force protection of logins: a failure counter that expires 15 minutes after its first
 failure, and a lock of 30 minutes set by the fifth. Instants are nanoseconds.
 */
module LoginLockout {
  import opened Clock
  import opened Options
  import opened Sets

  const WINDOW := 15 * MINUTE
  const LOCKOUT := 30 * MINUTE
  const MAX_ATTEMPTS := 5

  datatype Counter = Counter(count: nat, expiry: int)

  /** The stored value is a Unix time in whole seconds; the key has its own expiry. */
  datatype Lock = Lock(until: int, expiry: int)

  datatype Account = Account(counter: Option<Counter>, lock: Option<Lock>)

  const FRESH := Account(None, None)

  function LiveCount(a: Account, now: nat): nat {
    if a.counter.Some? && now < a.counter.value.expiry then a.counter.value.count else 0
  }

  predicate Locked(a: Account, now: nat) {
    a.lock.Some? && now < a.lock.value.expiry && now <= a.lock.value.until * SECOND
  }

  function AfterCheck(a: Account, now: nat): Account {
    if Locked(a, now) then a else a.(lock := None)
  }

  function AfterFailure(a: Account, now: nat): Account {
    var count := LiveCount(a, now) + 1;
    Account(Some(Counter(count, if count == 1 then now + WINDOW else a.counter.value.expiry)),
            if count >= MAX_ATTEMPTS then Some(Lock((now + LOCKOUT) / SECOND, now + LOCKOUT)) else a.lock)
  }

  // ----- The operations -----

  datatype AttemptResult = AttemptResult(allowed: bool, attemptsLeft: nat, lockedUntil: Option<int>)

  class Attempts {
    var counter: Option<Counter>
    var lock: Option<Lock>

    function State(): Account
      reads this
    {
      Account(counter, lock)
    }

    constructor ()
      ensures State() == FRESH
    {
      counter, lock := None, None;
    }

    /** INCR starts a missing counter at one and keeps a running counter's expiry. */
    method RecordLoginAttempt(success: bool, now: nat) returns (r: AttemptResult)
      modifies this
      ensures success ==> State() == old(State()).(counter := None) && r == AttemptResult(true, MAX_ATTEMPTS, None)
      ensures !success ==> State() == AfterFailure(old(State()), now)
      ensures !success ==>
                var count := old(LiveCount(State(), now)) + 1;
                && r.allowed == (count < MAX_ATTEMPTS)
                && r.attemptsLeft == (if count < MAX_ATTEMPTS then MAX_ATTEMPTS - count else 0)
                && r.lockedUntil == if r.allowed then None else Some(now + LOCKOUT)
    {
      if success {
        counter := None;
        return AttemptResult(true, MAX_ATTEMPTS, None);
      }
      if counter.Some? && now >= counter.value.expiry {
        counter := None;
      }
      var count := if counter.Some? then counter.value.count + 1 else 1;
      counter := Some(Counter(count, if counter.Some? then counter.value.expiry else now));
      if count == 1 {
        counter := Some(Counter(count, now + WINDOW));
      }
      var attemptsLeft := MAX_ATTEMPTS - count;
      if attemptsLeft < 0 {
        attemptsLeft := 0;
      }
      r := AttemptResult(count < MAX_ATTEMPTS, attemptsLeft, None);
      if count >= MAX_ATTEMPTS {
        lock := Some(Lock((now + LOCKOUT) / SECOND, now + LOCKOUT));
        r := r.(lockedUntil := Some(now + LOCKOUT));
      }
    }

    method IsLoginLocked(now: nat) returns (locked: bool)
      modifies this
      ensures locked == Locked(old(State()), now) && State() == AfterCheck(old(State()), now)
    {
      if lock.Some? && now >= lock.value.expiry {
        lock := None;
      }
      if lock.None? {
        return false;
      }
      if now > lock.value.until * SECOND {
        lock := None;
        return false;
      }
      return true;
    }

    /**
     A login: refused while locked, unless the lookup of the lock fails; then inactive and unverified
     accounts are turned away unrecorded, and a success or a failure is recorded.
     */
    method Login(now: nat, lookupFails: bool, visitor: Visitor) returns (outcome: Outcome)
      modifies this
      ensures State() == AfterLogin(old(State()), now, lookupFails, visitor)
      ensures outcome.Refused? <==> !lookupFails && Locked(old(State()), now)
      ensures outcome.Failed? <==>
                (visitor.Unknown? || visitor.WrongPassword?) && (lookupFails || !Locked(old(State()), now))
      ensures outcome.Succeeded? <==> visitor.RightPassword? && (lookupFails || !Locked(old(State()), now))
      ensures outcome.Failed? ==> outcome.nowLocked == (visitor.WrongPassword? && old(LiveCount(State(), now)) + 1 >= MAX_ATTEMPTS)
    {
      if !lookupFails {
        var locked := IsLoginLocked(now);
        if locked {
          return Refused;
        }
      }
      if visitor.Unknown? {
        var _ := RecordLoginAttempt(false, now);
        return Failed(false);
      }
      if visitor.Inactive? || visitor.Unverified? {
        return Forbidden;
      }
      if visitor.WrongPassword? {
        var r := RecordLoginAttempt(false, now);
        return Failed(!r.allowed);
      }
      var _ := RecordLoginAttempt(true, now);
      return Succeeded;
    }
  }

  /** Who tries to log in, as the user table and the password check find it. */
  datatype Visitor = Unknown | Inactive | Unverified | WrongPassword | RightPassword

  /** How a login ends; a wrong password is also told when it is the one that locks. */
  datatype Outcome = Refused | Forbidden | Failed(nowLocked: bool) | Succeeded

  predicate Counted(visitor: Visitor) { visitor.Unknown? || visitor.WrongPassword? }

  function AfterLogin(a: Account, now: nat, lookupFails: bool, visitor: Visitor): Account {
    if !lookupFails && Locked(a, now) then a
    else
      var b := if lookupFails then a else AfterCheck(a, now);
      if Counted(visitor) then AfterFailure(b, now)
      else if visitor.RightPassword? then b.(counter := None)
      else b
  }

  // ----- Runs -----

  /** A login whose lookup of the lock succeeds. */
  datatype Event = Event(at: nat, visitor: Visitor)

  ghost predicate Ordered(events: seq<Event>) {
    forall i, j :: 0 <= i < j < |events| ==> events[i].at <= events[j].at
  }

  /** The account after the first `k` events. */
  function Run(events: seq<Event>, k: nat): Account
    requires k <= |events|
  {
    if k == 0 then FRESH else AfterLogin(Run(events, k - 1), events[k - 1].at, false, events[k - 1].visitor)
  }

  /** Event `k` is not refused. */
  predicate Proceeds(events: seq<Event>, k: nat)
    requires k < |events|
  {
    !Locked(Run(events, k), events[k].at)
  }

  /** Instants of the failures recorded by the first `k` events since the last success. */
  function Failures(events: seq<Event>, k: nat): seq<nat>
    requires k <= |events|
  {
    if k == 0 then []
    else
      var e, front := events[k - 1], Failures(events, k - 1);
      if !Proceeds(events, k - 1) then front
      else if Counted(e.visitor) then front + [e.at]
      else if e.visitor.RightPassword? then []
      else front
  }

  ghost predicate NotAfter(f: seq<nat>, now: nat) { forall i :: 0 <= i < |f| ==> f[i] <= now }

  function LockFrom(t: nat): Lock { Lock((t + LOCKOUT) / SECOND, t + LOCKOUT) }

  /** A lock set at `t` no longer holds at `now`. */
  predicate Over(t: nat, now: nat) { now >= LockFrom(t).expiry || now > LockFrom(t).until * SECOND }

  /** A counter of `c` failures covers the last `c` of `f` and expires a window after the first of them. */
  ghost predicate Counts(counter: Counter, f: seq<nat>) {
    1 <= counter.count <= MAX_ATTEMPTS && counter.count <= |f| && counter.expiry == f[|f| - counter.count] + WINDOW
  }

  /** A failure four or more before index `e` is at least a window older than the one at `e`. */
  ghost predicate Spaced(f: seq<nat>, e: nat)
    requires e < |f|
  {
    forall i :: 0 <= i <= e - 4 ==> f[i] + WINDOW <= f[e]
  }

  /** What every run keeps, with `now` the instant of its last event. */
  ghost predicate Invariant(a: Account, f: seq<nat>, now: nat) {
    && NotAfter(f, now) && Sorted(f) && Sparse(f)
    && if a.counter.None? then f == []
       else
         && Counts(a.counter.value, f)
         && (a.counter.value.count == MAX_ATTEMPTS ==> a.lock == Some(LockFrom(f[|f| - 1])) || Over(f[|f| - 1], now))
         && Spaced(f, |f| - a.counter.value.count)
  }

  ghost predicate Sorted(f: seq<nat>) { forall i, j :: 0 <= i < j < |f| ==> f[i] <= f[j] }

  /** Nine consecutive failures span at least a window. */
  ghost predicate Sparse(f: seq<nat>) { forall i, j :: 0 <= i && i + 8 <= j < |f| ==> f[i] + WINDOW <= f[j] }

  /** The counter has expired before the lock it caused ends. */
  lemma {:induction false} CounterExpiredFirst(a: Account, f: seq<nat>, was: nat, now: nat)
    requires Invariant(a, f, was) && was <= now && !Locked(a, now)
    ensures a.counter.Some? && a.counter.value.count == MAX_ATTEMPTS ==>
              now > f[|f| - 1] + WINDOW && LiveCount(a, now) == 0
  {
  }

  lemma {:induction false} CheckKeeps(a: Account, f: seq<nat>, was: nat, now: nat)
    requires Invariant(a, f, was) && was <= now
    ensures Invariant(AfterCheck(a, now), f, now)
  {
  }

  /** A failure that starts a new counter comes a window after every failure three or more back. */
  lemma {:induction false} NewCounterIsSpaced(a: Account, f: seq<nat>, was: nat, now: nat)
    requires Invariant(a, f, was) && was <= now && !Locked(a, now) && LiveCount(a, now) == 0
    ensures Spaced(f + [now], |f|)
  {
  }

  /** A spaced counter start keeps nine consecutive failures a window apart. */
  lemma {:induction false} SparseSnoc(f: seq<nat>, now: nat, e: nat)
    requires Sparse(f) && Sorted(f) && NotAfter(f, now) && e <= |f| < e + 5 && Spaced(f + [now], e)
    ensures Sparse(f + [now]) && Sorted(f + [now]) && NotAfter(f + [now], now)
  {
  }

  lemma {:induction false} SpacedSnoc(f: seq<nat>, now: nat, e: nat)
    requires e < |f| && Spaced(f, e)
    ensures Spaced(f + [now], e)
  {
  }

  lemma {:induction false} FailureKeeps(a: Account, f: seq<nat>, was: nat, now: nat)
    requires Invariant(a, f, was) && was <= now && !Locked(a, now)
    ensures Invariant(AfterFailure(AfterCheck(a, now), now), f + [now], now)
  {
    var live := LiveCount(a, now);
    CounterExpiredFirst(a, f, was, now);
    if live == 0 {
      NewCounterIsSpaced(a, f, was, now);
      SparseSnoc(f, now, |f|);
    } else {
      SpacedSnoc(f, now, |f| - live);
      SparseSnoc(f, now, |f| - live);
    }
  }

  lemma {:induction false} RunKeeps(events: seq<Event>, k: nat, now: nat)
    requires k <= |events| && Ordered(events) && forall i :: 0 <= i < k ==> events[i].at <= now
    ensures Invariant(Run(events, k), Failures(events, k), now)
  {
    if k > 0 {
      var e := events[k - 1];
      RunKeeps(events, k - 1, e.at);
      var a, f := Run(events, k - 1), Failures(events, k - 1);
      CheckKeeps(a, f, e.at, e.at);
      if Proceeds(events, k - 1) && Counted(e.visitor) {
        FailureKeeps(a, f, e.at, e.at);
      }
      Later(Run(events, k), Failures(events, k), e.at, now);
    }
  }

  lemma {:induction false} Later(a: Account, f: seq<nat>, was: nat, now: nat)
    requires Invariant(a, f, was) && was <= now
    ensures Invariant(a, f, now)
  {
  }

  ghost function Within(f: seq<nat>, start: nat): set<nat> {
    set i: nat | i < |f| && start <= f[i] < start + 900_000_000_000
  }

  lemma {:induction false} SparseBound(f: seq<nat>, start: nat)
    requires Sparse(f) && Sorted(f)
    ensures |Within(f, start)| <= 8
  {
    var s := Within(f, start);
    if s != {} {
      var m := Least(s);
      var eight := {m, m + 1, m + 2, m + 3, m + 4, m + 5, m + 6, m + 7};
      assert s <= eight;
      SubsetCard(s, eight);
    }
  }

  /** At every point of every run, an interval of 15 minutes holds at most eight failures since the last success. */
  lemma {:induction false} EightPerWindow(events: seq<Event>, k: nat, start: nat)
    requires Ordered(events) && k <= |events|
    ensures |Within(Failures(events, k), start)| <= 8
  {
    if k > 0 {
      var now := events[k - 1].at;
      assert forall i :: 0 <= i < k ==> events[i].at <= now;
      RunKeeps(events, k, now);
      SparseBound(Failures(events, k), start);
    } else {
      assert Within([], start) == {};
    }
  }

  lemma {:induction false} AllRecorded(events: seq<Event>, k: nat)
    requires k <= |events|
    requires forall i :: 0 <= i < k ==> Proceeds(events, i) && Counted(events[i].visitor)
    ensures |Failures(events, k)| == k && forall i :: 0 <= i < k ==> Failures(events, k)[i] == events[i].at
  {
    hide Run, Proceeds, Counted;
    if k > 0 { AllRecorded(events, k - 1); }
  }

  /** Wrong passwords at 0, three just before the first counter expires, and five when it does. */
  const WITNESS: seq<Event> :=
    [Event(0, WrongPassword), Event(WINDOW - 3, WrongPassword), Event(WINDOW - 2, WrongPassword), Event(WINDOW - 1, WrongPassword),
     Event(WINDOW, WrongPassword), Event(WINDOW, WrongPassword), Event(WINDOW, WrongPassword), Event(WINDOW, WrongPassword),
     Event(WINDOW, WrongPassword)]

  lemma {:induction false} WitnessRun(e: seq<Event>, k: nat)
    requires e == WITNESS && k < 9
    ensures Run(e, k).lock == None
    ensures k > 0 ==> Run(e, k).counter == Some(if k <= 4 then Counter(k, WINDOW) else Counter(k - 4, WINDOW + WINDOW))
  {
    if k > 0 { WitnessRun(e, k - 1); }
  }

  lemma {:induction false} WitnessWithin(f: seq<nat>)
    requires |f| == 9 && forall i :: 0 <= i < 9 ==> f[i] == WITNESS[i].at
    ensures |Within(f, WINDOW - 3)| == 8
  {
    var eight: set<nat> := {1, 2, 3, 4, 5, 6, 7, 8};
    assert Within(f, WINDOW - 3) == eight;
  }

  lemma {:induction false} WitnessProceeds(e: seq<Event>, k: nat)
    requires e == WITNESS && k < 9
    ensures Proceeds(e, k) && Counted(e[k].visitor)
  {
    hide Run;
    WitnessRun(e, k);
  }

  /** Eight is reached: three late failures of one counter, then five of the next. */
  lemma {:induction false} EightIsReached()
    ensures exists events, start :: Ordered(events) && |Within(Failures(events, |events|), start)| == 8
  {
    assert Ordered(WITNESS);
    hide Run, Failures, Within, Proceeds, Counted, Ordered;
    var e := WITNESS;
    forall k | 0 <= k < 9 ensures Proceeds(e, k) && Counted(e[k].visitor) { WitnessProceeds(e, k); }
    AllRecorded(e, 9);
    WitnessWithin(Failures(e, 9));
  }

  /**
   What a counted failure does to the lock: the fifth while the counter lives sets one that refuses
   every login for 30 minutes, cut to the whole second; any other failure sets none.
   */
  lemma {:induction false} FifthFailureLocks(a: Account, now: nat, lookupFails: bool, visitor: Visitor, later: nat)
    requires !Locked(a, now) && (visitor.Unknown? || visitor.WrongPassword?) && now <= later
    ensures Locked(AfterLogin(a, now, lookupFails, visitor), later) <==>
              LiveCount(a, now) >= 4 && later < now + 1_800_000_000_000 && later <= (now + 1_800_000_000_000) / 1_000_000_000 * 1_000_000_000
  {
  }

  /** The counter of failures starts with the first, lives for 15 minutes from then, and ends with a success. */
  lemma {:induction false} CounterLives(a: Account, now: nat, visitor: Visitor, later: nat)
    requires !Locked(a, now) && LiveCount(a, now) == 0 && now <= later
    ensures visitor.Unknown? || visitor.WrongPassword? ==>
              LiveCount(AfterLogin(a, now, false, visitor), later) == if later < now + 900_000_000_000 then 1 else 0
  {
  }

  lemma {:induction false} CounterGrows(a: Account, now: nat, visitor: Visitor)
    requires !Locked(a, now)
    ensures LiveCount(AfterLogin(a, now, false, visitor), now) ==
            match visitor
            case RightPassword => 0
            case Inactive => LiveCount(a, now)
            case Unverified => LiveCount(a, now)
            case _ => LiveCount(a, now) + 1
  {
  }
}

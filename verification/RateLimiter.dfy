/**
 The sliding-window rate limiter on a Redis sorted set. Instants are nanoseconds. The score of an
 instant is a parameter: the identity gives the limiter as meant, float64 the deployed one.
 */
module RateLimiter {
  import opened Clock
  import opened Sets

  type Score = int -> int

  ghost predicate Monotone(score: Score) {
    score(0) == 0 && forall a, b :: a <= b ==> score(a) <= score(b)
  }

  /** The sorted set of one key: its instants, and when the key expires. */
  datatype Bucket = Bucket(entries: set<nat>, expiry: int)

  const EMPTY := Bucket({}, 0)

  function LiveEntries(b: Bucket, now: int): set<nat> {
    if now < b.expiry then b.entries else {}
  }

  /** ZREMRANGEBYSCORE 0 cut. */
  function Trim(score: Score, s: set<nat>, cut: int): set<nat> {
    set t | t in s && !(0 <= score(t) <= score(cut))
  }

  /** Entries that survive trimming at `now`; their number is the count the decision uses. */
  function Kept(score: Score, b: Bucket, now: nat, window: int): set<nat> {
    Trim(score, LiveEntries(b, now), now - window)
  }

  function After(score: Score, b: Bucket, now: nat, window: int): Bucket {
    Bucket(Kept(score, b, now, window) + {now}, now + ExpireSeconds(window) * SECOND)
  }

  /** The key after a history of requests. */
  function AfterAll(score: Score, history: seq<nat>, window: int): Bucket {
    if history == [] then EMPTY
    else After(score, AfterAll(score, history[..|history| - 1], window), history[|history| - 1], window)
  }

  // ----- The unbounded history -----

  ghost predicate Ordered(history: seq<nat>) {
    forall i, j :: 0 <= i < j < |history| ==> history[i] <= history[j]
  }

  ghost predicate NotBefore(history: seq<nat>, now: nat) {
    forall i :: 0 <= i < |history| ==> history[i] <= now
  }

  /** Instants of earlier requests, accepted or not, inside the window that ends at `now`. */
  ghost function Recent(score: Score, history: seq<nat>, now: nat, window: int): set<nat> {
    set t | t in history && score(t) > score(now - window)
  }

  /** Windows that survive the conversion to whole seconds. */
  predicate GoodWindow(window: int) { window <= SECOND || window % SECOND == 0 }

  /** A key remembers everything the next decision can need. */
  ghost predicate Remembers(score: Score, b: Bucket, history: seq<nat>, last: nat, window: int) {
    && b.entries <= (set t | t in history)
    && (forall t :: t in history ==> t in b.entries || score(t) <= score(last - window))
    && b.expiry == last + ExpireSeconds(window) * SECOND
  }

  lemma {:induction false} KeptIsRecent(score: Score, b: Bucket, history: seq<nat>, last: nat, now: nat, window: int)
    requires Monotone(score) && GoodWindow(window)
    requires Remembers(score, b, history, last, window) && NotBefore(history, last) && last <= now
    ensures Kept(score, b, now, window) == Recent(score, history, now, window)
  {
  }

  lemma {:induction false} Split(history: seq<nat>) returns (front: seq<nat>, last: nat)
    requires history != []
    ensures history == front + [last]
  {
    front, last := history[..|history| - 1], history[|history| - 1];
  }

  lemma {:induction false} OrderedSnoc(front: seq<nat>, last: nat)
    ensures Ordered(front + [last]) <==> Ordered(front) && NotBefore(front, last)
  {
    var h := front + [last];
    assert forall i :: 0 <= i < |front| ==> h[i] == front[i];
    if Ordered(h) {
      forall i | 0 <= i < |front| ensures front[i] <= last { assert h[i] <= h[|front|]; }
    }
  }

  lemma {:induction false} AfterAllSnoc(score: Score, front: seq<nat>, last: nat, window: int)
    ensures AfterAll(score, front + [last], window) == After(score, AfterAll(score, front, window), last, window)
  {
  }

  /** A request leaves a key that remembers the longer history. */
  lemma {:induction false} AfterRemembers(score: Score, b: Bucket, front: seq<nat>, last: nat, window: int)
    requires Monotone(score) && NotBefore(front, last)
    requires Kept(score, b, last, window) == Recent(score, front, last, window)
    ensures Remembers(score, After(score, b, last, window), front + [last], last, window)
    ensures NotBefore(front + [last], last)
  {
  }

  /** Trimming and expiry never change a decision: the count is that of the unbounded history. */
  lemma {:induction false} CountIsRecent(score: Score, front: seq<nat>, last: nat, window: int)
    requires Monotone(score) && GoodWindow(window) && Ordered(front) && NotBefore(front, last)
    ensures Kept(score, AfterAll(score, front, window), last, window) == Recent(score, front, last, window)
    decreases |front|
  {
    if front != [] {
      var front', last' := Split(front);
      OrderedSnoc(front', last');
      CountIsRecent(score, front', last', window);
      var b := AfterAll(score, front', window);
      AfterRemembers(score, b, front', last', window);
      AfterAllSnoc(score, front', last', window);
      assert last' <= last by { assert front[|front'|] == last'; }
      KeptIsRecent(score, AfterAll(score, front, window), front, last', last, window);
    }
  }

  /** Every decision of every run is that of the unbounded history. */
  ghost predicate Faithful(score: Score, window: int) {
    forall history: seq<nat>, now: nat ::
      Ordered(history) && NotBefore(history, now) ==>
        Kept(score, AfterAll(score, history, window), now, window) == Recent(score, history, now, window)
  }

  /** Exactly the windows of at most a second or of whole seconds are faithful. */
  lemma {:induction false} FaithfulExactly(score: Score, window: int, t: nat)
    requires Monotone(score) && score(t - 1) < score(t)
    ensures Faithful(score, window) <==> GoodWindow(window)
  {
    if GoodWindow(window) {
      forall history: seq<nat>, now: nat | Ordered(history) && NotBefore(history, now)
        ensures Kept(score, AfterAll(score, history, window), now, window) == Recent(score, history, now, window)
      {
        CountIsRecent(score, history, now, window);
      }
    } else {
      ExpiresTooSoon(score, window, t);
    }
  }

  /** Otherwise the key is gone while its only request is still inside the window. */
  lemma {:induction false} ExpiresTooSoon(score: Score, window: int, t: nat)
    requires Monotone(score) && score(t - 1) < score(t) && !GoodWindow(window)
    ensures !Faithful(score, window)
  {
    var now := t + window / SECOND * SECOND;
    var b := AfterAll(score, [t], window);
    assert [t][..0] == [];
    assert b.expiry == now;
    assert now - window <= t - 1;
    assert score(now - window) <= score(t - 1);
    assert t in Recent(score, [t], now, window);
    assert Ordered([t]) && NotBefore([t], now);
  }

  // ----- The remainder -----

  /** The next request counts at most one more, so a positive remainder is honoured. */
  lemma {:induction false} RemainingIsHonoured(score: Score, history: seq<nat>, now: nat, next: nat, limit: int, window: int)
    requires Monotone(score) && GoodWindow(window) && Ordered(history) && NotBefore(history, now) && now <= next
    ensures var count := |Kept(score, AfterAll(score, history, window), now, window)|;
            var count' := |Kept(score, AfterAll(score, history + [now], window), next, window)|;
            && RemainingOf(limit, count') >= RemainingOf(limit, count) - 1
            && (RemainingOf(limit, count) > 0 ==> count' < limit)
  {
    CountIsRecent(score, history, now, window);
    OrderedSnoc(history, now);
    NotBeforeSnoc(history, now, next);
    CountIsRecent(score, history + [now], next, window);
    RecentGrowsByOne(score, history, now, next, window);
  }

  lemma {:induction false} NotBeforeSnoc(history: seq<nat>, now: nat, next: nat)
    requires NotBefore(history, now) && now <= next
    ensures NotBefore(history + [now], next)
  {
  }

  lemma {:induction false} RecentGrowsByOne(score: Score, history: seq<nat>, now: nat, next: nat, window: int)
    requires Monotone(score) && now <= next
    ensures |Recent(score, history + [now], next, window)| <= |Recent(score, history, now, window)| + 1
  {
    var a, b := Recent(score, history, now, window), Recent(score, history + [now], next, window);
    assert score(now - window) <= score(next - window);
    assert b <= a + {now};
    SubsetCard(b, a + {now});
    assert |a + {now}| <= |a| + 1;
  }

  // ----- The operation -----

  datatype RateLimitResult = RateLimitResult(allowed: bool, remaining: int, resetAt: int, retryAfter: int)

  function RemainingOf(limit: int, count: int): int { if limit - count - 1 > 0 then limit - count - 1 else 0 }

  /** One key of the store, with the history of requests it has seen. */
  class Limiter {
    const score: Score
    const window: int
    var bucket: Bucket
    ghost var history: seq<nat>

    ghost predicate Valid()
      reads this
    {
      Ordered(history) && bucket == AfterAll(score, history, window)
    }

    constructor (score: Score, window: int)
      ensures this.score == score && this.window == window && history == [] && Valid()
    {
      this.score, this.window, bucket, history := score, window, EMPTY, [];
    }

    /** The pipeline of one check: trim, count, add, set the expiry. */
    method CheckRateLimit(limit: int, now: nat) returns (r: RateLimitResult)
      requires Valid() && NotBefore(history, now)
      modifies this
      ensures Valid() && history == old(history) + [now]
      ensures r.resetAt == now + window
      ensures r.retryAfter == if r.allowed then 0 else WholeSeconds(window)
      ensures r.allowed == (|Kept(score, old(bucket), now, window)| < limit)
      ensures r.remaining == RemainingOf(limit, |Kept(score, old(bucket), now, window)|)
      ensures Monotone(score) && GoodWindow(window) ==>
                var count := |Recent(score, old(history), now, window)|;
                r.allowed == (count < limit) && r.remaining == RemainingOf(limit, count)
    {
      hide Recent, Ordered, AfterAll;
      if now >= bucket.expiry {
        bucket := bucket.(entries := {});
      }
      bucket := bucket.(entries := Trim(score, bucket.entries, now - window));
      var count := |bucket.entries|;
      bucket := bucket.(entries := bucket.entries + {now});
      bucket := bucket.(expiry := now + ExpireSeconds(window) * SECOND);
      if Monotone(score) && GoodWindow(window) {
        CountIsRecent(score, history, now, window);
      }
      OrderedSnoc(history, now);
      AfterAllSnoc(score, history, now, window);
      history := history + [now];
      var allowed := count < limit;
      r := RateLimitResult(allowed, RemainingOf(limit, count), now + window, if allowed then 0 else WholeSeconds(window));
    }
  }
}

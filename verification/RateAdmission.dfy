/**
 How many requests the rate limiter admits. The bounds are exact: for scores as meant and for float64
 scores, the longest intervals that never admit more than the limit, and how many more a whole
 window can admit.
 */
module RateAdmission {
  import opened Clock
  import opened MinMax
  import opened Sets
  import opened RateLimiter
  import opened Float64

  /** Request `i` of a history is accepted. */
  ghost predicate IsAccepted(score: Score, history: seq<nat>, i: nat, limit: int, window: int)
    requires i < |history|
  {
    |Kept(score, AfterAll(score, history[..i], window), history[i], window)| < limit
  }

  /** The accepted requests of a half-open interval, as positions in the history. */
  ghost function AcceptedIn(score: Score, history: seq<nat>, limit: int, window: int, start: int, length: int): set<nat> {
    set i: nat | i < |history| && IsAccepted(score, history, i, limit, window) && start <= history[i] < start + length
  }

  ghost predicate Increasing(history: seq<nat>) {
    forall i, j :: 0 <= i < j < |history| ==> history[i] < history[j]
  }

  ghost predicate InRange(history: seq<nat>, lo: nat, hi: nat) {
    forall i :: 0 <= i < |history| ==> lo <= history[i] < hi
  }

  function Lifetime(window: int): int { ExpireSeconds(window) * SECOND }

  lemma {:induction false} InOrder(score: Score, a: int, b: int)
    requires Monotone(score) && a <= b
    ensures score(a) <= score(b)
  {
  }

  lemma {:induction false} Later(history: seq<nat>, i: nat, j: nat)
    requires Increasing(history) && i <= j < |history|
    ensures history[i] <= history[j] && (i < j ==> history[i] < history[j])
  {
  }

  // ----- What the key still holds -----

  lemma {:induction false} AfterPrefix(score: Score, history: seq<nat>, k: nat, window: int)
    requires k < |history|
    ensures AfterAll(score, history[..k + 1], window) == After(score, AfterAll(score, history[..k], window), history[k], window)
  {
    assert history[..k + 1] == history[..k] + [history[k]];
    AfterAllSnoc(score, history[..k], history[k], window);
  }

  /** The key expires between a request and the one before it. */
  ghost predicate Expires(history: seq<nat>, j: nat, window: int)
    requires 0 < j < |history|
  {
    history[j] - history[j - 1] >= Lifetime(window)
  }

  /** The key lives from one request to a later one. */
  ghost predicate Unbroken(history: seq<nat>, i: nat, k: nat, window: int)
    requires k < |history|
  {
    forall j: nat :: i < j <= k ==> !Expires(history, j, window)
  }

  lemma {:induction false} ShortIsUnbroken(history: seq<nat>, i: nat, k: nat, window: int)
    requires Ordered(history) && i <= k < |history| && history[k] - history[i] < Lifetime(window)
    ensures Unbroken(history, i, k, window)
  {
    forall j: nat | i < j <= k ensures !Expires(history, j, window) {
      assert history[i] <= history[j - 1] <= history[j] <= history[k];
    }
  }

  /** A request inside the window is still held if the key has lived since. */
  lemma {:induction false} Holds(score: Score, history: seq<nat>, i: nat, k: nat, window: int)
    requires Monotone(score) && Ordered(history) && i < k < |history|
    requires Unbroken(history, i, k, window) && score(history[i]) > score(history[k] - window)
    ensures history[i] in Kept(score, AfterAll(score, history[..k], window), history[k], window)
    decreases k
  {
    var b := AfterAll(score, history[..k - 1], window);
    AfterPrefix(score, history, k - 1, window);
    assert history[k - 1] <= history[k] && !Expires(history, k, window);
    if i < k - 1 {
      Holds(score, history, i, k - 1, window);
    }
    assert history[i] in After(score, b, history[k - 1], window).entries;
  }

  lemma {:induction false} EntriesAreRequests(score: Score, history: seq<nat>, window: int)
    ensures AfterAll(score, history, window).entries <= set t | t in history
  {
    if history != [] {
      EntriesAreRequests(score, history[..|history| - 1], window);
    }
  }

  // ----- The remainder -----

  /** Nothing that counted at position `p` has left the window at position `q`. */
  ghost predicate NothingLeaves(score: Score, history: seq<nat>, p: nat, q: nat, window: int)
    requires p < q < |history|
  {
    && score(history[p]) > score(history[q] - window)
    && forall x :: 0 <= x < p && score(history[x]) > score(history[p] - window) ==> score(history[x]) > score(history[q] - window)
  }

  /** Earlier requests differ from later ones. */
  lemma {:induction false} RecentIsEarlier(score: Score, history: seq<nat>, p: nat, x: nat, window: int)
    requires Increasing(history) && p <= x < |history|
    ensures history[x] !in Recent(score, history[..p], history[p], window)
  {
  }

  lemma {:induction false} PairwiseDifferent(history: seq<nat>, s: set<nat>)
    requires Increasing(history) && forall i :: i in s ==> i < |history|
    ensures |set x | x in s :: history[x]| == |s|
  {
    ImageSize(s, history);
  }

  lemma {:induction false} UnionSize(a: set<nat>, b: set<nat>)
    requires a !! b
    ensures |a + b| == |a| + |b|
  {
  }

  lemma {:induction false} RecentGrows(score: Score, history: seq<nat>, p: nat, q: nat, window: int)
    requires Monotone(score) && Increasing(history) && p < q < |history| && NothingLeaves(score, history, p, q, window)
    ensures |Recent(score, history[..q], history[q], window)| == |Recent(score, history[..p], history[p], window)| + (q - p)
  {
    hide Recent, NothingLeaves, Monotone, Increasing;
    var before, after := Recent(score, history[..p], history[p], window), Recent(score, history[..q], history[q], window);
    var added := set x | x in Interval(p, q) :: history[x];
    forall t: nat ensures t in after <==> t in before || t in added { RecentAlike(score, history, p, q, window, t); }
    assert after == before + added;
    forall x | x in Interval(p, q) ensures history[x] !in before { RecentIsEarlier(score, history, p, x, window); }
    PairwiseDifferent(history, Interval(p, q));
    UnionSize(before, added);
  }

  lemma {:induction false} RecentAlike(score: Score, history: seq<nat>, p: nat, q: nat, window: int, t: nat)
    requires Monotone(score) && Increasing(history) && p < q < |history| && NothingLeaves(score, history, p, q, window)
    ensures t in Recent(score, history[..q], history[q], window) <==>
            t in Recent(score, history[..p], history[p], window) || exists x :: p <= x < q && history[x] == t
  {
    if t in history[..q] {
      var x :| 0 <= x < q && history[..q][x] == t;
      assert history[x] == t;
      if x < p {
        assert history[..p][x] == t;
        InOrder(score, history[p] - window, history[q] - window);
      } else {
        InOrder(score, history[p], history[x]);
      }
    }
    if t in history[..p] {
      var x :| 0 <= x < p && history[..p][x] == t;
      assert history[x] == t && history[..q][x] == t;
    }
    forall x | p <= x < q && history[x] == t ensures t in Recent(score, history[..q], history[q], window) {
      assert history[..q][x] == t;
      InOrder(score, history[p], history[x]);
    }
  }

  lemma {:induction false} IncreasingIsOrdered(history: seq<nat>, k: nat)
    requires Increasing(history) && k < |history|
    ensures Ordered(history[..k]) && NotBefore(history[..k], history[k])
  {
  }

  /**
   The remainder is exact: while nothing leaves the window, of the requests after one that is left a
   remainder of n exactly the next n are accepted.
   */
  lemma {:induction false} RemainderIsExact(score: Score, history: seq<nat>, p: nat, q: nat, limit: int, window: int)
    requires Monotone(score) && GoodWindow(window) && Increasing(history) && p < q < |history|
    requires NothingLeaves(score, history, p, q, window)
    ensures var n := RemainingOf(limit, |Kept(score, AfterAll(score, history[..p], window), history[p], window)|);
            IsAccepted(score, history, q, limit, window) <==> q - p <= n
  {
    hide Monotone, Recent, NothingLeaves, Kept, AfterAll, Ordered, NotBefore, Increasing;
    IncreasingIsOrdered(history, p);
    IncreasingIsOrdered(history, q);
    CountIsRecent(score, history[..p], history[p], window);
    CountIsRecent(score, history[..q], history[q], window);
    RecentGrows(score, history, p, q, window);
  }

  // ----- At most the limit -----

  /** Accepted requests that the last of them still counts are at most the limit. */
  lemma {:induction false} Bounded(score: Score, history: seq<nat>, limit: int, window: int, some: set<nat>, last: nat)
    requires Monotone(score) && Increasing(history)
    requires last in some && last < |history| && IsAccepted(score, history, last, limit, window)
    requires forall i :: i in some ==> i <= last
    requires forall i :: i in some && i != last ==>
               Unbroken(history, i, last, window) && score(history[i]) > score(history[last] - window)
    ensures |some| <= limit
  {
    assert Ordered(history);
    var others := some - {last};
    var image := set i | i in others :: history[i];
    var kept := Kept(score, AfterAll(score, history[..last], window), history[last], window);
    forall i | i in others ensures history[i] in kept { Holds(score, history, i, last, window); }
    ImageSize(others, history);
    SubsetCard(image, kept);
    assert some == others + {last};
  }

  /** For every history of distinct instants and every limit, no interval of the length admits more than the limit. */
  ghost predicate AdmitsAtMostLimit(score: Score, window: int, length: int, lo: nat, hi: nat) {
    forall history: seq<nat>, limit: int, start: int ::
      Increasing(history) && InRange(history, lo, hi) && limit >= 0 ==>
        |AcceptedIn(score, history, limit, window, start, length)| <= limit
  }

  /** The longest such interval when scores are off by at most `slack` between two instants. */
  function Reach(window: int, slack: nat): int { Max(Min(Lifetime(window), window - slack), 1) }

  lemma {:induction false} ReachIsPositive(window: int, slack: nat)
    ensures Reach(window, slack) >= 1
  {
  }

  /** Instants before `hi` that are more than `slack` apart keep their order. */
  ghost predicate Separates(score: Score, slack: nat, hi: nat) {
    forall x, y :: 0 <= y < hi && x + slack < y ==> score(x) < score(y)
  }

  lemma {:induction false} WithinReach(score: Score, history: seq<nat>, limit: int, window: int, start: int, length: int, slack: nat, hi: nat)
    requires Monotone(score) && Separates(score, slack, hi) && Increasing(history) && InRange(history, 0, hi)
    requires limit >= 0 && length <= Reach(window, slack)
    ensures |AcceptedIn(score, history, limit, window, start, length)| <= limit
  {
    var some := AcceptedIn(score, history, limit, window, start, length);
    if some != {} {
      var last := Greatest(some);
      forall i | i in some && i != last
        ensures Unbroken(history, i, last, window) && score(history[i]) > score(history[last] - window)
      {
        assert history[i] < history[last];
        ShortIsUnbroken(history, i, last, window);
      }
      Bounded(score, history, limit, window, some, last);
    }
  }

  lemma {:induction false} OneRequest(score: Score, a: nat, window: int)
    ensures AfterAll(score, [a], window).entries == {a} && AfterAll(score, [a], window).expiry == a + Lifetime(window)
  {
    AfterAllSnoc(score, [], a, window);
    assert [] + [a] == [a];
  }

  /** Two requests one reach apart, the earlier forgotten by then. */
  lemma {:induction false} BeyondReach(score: Score, window: int, length: int, slack: nat, a: nat)
    requires Monotone(score) && score(a) <= score(a - slack) && length > Reach(window, slack)
    ensures var history := [a, a + Reach(window, slack)];
            Increasing(history) && AcceptedIn(score, history, 1, window, a, length) == {0, 1}
  {
    var d := Reach(window, slack);
    var history := [a, a + d];
    assert history[..0] == [] && history[..1] == [a];
    assert Kept(score, EMPTY, a, window) == {};
    var b := AfterAll(score, [a], window);
    OneRequest(score, a, window);
    assert d < Lifetime(window) ==> score(a - slack) <= score(a + d - window);
    assert score(0) <= score(a);
    assert Kept(score, b, a + d, window) == {};
    assert IsAccepted(score, history, 0, 1, window) && IsAccepted(score, history, 1, 1, window);
  }

  /** The exact length of interval that never admits more than the limit. */
  lemma {:induction false} ReachIsExact(score: Score, window: int, length: int, slack: nat, lo: nat, hi: nat, a: nat)
    requires Monotone(score) && Separates(score, slack, hi)
    requires score(a) <= score(a - slack) && lo <= a && a + Reach(window, slack) < hi
    ensures AdmitsAtMostLimit(score, window, length, lo, hi) <==> length <= Reach(window, slack)
  {
    hide Monotone, Separates, IsAccepted, Reach, AcceptedIn;
    if length <= Reach(window, slack) {
      forall history: seq<nat>, limit: int, start: int | Increasing(history) && InRange(history, lo, hi) && limit >= 0
        ensures |AcceptedIn(score, history, limit, window, start, length)| <= limit
      {
        WithinReach(score, history, limit, window, start, length, slack, hi);
      }
    } else {
      var history := [a, a + Reach(window, slack)];
      BeyondReach(score, window, length, slack, a);
      ReachIsPositive(window, slack);
      assert InRange(history, lo, hi);
      assert |AcceptedIn(score, history, 1, window, a, length)| == 2;
    }
  }

  /** With exact scores: intervals up to the window, or up to the whole seconds of one that is cut. */
  lemma {:induction false} WindowAdmitsLimit(window: int, length: int, hi: nat)
    requires Reach(window, 0) < hi
    ensures AdmitsAtMostLimit(t => t, window, length, 0, hi) <==> length <= Reach(window, 0)
  {
    ReachIsExact(t => t, window, length, 0, 0, hi, 0);
  }

  lemma {:induction false} Float64Fits()
    ensures Monotone(Float64Score) && Separates(Float64Score, 256, TWO_61)
  {
    forall a: int, b: int | a <= b ensures Float64Score(a) <= Float64Score(b) { ScoreMonotone(a, b); }
    forall x: int, y: int | 0 <= y < TWO_61 && x + 256 < y ensures Float64Score(x) < Float64Score(y) { ScoreSeparates(x, y); }
  }

  /** As deployed, between 2006 and 2043, those intervals are 256 nanoseconds shorter, no more and no less. */
  lemma {:induction false} DeployedWindowAdmitsLimit(window: int, length: int)
    requires window <= TWO_59
    ensures AdmitsAtMostLimit(Float64Score, window, length, TWO_60, TWO_61) <==> length <= Reach(window, 256)
  {
    Float64Fits();
    PlateauScore(PLATEAU + 128);
    PlateauScore(PLATEAU - 128);
    ReachIsExact(Float64Score, window, length, 256, TWO_60, TWO_61, PLATEAU + 128);
  }

  /** As deployed, too, exactly the windows of at most a second or of whole seconds are faithful. */
  lemma {:induction false} DeployedFaithfulExactly(window: int)
    ensures Faithful(Float64Score, window) <==> GoodWindow(window)
  {
    Float64Fits();
    PlateauScore(PLATEAU + 128);
    PlateauEnds();
    FaithfulExactly(Float64Score, window, PLATEAU + 129);
  }

  lemma {:induction false} PlateauEnds()
    ensures Float64Score(PLATEAU + 128) < Float64Score(PLATEAU + 129)
  {
  }

  // ----- More than the limit -----

  /** Some accepted requests of an interval of one window in which the key does not expire. */
  ghost predicate InOneWindow(score: Score, history: seq<nat>, limit: int, window: int, some: set<nat>, slack: nat, hi: nat) {
    && Monotone(score) && Separates(score, slack, hi) && window > 2 * slack
    && Increasing(history) && InRange(history, 0, hi)
    && (forall i :: i in some ==> i < |history| && IsAccepted(score, history, i, limit, window))
    && (forall i, j :: i in some && j in some ==> history[i] - history[j] < window)
    && (forall i, j :: i in some && j in some ==> Unbroken(history, i, j, window))
  }

  /** Requests that the last one no longer counts. */
  ghost function Forgotten(score: Score, history: seq<nat>, some: set<nat>, last: nat, window: int): (r: set<nat>)
    requires last < |history|
    ensures r <= some
  {
    set i | i in some && i < |history| && score(history[i]) <= score(history[last] - window)
  }

  /** Requests that no longer count the first one. */
  ghost function Forgetting(score: Score, history: seq<nat>, some: set<nat>, first: nat, window: int): (r: set<nat>)
    requires first < |history|
    ensures r <= some
  {
    set i | i in some && i < |history| && score(history[first]) <= score(history[i] - window)
  }

  /** Requests that a last one of them still counts are at most the limit. */
  lemma {:induction false} CountedBound(score: Score, history: seq<nat>, limit: int, window: int, some: set<nat>, slack: nat, hi: nat,
                                        rest: set<nat>, last: nat)
    requires InOneWindow(score, history, limit, window, some, slack, hi) && rest <= some
    requires last in rest && forall i :: i in rest ==> i <= last
    requires forall i :: i in rest && i != last ==> score(history[i]) > score(history[last] - window)
    ensures |rest| <= limit
  {
    hide Monotone, Separates, IsAccepted, Unbroken;
    Bounded(score, history, limit, window, rest, last);
  }

  lemma {:induction false} RememberedBound(score: Score, history: seq<nat>, limit: int, window: int, some: set<nat>, slack: nat, hi: nat, last: nat)
    requires InOneWindow(score, history, limit, window, some, slack, hi) && last in some && forall i :: i in some ==> i <= last
    ensures |some - Forgotten(score, history, some, last, window)| <= limit
  {
    hide IsAccepted, Unbroken;
    var rest := some - Forgotten(score, history, some, last, window);
    assert last in rest;
    CountedBound(score, history, limit, window, some, slack, hi, rest, last);
  }

  lemma {:induction false} RememberingBound(score: Score, history: seq<nat>, limit: int, window: int, some: set<nat>, slack: nat, hi: nat, first: nat)
    requires InOneWindow(score, history, limit, window, some, slack, hi) && limit >= 0
    requires first in some && forall i :: i in some ==> first <= i
    ensures |some - Forgetting(score, history, some, first, window)| <= limit
  {
    hide IsAccepted, Monotone, Separates, Unbroken, InRange, Increasing;
    var rest := some - Forgetting(score, history, some, first, window);
    if rest != {} {
      var last := Greatest(rest);
      forall i | i in rest && i != last ensures score(history[i]) > score(history[last] - window) {
        Later(history, first, i);
        InOrder(score, history[first], history[i]);
      }
      CountedBound(score, history, limit, window, some, slack, hi, rest, last);
    }
  }

  /** Requests that no longer count the first one are close together, so they too are at most the limit. */
  lemma {:induction false} ForgettingBound(score: Score, history: seq<nat>, limit: int, window: int, some: set<nat>, slack: nat, hi: nat, first: nat, last: nat)
    requires InOneWindow(score, history, limit, window, some, slack, hi) && limit >= 0
    requires first in some && last in some && forall i :: i in some ==> first <= i <= last
    ensures |Forgetting(score, history, some, first, window)| <= limit
  {
    hide IsAccepted, Unbroken;
    var rest := Forgetting(score, history, some, first, window);
    if rest != {} {
      var top := Greatest(rest);
      forall i | i in rest && i != top ensures score(history[i]) > score(history[top] - window) {
        assert history[top] - window < history[first];
        assert history[first] <= history[i] - window + slack;
      }
      CountedBound(score, history, limit, window, some, slack, hi, rest, top);
    }
  }

  lemma {:induction false} SpanSize(history: seq<nat>, some: set<nat>, lo: int, hi: int)
    requires Increasing(history) && lo <= hi && forall i :: i in some ==> i < |history| && lo <= history[i] < hi
    ensures |some| <= hi - lo
  {
    ImageSize(some, history);
    IntervalSize(set i | i in some :: history[i], lo, hi);
  }

  /** The last forgotten request is at most `slack` behind where the window of the first forgetting one starts. */
  lemma {:induction false} RunIsShort(score: Score, slack: nat, hi: nat, high: nat, cut: int, first: nat, low: int)
    requires Monotone(score) && Separates(score, slack, hi) && high < hi
    requires score(high) <= score(cut) && cut < first && score(first) <= score(low)
    ensures high <= low + slack
  {
    assert score(cut) <= score(first);
  }

  lemma {:induction false} NoneForgotten(score: Score, history: seq<nat>, limit: int, window: int, some: set<nat>, slack: nat, hi: nat, first: nat, last: nat)
    requires InOneWindow(score, history, limit, window, some, slack, hi)
    requires first in some && last in some && forall i :: i in some ==> first <= i <= last
    requires score(history[first]) > score(history[last] - window)
    ensures Forgotten(score, history, some, last, window) == {} && Forgetting(score, history, some, first, window) == {}
  {
    hide Monotone, Separates, IsAccepted, Unbroken, InRange;
    forall i | i in some
      ensures score(history[first]) <= score(history[i]) && score(history[i] - window) <= score(history[last] - window)
    {
      assert history[first] <= history[i] <= history[last];
      InOrder(score, history[first], history[i]);
      InOrder(score, history[i] - window, history[last] - window);
    }
  }

  /** Forgotten requests, and forgetting ones moved back by the window, share a run of `slack + 1` instants. */
  lemma {:induction false} SharedRun(score: Score, history: seq<nat>, limit: int, window: int, some: set<nat>, slack: nat, hi: nat, first: nat, last: nat)
    requires InOneWindow(score, history, limit, window, some, slack, hi)
    requires first in some && last in some && forall i :: i in some ==> first <= i <= last
    ensures |Forgotten(score, history, some, last, window)| + |Forgetting(score, history, some, first, window)| <= slack + 1
  {
    hide IsAccepted, Monotone, Separates, Unbroken, Increasing;
    var early, late := Forgotten(score, history, some, last, window), Forgetting(score, history, some, first, window);
    if score(history[first]) <= score(history[last] - window) {
      assert first in early && last in late;
      var low := Least(late);
      var high := Greatest(early);
      RunIsShort(score, slack, hi, history[high], history[last] - window, history[first], history[low] - window);
      forall i | i in early ensures history[first] <= history[i] <= history[high] { Later(history, first, i); Later(history, i, high); }
      SpanSize(history, early, history[first], history[high] + 1);
      forall i | i in late ensures history[low] <= history[i] { Later(history, low, i); }
      SpanSize(history, late, history[low], history[first] + window);
    } else {
      NoneForgotten(score, history, limit, window, some, slack, hi, first, last);
    }
  }

  lemma {:induction false} Excess(score: Score, history: seq<nat>, limit: int, window: int, some: set<nat>, slack: nat, hi: nat, first: nat, last: nat)
    requires InOneWindow(score, history, limit, window, some, slack, hi) && limit >= 0
    requires first in some && last in some && forall i :: i in some ==> first <= i <= last
    ensures |some| <= limit + Min(limit, (slack + 1) / 2)
  {
    hide Forgotten, Forgetting, IsAccepted, Monotone, Separates, Increasing, InRange, Unbroken;
    var early, late := Forgotten(score, history, some, last, window), Forgetting(score, history, some, first, window);
    RememberedBound(score, history, limit, window, some, slack, hi, last);
    RememberingBound(score, history, limit, window, some, slack, hi, first);
    ForgettingBound(score, history, limit, window, some, slack, hi, first, last);
    SharedRun(score, history, limit, window, some, slack, hi, first, last);
    Without(some, early);
    Without(some, late);
  }

  /** The most one window admits: the excess of rounded scores, or two lots around an expiry of the key. */
  function MostAdmitted(limit: int, window: int, slack: nat): int {
    Max(limit + Min(limit, (slack + 1) / 2), Min(2 * limit, window - Lifetime(window) + 1))
  }

  /** A key that expires within a window has a lifetime of at least a second more than what is cut off. */
  lemma {:induction false} CutIsShort(window: int)
    requires 0 < Lifetime(window) < window
    ensures window - Lifetime(window) < SECOND <= Lifetime(window)
  {
  }

  /** If the key expires inside the window, the requests before and after are few instants and two lots. */
  lemma {:induction false} BrokenExcess(score: Score, history: seq<nat>, limit: int, window: int, start: int, slack: nat, hi: nat, j: nat)
    requires Monotone(score) && Separates(score, slack, hi) && 2 * slack < window && slack < SECOND
    requires Increasing(history) && InRange(history, 0, hi) && limit >= 0
    requires 0 < j < |history| && Expires(history, j, window) && start <= history[j - 1] && history[j] < start + window
    ensures |AcceptedIn(score, history, limit, window, start, window)| <= Min(2 * limit, window - Lifetime(window) + 1)
  {
    hide IsAccepted, Monotone, Separates, InRange;
    var n, m := history[j - 1] + 1 - start, start + window - history[j];
    var all := AcceptedIn(score, history, limit, window, start, window);
    var early, late := AcceptedIn(score, history, limit, window, start, n), AcceptedIn(score, history, limit, window, history[j], m);
    CutIsShort(window);
    WithinReach(score, history, limit, window, start, n, slack, hi);
    WithinReach(score, history, limit, window, history[j], m, slack, hi);
    SpanSize(history, early, start, start + n);
    SpanSize(history, late, history[j], history[j] + m);
    forall i | i in all ensures i in early + late {
      if i < j { Later(history, i, j - 1); } else { Later(history, j, i); }
    }
    SubsetCard(all, early + late);
  }

  /** What one window admits at most, for every window. */
  lemma {:induction false} WindowExcess(score: Score, history: seq<nat>, limit: int, window: int, start: int, slack: nat, hi: nat)
    requires Monotone(score) && Separates(score, slack, hi) && 2 * slack < window && slack < SECOND
    requires Increasing(history) && InRange(history, 0, hi) && limit >= 0
    ensures |AcceptedIn(score, history, limit, window, start, window)| <= MostAdmitted(limit, window, slack)
  {
    hide IsAccepted, Monotone, Separates, Increasing, InRange, Expires;
    var some := AcceptedIn(score, history, limit, window, start, window);
    if some != {} {
      var first := Least(some);
      var last := Greatest(some);
      if j: nat :| first < j <= last && Expires(history, j, window) {
        Later(history, first, j - 1);
        Later(history, j, last);
        BrokenExcess(score, history, limit, window, start, slack, hi, j);
      } else {
        Excess(score, history, limit, window, some, slack, hi, first, last);
      }
    }
  }

  lemma {:induction false} Without(s: set<nat>, t: set<nat>)
    requires t <= s
    ensures |s| == |s - t| + |t|
  {
    assert s == (s - t) + t;
  }

  /**
   As deployed, what a whole window admits: the limit and the lesser of the limit and 128 more, or, where
   whole seconds cut more than that off the window, two limits or as many as the instants cut off and one.
   */
  lemma {:induction false} DeployedExcess(history: seq<nat>, limit: int, window: int, start: int)
    requires window > 512 && limit >= 0 && Increasing(history) && InRange(history, TWO_60, TWO_61)
    ensures |AcceptedIn(Float64Score, history, limit, window, start, window)| <= MostAdmitted(limit, window, 256)
  {
    Float64Fits();
    assert InRange(history, 0, TWO_61);
    WindowExcess(Float64Score, history, limit, window, start, 256, TWO_61);
  }

  /** A count leaves out every request whose score has been passed. */
  lemma {:induction false} KeptSize(score: Score, history: seq<nat>, i: nat, m: nat, window: int)
    requires m <= i < |history| && Increasing(history)
    requires forall x :: 0 <= x < m ==> 0 <= score(history[x]) <= score(history[i] - window)
    ensures |Kept(score, AfterAll(score, history[..i], window), history[i], window)| <= i - m
  {
    var kept := Kept(score, AfterAll(score, history[..i], window), history[i], window);
    var rest := Interval(m, i);
    var image := set x | x in rest :: history[x];
    EntriesAreRequests(score, history[..i], window);
    forall t | t in kept ensures t in image {
      var x :| 0 <= x < i && history[..i][x] == t;
      assert history[x] == t && x in rest;
    }
    ImageSize(rest, history);
    SubsetCard(kept, image);
  }

  /** As many requests as the limit at the start of a window, and up to 128 more at its end. */
  function Crowd(limit: nat, window: nat): seq<nat>
    requires limit + Min(limit, 128) <= window
  {
    seq(limit + Min(limit, 128), i requires 0 <= i =>
      if i < limit then PLATEAU + i else PLATEAU + window - Min(limit, 128) + (i - limit))
  }

  lemma {:induction false} CrowdShape(limit: nat, window: nat)
    requires limit + Min(limit, 128) <= window <= TWO_59
    ensures var history := Crowd(limit, window);
            && |history| == limit + Min(limit, 128) && Increasing(history) && InRange(history, TWO_60, TWO_61)
            && forall i :: 0 <= i < |history| ==> PLATEAU <= history[i] < PLATEAU + window
  {
  }

  lemma {:induction false} CrowdAccepted(limit: nat, window: nat, i: nat)
    requires limit + Min(limit, 128) <= window <= TWO_59 && i < limit + Min(limit, 128)
    ensures IsAccepted(Float64Score, Crowd(limit, window), i, limit, window)
  {
    hide Float64Score;
    var history, n := Crowd(limit, window), Min(limit, 128);
    if i < limit {
      KeptSize(Float64Score, history, i, 0, window);
    } else {
      PlateauScore(history[i] - window);
      forall x | 0 <= x < n ensures Float64Score(history[x]) == PLATEAU { PlateauScore(history[x]); }
      KeptSize(Float64Score, history, i, n, window);
    }
  }

  /** The excess occurs: for every limit, one window can admit the limit and the lesser of the limit and 128 more. */
  lemma {:induction false} RoundingAdmitsMore(limit: nat, window: nat)
    requires limit + Min(limit, 128) <= window <= TWO_59
    ensures var history := Crowd(limit, window);
            && Increasing(history) && InRange(history, TWO_60, TWO_61)
            && |AcceptedIn(Float64Score, history, limit, window, PLATEAU, window)| == limit + Min(limit, 128)
  {
    hide Float64Score, IsAccepted, Crowd, Increasing, InRange;
    CrowdShape(limit, window);
    var history, n := Crowd(limit, window), limit + Min(limit, 128);
    forall i | 0 <= i < n ensures IsAccepted(Float64Score, history, i, limit, window) { CrowdAccepted(limit, window, i); }
    assert AcceptedIn(Float64Score, history, limit, window, PLATEAU, window) == Interval(0, n);
  }

  /** After an expiry of the key, only requests from there on are held. */
  lemma {:induction false} HeldSinceExpiry(score: Score, history: seq<nat>, j: nat, k: nat, window: int, t: nat) returns (x: nat)
    requires 0 < j <= k < |history| && Expires(history, j, window)
    requires t in Kept(score, AfterAll(score, history[..k], window), history[k], window)
    ensures j <= x < k && history[x] == t
    decreases k
  {
    hide AfterAll;
    AfterPrefix(score, history, k - 1, window);
    if t == history[k - 1] && j < k {
      x := k - 1;
    } else {
      x := HeldSinceExpiry(score, history, j, k - 1, window, t);
    }
  }

  lemma {:induction false} SizeSinceExpiry(score: Score, history: seq<nat>, j: nat, k: nat, window: int)
    requires 0 < j <= k < |history| && Expires(history, j, window) && Increasing(history)
    ensures |Kept(score, AfterAll(score, history[..k], window), history[k], window)| <= k - j
  {
    hide AfterAll, Kept;
    var kept := Kept(score, AfterAll(score, history[..k], window), history[k], window);
    var image := set x | x in Interval(j, k) :: history[x];
    forall t | t in kept ensures t in image { var x := HeldSinceExpiry(score, history, j, k, window, t); }
    ImageSize(Interval(j, k), history);
    SubsetCard(kept, image);
  }

  /** One half of the requests from the start of a window on, and the other from the expiry of the key on. */
  function CutCrowd(n: nat, window: int): seq<nat>
    requires Lifetime(window) >= 0
  {
    var half := (n + 1) / 2;
    seq(n, i requires 0 <= i => if i < half then PLATEAU + i else PLATEAU + Lifetime(window) + (i - 1))
  }

  lemma {:induction false} CutCrowdShape(n: nat, window: int)
    requires Lifetime(window) > 0 && n <= window - Lifetime(window) + 1 && window <= TWO_59
    ensures var history := CutCrowd(n, window);
            && |history| == n && Increasing(history) && InRange(history, TWO_60, TWO_61)
            && (forall i :: 0 <= i < n ==> PLATEAU <= history[i] < PLATEAU + window)
            && (n > 1 ==> Expires(history, (n + 1) / 2, window))
  {
  }

  lemma {:induction false} CutCrowdAccepted(n: nat, limit: nat, window: int, i: nat)
    requires Lifetime(window) > 0 && n <= window - Lifetime(window) + 1 && window <= TWO_59 && i < n <= 2 * limit
    ensures IsAccepted(Float64Score, CutCrowd(n, window), i, limit, window)
  {
    hide Float64Score, CutCrowd, Increasing, InRange, Expires;
    CutCrowdShape(n, window);
    var half := (n + 1) / 2;
    if i < half {
      KeptSize(Float64Score, CutCrowd(n, window), i, 0, window);
    } else {
      SizeSinceExpiry(Float64Score, CutCrowd(n, window), half, i, window);
    }
  }

  /** The excess of cut windows occurs. */
  lemma {:induction false} ExpiryAdmitsMore(n: nat, limit: nat, window: int)
    requires Lifetime(window) > 0 && n <= Min(2 * limit, window - Lifetime(window) + 1) && window <= TWO_59
    ensures var history := CutCrowd(n, window);
            && Increasing(history) && InRange(history, TWO_60, TWO_61)
            && |AcceptedIn(Float64Score, history, limit, window, PLATEAU, window)| == n
  {
    hide Float64Score, IsAccepted, CutCrowd, Increasing, InRange, Expires;
    CutCrowdShape(n, window);
    var history := CutCrowd(n, window);
    forall i | 0 <= i < n ensures IsAccepted(Float64Score, history, i, limit, window) { CutCrowdAccepted(n, limit, window, i); }
    assert AcceptedIn(Float64Score, history, limit, window, PLATEAU, window) == Interval(0, n);
  }

  /** The bound on a whole window is exact, for every limit and every window, cut or not. */
  lemma {:induction false} ExcessIsReached(limit: nat, window: nat) returns (history: seq<nat>)
    requires limit + Min(limit, 128) <= window && 512 < window <= TWO_59
    ensures Increasing(history) && InRange(history, TWO_60, TWO_61)
    ensures |AcceptedIn(Float64Score, history, limit, window, PLATEAU, window)| == MostAdmitted(limit, window, 256)
  {
    var rounded, cut := limit + Min(limit, 128), Min(2 * limit, window - Lifetime(window) + 1);
    if rounded >= cut {
      history := Crowd(limit, window);
      RoundingAdmitsMore(limit, window);
    } else {
      history := CutCrowd(cut, window);
      ExpiryAdmitsMore(cut, limit, window);
    }
  }

  // ----- Equal instants -----

  lemma {:induction false} SameInstantEntries(score: Score, t: nat, n: nat, window: int)
    ensures AfterAll(score, seq(n, _ => t), window).entries <= {t}
  {
    if n > 0 {
      SameInstantEntries(score, t, n - 1, window);
      assert seq(n, _ => t) == seq(n - 1, _ => t) + [t];
      AfterAllSnoc(score, seq(n - 1, _ => t), t, window);
    }
  }

  /** Requests at one instant share a member: from limit 2 on, any number of them is accepted. */
  lemma {:induction false} SameInstantUnlimited(score: Score, t: nat, n: nat, limit: int, window: int, length: int)
    requires limit >= 2 && length >= 1
    ensures |AcceptedIn(score, seq(n, _ => t), limit, window, t, length)| == n
  {
    var history := seq(n, _ => t);
    forall i | 0 <= i < n ensures IsAccepted(score, history, i, limit, window) {
      assert history[..i] == seq(i, _ => t);
      var b := AfterAll(score, history[..i], window);
      SameInstantEntries(score, t, i, window);
      SubsetCard(Kept(score, b, t, window), {t});
    }
    assert AcceptedIn(score, history, limit, window, t, length) == Interval(0, n);
  }

  /** Over all histories, repeated instants included, no interval of the length admits more than this limit. */
  ghost predicate RepeatsAdmitLimit(score: Score, limit: int, window: int, length: int, lo: nat, hi: nat) {
    forall history: seq<nat>, start: int ::
      Ordered(history) && InRange(history, lo, hi) ==> |AcceptedIn(score, history, limit, window, start, length)| <= Max(limit, 0)
  }

  lemma {:induction false} NoneAtLimitZero(score: Score, history: seq<nat>, limit: int, window: int, start: int, length: int)
    requires limit <= 0
    ensures AcceptedIn(score, history, limit, window, start, length) == {}
  {
  }

  /** At limit 1 the next accepted request is out of reach of the one before, even if instants repeat. */
  lemma {:induction false} OneAtATime(score: Score, history: seq<nat>, window: int, start: int, length: int, slack: nat, hi: nat)
    requires Monotone(score) && Separates(score, slack, hi) && Ordered(history) && InRange(history, 0, hi)
    requires window > slack && length <= Reach(window, slack)
    ensures |AcceptedIn(score, history, 1, window, start, length)| <= 1
  {
    var some := AcceptedIn(score, history, 1, window, start, length);
    if some != {} {
      var last := Greatest(some);
      forall i | i in some ensures i == last {
        if i != last {
          assert history[i] <= history[last];
          ShortIsUnbroken(history, i, last, window);
          Holds(score, history, i, last, window);
        }
      }
      SubsetCard(some, {last});
    }
  }

  /** A window within the error of the scores forgets an equal instant. */
  lemma {:induction false} TwiceWithinSlack(score: Score, window: int, length: int, slack: nat, a: nat)
    requires Monotone(score) && score(a) <= score(a - slack) && window <= slack && length >= 1
    ensures AcceptedIn(score, [a, a], 1, window, a, length) == {0, 1}
  {
    var history := [a, a];
    assert history[..0] == [] && history[..1] == [a];
    OneRequest(score, a, window);
    InOrder(score, a - slack, a - window);
    InOrder(score, 0, a);
    assert Kept(score, AfterAll(score, [a], window), a, window) == {};
    assert Kept(score, EMPTY, a, window) == {};
    assert IsAccepted(score, history, 0, 1, window) && IsAccepted(score, history, 1, 1, window);
  }

  /** A history with more than the limit, wherever the exact condition fails. */
  lemma {:induction false} RepeatsExceed(score: Score, limit: int, window: int, length: int, slack: nat, a: nat) returns (history: seq<nat>)
    requires Monotone(score) && score(a) <= score(a - slack) && length >= 1 && limit >= 1
    requires limit == 1 ==> window <= slack || length > Reach(window, slack)
    ensures Ordered(history) && InRange(history, a, a + Reach(window, slack) + 1)
    ensures |AcceptedIn(score, history, limit, window, a, length)| > limit
  {
    hide Monotone, IsAccepted, AcceptedIn, Reach;
    ReachIsPositive(window, slack);
    if limit > 1 {
      history := seq(limit + 1, _ => a);
      SameInstantUnlimited(score, a, limit + 1, limit, window, length);
    } else if window <= slack {
      history := [a, a];
      TwiceWithinSlack(score, window, length, slack, a);
    } else {
      history := [a, a + Reach(window, slack)];
      BeyondReach(score, window, length, slack, a);
    }
  }

  /** With repeated instants the limit holds exactly for limit 1, and for intervals within reach. */
  lemma {:induction false} RepeatsExactly(score: Score, limit: int, window: int, length: int, slack: nat, lo: nat, hi: nat, a: nat)
    requires Monotone(score) && Separates(score, slack, hi)
    requires score(a) <= score(a - slack) && lo <= a && a + Reach(window, slack) < hi
    ensures RepeatsAdmitLimit(score, limit, window, length, lo, hi) <==>
              length <= 0 || limit <= 0 || (limit == 1 && window > slack && length <= Reach(window, slack))
  {
    hide Monotone, Separates, IsAccepted, Reach, Ordered;
    if length <= 0 || limit <= 0 || (limit == 1 && window > slack && length <= Reach(window, slack)) {
      forall history: seq<nat>, start: int | Ordered(history) && InRange(history, lo, hi)
        ensures |AcceptedIn(score, history, limit, window, start, length)| <= Max(limit, 0)
      {
        if length <= 0 {
          assert AcceptedIn(score, history, limit, window, start, length) == {};
        } else if limit <= 0 {
          NoneAtLimitZero(score, history, limit, window, start, length);
        } else {
          OneAtATime(score, history, window, start, length, slack, hi);
        }
      }
    } else {
      var history := RepeatsExceed(score, limit, window, length, slack, a);
    }
  }

  /** As deployed: only limit 1, with a window above 256 nanoseconds, survives repeated instants. */
  lemma {:induction false} DeployedRepeatsExactly(limit: int, window: int, length: int)
    requires window <= TWO_59
    ensures RepeatsAdmitLimit(Float64Score, limit, window, length, TWO_60, TWO_61) <==>
              length <= 0 || limit <= 0 || (limit == 1 && window > 256 && length <= Reach(window, 256))
  {
    Float64Fits();
    PlateauScore(PLATEAU + 128);
    PlateauScore(PLATEAU - 128);
    RepeatsExactly(Float64Score, limit, window, length, 256, TWO_60, TWO_61, PLATEAU + 128);
  }
}

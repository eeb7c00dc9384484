/** Alert deliveries: the fan-out that creates them, and the worker's deliver and retry cycle. */
module Deliveries {
  import opened Options
  import opened Clock
  import opened MinMax

  datatype Status = Pending | Failed | Sent

  /** The attempt column starts at 1 and counts failures up from there. */
  datatype Delivery = Delivery(alert: nat, channel: int, status: Status, attempt: int, createdAt: int)

  function NewDelivery(alert: nat, channel: int, now: int): Delivery { Delivery(alert, channel, Pending, 1, now) }

  type Table = map<nat, Delivery>

  // ----- Fan-out -----

  datatype Channel = Channel(id: int, tenant: int, active: bool)

  /** Ids of the tenant's active channels among the first `k`, in order. */
  function ActiveIds(channels: seq<Channel>, k: nat, tenant: int): seq<int>
    requires k <= |channels|
  {
    if k == 0 then []
    else
      ActiveIds(channels, k - 1, tenant) +
      if channels[k - 1].tenant == tenant && channels[k - 1].active then [channels[k - 1].id] else []
  }

  /** Alerts and deliveries; ids are handed out in order and never reused. */
  class AlertStore {
    var channels: seq<Channel>
    var alerts: set<nat>
    var deliveries: Table
    var nextId: nat

    ghost predicate Valid()
      reads this
    {
      && (forall id :: id in alerts ==> id < nextId)
      && (forall id :: id in deliveries ==> id < nextId && deliveries[id].alert in alerts)
    }

    constructor (channels: seq<Channel>)
      ensures Valid() && this.channels == channels && alerts == {} && deliveries == map[]
    {
      this.channels, alerts, deliveries, nextId := channels, {}, map[], 0;
    }

    method ListActiveChannels(tenant: int) returns (ids: seq<int>)
      ensures ids == ActiveIds(channels, |channels|, tenant)
    {
      ids := [];
      for i := 0 to |channels|
        invariant ids == ActiveIds(channels, i, tenant)
      {
        if channels[i].tenant == tenant && channels[i].active {
          ids := ids + [channels[i].id];
        }
      }
    }

    /**
     Creates an alert with one pending delivery per active channel of the tenant, or, when a
     statement fails, nothing at all. `failing` is the number of the insert that fails, if any; the
     number after the last insert is the commit.
     */
    method CreateAlertWithDeliveryTx(tenant: int, now: int, failing: Option<nat>) returns (alert: Option<nat>)
      requires Valid()
      modifies this
      ensures Valid() && channels == old(channels)
      ensures alert.None? ==> alerts == old(alerts) && deliveries == old(deliveries)
      ensures alert.None? <==> failing.Some? && failing.value <= |ActiveIds(channels, |channels|, tenant)| + 1
      ensures alert.Some? ==>
                && alert.value !in old(alerts) && alerts == old(alerts) + {alert.value}
                && FansOut(old(deliveries), deliveries, alert.value, ActiveIds(channels, |channels|, tenant), now)
    {
      hide ActiveIds, FansOut;
      var alerts0, deliveries0 := alerts, deliveries;
      if failing == Some(0) {
        return None;
      }
      var id := nextId;
      alerts, nextId := alerts + {id}, nextId + 1;
      var ids := ListActiveChannels(tenant);
      for i := 0 to |ids|
        invariant Valid() && channels == old(channels) && alerts == alerts0 + {id}
        invariant nextId == id + 1 + i
        invariant deliveries == FannedOut(deliveries0, id, ids, i, now)
        invariant failing.Some? ==> failing.value > i
      {
        if failing == Some(i + 1) {
          alerts, deliveries := alerts0, deliveries0;
          return None;
        }
        deliveries := deliveries[nextId := NewDelivery(id, ids[i], now)];
        nextId := nextId + 1;
      }
      if failing == Some(|ids| + 1) {
        alerts, deliveries := alerts0, deliveries0;
        return None;
      }
      FannedOutFansOut(deliveries0, id, ids, now);
      return Some(id);
    }
  }

  /** The table after the first `k` inserts for an alert, whose deliveries get the ids after its own. */
  function FannedOut(was: Table, alert: nat, ids: seq<int>, k: nat, now: int): Table
    requires k <= |ids|
  {
    if k == 0 then was else FannedOut(was, alert, ids, k - 1, now)[alert + k := NewDelivery(alert, ids[k - 1], now)]
  }

  /** Earlier deliveries are untouched, and the new ones match the channels one to one. */
  ghost predicate FansOut(was: Table, after: Table, alert: nat, ids: seq<int>, now: int) {
    && (forall id :: id in was ==> id in after && after[id] == was[id])
    && (forall i :: 0 <= i < |ids| ==> alert + 1 + i in after && after[alert + 1 + i] == Delivery(alert, ids[i], Pending, 1, now))
    && (forall id :: id in after && id !in was ==> alert < id <= alert + |ids|)
  }

  lemma {:induction false} FannedOutContents(was: Table, alert: nat, ids: seq<int>, k: nat, now: int)
    requires k <= |ids| && forall id :: id in was ==> id < alert
    ensures var after := FannedOut(was, alert, ids, k, now);
            && (forall id :: id in after <==> id in was || alert < id <= alert + k)
            && (forall id :: id in was ==> after[id] == was[id])
            && (forall i :: 0 <= i < k ==> after[alert + 1 + i] == Delivery(alert, ids[i], Pending, 1, now))
  {
    if k > 0 { FannedOutContents(was, alert, ids, k - 1, now); }
  }

  lemma {:induction false} FannedOutFansOut(was: Table, alert: nat, ids: seq<int>, now: int)
    requires forall id :: id in was ==> id < alert
    ensures FansOut(was, FannedOut(was, alert, ids, |ids|, now), alert, ids, now)
  {
    FannedOutContents(was, alert, ids, |ids|, now);
  }

  /** The deliveries of an alert go to the active channels of the tenant, in order, and to no other. */
  lemma {:induction false} ActiveIdsExact(channels: seq<Channel>, k: nat, tenant: int, id: int)
    requires k <= |channels|
    ensures id in ActiveIds(channels, k, tenant) <==>
              exists i :: 0 <= i < k && channels[i].id == id && channels[i].tenant == tenant && channels[i].active
    ensures |ActiveIds(channels, k, tenant)| == |set i: nat | i < k && channels[i].tenant == tenant && channels[i].active|
  {
    var active := set i: nat | i < k && channels[i].tenant == tenant && channels[i].active;
    if k > 0 {
      ActiveIdsExact(channels, k - 1, tenant, id);
      var front := set i: nat | i < k - 1 && channels[i].tenant == tenant && channels[i].active;
      assert active == if channels[k - 1].tenant == tenant && channels[k - 1].active then front + {k - 1} else front;
    }
  }

  // ----- One delivery -----

  /** What happens to a row: a dispatch and its mark, a dispatch whose mark statement fails, or the periodic retry. */
  datatype Event = MarkSent | MarkFailed | MarkLost | Retry(now: int)

  /** A mark by a worker that lists the row as pending; the retry leaves old and exhausted rows. */
  function Next(d: Delivery, e: Event, maxAttempts: int): Delivery {
    match e
    case MarkSent => if d.status == Pending then d.(status := Sent) else d
    case MarkFailed => if d.status == Pending then d.(status := Failed, attempt := d.attempt + 1) else d
    case MarkLost => d
    case Retry(now) => if Retryable(d, maxAttempts, now) then d.(status := Pending) else d
  }

  predicate Retryable(d: Delivery, maxAttempts: int, now: int) {
    d.status == Failed && d.attempt < maxAttempts && d.createdAt > now - 24 * HOUR
  }

  function Run(d: Delivery, events: seq<Event>, k: nat, maxAttempts: int): Delivery
    requires k <= |events|
  {
    if k == 0 then d else Next(Run(d, events, k - 1, maxAttempts), events[k - 1], maxAttempts)
  }

  /** Recorded failures among the first `k` events. */
  function Failures(d: Delivery, events: seq<Event>, k: nat, maxAttempts: int): nat
    requires k <= |events|
  {
    if k == 0 then 0
    else
      Failures(d, events, k - 1, maxAttempts) +
      if events[k - 1].MarkFailed? && Run(d, events, k - 1, maxAttempts).status == Pending then 1 else 0
  }

  /** Dispatches among the first `k` events whose mark was lost, so that the row is still pending. */
  function Losses(d: Delivery, events: seq<Event>, k: nat, maxAttempts: int): nat
    requires k <= |events|
  {
    if k == 0 then 0
    else
      Losses(d, events, k - 1, maxAttempts) +
      if events[k - 1].MarkLost? && Run(d, events, k - 1, maxAttempts).status == Pending then 1 else 0
  }

  /** Dispatches among the first `k` events, failed, sent or not marked. */
  function Dispatches(d: Delivery, events: seq<Event>, k: nat, maxAttempts: int): nat
    requires k <= |events|
  {
    if k == 0 then 0
    else
      Dispatches(d, events, k - 1, maxAttempts) +
      if !events[k - 1].Retry? && Run(d, events, k - 1, maxAttempts).status == Pending then 1 else 0
  }

  lemma {:induction false} FailuresTracked(d: Delivery, events: seq<Event>, k: nat, maxAttempts: int)
    requires d.status == Pending && k <= |events|
    ensures var n, r := Failures(d, events, k, maxAttempts), Run(d, events, k, maxAttempts);
            && r.attempt == d.attempt + n
            && n <= Max(1, maxAttempts - d.attempt)
            && (r.status == Pending && n > 0 ==> r.attempt < maxAttempts)
            && (r.status == Failed ==> n > 0)
            && n + (if r.status == Sent then 1 else 0) <= Max(1, maxAttempts - d.attempt)
            && Dispatches(d, events, k, maxAttempts) == n + (if r.status == Sent then 1 else 0) + Losses(d, events, k, maxAttempts)
  {
    if k > 0 { FailuresTracked(d, events, k - 1, maxAttempts); }
  }

  /**
   A new delivery is dispatched at most `maxAttempts - 1` times, or once, and once more for every mark
   that was lost; the successful dispatch is included.
   */
  lemma {:induction false} DispatchesBounded(alert: nat, channel: int, at: int, events: seq<Event>, maxAttempts: int)
    ensures var d := NewDelivery(alert, channel, at);
            var lost := Losses(d, events, |events|, maxAttempts);
            && Dispatches(d, events, |events|, maxAttempts) <= Max(1, maxAttempts - 1) + lost
            && Failures(d, events, |events|, maxAttempts) + lost <= Dispatches(d, events, |events|, maxAttempts)
  {
    FailuresTracked(NewDelivery(alert, channel, at), events, |events|, maxAttempts);
  }

  /** Some lost marks, then alternating failures and retries, right after creation. */
  function Stubborn(n: nat, lost: nat, at: int): seq<Event> {
    if n == 0 then seq(lost, _ => MarkLost)
    else if n == 1 then Stubborn(0, lost, at) + [MarkFailed]
    else Stubborn(n - 1, lost, at) + [Retry(at)] + [MarkFailed]
  }

  lemma {:induction false} RunExtends(d: Delivery, a: seq<Event>, b: seq<Event>, k: nat, maxAttempts: int)
    requires k <= |a|
    ensures Run(d, a + b, k, maxAttempts) == Run(d, a, k, maxAttempts)
    ensures Failures(d, a + b, k, maxAttempts) == Failures(d, a, k, maxAttempts)
    ensures Losses(d, a + b, k, maxAttempts) == Losses(d, a, k, maxAttempts)
    ensures Dispatches(d, a + b, k, maxAttempts) == Dispatches(d, a, k, maxAttempts)
  {
    if k > 0 { RunExtends(d, a, b, k - 1, maxAttempts); }
  }

  /** What a run leaves: the row, its recorded failures and its lost marks. */
  ghost predicate Leaves(d: Delivery, events: seq<Event>, maxAttempts: int, r: Delivery, n: nat, lost: nat) {
    && Run(d, events, |events|, maxAttempts) == r
    && Failures(d, events, |events|, maxAttempts) == n
    && Losses(d, events, |events|, maxAttempts) == lost
  }

  lemma {:induction false} LeavesSnoc(d: Delivery, events: seq<Event>, maxAttempts: int, r: Delivery, n: nat, lost: nat, e: Event)
    requires Leaves(d, events, maxAttempts, r, n, lost)
    ensures Leaves(d, events + [e], maxAttempts, Next(r, e, maxAttempts),
                   n + (if e.MarkFailed? && r.status == Pending then 1 else 0),
                   lost + (if e.MarkLost? && r.status == Pending then 1 else 0))
  {
    hide Next;
    RunExtends(d, events, [e], |events|, maxAttempts);
  }

  lemma {:induction false} LostLeaves(d: Delivery, lost: nat, at: int, maxAttempts: int)
    requires d.status == Pending
    ensures Leaves(d, Stubborn(0, lost, at), maxAttempts, d, 0, lost)
  {
    if lost > 0 {
      LostLeaves(d, lost - 1, at, maxAttempts);
      LeavesSnoc(d, Stubborn(0, lost - 1, at), maxAttempts, d, 0, lost - 1, MarkLost);
      assert Stubborn(0, lost, at) == Stubborn(0, lost - 1, at) + [MarkLost];
    }
  }

  /** The bound is met: the ceiling is on the attempt column, which starts at 1, not on the number of sends. */
  lemma {:induction false} BoundIsMet(alert: nat, channel: int, at: int, n: nat, lost: nat, maxAttempts: int)
    requires 1 <= n <= Max(1, maxAttempts - 1)
    ensures var d, e := NewDelivery(alert, channel, at), Stubborn(n, lost, at);
            && Dispatches(d, e, |e|, maxAttempts) == n + lost
            && Leaves(d, e, maxAttempts, d.(status := Failed, attempt := 1 + n), n, lost)
  {
    hide Leaves, Run, Failures, Losses, Dispatches;
    var d := NewDelivery(alert, channel, at);
    if n > 1 {
      BoundIsMet(alert, channel, at, n - 1, lost, maxAttempts);
      var front := Stubborn(n - 1, lost, at);
      LeavesSnoc(d, front, maxAttempts, d.(status := Failed, attempt := n), n - 1, lost, Retry(at));
      LeavesSnoc(d, front + [Retry(at)], maxAttempts, d.(attempt := n), n - 1, lost, MarkFailed);
    } else {
      LostLeaves(d, lost, at, maxAttempts);
      LeavesSnoc(d, Stubborn(0, lost, at), maxAttempts, d, 0, lost, MarkFailed);
    }
    LeftDispatches(d, Stubborn(n, lost, at), maxAttempts, d.(status := Failed, attempt := 1 + n), n, lost);
  }

  lemma {:induction false} LeftDispatches(d: Delivery, events: seq<Event>, maxAttempts: int, r: Delivery, n: nat, lost: nat)
    requires d.status == Pending && r.status == Failed && Leaves(d, events, maxAttempts, r, n, lost)
    ensures Dispatches(d, events, |events|, maxAttempts) == n + lost
  {
    FailuresTracked(d, events, |events|, maxAttempts);
  }

  /** What is left for a row to do: it strictly decreases whenever the row changes. */
  function Rank(d: Delivery, maxAttempts: int): nat {
    match d.status
    case Sent => 0
    case Pending => 2 * Max(maxAttempts - d.attempt, 0) + 1
    case Failed => if d.attempt < maxAttempts then 2 * (maxAttempts - d.attempt) + 2 else 0
  }

  lemma {:induction false} RankDecreases(d: Delivery, e: Event, maxAttempts: int)
    ensures Next(d, e, maxAttempts) != d ==> Rank(Next(d, e, maxAttempts), maxAttempts) < Rank(d, maxAttempts)
  {
  }

  function Changes(d: Delivery, events: seq<Event>, k: nat, maxAttempts: int): nat
    requires k <= |events|
  {
    if k == 0 then 0
    else
      Changes(d, events, k - 1, maxAttempts) +
      if Run(d, events, k, maxAttempts) != Run(d, events, k - 1, maxAttempts) then 1 else 0
  }

  /** Every run changes a row only finitely often, and never after it was sent. */
  lemma {:induction false} CycleEnds(d: Delivery, events: seq<Event>, k: nat, maxAttempts: int)
    requires k <= |events|
    ensures Changes(d, events, k, maxAttempts) + Rank(Run(d, events, k, maxAttempts), maxAttempts) <= Rank(d, maxAttempts)
    ensures d.status == Sent ==> Run(d, events, k, maxAttempts) == d
  {
    if k > 0 {
      CycleEnds(d, events, k - 1, maxAttempts);
      RankDecreases(Run(d, events, k - 1, maxAttempts), events[k - 1], maxAttempts);
    }
  }

  // ----- Which failures are retried -----

  /** No retry comes within a day of the delivery's creation while it has attempts left. */
  ghost predicate NoRetryInTime(d: Delivery, events: seq<Event>, maxAttempts: int) {
    forall i :: 0 <= i < |events| && events[i].Retry? && events[i].now < d.createdAt + 86_400_000_000_000 ==> d.attempt >= maxAttempts
  }

  /** Then a failed delivery stays failed and is never dispatched again. */
  lemma {:induction false} StaysFailed(d: Delivery, events: seq<Event>, k: nat, maxAttempts: int)
    requires d.status == Failed && NoRetryInTime(d, events, maxAttempts) && k <= |events|
    ensures Run(d, events, k, maxAttempts) == d && Dispatches(d, events, k, maxAttempts) == 0
  {
    if k > 0 { StaysFailed(d, events, k - 1, maxAttempts); }
  }

  /** A failed delivery is dispatched again exactly when a retry finds it under the ceiling and younger than a day, and a poll follows. */
  lemma {:induction false} RetriedExactly(d: Delivery, now: int, e: Event, maxAttempts: int)
    requires d.status == Failed && !e.Retry?
    ensures Dispatches(d, [Retry(now), e], 2, maxAttempts) ==
            if d.attempt < maxAttempts && now - d.createdAt < 86_400_000_000_000 then 1 else 0
  {
    var events := [Retry(now), e];
    assert events[0] == Retry(now) && events[1] == e;
    assert Run(d, events, 1, maxAttempts) == Next(d, Retry(now), maxAttempts);
    assert Dispatches(d, events, 1, maxAttempts) == 0;
  }

  // ----- The worker -----

  /** A dispatched row, whether sending succeeded, and whether the mark statement did. */
  datatype Dispatch = Dispatch(id: nat, ok: bool, marked: bool)

  /** The worker's cycle: a poll with the rows it listed as pending, or a retry of failed rows. */
  datatype Cycle = Poll(listed: seq<Dispatch>) | RetryAll(now: int)

  ghost predicate ListsPending(t: Table, listed: seq<Dispatch>) {
    && (forall i :: 0 <= i < |listed| ==> listed[i].id in t && t[listed[i].id].status == Pending)
    && (forall i, j :: 0 <= i < j < |listed| ==> listed[i].id != listed[j].id)
  }

  function MarkFor(d: Dispatch): Event {
    if !d.marked then MarkLost else if d.ok then MarkSent else MarkFailed
  }

  /** The mark the first `k` dispatches of a poll give a row, if any. */
  function MarkOf(listed: seq<Dispatch>, k: nat, id: nat): Option<Event>
    requires k <= |listed|
  {
    if k == 0 then None
    else if listed[k - 1].id == id then Some(MarkFor(listed[k - 1]))
    else MarkOf(listed, k - 1, id)
  }

  lemma {:induction false} Unmarked(listed: seq<Dispatch>, k: nat, id: nat)
    requires k <= |listed| && forall i :: 0 <= i < k ==> listed[i].id != id
    ensures MarkOf(listed, k, id).None?
  {
    if k > 0 { Unmarked(listed, k - 1, id); }
  }

  function NextIf(d: Delivery, e: Option<Event>, maxAttempts: int): Delivery {
    if e.None? then d else Next(d, e.value, maxAttempts)
  }

  function AfterMarks(t: Table, listed: seq<Dispatch>, k: nat, maxAttempts: int): Table
    requires k <= |listed|
  {
    map id | id in t :: NextIf(t[id], MarkOf(listed, k, id), maxAttempts)
  }

  function EventOf(c: Cycle, id: nat): Option<Event> {
    match c
    case Poll(listed) => MarkOf(listed, |listed|, id)
    case RetryAll(now) => Some(Retry(now))
  }

  function AfterCycle(t: Table, c: Cycle, maxAttempts: int): Table {
    map id | id in t :: NextIf(t[id], EventOf(c, id), maxAttempts)
  }

  lemma {:induction false} MarkOfListed(t: Table, listed: seq<Dispatch>, k: nat, i: nat)
    requires ListsPending(t, listed) && i < k <= |listed|
    ensures MarkOf(listed, k, listed[i].id) == Some(MarkFor(listed[i]))
  {
    if i < k - 1 { MarkOfListed(t, listed, k - 1, i); }
  }

  /** A poll leaves each listed row sent, failed with one more attempt, or as it was if the mark is lost, and any other row alone. */
  lemma {:induction false} PollExactly(t: Table, listed: seq<Dispatch>, i: nat, other: nat, maxAttempts: int)
    requires ListsPending(t, listed) && i < |listed|
    requires other in t && forall j :: 0 <= j < |listed| ==> listed[j].id != other
    ensures var after, id := AfterCycle(t, Poll(listed), maxAttempts), listed[i].id;
            && after.Keys == t.Keys && after[other] == t[other]
            && after[id] == if !listed[i].marked then t[id]
                            else if listed[i].ok then t[id].(status := Sent)
                            else t[id].(status := Failed, attempt := t[id].attempt + 1)
  {
    MarkOfListed(t, listed, |listed|, i);
    Unmarked(listed, |listed|, other);
  }

  /** A retry makes exactly the failed rows under the ceiling and younger than a day pending, and changes nothing else. */
  lemma {:induction false} RetryAllExactly(t: Table, now: int, id: nat, maxAttempts: int)
    requires id in t
    ensures var after := AfterCycle(t, RetryAll(now), maxAttempts);
            && after.Keys == t.Keys
            && after[id] == if t[id].status == Failed && t[id].attempt < maxAttempts && now - t[id].createdAt < 86_400_000_000_000
                            then t[id].(status := Pending) else t[id]
  {
  }

  class Worker {
    var table: Table
    const maxAttempts: int

    constructor (table: Table, maxAttempts: int)
      ensures this.table == table && this.maxAttempts == if maxAttempts <= 0 then 3 else maxAttempts
    {
      this.table := table;
      this.maxAttempts := if maxAttempts <= 0 then 3 else maxAttempts;
    }

    /** The mark statements put no condition on the status of the row. */
    method MarkDelivery(id: nat, ok: bool)
      modifies this
      ensures id !in old(table) ==> table == old(table)
      ensures id in old(table) ==>
                table == old(table)[id := if ok then old(table[id]).(status := Sent)
                                          else old(table[id]).(status := Failed, attempt := old(table[id]).attempt + 1)]
    {
      if id in table {
        table := table[id := if ok then table[id].(status := Sent) else table[id].(status := Failed, attempt := table[id].attempt + 1)];
      }
    }

    /** Each listed row takes its one mark, unless it is lost; no other row changes. */
    method DeliverPending(listed: seq<Dispatch>)
      requires ListsPending(table, listed)
      modifies this
      ensures table == AfterCycle(old(table), Poll(listed), maxAttempts)
    {
      ghost var was := table;
      for i := 0 to |listed|
        invariant table == AfterMarks(was, listed, i, maxAttempts)
      {
        Unmarked(listed, i, listed[i].id);
        if listed[i].marked {
          MarkDelivery(listed[i].id, listed[i].ok);
        }
        assert table == AfterMarks(was, listed, i + 1, maxAttempts);
      }
    }

    method RetryFailedDeliveries(now: int)
      modifies this
      ensures table == AfterCycle(old(table), RetryAll(now), maxAttempts)
    {
      table := map id | id in table :: if Retryable(table[id], maxAttempts, now) then table[id].(status := Pending) else table[id];
    }
  }

  /** The table after the first `k` cycles of a single worker. */
  function TableRun(t: Table, cycles: seq<Cycle>, k: nat, maxAttempts: int): Table
    requires k <= |cycles|
  {
    if k == 0 then t else AfterCycle(TableRun(t, cycles, k - 1, maxAttempts), cycles[k - 1], maxAttempts)
  }

  /** What the first `k` cycles mean for one row. */
  function RowEvents(cycles: seq<Cycle>, k: nat, id: nat): seq<Event>
    requires k <= |cycles|
  {
    if k == 0 then []
    else
      var e := EventOf(cycles[k - 1], id);
      RowEvents(cycles, k - 1, id) + if e.Some? then [e.value] else []
  }

  lemma {:induction false} RowOfTable(t: Table, cycles: seq<Cycle>, k: nat, maxAttempts: int, id: nat)
    requires k <= |cycles| && id in t
    ensures var events := RowEvents(cycles, k, id);
            id in TableRun(t, cycles, k, maxAttempts)
            && TableRun(t, cycles, k, maxAttempts)[id] == Run(t[id], events, |events|, maxAttempts)
  {
    if k > 0 {
      RowOfTable(t, cycles, k - 1, maxAttempts, id);
      var front, e := RowEvents(cycles, k - 1, id), EventOf(cycles[k - 1], id);
      if e.Some? {
        RunExtends(t[id], front, [e.value], |front|, maxAttempts);
      } else {
        assert front + [] == front;
      }
    }
  }

  /**
   In every run of the worker, failures recorded and a sending together are at most
   `max(1, maxAttempts - 1)`, and the row is dispatched once more for every lost mark.
   */
  lemma {:induction false} EveryDeliveryBounded(t: Table, cycles: seq<Cycle>, maxAttempts: int, id: nat)
    requires id in t && t[id].status == Pending && t[id].attempt == 1
    ensures id in TableRun(t, cycles, |cycles|, maxAttempts)
    ensures var d := TableRun(t, cycles, |cycles|, maxAttempts)[id];
            var events := RowEvents(cycles, |cycles|, id);
            && d.attempt - 1 + (if d.status == Sent then 1 else 0) <= Max(1, maxAttempts - 1)
            && Dispatches(t[id], events, |events|, maxAttempts) ==
               d.attempt - 1 + (if d.status == Sent then 1 else 0) + Losses(t[id], events, |events|, maxAttempts)
  {
    RowOfTable(t, cycles, |cycles|, maxAttempts, id);
    var events := RowEvents(cycles, |cycles|, id);
    FailuresTracked(t[id], events, |events|, maxAttempts);
  }

  /** With two workers a row can be marked after it was sent, so `sent` is then not final. */
  method SecondMarkUndoesSent(w: Worker, id: nat)
    requires id in w.table && w.table[id].status == Pending
    modifies w
    ensures id in w.table && w.table[id].status == Failed
  {
    w.MarkDelivery(id, true);
    assert w.table[id].status == Sent;
    w.MarkDelivery(id, false);
  }
}

/** Error groups and the alerts their ingests raise: the SQL statements as changes of rows. */
module ErrorGroups {
  import opened Options

  datatype Status = Open | Acknowledged | Resolved

  /** Groups are unique per environment and signature. */
  datatype Key = Key(env: int, signature: string)

  datatype Group = Group(
    status: Status, count: int, users: seq<int>, firstSeen: int, lastSeen: int,
    resolvedBy: Option<int>, resolvedAt: Option<int>, traceRef: Option<string>)

  /** One ingest; the threshold of the spike alert comes with each report. */
  datatype Report = Report(key: Key, uids: seq<int>, at: int, traceRef: Option<string>, threshold: int)

  type Groups = map<Key, Group>

  const MAX_INT32 := 0x7fff_ffff

  function Lookup(groups: Groups, key: Key): Option<Group> {
    if key in groups then Some(groups[key]) else None
  }

  predicate Closed(g: Option<Group>) { g.Some? && g.value.status != Open }

  // ----- Statements on one row -----

  /** INSERT … ON CONFLICT DO UPDATE: a closed group is reopened. */
  function Fired(g: Option<Group>, r: Report): Group {
    match g
    case None => Group(Open, 1, r.uids, r.at, r.at, None, None, r.traceRef)
    case Some(was) =>
      var next := was.(lastSeen := r.at, count := was.count + 1, traceRef := r.traceRef);
      if was.status != Open then next.(status := Open, resolvedBy := None, resolvedAt := None) else next
  }

  /** The counter column is a 32-bit integer; the update of a full one is an error. */
  predicate Overflows(g: Option<Group>) { g.Some? && g.value.count >= MAX_INT32 }

  /** First occurrences among the first `k` elements. */
  function Distinct(s: seq<int>, k: nat): seq<int>
    requires k <= |s|
  {
    if k == 0 then []
    else
      var front := Distinct(s, k - 1);
      if s[k - 1] in front then front else front + [s[k - 1]]
  }

  function WithUsers(g: Group, uids: seq<int>): Group {
    if uids == [] then g else g.(users := Distinct(g.users + uids, |g.users + uids|))
  }

  /** The row an ingest leaves. */
  function Ingested(g: Option<Group>, r: Report): Group { WithUsers(Fired(g, r), r.uids) }

  function AsResolved(g: Group, user: Option<int>, at: int): Group {
    g.(status := Resolved, resolvedBy := user, resolvedAt := Some(at))
  }

  function AsAcknowledged(g: Group): Group { g.(status := Acknowledged) }

  function AsReopened(g: Group): Group { g.(status := Open, resolvedBy := None, resolvedAt := None) }

  ghost predicate NoDuplicates(s: seq<int>) { forall i, j :: 0 <= i < j < |s| ==> s[i] != s[j] }

  lemma {:induction false} DistinctIsExact(s: seq<int>, k: nat)
    requires k <= |s|
    ensures NoDuplicates(Distinct(s, k))
    ensures forall u :: u in Distinct(s, k) <==> u in s[..k]
  {
    if k > 0 {
      DistinctIsExact(s, k - 1);
      assert s[..k] == s[..k - 1] + [s[k - 1]];
    }
  }

  // ----- Alerts -----

  datatype AlertKind = ErrorReopen | ErrorSpike

  datatype Alert = Alert(kind: AlertKind, key: Key, count: int)

  /** Conversion of a machine integer to 32 bits. */
  function Wrap32(x: int): int { (x + 0x8000_0000) % 0x1_0000_0000 - 0x8000_0000 }

  predicate SpikeDue(threshold: int, count: int) {
    !(threshold <= 0 || count < Wrap32(threshold)) && !(count - 1 >= Wrap32(threshold))
  }

  /** The alerts of an ingest, from the row it left and the status it had read before. */
  function AlertsFor(g: Group, key: Key, wasClosed: bool, threshold: int): seq<Alert> {
    (if wasClosed && g.status == Open then [Alert(ErrorReopen, key, g.count)] else []) +
    (if SpikeDue(threshold, g.count) then [Alert(ErrorSpike, key, g.count)] else [])
  }

  // ----- The store -----

  /** Where a statement of a transaction fails, if anywhere. */
  datatype Fault = NoFault | AtUpsert | AtMerge | AtReopenAlert | AtSpikeAlert | AtCommit

  class Store {
    var groups: Groups
    var alerts: seq<Alert>

    constructor ()
      ensures groups == map[] && alerts == []
    {
      groups, alerts := map[], [];
    }

    method AppendAffectedUsers(key: Key, uids: seq<int>)
      requires key in groups && uids != []
      modifies this
      ensures groups == old(groups)[key := WithUsers(old(groups[key]), uids)] && alerts == old(alerts)
    {
      var all := groups[key].users + uids;
      var users: seq<int> := [];
      for i := 0 to |all|
        invariant users == Distinct(all, i)
      {
        if all[i] !in users {
          users := users + [all[i]];
        }
      }
      groups := groups[key := groups[key].(users := users)];
    }

    /** The statements of one ingest, stopping at the first that fails. */
    method IngestStatements(r: Report, fault: Fault) returns (ok: bool)
      modifies this
      ensures ok ==> !Overflows(Lookup(old(groups), r.key))
      ensures ok ==>
                var row := Ingested(Lookup(old(groups), r.key), r);
                && groups == old(groups)[r.key := row]
                && alerts == old(alerts) + AlertsFor(row, r.key, Closed(Lookup(old(groups), r.key)), r.threshold)
      ensures fault in {NoFault, AtCommit} && !Overflows(Lookup(old(groups), r.key)) ==> ok
    {
      var wasClosed := r.key in groups && (groups[r.key].status == Resolved || groups[r.key].status == Acknowledged);
      if fault == AtUpsert || Overflows(Lookup(groups, r.key)) {
        return false;
      }
      groups := groups[r.key := Fired(Lookup(groups, r.key), r)];
      var eg := groups[r.key];
      if |r.uids| > 0 {
        if fault == AtMerge {
          return false;
        }
        AppendAffectedUsers(r.key, r.uids);
      }
      if wasClosed && eg.status == Open {
        if fault == AtReopenAlert {
          return false;
        }
        alerts := alerts + [Alert(ErrorReopen, r.key, eg.count)];
      }
      if r.threshold > 0 && eg.count >= Wrap32(r.threshold) {
        var preCount := eg.count - 1;
        if preCount < Wrap32(r.threshold) {
          if fault == AtSpikeAlert {
            return false;
          }
          alerts := alerts + [Alert(ErrorSpike, r.key, eg.count)];
        }
      }
      return true;
    }

    /** Commit or nothing: a failed transaction leaves rows and alerts as they were. */
    method IngestErrorBatchTx(r: Report, fault: Fault) returns (ok: bool)
      modifies this
      ensures ok ==>
                var row := Ingested(Lookup(old(groups), r.key), r);
                && groups == old(groups)[r.key := row]
                && alerts == old(alerts) + AlertsFor(row, r.key, Closed(Lookup(old(groups), r.key)), r.threshold)
      ensures !ok ==> groups == old(groups) && alerts == old(alerts)
      ensures fault == NoFault ==> (ok <==> !Overflows(Lookup(old(groups), r.key)))
      ensures fault == AtCommit ==> !ok
    {
      var groups0, alerts0 := groups, alerts;
      ok := IngestStatements(r, fault);
      if !ok || fault == AtCommit {
        groups, alerts := groups0, alerts0;
        return false;
      }
    }

    method ResolveErrorGroup(key: Key, user: Option<int>, now: int) returns (ok: bool)
      modifies this`groups
      ensures ok == (key in old(groups))
      ensures groups == if ok then old(groups)[key := AsResolved(old(groups)[key], user, now)] else old(groups)
    {
      if key !in groups {
        return false;
      }
      groups := groups[key := groups[key].(status := Resolved, resolvedBy := user, resolvedAt := Some(now))];
      return true;
    }

    method AcknowledgeErrorGroup(key: Key) returns (ok: bool)
      modifies this`groups
      ensures ok == (key in old(groups))
      ensures groups == if ok then old(groups)[key := AsAcknowledged(old(groups)[key])] else old(groups)
    {
      if key !in groups {
        return false;
      }
      groups := groups[key := groups[key].(status := Acknowledged)];
      return true;
    }

    method ReopenErrorGroup(key: Key) returns (ok: bool)
      modifies this`groups
      ensures ok == (key in old(groups))
      ensures groups == if ok then old(groups)[key := AsReopened(old(groups)[key])] else old(groups)
    {
      if key !in groups {
        return false;
      }
      groups := groups[key := groups[key].(status := Open, resolvedBy := None, resolvedAt := None)];
      return true;
    }
  }
}

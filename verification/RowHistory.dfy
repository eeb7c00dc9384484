/** What the history of a row says about its status, and what the alerts of a run tell of its ingests. */
module RowHistory {
  import opened Options
  import opened Tallies
  import opened ErrorGroups
  import opened IngestRuns

  /** A change of a row. */
  datatype Change = ByIngest | ByResolve(user: Option<int>, at: int) | ByAcknowledge | ByReopen

  /** The change of the row that a step makes, if any. */
  ghost function ChangeOf(s: State, e: Event, key: Key): Option<Change> {
    match e
    case Commit(tx) => if MayCommit(s, tx) && s.txs[tx].report.key == key then Some(ByIngest) else None
    case Resolve(k, user, at) => if k == key && key in s.groups && !Locked(s, key) then Some(ByResolve(user, at)) else None
    case Acknowledge(k) => if k == key && key in s.groups && !Locked(s, key) then Some(ByAcknowledge) else None
    case Reopen(k) => if k == key && key in s.groups && !Locked(s, key) then Some(ByReopen) else None
    case _ => None
  }

  /** The changes of a row in its present life, in order. */
  ghost function Changes(events: seq<Event>, k: nat, key: Key): seq<Change>
    requires k <= |events|
  {
    if k == 0 then []
    else
      var s := Life(events, k - 1, key);
      if Removes(s, events[k - 1], key) then []
      else
        match ChangeOf(s, events[k - 1], key)
        case None => Changes(events, k - 1, key)
        case Some(c) => Changes(events, k - 1, key) + [c]
  }

  function StatusAfter(c: Change): Status {
    match c
    case ByIngest => Open
    case ByResolve(_, _) => Resolved
    case ByAcknowledge => Acknowledged
    case ByReopen => Open
  }

  /** The last resolve, unless the group was reopened since; acknowledging does not count. */
  function Resolution(changes: seq<Change>): Option<Change> {
    if changes == [] then None
    else
      match changes[|changes| - 1]
      case ByResolve(_, _) => Some(changes[|changes| - 1])
      case ByAcknowledge => Resolution(changes[..|changes| - 1])
      case _ => None
  }

  ghost predicate RowTells(g: Group, changes: seq<Change>) {
    && changes != [] && g.status == StatusAfter(changes[|changes| - 1])
    && match Resolution(changes)
       case Some(ByResolve(user, at)) => g.resolvedBy == user && g.resolvedAt == Some(at)
       case _ => g.resolvedBy == None && g.resolvedAt == None
  }

  lemma {:induction false} IngestOpens(g: Option<Group>, r: Report)
    requires g.Some? && g.value.status == Open ==> g.value.resolvedBy.None? && g.value.resolvedAt.None?
    ensures Ingested(g, r).status == Open && Ingested(g, r).resolvedBy.None? && Ingested(g, r).resolvedAt.None?
  {
  }

  lemma {:induction false} ResolutionSnoc(changes: seq<Change>, c: Change)
    ensures Resolution(changes + [c]) == if c.ByResolve? then Some(c) else if c.ByAcknowledge? then Resolution(changes) else None
  {
  }

  lemma {:induction false} OpenIsUnresolved(s: State, key: Key)
    requires Accounts(s, key)
    ensures var g := Lookup(s.groups, key); g.Some? && g.value.status == Open ==> g.value.resolvedBy.None? && g.value.resolvedAt.None?
  {
    hide Tally, Reported, Numbered, FirstReport, LastReport;
  }

  lemma {:induction false} StepTells(s: State, e: Event, key: Key, changes: seq<Change>)
    requires LocksHold(s) && Accounts(s, key) && !Removes(s, e, key)
    requires key in s.groups ==> RowTells(s.groups[key], changes)
    ensures var after := if ChangeOf(s, e, key).Some? then changes + [ChangeOf(s, e, key).value] else changes;
            key in Step(s, e).groups ==> RowTells(Step(s, e).groups[key], after)
  {
    OpenIsUnresolved(s, key);
    hide Ingested, AlertsFor, Accounts, Resolution;
    var c := ChangeOf(s, e, key);
    if c.Some? {
      ResolutionSnoc(changes, c.value);
      if e.Commit? { IngestOpens(Lookup(s.groups, key), s.txs[e.tx].report); }
    }
  }

  lemma {:induction false} RunTells(events: seq<Event>, k: nat, key: Key)
    requires k <= |events|
    ensures key in Life(events, k, key).groups ==> RowTells(Life(events, k, key).groups[key], Changes(events, k, key))
  {
    hide Step, LocksHold, Accounts, RowTells, ChangeOf;
    if k > 0 {
      var s, e := Life(events, k - 1, key), events[k - 1];
      RunTells(events, k - 1, key);
      LifeKeeps(events, k - 1, key);
      if Removes(s, e, key) {
        RemovedIsGone(s, e, key);
      } else {
        StepTells(s, e, key, Changes(events, k - 1, key));
      }
    }
  }

  lemma {:induction false} RemovedIsGone(s: State, e: Event, key: Key)
    requires Removes(s, e, key)
    ensures key !in Step(s, e).groups
  {
  }

  /**
   In every run, a row's status is that of its last change: open after an ingest or a reopen, resolved
   or acknowledged otherwise; and its resolution columns are those of the last resolve since it was
   last open.
   */
  lemma {:induction false} StatusIsLastChange(events: seq<Event>, key: Key)
    ensures var s := Run(INITIAL, events, |events|);
            key in s.groups ==> RowTells(s.groups[key], Changes(events, |events|, key))
  {
    hide Step, RowTells, Changes;
    RunTells(events, |events|, key);
    LifeIsSinceBirth(events, |events|, key);
  }

  /** An aborted transaction leaves no row, no alert and no entry behind, and frees the row it held. */
  lemma {:induction false} AbortReleases(s: State, tx: int)
    requires LocksHold(s) && MayCommit(s, tx)
    ensures var after := Step(s, Abort(tx));
            && after == s.(txs := after.txs) && tx !in after.txs && !Locked(after, s.txs[tx].report.key)
            && forall other :: other != tx ==> (other in after.txs <==> other in s.txs) && (other in s.txs ==> after.txs[other] == s.txs[other])
  {
  }

  // ----- What alerts tell -----

  /** An alert carries the count an ingest left: one that was due, or one that read a closed group. */
  ghost predicate FromLog(a: Alert, log: seq<Done>) {
    exists i :: 0 <= i < |log| && log[i].report.key == a.key && log[i].count == a.count
                && match a.kind
                   case ErrorSpike => log[i].report.threshold > 0 && log[i].count == Wrap32(log[i].report.threshold)
                   case ErrorReopen => log[i].readClosed
  }

  ghost predicate AllFromLog(s: State) { forall i :: 0 <= i < |s.alerts| ==> FromLog(s.alerts[i], s.log) }

  lemma {:induction false} FromLonger(a: Alert, log: seq<Done>, d: Done)
    requires FromLog(a, log)
    ensures FromLog(a, log + [d])
  {
    var i :| 0 <= i < |log| && log[i].report.key == a.key && log[i].count == a.count
             && match a.kind
                case ErrorSpike => log[i].report.threshold > 0 && log[i].count == Wrap32(log[i].report.threshold)
                case ErrorReopen => log[i].readClosed;
    assert (log + [d])[i] == log[i];
  }

  lemma {:induction false} NewFromLog(g: Group, r: Report, wasClosed: bool, foundClosed: bool, log: seq<Done>, a: Alert)
    requires a in AlertsFor(g, r.key, wasClosed, r.threshold)
    ensures FromLog(a, log + [Done(r, wasClosed, foundClosed, g.count)])
  {
    var d := Done(r, wasClosed, foundClosed, g.count);
    assert (log + [d])[|log|] == d;
  }

  lemma {:induction false} CommitFromLog(s: State, tx: int)
    requires MayCommit(s, tx) && AllFromLog(s)
    ensures AllFromLog(AfterCommit(s, tx))
  {
    hide FromLog, AlertsFor;
    var t := s.txs[tx];
    var d, after := Done(t.report, t.wasClosed, t.foundClosed, t.row.count), AfterCommit(s, tx);
    forall i | 0 <= i < |after.alerts| ensures FromLog(after.alerts[i], after.log) {
      if i < |s.alerts| {
        FromLonger(s.alerts[i], s.log, d);
      } else {
        NewFromLog(t.row, t.report, t.wasClosed, t.foundClosed, s.log, after.alerts[i]);
      }
    }
  }

  /** Every alert of every run carries the count of the ingest it is for. */
  lemma {:induction false} AlertsTellCounts(events: seq<Event>, k: nat)
    requires k <= |events|
    ensures AllFromLog(Run(INITIAL, events, k))
  {
    hide FromLog;
    if k > 0 {
      AlertsTellCounts(events, k - 1);
      var s, e := Run(INITIAL, events, k - 1), events[k - 1];
      if e.Commit? && MayCommit(s, e.tx) { CommitFromLog(s, e.tx); }
    }
  }

  // ----- The counter column -----

  ghost predicate CountsFit(s: State) { forall key :: key in s.groups ==> 1 <= s.groups[key].count <= 2_147_483_647 }

  lemma {:induction false} CountGrows(g: Option<Group>, r: Report)
    ensures Ingested(g, r).count == if g.Some? then g.value.count + 1 else 1
  {
  }

  /** No counter of any run leaves the 32-bit range; an ingest into a full one is aborted. */
  lemma {:induction false} CountersFit(events: seq<Event>, k: nat)
    requires k <= |events|
    ensures LocksHold(Run(INITIAL, events, k)) && CountsFit(Run(INITIAL, events, k))
  {
    if k > 0 {
      CountersFit(events, k - 1);
      var s, e := Run(INITIAL, events, k - 1), events[k - 1];
      StepKeepsLocks(s, e);
      StepFits(s, e);
    }
  }

  lemma {:induction false} StepFits(s: State, e: Event)
    requires LocksHold(s) && CountsFit(s)
    ensures CountsFit(Step(s, e))
  {
    hide Ingested, AlertsFor;
    if e.Commit? && MayCommit(s, e.tx) {
      var t := s.txs[e.tx];
      CountGrows(Lookup(s.groups, t.report.key), t.report);
    }
  }

  lemma {:induction false} FullCounterAborts(s: State, tx: int)
    requires tx in s.txs && s.txs[tx].Reading? && s.txs[tx].report.key in s.groups
    ensures var after := Step(s, Upsert(tx));
            && (s.groups[s.txs[tx].report.key].count == 2_147_483_647 && !Locked(s, s.txs[tx].report.key) ==> after == s.(txs := s.txs - {tx}))
            && (s.groups[s.txs[tx].report.key].count < 2_147_483_647 ==> tx in after.txs)
  {
    hide Ingested;
  }
}

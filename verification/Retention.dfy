/**
 Retention of error groups: the worker lists the trace references of expiring groups, deletes those
 objects, and only then deletes the rows, while ingests, changes of status and other removals go on
 in between.
 */
module Retention {
  import opened Options
  import opened Tallies
  import opened ErrorGroups
  import opened IngestRuns
  import opened RowHistory

  /** The condition shared by the listing and the deletion, for the environments of one tenant. */
  predicate Expiring(key: Key, g: Group, envs: set<int>, cutoff: int) {
    key.env in envs && g.lastSeen < cutoff && g.status != Open
  }

  /** ListExpiringErrorGroupRefs. */
  function ListedRefs(groups: Groups, envs: set<int>, cutoff: int): set<string> {
    set key | key in groups && Expiring(key, groups[key], envs, cutoff) && groups[key].traceRef.Some? :: groups[key].traceRef.value
  }

  /** DeleteOldErrorGroups. */
  function AfterDelete(groups: Groups, envs: set<int>, cutoff: int): Groups {
    map key | key in groups && !Expiring(key, groups[key], envs, cutoff) :: groups[key]
  }

  /** The step closes the group by hand. */
  predicate ClosesGroup(e: Event, key: Key) { (e.Resolve? || e.Acknowledge?) && e.key == key }

  ghost predicate NeverCloses(events: seq<Event>, key: Key) {
    forall i :: 0 <= i < |events| ==> !ClosesGroup(events[i], key)
  }

  /** Not ingested since and as it was or gone, or else open. */
  ghost predicate SameOrOpen(before: State, after: State, key: Key) {
    || (&& Tally(after.log, OfKey(key)) == Tally(before.log, OfKey(key))
        && (key in after.groups ==> Lookup(after.groups, key) == Lookup(before.groups, key)))
    || (key in after.groups && after.groups[key].status == Open)
  }

  lemma {:induction false} StepSameOrOpen(before: State, s: State, e: Event, key: Key)
    requires LocksHold(s) && SameOrOpen(before, s, key) && !ClosesGroup(e, key)
    ensures SameOrOpen(before, Step(s, e), key)
  {
  }

  lemma {:induction false} RunSameOrOpen(s: State, events: seq<Event>, k: nat, key: Key)
    requires LocksHold(s) && k <= |events| && NeverCloses(events, key)
    ensures LocksHold(Run(s, events, k)) && SameOrOpen(s, Run(s, events, k), key)
  {
    if k > 0 {
      RunSameOrOpen(s, events, k - 1, key);
      StepKeepsLocks(Run(s, events, k - 1), events[k - 1]);
      StepSameOrOpen(s, Run(s, events, k - 1), events[k - 1], key);
    }
  }

  /**
   A group that nobody resolves or acknowledges between listing and deletion, whatever else runs, is
   deleted only if it was listed and is unchanged since; with an ingest committed in between it survives.
   */
  lemma {:induction false} NoOrphans(s: State, events: seq<Event>, envs: set<int>, cutoff: int, key: Key)
    requires LocksHold(s) && NeverCloses(events, key)
    ensures var s' := Run(s, events, |events|);
            && (key in s'.groups && key !in AfterDelete(s'.groups, envs, cutoff) ==>
                  && key in s.groups && s.groups[key] == s'.groups[key] && s.groups[key].status != Open
                  && (s.groups[key].traceRef.Some? ==> s.groups[key].traceRef.value in ListedRefs(s.groups, envs, cutoff)))
            && (Tally(s'.log, OfKey(key)) != Tally(s.log, OfKey(key)) ==> key in AfterDelete(s'.groups, envs, cutoff))
  {
    RunSameOrOpen(s, events, |events|, key);
  }

  // ----- Where a reference comes from -----

  /** The reference of the last committed report of a group. */
  function LastRef(log: seq<Done>, key: Key): Option<string> {
    if LastReport(log, key).Some? then LastReport(log, key).value.traceRef else None
  }

  /** No ingest of the group has committed in between. */
  ghost predicate NotIngested(before: State, after: State, key: Key) {
    Tally(after.log, OfKey(key)) == Tally(before.log, OfKey(key))
  }

  /** A group that is there refers to what it did, or has been ingested and refers to its last report's object. */
  ghost predicate RefTracked(before: State, after: State, key: Key) {
    && Tally(before.log, OfKey(key)) <= Tally(after.log, OfKey(key))
    && (key in after.groups ==>
          if NotIngested(before, after, key) then
            && key in before.groups
            && after.groups[key].traceRef == before.groups[key].traceRef
            && after.groups[key].lastSeen == before.groups[key].lastSeen
          else
            after.groups[key].traceRef == LastRef(after.log, key))
  }

  lemma {:induction false} CommitTracksRefs(before: State, s: State, tx: int, key: Key)
    requires MayCommit(s, tx) && HolderFits(s, s.txs[tx]) && RefTracked(before, s, key)
    ensures RefTracked(before, AfterCommit(s, tx), key)
  {
    hide AlertsFor, WithUsers, Tally, LastReport;
    var t := s.txs[tx];
    var d := Done(t.report, t.wasClosed, t.foundClosed, t.row.count);
    TallySnoc(s.log, d, OfKey(key));
    ReportsSnoc(s.log, d, key);
    IngestDates(Lookup(s.groups, t.report.key), t.report);
  }

  lemma {:induction false} StepTracksRefs(before: State, s: State, e: Event, key: Key)
    requires LocksHold(s) && RefTracked(before, s, key)
    ensures RefTracked(before, Step(s, e), key)
  {
    hide Tally, Ingested, HolderFits, AlertsFor, LastRef;
    if e.Commit? && MayCommit(s, e.tx) {
      CommitTracksRefs(before, s, e.tx, key);
    }
  }

  lemma {:induction false} RunTracksRefs(s: State, events: seq<Event>, k: nat, key: Key)
    requires LocksHold(s) && k <= |events|
    ensures var s' := Run(s, events, k); LocksHold(s') && RefTracked(s, s', key)
  {
    hide Tally, LastRef, LocksHold, Step;
    if k > 0 {
      RunTracksRefs(s, events, k - 1, key);
      StepKeepsLocks(Run(s, events, k - 1), events[k - 1]);
      StepTracksRefs(s, Run(s, events, k - 1), events[k - 1], key);
    }
  }

  // ----- Traces without a row, and rows without a trace -----

  predicate IsListed(groups: Groups, key: Key, envs: set<int>, cutoff: int) {
    key in groups && Expiring(key, groups[key], envs, cutoff) && groups[key].traceRef.Some?
  }

  predicate RefIn(ref: Option<string>, refs: set<string>) { ref.Some? && ref.value in refs }

  predicate RefNotIn(ref: Option<string>, refs: set<string>) { ref.Some? && ref.value !in refs }

  /** The objects removed: those listed, except where the removal fails; after a failed listing it fails for all. */
  function Removed(groups: Groups, envs: set<int>, cutoff: int, failed: set<string>): set<string> {
    ListedRefs(groups, envs, cutoff) - failed
  }

  /** Another group that is listed refers to the same object. */
  ghost predicate ListedForAnother(groups: Groups, key: Key, envs: set<int>, cutoff: int)
    requires key in groups
  {
    exists other :: other != key && IsListed(groups, other, envs, cutoff) && groups[other].traceRef == groups[key].traceRef
  }

  /** The deletion takes the row while the object it refers to was not removed and stays behind. */
  ghost predicate Orphans(before: State, after: State, envs: set<int>, cutoff: int, failed: set<string>, key: Key) {
    && key in after.groups && key !in AfterDelete(after.groups, envs, cutoff)
    && RefNotIn(after.groups[key].traceRef, Removed(before.groups, envs, cutoff, failed))
  }

  /** The row survives the deletion while the object it refers to was removed. */
  ghost predicate Dangles(before: State, after: State, envs: set<int>, cutoff: int, failed: set<string>, key: Key) {
    && key in AfterDelete(after.groups, envs, cutoff)
    && RefIn(after.groups[key].traceRef, Removed(before.groups, envs, cutoff, failed))
  }

  lemma {:induction false} RemovedExactly(groups: Groups, key: Key, envs: set<int>, cutoff: int, failed: set<string>)
    requires key in groups
    ensures RefIn(groups[key].traceRef, Removed(groups, envs, cutoff, failed)) <==>
              && groups[key].traceRef.Some? && groups[key].traceRef.value !in failed
              && (IsListed(groups, key, envs, cutoff) || ListedForAnother(groups, key, envs, cutoff))
  {
  }

  /**
   Whatever runs in between, a trace is orphaned exactly when the group expires at the deletion and
   either has not been ingested since the listing, and its removal failed or it was open then (someone
   closed it), or has been ingested since (and closed) with a last reference that was not removed.
   */
  lemma {:induction false} OrphansExactly(s: State, events: seq<Event>, envs: set<int>, cutoff: int, failed: set<string>, key: Key)
    requires LocksHold(s)
    ensures var s' := Run(s, events, |events|);
            Orphans(s, s', envs, cutoff, failed, key) <==>
              && key in s'.groups && Expiring(key, s'.groups[key], envs, cutoff)
              && if NotIngested(s, s', key) then
                   && key in s.groups && s.groups[key].traceRef.Some?
                   && (|| s.groups[key].traceRef.value in failed
                       || (s.groups[key].status == Open && !ListedForAnother(s.groups, key, envs, cutoff)))
                 else
                   RefNotIn(LastRef(s'.log, key), Removed(s.groups, envs, cutoff, failed))
  {
    hide Run, Tally, LocksHold, LastRef, Removed, ListedForAnother;
    RunTracksRefs(s, events, |events|, key);
    if key in s.groups { RemovedExactly(s.groups, key, envs, cutoff, failed); }
  }

  /**
   Whatever runs in between, a surviving row dangles exactly when it has not been ingested since the
   listing, its object was removed, and it was listed and is open again (or shares a listed
   reference), or when it has been ingested with a last reference that was removed.
   */
  lemma {:induction false} DanglesExactly(s: State, events: seq<Event>, envs: set<int>, cutoff: int, failed: set<string>, key: Key)
    requires LocksHold(s)
    ensures var s' := Run(s, events, |events|);
            Dangles(s, s', envs, cutoff, failed, key) <==>
              && key in s'.groups
              && if NotIngested(s, s', key) then
                   && key in s.groups && s.groups[key].traceRef.Some? && s.groups[key].traceRef.value !in failed
                   && (|| (IsListed(s.groups, key, envs, cutoff) && s'.groups[key].status == Open)
                       || (ListedForAnother(s.groups, key, envs, cutoff) && !Expiring(key, s'.groups[key], envs, cutoff)))
                 else
                   !Expiring(key, s'.groups[key], envs, cutoff) && RefIn(LastRef(s'.log, key), Removed(s.groups, envs, cutoff, failed))
  {
    hide Run, Tally, LocksHold, LastRef, Removed, ListedForAnother;
    RunTracksRefs(s, events, |events|, key);
    if key in s.groups { RemovedExactly(s.groups, key, envs, cutoff, failed); }
  }

  // ----- References of their own -----

  /** No two groups refer to one object, and an ingest in between comes with one that is not listed. */
  ghost predicate OwnRefs(before: State, after: State, envs: set<int>, cutoff: int, key: Key) {
    && UniqueRefs(before.groups)
    && (NotIngested(before, after, key) || !RefIn(LastRef(after.log, key), ListedRefs(before.groups, envs, cutoff)))
  }

  ghost predicate UniqueRefs(groups: Groups) {
    forall a, b :: a in groups && b in groups && a != b && groups[a].traceRef.Some? ==> groups[a].traceRef != groups[b].traceRef
  }

  /** When references do not repeat and removals succeed, a trace is orphaned exactly when an open or an ingested group is closed. */
  lemma {:induction false} OrphansWithOwnRefs(s: State, events: seq<Event>, envs: set<int>, cutoff: int, key: Key)
    requires LocksHold(s) && OwnRefs(s, Run(s, events, |events|), envs, cutoff, key)
    ensures var s' := Run(s, events, |events|);
            Orphans(s, s', envs, cutoff, {}, key) <==>
              && key in s'.groups && Expiring(key, s'.groups[key], envs, cutoff) && s'.groups[key].traceRef.Some?
              && (!NotIngested(s, s', key) || (key in s.groups && s.groups[key].status == Open))
  {
    hide Run, Tally, LocksHold, LastRef;
    RunTracksRefs(s, events, |events|, key);
  }

  /** When references do not repeat and removals succeed, a row dangles exactly when it was listed and is reopened by hand. */
  lemma {:induction false} DanglesWithOwnRefs(s: State, events: seq<Event>, envs: set<int>, cutoff: int, key: Key)
    requires LocksHold(s) && OwnRefs(s, Run(s, events, |events|), envs, cutoff, key)
    ensures var s' := Run(s, events, |events|);
            Dangles(s, s', envs, cutoff, {}, key) <==>
              && IsListed(s.groups, key, envs, cutoff) && NotIngested(s, s', key)
              && key in s'.groups && s'.groups[key].status == Open
  {
    hide Run, Tally, LocksHold, LastRef;
    RunTracksRefs(s, events, |events|, key);
  }

  /** A resolve or an acknowledge in between orphans the trace: the row goes, the reference was never listed. */
  lemma {:induction false} LateCloseOrphans(s: State, e: Event, key: Key, envs: set<int>, cutoff: int)
    requires ClosesGroup(e, key) && key in s.groups && !Locked(s, key) && key.env in envs
    requires s.groups[key].status == Open && s.groups[key].lastSeen < cutoff && s.groups[key].traceRef.Some?
    ensures Orphans(s, Step(s, e), envs, cutoff, {}, key) <==> !ListedForAnother(s.groups, key, envs, cutoff)
  {
    RemovedExactly(s.groups, key, envs, cutoff, {});
  }

  /** A listed group that is reopened in between keeps its row, and its reference dangles. */
  lemma {:induction false} LateReopenDangles(s: State, key: Key, envs: set<int>, cutoff: int)
    requires IsListed(s.groups, key, envs, cutoff) && !Locked(s, key)
    ensures Dangles(s, Step(s, Reopen(key)), envs, cutoff, {}, key)
  {
    RemovedExactly(s.groups, key, envs, cutoff, {});
  }

  // ----- What retention keeps -----

  /**
   In every run, retention deletes a row exactly when it belongs to the tenant, its last change was a
   resolve or an acknowledge, and the last report of its present life came before the cutoff; a row it
   keeps is not changed.
   */
  lemma {:induction false} DeletedExactly(events: seq<Event>, envs: set<int>, cutoff: int, key: Key)
    requires key in Run(INITIAL, events, |events|).groups
    ensures var groups, kept := Run(INITIAL, events, |events|).groups, AfterDelete(Run(INITIAL, events, |events|).groups, envs, cutoff);
            var changes, last := Changes(events, |events|, key), LastReport(Life(events, |events|, key).log, key);
            && changes != [] && last.Some?
            && (key !in kept <==>
                  && key.env in envs && last.value.at < cutoff
                  && (changes[|changes| - 1].ByResolve? || changes[|changes| - 1].ByAcknowledge?))
            && (key in kept ==> kept[key] == groups[key])
  {
    hide Run, Life, Changes, Tally, LastReport, FirstReport, Reported, Numbered, Resolution;
    EveryRun(events, key);
    StatusIsLastChange(events, key);
  }

  /** The references listed are those of the rows that would be deleted at that moment. */
  lemma {:induction false} ListedAreDeleted(groups: Groups, envs: set<int>, cutoff: int, ref: string)
    ensures ref in ListedRefs(groups, envs, cutoff) <==>
              exists key :: key in groups && key !in AfterDelete(groups, envs, cutoff) && groups[key].traceRef == Some(ref)
  {
  }
}

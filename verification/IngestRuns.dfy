/**
 Ingest transactions interleaved with one another, with resolve, acknowledge and reopen, and with
 the removal of rows by retention. A transaction reads the status without a lock, locks its row at
 the upsert and holds it until it commits or aborts. A run is any sequence of steps; a step that has
 to wait changes nothing.
 */
module IngestRuns {
  import opened Options
  import opened Tallies
  import opened ErrorGroups

  /** A transaction: after its unlocked read, or holding the locked row it is about to commit. */
  datatype Tx =
    | Reading(report: Report, wasClosed: bool)
    | Holding(report: Report, wasClosed: bool, foundClosed: bool, row: Group)

  /** A committed ingest: the status it read, the status its upsert found, and the count it left. */
  datatype Done = Done(report: Report, readClosed: bool, foundClosed: bool, count: int)

  datatype State = State(groups: Groups, alerts: seq<Alert>, log: seq<Done>, txs: map<int, Tx>)

  const INITIAL := State(map[], [], [], map[])

  datatype Event =
    | ReadStatus(tx: int, report: Report)
    | Upsert(tx: int)
    | Commit(tx: int)
    | Abort(tx: int)
    | Resolve(key: Key, user: Option<int>, at: int)
    | Acknowledge(key: Key)
    | Reopen(key: Key)
    | Remove(key: Key)

  ghost predicate Locked(s: State, key: Key) {
    exists tx :: tx in s.txs && s.txs[tx].Holding? && s.txs[tx].report.key == key
  }

  ghost predicate MayUpsert(s: State, tx: int) {
    tx in s.txs && s.txs[tx].Reading? && !Locked(s, s.txs[tx].report.key)
  }

  ghost predicate MayCommit(s: State, tx: int) { tx in s.txs && s.txs[tx].Holding? }

  /** Retention removes rows that are not open; that they also have to be old restricts runs further. */
  ghost predicate MayRemove(s: State, key: Key) {
    key in s.groups && s.groups[key].status != Open && !Locked(s, key)
  }

  function WithRow(s: State, key: Key, g: Group): State { s.(groups := s.groups[key := g]) }

  /** The upsert of a waiting transaction on a free row; a full counter aborts it. */
  function AfterUpsert(s: State, tx: int): State
    requires tx in s.txs && s.txs[tx].Reading?
  {
    var t := s.txs[tx];
    var g := Lookup(s.groups, t.report.key);
    if Overflows(g) then s.(txs := s.txs - {tx})
    else s.(txs := s.txs[tx := Holding(t.report, t.wasClosed, Closed(g), Ingested(g, t.report))])
  }

  function AfterCommit(s: State, tx: int): State
    requires MayCommit(s, tx)
  {
    var t := s.txs[tx];
    var key := t.report.key;
    State(s.groups[key := t.row], s.alerts + AlertsFor(t.row, key, t.wasClosed, t.report.threshold),
          s.log + [Done(t.report, t.wasClosed, t.foundClosed, t.row.count)], s.txs - {tx})
  }

  ghost function Step(s: State, e: Event): State {
    match e
    case ReadStatus(tx, r) => if tx in s.txs then s else s.(txs := s.txs[tx := Reading(r, Closed(Lookup(s.groups, r.key)))])
    case Upsert(tx) => if MayUpsert(s, tx) then AfterUpsert(s, tx) else s
    case Commit(tx) => if MayCommit(s, tx) then AfterCommit(s, tx) else s
    case Abort(tx) => s.(txs := s.txs - {tx})
    case Resolve(key, user, at) =>
      if key in s.groups && !Locked(s, key) then WithRow(s, key, AsResolved(s.groups[key], user, at)) else s
    case Acknowledge(key) => if key in s.groups && !Locked(s, key) then WithRow(s, key, AsAcknowledged(s.groups[key])) else s
    case Reopen(key) => if key in s.groups && !Locked(s, key) then WithRow(s, key, AsReopened(s.groups[key])) else s
    case Remove(key) => if MayRemove(s, key) then s.(groups := s.groups - {key}) else s
  }

  ghost function Run(s: State, events: seq<Event>, k: nat): State
    requires k <= |events|
  {
    if k == 0 then s else Step(Run(s, events, k - 1), events[k - 1])
  }

  // ----- The present life of a row -----

  /** The step takes the row away. */
  ghost predicate Removes(s: State, e: Event, key: Key) { e == Remove(key) && MayRemove(s, key) }

  /** How many steps were taken when the row was last removed; 0 if it never was. */
  ghost function Birth(events: seq<Event>, k: nat, key: Key): (i: nat)
    requires k <= |events|
    ensures i <= k
  {
    if k == 0 then 0
    else if Removes(Run(INITIAL, events, k - 1), events[k - 1], key) then k
    else Birth(events, k - 1, key)
  }

  /** The state of a run with the log and the alerts of one row's present life only. */
  ghost function Life(events: seq<Event>, k: nat, key: Key): State
    requires k <= |events|
  {
    if k == 0 then INITIAL
    else
      var before := Life(events, k - 1, key);
      var after := Step(before, events[k - 1]);
      if Removes(before, events[k - 1], key) then after.(log := [], alerts := []) else after
  }

  /** The state with earlier entries put before its log and its alerts. */
  function WithPast(log: seq<Done>, alerts: seq<Alert>, s: State): State {
    s.(log := log + s.log, alerts := alerts + s.alerts)
  }

  /** No step looks at the log or the alerts. */
  lemma {:induction false} StepIgnoresPast(log: seq<Done>, alerts: seq<Alert>, s: State, e: Event)
    ensures Step(WithPast(log, alerts, s), e) == WithPast(log, alerts, Step(s, e))
    ensures forall key :: Removes(WithPast(log, alerts, s), e, key) <==> Removes(s, e, key)
  {
  }

  /** The present life is what the run has added to its log and its alerts since the row was last removed. */
  lemma {:induction false} LifeIsSinceBirth(events: seq<Event>, k: nat, key: Key)
    requires k <= |events|
    ensures var from := Run(INITIAL, events, Birth(events, k, key));
            Run(INITIAL, events, k) == WithPast(from.log, from.alerts, Life(events, k, key))
  {
    hide Step, MayRemove;
    if k > 0 {
      LifeIsSinceBirth(events, k - 1, key);
      var from := Run(INITIAL, events, Birth(events, k - 1, key));
      StepIgnoresPast(from.log, from.alerts, Life(events, k - 1, key), events[k - 1]);
    }
  }

  // ----- What every run keeps -----

  /** A holder's row is the ingest of the committed row, and no two transactions hold one row. */
  ghost predicate LocksHold(s: State) {
    && (forall tx :: tx in s.txs && s.txs[tx].Holding? ==> HolderFits(s, s.txs[tx]))
    && (forall a, b :: a in s.txs && b in s.txs && a != b && s.txs[a].Holding? && s.txs[b].Holding? ==>
          s.txs[a].report.key != s.txs[b].report.key)
  }

  ghost predicate HolderFits(s: State, t: Tx)
    requires t.Holding?
  {
    var g := Lookup(s.groups, t.report.key);
    !Overflows(g) && t.row == Ingested(g, t.report) && t.foundClosed == Closed(g)
  }

  function OfKey(key: Key): Done -> bool { (d: Done) => d.report.key == key }

  function ReadClosed(key: Key): Done -> bool { (d: Done) => d.report.key == key && d.readClosed }

  function FoundClosed(key: Key): Done -> bool { (d: Done) => d.report.key == key && d.foundClosed }

  /** Ingests of the group whose own threshold, as a 32-bit number, is the count they left. */
  function Due(key: Key): Done -> bool { (d: Done) => d.report.key == key && SpikeDue(d.report.threshold, d.count) }

  function KindOf(kind: AlertKind, key: Key): Alert -> bool { (a: Alert) => a.kind == kind && a.key == key }

  /** Every user some committed ingest of the group reported. */
  function Reported(log: seq<Done>, key: Key): set<int> {
    if log == [] then {}
    else
      var d := log[|log| - 1];
      Reported(log[..|log| - 1], key) + if d.report.key == key then set u | u in d.report.uids else {}
  }

  /** The first and the last report of a group that was committed. */
  function FirstReport(log: seq<Done>, key: Key): Option<Report> {
    if log == [] then None
    else
      var first := FirstReport(log[..|log| - 1], key);
      if first.None? && log[|log| - 1].report.key == key then Some(log[|log| - 1].report) else first
  }

  function LastReport(log: seq<Done>, key: Key): Option<Report> {
    if log == [] then None
    else if log[|log| - 1].report.key == key then Some(log[|log| - 1].report)
    else LastReport(log[..|log| - 1], key)
  }

  lemma {:induction false} ReportsSnoc(log: seq<Done>, d: Done, key: Key)
    ensures LastReport(log + [d], key) == if d.report.key == key then Some(d.report) else LastReport(log, key)
    ensures FirstReport(log + [d], key) ==
            if d.report.key == key && FirstReport(log, key).None? then Some(d.report) else FirstReport(log, key)
  {
  }

  lemma {:induction false} ReportsOfTally(log: seq<Done>, key: Key)
    ensures FirstReport(log, key).Some? <==> Tally(log, OfKey(key)) > 0
    ensures LastReport(log, key).Some? <==> Tally(log, OfKey(key)) > 0
  {
    if log != [] { ReportsOfTally(log[..|log| - 1], key); }
  }

  /** The row dates from its first report, and its last one says when it was last seen and where the trace is. */
  ghost predicate RowDated(g: Group, log: seq<Done>, key: Key) {
    && FirstReport(log, key).Some? && g.firstSeen == FirstReport(log, key).value.at
    && LastReport(log, key).Some? && g.lastSeen == LastReport(log, key).value.at && g.traceRef == LastReport(log, key).value.traceRef
  }

  /** Status and resolution columns agree, and users are a duplicate-free union. */
  ghost predicate RowFits(g: Group, users: set<int>) {
    && NoDuplicates(g.users) && (forall u :: u in g.users <==> u in users)
    && (g.status == Open ==> g.resolvedBy.None? && g.resolvedAt.None?)
    && (g.status == Resolved ==> g.resolvedAt.Some?)
  }

  /** The ingests of the group left the counts 1, 2 and so on. */
  ghost predicate Numbered(log: seq<Done>, key: Key) {
    log == [] ||
    (&& Numbered(log[..|log| - 1], key)
     && (log[|log| - 1].report.key == key ==> log[|log| - 1].count == Tally(log, OfKey(key))))
  }

  /** What the books of one group say. */
  ghost predicate Accounts(s: State, key: Key) {
    var n := Tally(s.log, OfKey(key));
    && (key in s.groups <==> n > 0)
    && (key in s.groups ==> s.groups[key].count == n && RowFits(s.groups[key], Reported(s.log, key)))
    && (key in s.groups ==> RowDated(s.groups[key], s.log, key))
    && Numbered(s.log, key)
    && Alerted(s, key)
  }

  /** One spike alert for every ingest that was due, and one reopen alert for every one that read a closed group. */
  ghost predicate Alerted(s: State, key: Key) {
    && Tally(s.alerts, KindOf(ErrorSpike, key)) == Tally(s.log, Due(key))
    && Tally(s.alerts, KindOf(ErrorReopen, key)) == Tally(s.log, ReadClosed(key))
  }

  ghost predicate Invariant(s: State) {
    LocksHold(s) && forall key :: Alerted(s, key)
  }

  lemma {:induction false} IngestIsOpen(g: Option<Group>, r: Report)
    ensures Ingested(g, r).status == Open
    ensures Ingested(g, r).count == if g.Some? then g.value.count + 1 else 1
  {
  }

  lemma {:induction false} IngestFits(g: Option<Group>, r: Report, users: set<int>)
    requires g.Some? ==> RowFits(g.value, users)
    requires g.None? ==> users == {}
    ensures RowFits(Ingested(g, r), users + set u | u in r.uids)
  {
    var f := Fired(g, r);
    if r.uids != [] {
      var all := f.users + r.uids;
      DistinctIsExact(all, |all|);
      assert all[..|all|] == all;
    }
  }

  lemma {:induction false} AlertTallies(g: Group, key: Key, wasClosed: bool, threshold: int, of: Key)
    requires g.status == Open
    ensures var a := AlertsFor(g, key, wasClosed, threshold);
            && Tally(a, KindOf(ErrorReopen, of)) == (if of == key && wasClosed then 1 else 0)
            && Tally(a, KindOf(ErrorSpike, of)) == (if of == key && SpikeDue(threshold, g.count) then 1 else 0)
  {
    hide Tally, SpikeDue;
    var reopen, spike := Alert(ErrorReopen, key, g.count), Alert(ErrorSpike, key, g.count);
    var due := SpikeDue(threshold, g.count);
    var a, b := Optional(wasClosed, reopen), Optional(due, spike);
    TallyConcat(a, b, KindOf(ErrorReopen, of));
    TallyConcat(a, b, KindOf(ErrorSpike, of));
    TallyOptional(wasClosed, reopen, KindOf(ErrorReopen, of));
    TallyOptional(wasClosed, reopen, KindOf(ErrorSpike, of));
    TallyOptional(due, spike, KindOf(ErrorReopen, of));
    TallyOptional(due, spike, KindOf(ErrorSpike, of));
  }

  lemma {:induction false} NothingReported(log: seq<Done>, key: Key)
    requires Tally(log, OfKey(key)) == 0
    ensures Reported(log, key) == {}
  {
    if log != [] { NothingReported(log[..|log| - 1], key); }
  }

  lemma {:induction false} CommitLogs(s: State, tx: int, key: Key)
    requires MayCommit(s, tx)
    ensures var t, s' := s.txs[tx], AfterCommit(s, tx);
            var mine := t.report.key == key;
            && Tally(s'.log, OfKey(key)) == Tally(s.log, OfKey(key)) + (if mine then 1 else 0)
            && Tally(s'.log, ReadClosed(key)) == Tally(s.log, ReadClosed(key)) + (if mine && t.wasClosed then 1 else 0)
            && Tally(s'.log, Due(key)) ==
               Tally(s.log, Due(key)) + (if mine && SpikeDue(t.report.threshold, t.row.count) then 1 else 0)
            && (Numbered(s.log, key) && (mine ==> t.row.count == Tally(s.log, OfKey(key)) + 1) ==> Numbered(s'.log, key))
            && Reported(s'.log, key) == if mine then Reported(s.log, key) + set u | u in t.report.uids else Reported(s.log, key)
  {
  }

  lemma {:induction false} CommitAlerts(s: State, tx: int, key: Key)
    requires MayCommit(s, tx) && s.txs[tx].row.status == Open
    ensures var t, s' := s.txs[tx], AfterCommit(s, tx);
            var mine := t.report.key == key;
            && Tally(s'.alerts, KindOf(ErrorSpike, key)) ==
               Tally(s.alerts, KindOf(ErrorSpike, key)) + (if mine && SpikeDue(t.report.threshold, t.row.count) then 1 else 0)
            && Tally(s'.alerts, KindOf(ErrorReopen, key)) ==
               Tally(s.alerts, KindOf(ErrorReopen, key)) + (if mine && t.wasClosed then 1 else 0)
  {
    hide AlertsFor, Tally, SpikeDue;
    var t := s.txs[tx];
    TallyConcat(s.alerts, AlertsFor(t.row, t.report.key, t.wasClosed, t.report.threshold), KindOf(ErrorReopen, key));
    TallyConcat(s.alerts, AlertsFor(t.row, t.report.key, t.wasClosed, t.report.threshold), KindOf(ErrorSpike, key));
    AlertTallies(t.row, t.report.key, t.wasClosed, t.report.threshold, key);
  }

  lemma {:induction false} IngestDates(g: Option<Group>, r: Report)
    ensures Ingested(g, r).lastSeen == r.at && Ingested(g, r).traceRef == r.traceRef
    ensures Ingested(g, r).firstSeen == if g.Some? then g.value.firstSeen else r.at
  {
  }

  lemma {:induction false} CommitDates(s: State, tx: int, key: Key)
    requires MayCommit(s, tx) && HolderFits(s, s.txs[tx]) && (key in s.groups ==> RowDated(s.groups[key], s.log, key))
    requires key in s.groups <==> Tally(s.log, OfKey(key)) > 0
    ensures var s' := AfterCommit(s, tx); key in s'.groups ==> RowDated(s'.groups[key], s'.log, key)
  {
    hide Tally, Ingested, AlertsFor, FirstReport, LastReport;
    var t := s.txs[tx];
    IngestDates(Lookup(s.groups, t.report.key), t.report);
    ReportsSnoc(s.log, Done(t.report, t.wasClosed, t.foundClosed, t.row.count), key);
    ReportsOfTally(s.log, key);
  }

  lemma {:induction false} CommitAccounts(s: State, tx: int, key: Key)
    requires MayCommit(s, tx) && HolderFits(s, s.txs[tx]) && Accounts(s, key)
    ensures Accounts(AfterCommit(s, tx), key)
  {
    hide RowFits, Tally, Reported, SpikeDue, Ingested, AlertsFor, Numbered, FirstReport, LastReport;
    CommitDates(s, tx, key);
    var r, g, n := s.txs[tx].report, Lookup(s.groups, s.txs[tx].report.key), Tally(s.log, OfKey(key));
    IngestIsOpen(g, r);
    CommitLogs(s, tx, key);
    CommitAlerts(s, tx, key);
    if r.key == key {
      if n == 0 { NothingReported(s.log, key); }
      IngestFits(g, r, Reported(s.log, key));
    }
  }

  lemma {:induction false} CommitAlerted(s: State, tx: int, key: Key)
    requires MayCommit(s, tx) && HolderFits(s, s.txs[tx]) && Alerted(s, key)
    ensures Alerted(AfterCommit(s, tx), key)
  {
    hide Tally, Reported, SpikeDue, Ingested, AlertsFor, Numbered;
    IngestIsOpen(Lookup(s.groups, s.txs[tx].report.key), s.txs[tx].report);
    CommitLogs(s, tx, key);
    CommitAlerts(s, tx, key);
  }

  lemma {:induction false} CommitKeepsLocks(s: State, tx: int)
    requires LocksHold(s) && MayCommit(s, tx)
    ensures LocksHold(AfterCommit(s, tx))
  {
  }

  lemma {:induction false} UpsertKeepsLocks(s: State, tx: int)
    requires LocksHold(s) && MayUpsert(s, tx)
    ensures LocksHold(AfterUpsert(s, tx))
  {
  }

  lemma {:induction false} RowChangeKeepsLocks(s: State, key: Key, g: Group)
    requires LocksHold(s) && !Locked(s, key)
    ensures LocksHold(WithRow(s, key, g))
  {
  }

  lemma {:induction false} RemovalKeepsLocks(s: State, key: Key)
    requires LocksHold(s) && !Locked(s, key)
    ensures LocksHold(s.(groups := s.groups - {key}))
  {
  }

  lemma {:induction false} StepKeepsLocks(s: State, e: Event)
    requires LocksHold(s)
    ensures LocksHold(Step(s, e))
  {
    match e
    case Upsert(tx) => if MayUpsert(s, tx) { UpsertKeepsLocks(s, tx); }
    case Commit(tx) => if MayCommit(s, tx) { CommitKeepsLocks(s, tx); }
    case Resolve(key, user, at) =>
      if key in s.groups && !Locked(s, key) { RowChangeKeepsLocks(s, key, AsResolved(s.groups[key], user, at)); }
    case Acknowledge(key) =>
      if key in s.groups && !Locked(s, key) { RowChangeKeepsLocks(s, key, AsAcknowledged(s.groups[key])); }
    case Reopen(key) =>
      if key in s.groups && !Locked(s, key) { RowChangeKeepsLocks(s, key, AsReopened(s.groups[key])); }
    case Remove(key) => if MayRemove(s, key) { RemovalKeepsLocks(s, key); }
    case _ =>
  }

  lemma {:induction false} StepKeepsAccounts(s: State, e: Event, key: Key)
    requires LocksHold(s) && Accounts(s, key) && !Removes(s, e, key)
    ensures Accounts(Step(s, e), key)
  {
    if e.Commit? && MayCommit(s, e.tx) {
      CommitAccounts(s, e.tx, key);
    }
  }

  lemma {:induction false} LifeKeeps(events: seq<Event>, k: nat, key: Key)
    requires k <= |events|
    ensures LocksHold(Life(events, k, key)) && Accounts(Life(events, k, key), key)
  {
    if k > 0 {
      var before, e := Life(events, k - 1, key), events[k - 1];
      LifeKeeps(events, k - 1, key);
      StepKeepsLocks(before, e);
      if !Removes(before, e, key) { StepKeepsAccounts(before, e, key); }
    }
  }

  lemma {:induction false} StepKeepsAlerted(s: State, e: Event, key: Key)
    requires LocksHold(s) && Alerted(s, key)
    ensures Alerted(Step(s, e), key)
  {
    if e.Commit? && MayCommit(s, e.tx) {
      CommitAlerted(s, e.tx, key);
    }
  }

  lemma {:induction false} StepKeeps(s: State, e: Event)
    requires Invariant(s)
    ensures Invariant(Step(s, e))
  {
    hide LocksHold, Alerted, Step;
    var after := Step(s, e);
    StepKeepsLocks(s, e);
    forall key ensures Alerted(after, key) {
      StepKeepsAlerted(s, e, key);
    }
  }

  lemma {:induction false} RunKeeps(s: State, events: seq<Event>, k: nat)
    requires k <= |events| && Invariant(s)
    ensures Invariant(Run(s, events, k))
  {
    if k > 0 {
      RunKeeps(s, events, k - 1);
      StepKeeps(Run(s, events, k - 1), events[k - 1]);
    }
  }

  lemma {:induction false} InitialIsSound()
    ensures Invariant(INITIAL)
  {
  }

  // ----- The results -----

  /**
   In every interleaving and in every life of a row, its counter is the number of the ingests committed
   in that life, which left the counts 1, 2 and so on; its users are theirs without repetition; its
   columns agree with its status; it dates from the first of them, was last seen at the last and refers
   to the last one's trace; and the life's spike alerts are as many as its ingests that left a count
   equal to their own threshold.
   */
  lemma {:induction false} EveryRun(events: seq<Event>, key: Key)
    ensures var s := Life(events, |events|, key);
            var n := Tally(s.log, OfKey(key));
            && s.groups == Run(INITIAL, events, |events|).groups
            && (key in s.groups <==> n > 0)
            && (key in s.groups ==> s.groups[key].count == n && RowFits(s.groups[key], Reported(s.log, key)))
            && (key in s.groups ==> RowDated(s.groups[key], s.log, key))
            && Numbered(s.log, key)
            && Tally(s.alerts, KindOf(ErrorSpike, key)) == Tally(s.log, Due(key))
  {
    hide LocksHold, Tally, Step;
    LifeKeeps(events, |events|, key);
    LifeIsSinceBirth(events, |events|, key);
  }

  // ----- Spike alerts of one threshold -----

  function SpikesAt(threshold: int, n: nat): nat { if threshold > 0 && 1 <= Wrap32(threshold) <= n then 1 else 0 }

  /** The 32-bit number of a threshold: the one in range that differs from it by a multiple of 2^32. */
  lemma {:induction false} Wrap32Exact(x: int, r: int)
    ensures Wrap32(x) == r <==> -2_147_483_648 <= r <= 2_147_483_647 && (x - r) % 4_294_967_296 == 0
  {
    var y := x + 2_147_483_648;
    assert y == y / 4_294_967_296 * 4_294_967_296 + y % 4_294_967_296;
    if (x - r) % 4_294_967_296 == 0 {
      var m := (x - r) / 4_294_967_296;
      assert y == m * 4_294_967_296 + (r + 2_147_483_648);
    }
  }

  /** Exactly the count equal to the threshold as a 32-bit number is due. */
  lemma {:induction false} DueOnce(threshold: int, n: nat)
    ensures SpikeDue(threshold, n) <==> threshold > 0 && n == Wrap32(threshold)
    ensures SpikesAt(threshold, n + 1) == SpikesAt(threshold, n) + if SpikeDue(threshold, n + 1) then 1 else 0
  {
  }

  ghost predicate Steady(log: seq<Done>, key: Key, threshold: int) {
    forall i :: 0 <= i < |log| && log[i].report.key == key ==> log[i].report.threshold == threshold
  }

  lemma {:induction false} SteadyDue(log: seq<Done>, key: Key, threshold: int)
    requires Numbered(log, key) && Steady(log, key, threshold)
    ensures Tally(log, Due(key)) == SpikesAt(threshold, Tally(log, OfKey(key)))
  {
    if log != [] {
      var front := log[..|log| - 1];
      SteadyDue(front, key, threshold);
      DueOnce(threshold, Tally(front, OfKey(key)));
    }
  }

  /** With one threshold, a group has one spike alert in a life exactly when its counter has reached it. */
  lemma {:induction false} SpikeExactlyOnce(events: seq<Event>, key: Key, threshold: int)
    requires Steady(Life(events, |events|, key).log, key, threshold)
    ensures var s := Life(events, |events|, key);
            Tally(s.alerts, KindOf(ErrorSpike, key)) == SpikesAt(threshold, Tally(s.log, OfKey(key)))
  {
    EveryRun(events, key);
    SteadyDue(Life(events, |events|, key).log, key, threshold);
  }

  /** All ingests of the group have the threshold except one, which left exactly that count and is not due itself. */
  ghost predicate CrossedBy(log: seq<Done>, key: Key, threshold: int, i: nat)
    requires i < |log|
  {
    && log[i].report.key == key && log[i].count == Wrap32(threshold) && !SpikeDue(log[i].report.threshold, log[i].count)
    && forall j :: 0 <= j < |log| && j != i && log[j].report.key == key ==> log[j].report.threshold == threshold
  }

  /** The counts of a group's ingests are below that of its last one. */
  lemma {:induction false} CountsIncrease(log: seq<Done>, key: Key, i: nat, j: nat)
    requires Numbered(log, key) && i < j < |log| && log[i].report.key == key && log[j].report.key == key
    ensures log[i].count < log[j].count
    decreases |log|
  {
    var front := log[..|log| - 1];
    if j < |log| - 1 {
      CountsIncrease(front, key, i, j);
    } else {
      CountIsTally(front, key, i);
    }
  }

  lemma {:induction false} CountIsTally(log: seq<Done>, key: Key, i: nat)
    requires Numbered(log, key) && i < |log| && log[i].report.key == key
    ensures log[i].count <= Tally(log, OfKey(key))
    decreases |log|
  {
    if i < |log| - 1 { CountIsTally(log[..|log| - 1], key, i); }
  }

  lemma {:induction false} NoneDue(log: seq<Done>, key: Key, k: nat)
    requires k <= |log| && forall j :: 0 <= j < k ==> !Due(key)(log[j])
    ensures Tally(log[..k], Due(key)) == 0
  {
    if k > 0 {
      NoneDue(log, key, k - 1);
      assert log[..k] == log[..k - 1] + [log[k - 1]];
      TallySnoc(log[..k - 1], log[k - 1], Due(key));
    }
  }

  /** A crossing by an ingest with another threshold is silent, and no later ingest of that life makes up for it. */
  lemma {:induction false} SilentCrossing(events: seq<Event>, key: Key, threshold: int, i: nat)
    requires i < |Life(events, |events|, key).log| && CrossedBy(Life(events, |events|, key).log, key, threshold, i)
    ensures Tally(Life(events, |events|, key).alerts, KindOf(ErrorSpike, key)) == 0
  {
    EveryRun(events, key);
    var log := Life(events, |events|, key).log;
    forall j | 0 <= j < |log| ensures !Due(key)(log[j]) {
      if log[j].report.key == key && j != i {
        if i < j { CountsIncrease(log, key, i, j); } else { CountsIncrease(log, key, j, i); }
      }
    }
    NoneDue(log, key, |log|);
    assert log[..|log|] == log;
  }

  // ----- Reopen alerts -----

  /** Each committed ingest of the group read the status its upsert then found. */
  ghost predicate ReadsWereCurrent(log: seq<Done>, key: Key) {
    forall i :: 0 <= i < |log| && log[i].report.key == key ==> log[i].readClosed == log[i].foundClosed
  }

  /** The read is not locked, so reopen alerts count the ingests that read a closed group, not those that reopened it. */
  lemma {:induction false} ReopenAlerts(events: seq<Event>, key: Key)
    ensures var s := Run(INITIAL, events, |events|);
            && Tally(s.alerts, KindOf(ErrorReopen, key)) == Tally(s.log, ReadClosed(key))
            && (ReadsWereCurrent(s.log, key) ==> Tally(s.alerts, KindOf(ErrorReopen, key)) == Tally(s.log, FoundClosed(key)))
  {
    InitialIsSound();
    RunKeeps(INITIAL, events, |events|);
    var s := Run(INITIAL, events, |events|);
    assert Alerted(s, key);
    if ReadsWereCurrent(s.log, key) {
      TallyAgrees(s.log, ReadClosed(key), FoundClosed(key));
    }
  }

  /** One ingest after the other: read, upsert and commit with nothing in between. */
  ghost function Serial(s: State, r: Report): State {
    var read := Step(s, ReadStatus(0, r));
    var held := Step(read, Upsert(0));
    Step(held, Commit(0))
  }

  /** A serial ingest is the transaction of the store, and its read is current. */
  lemma {:induction false} SerialIngest(s: State, r: Report)
    requires s.txs == map[]
    ensures var g, s' := Lookup(s.groups, r.key), Serial(s, r);
            && s'.txs == map[]
            && if g.Some? && g.value.count >= 2_147_483_647 then s' == s
               else
                 && s'.groups == s.groups[r.key := Ingested(g, r)]
                 && s'.alerts == s.alerts + AlertsFor(Ingested(g, r), r.key, Closed(g), r.threshold)
                 && s'.log == s.log + [Done(r, Closed(g), Closed(g), Ingested(g, r).count)]
  {
  }

  /** A serial run: whole ingests, failed ingests, changes of status by hand, and removals. */
  datatype Op =
    | Ingesting(report: Report)
    | FailedIngest
    | Resolving(key: Key, user: Option<int>, at: int)
    | Acknowledging(key: Key)
    | Reopening(key: Key)
    | Removing(key: Key)

  ghost function SerialStep(s: State, op: Op): State {
    match op
    case Ingesting(r) => Serial(s, r)
    case FailedIngest => s
    case Resolving(key, user, at) => Step(s, Resolve(key, user, at))
    case Acknowledging(key) => Step(s, Acknowledge(key))
    case Reopening(key) => Step(s, Reopen(key))
    case Removing(key) => Step(s, Remove(key))
  }

  ghost function SerialRun(ops: seq<Op>, k: nat): State
    requires k <= |ops|
  {
    if k == 0 then INITIAL else SerialStep(SerialRun(ops, k - 1), ops[k - 1])
  }

  ghost predicate AllCurrent(log: seq<Done>) { forall i :: 0 <= i < |log| ==> log[i].readClosed == log[i].foundClosed }

  lemma {:induction false} SerialStepKeeps(s: State, op: Op)
    requires Invariant(s) && s.txs == map[] && AllCurrent(s.log)
    ensures var s' := SerialStep(s, op);
            Invariant(s') && s'.txs == map[] && AllCurrent(s'.log)
  {
    match op
    case Ingesting(r) =>
      StepKeeps(s, ReadStatus(0, r));
      var read := Step(s, ReadStatus(0, r));
      StepKeeps(read, Upsert(0));
      StepKeeps(Step(read, Upsert(0)), Commit(0));
      SerialIngest(s, r);
    case FailedIngest =>
    case Resolving(key, user, at) => StepKeeps(s, Resolve(key, user, at));
    case Acknowledging(key) => StepKeeps(s, Acknowledge(key));
    case Reopening(key) => StepKeeps(s, Reopen(key));
    case Removing(key) => StepKeeps(s, Remove(key));
  }

  lemma {:induction false} SerialRunKeeps(ops: seq<Op>, k: nat)
    requires k <= |ops|
    ensures var s := SerialRun(ops, k);
            Invariant(s) && s.txs == map[] && AllCurrent(s.log)
  {
    if k == 0 {
      InitialIsSound();
    } else {
      SerialRunKeeps(ops, k - 1);
      SerialStepKeeps(SerialRun(ops, k - 1), ops[k - 1]);
    }
  }

  /** In a serial run there is one reopen alert for every ingest that reopened the group. */
  lemma {:induction false} SerialReopenAlerts(ops: seq<Op>, key: Key)
    ensures var s := SerialRun(ops, |ops|);
            Tally(s.alerts, KindOf(ErrorReopen, key)) == Tally(s.log, FoundClosed(key))
  {
    SerialRunKeeps(ops, |ops|);
    var s := SerialRun(ops, |ops|);
    assert Alerted(s, key);
    TallyAgrees(s.log, ReadClosed(key), FoundClosed(key));
  }

  /** The upsert and commit of a transaction that need not wait, as one change. */
  lemma {:induction false} UpsertCommit(s: State, tx: int)
    requires MayUpsert(s, tx) && !Overflows(Lookup(s.groups, s.txs[tx].report.key))
    ensures var t := s.txs[tx];
            var g := Lookup(s.groups, t.report.key);
            var row := Ingested(g, t.report);
            Step(Step(s, Upsert(tx)), Commit(tx)) ==
            State(s.groups[t.report.key := row], s.alerts + AlertsFor(row, t.report.key, t.wasClosed, t.report.threshold),
                  s.log + [Done(t.report, t.wasClosed, Closed(g), row.count)], s.txs - {tx})
  {
    hide Ingested, AlertsFor, Closed;
    var t := s.txs[tx];
    var held := Step(s, Upsert(tx));
    assert held.txs - {tx} == s.txs - {tx};
  }

  /** Reopen alerts of a group. */
  ghost function Reopens(s: State, key: Key): nat { Tally(s.alerts, KindOf(ErrorReopen, key)) }

  lemma {:induction false} ReopensAfter(alerts: seq<Alert>, g: Group, key: Key, wasClosed: bool, threshold: int)
    requires g.status == Open
    ensures Tally(alerts + AlertsFor(g, key, wasClosed, threshold), KindOf(ErrorReopen, key)) ==
            Tally(alerts, KindOf(ErrorReopen, key)) + if wasClosed then 1 else 0
  {
    hide AlertsFor, Tally;
    TallyConcat(alerts, AlertsFor(g, key, wasClosed, threshold), KindOf(ErrorReopen, key));
    AlertTallies(g, key, wasClosed, threshold, key);
  }

  /** Two ingests that both read before either writes: one group reopened once, and two alerts. */
  ghost function TwoReaders(s: State, r: Report, q: Report): State {
    var read := Step(Step(s, ReadStatus(1, r)), ReadStatus(2, q));
    var first := Step(Step(read, Upsert(1)), Commit(1));
    Step(Step(first, Upsert(2)), Commit(2))
  }

  lemma {:induction false} TwoReadersAlertTwice(s: State, r: Report, q: Report)
    requires s.txs == map[] && r.key == q.key && Closed(Lookup(s.groups, r.key)) && s.groups[r.key].count < MAX_INT32 - 1
    ensures var s', n := TwoReaders(s, r, q), s.groups[r.key].count;
            && s'.log == s.log + [Done(r, true, true, n + 1)] + [Done(q, true, false, n + 2)]
            && Reopens(s', r.key) == Reopens(s, r.key) + 2
  {
    hide AlertsFor, Tally;
    var read := Step(Step(s, ReadStatus(1, r)), ReadStatus(2, q));
    assert read == s.(txs := map[1 := Reading(r, true), 2 := Reading(q, true)]);
    assert !Locked(read, r.key);
    var g := Lookup(s.groups, r.key);
    IngestIsOpen(g, r);
    UpsertCommit(read, 1);
    var first := Step(Step(read, Upsert(1)), Commit(1));
    assert first.txs == map[2 := Reading(q, true)];
    assert !Locked(first, q.key);
    IngestIsOpen(Lookup(first.groups, q.key), q);
    UpsertCommit(first, 2);
    ReopensAfter(s.alerts, Ingested(g, r), r.key, true, r.threshold);
    ReopensAfter(first.alerts, Ingested(Lookup(first.groups, q.key), q), q.key, true, q.threshold);
  }

  /** An ingest, with a resolve between its read and its write. */
  ghost function ResolvedInBetween(s: State, r: Report, user: Option<int>, at: int): State {
    var resolved := Step(Step(s, ReadStatus(1, r)), Resolve(r.key, user, at));
    Step(Step(resolved, Upsert(1)), Commit(1))
  }

  /** It reopens the group it found resolved, and no alert says so. */
  lemma {:induction false} ResolveInBetweenIsSilent(s: State, r: Report, user: Option<int>, at: int)
    requires s.txs == map[] && r.key in s.groups && s.groups[r.key].status == Open && s.groups[r.key].count < MAX_INT32
    ensures var s', n := ResolvedInBetween(s, r, user, at), s.groups[r.key].count;
            && s'.log == s.log + [Done(r, false, true, n + 1)] && s'.groups[r.key].status == Open
            && Reopens(s', r.key) == Reopens(s, r.key)
  {
    hide AlertsFor, Tally;
    var read := Step(s, ReadStatus(1, r));
    assert read == s.(txs := map[1 := Reading(r, false)]) && !Locked(read, r.key);
    var resolved := Step(read, Resolve(r.key, user, at));
    var g := Lookup(resolved.groups, r.key);
    assert resolved.txs == read.txs && Closed(g) && !Locked(resolved, r.key);
    IngestIsOpen(g, r);
    UpsertCommit(resolved, 1);
    ReopensAfter(s.alerts, Ingested(g, r), r.key, false, r.threshold);
  }
}

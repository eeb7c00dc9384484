/**
 The session cache: one key per session, and per user a set of session ids whose expiry is reset by
 every new session. Proved here: when the index lists every live session, and what each operation
 needs to keep that so.
 */
module Sessions {
  import opened Clock
  import opened Options
  import opened Sets

  datatype Session = Session(id: string, userId: string, expiresAt: int, lastActiveAt: int)

  /** A stored session; without an expiry the key stays forever. */
  datatype Stored = Stored(session: Session, expiry: Option<int>)

  datatype UserIndex = UserIndex(ids: set<string>, expiry: int)

  datatype Cache = Cache(store: map<string, Stored>, index: map<string, UserIndex>)

  const EMPTY := Cache(map[], map[])

  predicate Alive(expiry: Option<int>, t: int) { expiry.None? || t < expiry.value }

  predicate Live(c: Cache, id: string, t: int) { id in c.store && Alive(c.store[id].expiry, t) }

  predicate LiveFor(c: Cache, user: string, id: string, t: int) { Live(c, id, t) && c.store[id].session.userId == user }

  function IndexIds(c: Cache, user: string, t: int): set<string> {
    if user in c.index && t < c.index[user].expiry then c.index[user].ids else {}
  }

  // ----- The operations as state changes -----

  /** SET: a positive duration gives an expiry, exactly -1 keeps the one of a live key, anything else none. */
  function SetExpiry(now: int, ttl: int, kept: Option<int>): Option<int> {
    if ttl > 0 then Some(now + SetMillis(ttl) * MILLISECOND) else if ttl == -1 then kept else None
  }

  function IndexExpiry(s: Session, now: int): int { now + ExpireSeconds(s.expiresAt - now + HOUR) * SECOND }

  function Create(c: Cache, s: Session, now: int): Cache {
    if s.expiresAt <= now then c
    else
      Cache(c.store[s.id := Stored(s, SetExpiry(now, s.expiresAt - now, None))],
            c.index[s.userId := UserIndex(IndexIds(c, s.userId, now) + {s.id}, IndexExpiry(s, now))])
  }

  function TouchedExpiry(c: Cache, id: string, writeAt: int): Option<int>
    requires id in c.store
  {
    SetExpiry(writeAt, c.store[id].session.expiresAt - writeAt, if Live(c, id, writeAt) then c.store[id].expiry else None)
  }

  /** Reads the session at one instant and writes it back at a later one. */
  function Touch(c: Cache, id: string, readAt: int, writeAt: int): Cache {
    if !Live(c, id, readAt) then c
    else c.(store := c.store[id := Stored(c.store[id].session.(lastActiveAt := writeAt), TouchedExpiry(c, id, writeAt))])
  }

  function Delete(c: Cache, id: string, user: string): Cache {
    Cache(c.store - {id}, if user in c.index then c.index[user := c.index[user].(ids := c.index[user].ids - {id})] else c.index)
  }

  function DeleteAll(c: Cache, user: string, now: int): Cache {
    if IndexIds(c, user, now) == {} then c else Cache(c.store - IndexIds(c, user, now), c.index - {user})
  }

  // ----- Agreement of index and store -----

  ghost predicate Listed(c: Cache, user: string, t: int) {
    forall id :: LiveFor(c, user, id, t) ==> id in IndexIds(c, user, t)
  }

  /** From `now` on, until something changes, every live session is in its user's live index. */
  ghost predicate Agrees(c: Cache, now: int) {
    forall user, t :: t >= now ==> Listed(c, user, t)
  }

  /** An indexed id that is stored belongs to that user. */
  ghost predicate Owned(c: Cache) {
    forall user, id :: user in c.index && id in c.index[user].ids && id in c.store ==> c.store[id].session.userId == user
  }

  /** Every other live session of the user ends no later than the index the new session leaves. */
  ghost predicate OthersFit(c: Cache, s: Session, now: int) {
    forall id :: id != s.id && LiveFor(c, s.userId, id, now) ==>
      c.store[id].expiry.Some? && c.store[id].expiry.value <= IndexExpiry(s, now)
  }

  lemma {:induction false} LiveIsMonotone(c: Cache, id: string, now: int, t: int)
    requires now <= t && Live(c, id, t)
    ensures Live(c, id, now)
  {
  }

  lemma {:induction false} OwnKeyFits(s: Session, now: int)
    requires s.expiresAt > now
    ensures SetExpiry(now, s.expiresAt - now, None).Some?
    ensures SetExpiry(now, s.expiresAt - now, None).value <= s.expiresAt + MILLISECOND <= IndexExpiry(s, now)
  {
  }

  lemma {:induction false} CreateLists(c: Cache, s: Session, now: int, user: string, t: int, id: string)
    requires Agrees(c, now) && s.expiresAt > now && OthersFit(c, s, now) && t >= now
    requires LiveFor(Create(c, s, now), user, id, t)
    ensures id in IndexIds(Create(c, s, now), user, t)
  {
    OwnKeyFits(s, now);
    if id != s.id {
      LiveIsMonotone(c, id, now, t);
      assert LiveFor(c, user, id, now) && LiveFor(c, user, id, t);
      assert Listed(c, user, now) && Listed(c, user, t);
    }
  }

  lemma {:induction false} MisfitIsLost(c: Cache, s: Session, now: int, id: string)
    requires s.expiresAt > now && id != s.id && LiveFor(c, s.userId, id, now)
    requires c.store[id].expiry.None? || c.store[id].expiry.value > IndexExpiry(s, now)
    ensures !Agrees(Create(c, s, now), now)
  {
    var c', t := Create(c, s, now), IndexExpiry(s, now);
    OwnKeyFits(s, now);
    assert LiveFor(c', s.userId, id, t);
    assert !Listed(c', s.userId, t);
  }

  /**
   Creating a session keeps the agreement exactly when every other live session of the user ends no
   later than the reset index: the new index ends an hour after the new session, cut to seconds.
   */
  lemma {:induction false} CreateAgreesExactly(c: Cache, s: Session, now: int)
    requires Agrees(c, now) && s.expiresAt > now
    ensures Agrees(Create(c, s, now), now) <==> OthersFit(c, s, now)
  {
    if OthersFit(c, s, now) {
      forall user, t | t >= now ensures Listed(Create(c, s, now), user, t) {
        forall id | LiveFor(Create(c, s, now), user, id, t) ensures id in IndexIds(Create(c, s, now), user, t) {
          CreateLists(c, s, now, user, t, id);
        }
      }
    } else {
      var id :| id != s.id && LiveFor(c, s.userId, id, now)
                && (c.store[id].expiry.None? || c.store[id].expiry.value > IndexExpiry(s, now));
      MisfitIsLost(c, s, now, id);
    }
  }

  /** The failing family has members: a session of a day, then one of an hour. */
  lemma {:induction false} ShortSessionLosesLong()
    ensures exists c, s: Session, now :: Agrees(c, now) && s.expiresAt > now && !Agrees(Create(c, s, now), now)
  {
    var long, short := Session("a", "u", 24 * HOUR, 0), Session("b", "u", HOUR, 0);
    var c := Create(EMPTY, long, 0);
    assert OthersFit(EMPTY, long, 0);
    assert Agrees(EMPTY, 0) by { assert forall user, t :: Listed(EMPTY, user, t); }
    CreateAgreesExactly(EMPTY, long, 0);
    MisfitIsLost(c, short, 0, "a");
  }

  lemma {:induction false} DeleteAgrees(c: Cache, id: string, user: string, now: int)
    requires Agrees(c, now)
    ensures Agrees(Delete(c, id, user), now)
  {
    var c' := Delete(c, id, user);
    forall u, t | t >= now ensures Listed(c', u, t) {
      assert Listed(c, u, t);
      assert forall k :: LiveFor(c', u, k, t) ==> LiveFor(c, u, k, t) && k != id;
    }
  }

  /** Logging out everywhere leaves no live session of the user, now or later. */
  lemma {:induction false} DeleteAllLeavesNone(c: Cache, user: string, now: int)
    requires Agrees(c, now)
    ensures Agrees(DeleteAll(c, user, now), now)
    ensures forall id, t :: t >= now ==> !LiveFor(DeleteAll(c, user, now), user, id, t)
  {
    var c' := DeleteAll(c, user, now);
    assert Listed(c, user, now);
    forall id, t | t >= now ensures !LiveFor(c', user, id, t) {
      if Live(c, id, t) {
        LiveIsMonotone(c, id, now, t);
        assert LiveFor(c, user, id, now) ==> id in IndexIds(c, user, now);
      }
    }
    forall u, t | t >= now ensures Listed(c', u, t) {
      assert Listed(c, u, t);
      assert forall k :: LiveFor(c', u, k, t) ==> LiveFor(c, u, k, t);
    }
  }

  // ----- Runs -----

  /** Every live session is in a live index that outlasts it, with a millisecond to spare. */
  ghost predicate Covered(c: Cache, now: int) {
    forall id :: Live(c, id, now) ==> CoveredKey(c, id)
  }

  ghost predicate CoveredKey(c: Cache, id: string)
    requires id in c.store
  {
    var s := c.store[id].session;
    && s.id == id
    && c.store[id].expiry.Some? && c.store[id].expiry.value <= s.expiresAt + MILLISECOND
    && s.userId in c.index && id in c.index[s.userId].ids && s.expiresAt + MILLISECOND <= c.index[s.userId].expiry
  }

  lemma {:induction false} CoveredLater(c: Cache, now: int, later: int)
    requires Covered(c, now) && now <= later
    ensures Covered(c, later)
  {
  }

  lemma {:induction false} CoveredAgrees(c: Cache, now: int)
    requires Covered(c, now)
    ensures Agrees(c, now)
  {
    forall user, t | t >= now ensures Listed(c, user, t) {
      forall id | LiveFor(c, user, id, t) ensures id in IndexIds(c, user, t) {
        LiveIsMonotone(c, id, now, t);
        assert CoveredKey(c, id);
      }
    }
  }

  /**
   Refreshing a session keeps the agreement exactly when it writes before the session's own end; a
   later write leaves a key without expiry, except one nanosecond after the end on a live key.
   */
  lemma {:induction false} TouchAgreesExactly(c: Cache, id: string, readAt: int, writeAt: int)
    requires Covered(c, readAt) && Live(c, id, readAt) && readAt <= writeAt
    ensures Agrees(Touch(c, id, readAt, writeAt), writeAt) <==>
            (writeAt < c.store[id].session.expiresAt || (writeAt == c.store[id].session.expiresAt + 1 && Live(c, id, writeAt)))
  {
    var c', s := Touch(c, id, readAt, writeAt), c.store[id].session;
    assert CoveredKey(c, id);
    if TouchedExpiry(c, id, writeAt).None? {
      var t := if c.index[s.userId].expiry > writeAt then c.index[s.userId].expiry else writeAt;
      assert LiveFor(c', s.userId, id, t);
      assert !Listed(c', s.userId, t);
    } else {
      TouchKeepsCovered(c, id, readAt, writeAt);
      CoveredAgrees(c', writeAt);
    }
  }

  lemma {:induction false} TouchKeepsCovered(c: Cache, id: string, readAt: int, writeAt: int)
    requires Covered(c, readAt) && readAt <= writeAt
    requires Live(c, id, readAt) ==> TouchedExpiry(c, id, writeAt).Some?
    ensures Covered(Touch(c, id, readAt, writeAt), writeAt)
  {
    var c' := Touch(c, id, readAt, writeAt);
    forall k | Live(c', k, writeAt) ensures CoveredKey(c', k) {
      if k != id || !Live(c, id, readAt) {
        LiveIsMonotone(c, k, readAt, writeAt);
      }
      assert CoveredKey(c, k);
    }
  }

  datatype Op =
    | Creating(session: Session, at: int)
    | Touching(id: string, readAt: int, at: int)
    | Deleting(id: string, user: string, at: int)
    | DeletingAll(user: string, at: int)

  function Apply(c: Cache, op: Op): Cache {
    match op
    case Creating(s, at) => Create(c, s, at)
    case Touching(id, readAt, at) => Touch(c, id, readAt, at)
    case Deleting(id, user, _) => Delete(c, id, user)
    case DeletingAll(user, at) => DeleteAll(c, user, at)
  }

  /**
   Operations as the service issues them: a user's sessions have non-decreasing ends, a session id
   belongs to one user, and a refresh writes before the session ends.
   */
  ghost predicate Regular(c: Cache, op: Op) {
    match op
    case Creating(s, at) =>
      && (forall id :: LiveFor(c, s.userId, id, at) ==> c.store[id].session.expiresAt <= s.expiresAt)
      && (forall user :: user in c.index && s.id in c.index[user].ids ==> user == s.userId)
    case Touching(id, readAt, at) => readAt <= at && (Live(c, id, readAt) ==> at < c.store[id].session.expiresAt)
    case _ => true
  }

  function Start(op: Op): int { if op.Touching? then op.readAt else op.at }

  lemma {:induction false} CreateKeepsCovered(c: Cache, s: Session, now: int)
    requires Covered(c, now) && Regular(c, Creating(s, now))
    ensures Covered(Create(c, s, now), now)
  {
    if s.expiresAt > now {
      var c' := Create(c, s, now);
      OwnKeyFits(s, now);
      forall id | Live(c', id, now) ensures CoveredKey(c', id) {
        if id != s.id {
          assert CoveredKey(c, id);
        }
      }
    }
  }

  lemma {:induction false} RemovalKeepsCovered(c: Cache, op: Op, now: int)
    requires Covered(c, now) && (op.Deleting? || op.DeletingAll?) && op.at == now
    ensures Covered(Apply(c, op), now)
  {
    var c' := Apply(c, op);
    forall id | Live(c', id, now) ensures CoveredKey(c', id) {
      assert CoveredKey(c, id);
    }
  }

  lemma {:induction false} RegularKeepsOwned(c: Cache, op: Op)
    requires Owned(c) && Regular(c, op)
    ensures Owned(Apply(c, op))
  {
  }

  lemma {:induction false} RegularKeepsCovered(c: Cache, op: Op, now: int)
    requires Covered(c, now) && Regular(c, op) && now <= Start(op)
    ensures Covered(Apply(c, op), op.at)
  {
    CoveredLater(c, now, Start(op));
    match op
    case Creating(s, at) => CreateKeepsCovered(c, s, at);
    case Touching(id, readAt, at) => TouchKeepsCovered(c, id, readAt, at);
    case _ => RemovalKeepsCovered(c, op, op.at);
  }

  function Run(ops: seq<Op>, k: nat): Cache
    requires k <= |ops|
  {
    if k == 0 then EMPTY else Apply(Run(ops, k - 1), ops[k - 1])
  }

  ghost predicate RegularAt(ops: seq<Op>, i: nat)
    requires i < |ops|
  {
    Regular(Run(ops, i), ops[i])
  }

  /** A serial run of regular operations on a non-decreasing clock. */
  ghost predicate RegularRun(ops: seq<Op>) {
    && (forall i :: 0 <= i < |ops| ==> RegularAt(ops, i))
    && (forall i, j :: 0 <= i < j < |ops| ==> ops[i].at <= Start(ops[j]))
  }

  lemma {:induction false} RunKeeps(ops: seq<Op>, k: nat, now: int)
    requires RegularRun(ops) && k <= |ops|
    requires forall i :: 0 <= i < k ==> ops[i].at <= now
    ensures Covered(Run(ops, k), now) && Owned(Run(ops, k))
  {
    if k > 0 {
      var op := ops[k - 1];
      RunKeeps(ops, k - 1, Start(op));
      assert RegularAt(ops, k - 1);
      RegularKeepsOwned(Run(ops, k - 1), op);
      RegularKeepsCovered(Run(ops, k - 1), op, Start(op));
      CoveredLater(Run(ops, k), op.at, now);
    }
  }

  function LiveAmong(c: Cache, ids: set<string>, now: int): set<string> {
    set id | id in ids && Live(c, id, now)
  }

  /** The ids a listing of the user's sessions returns. */
  function ListedIds(c: Cache, user: string, now: int): set<string> {
    LiveAmong(c, IndexIds(c, user, now), now)
  }

  lemma {:induction false} NoneListed(c: Cache, now: int)
    ensures Lists([], c, LiveAmong(c, {}, now))
  {
  }

  lemma {:induction false} LiveAmongGrows(c: Cache, ids: set<string>, id: string, now: int)
    ensures LiveAmong(c, ids + {id}, now) == if Live(c, id, now) then LiveAmong(c, ids, now) + {id} else LiveAmong(c, ids, now)
    ensures id !in ids ==> id !in LiveAmong(c, ids, now)
  {
  }

  /** After every regular run, a listing holds exactly the user's live sessions and logout removes them all. */
  lemma {:induction false} SessionsAgree(ops: seq<Op>, now: int, user: string)
    requires RegularRun(ops) && forall i :: 0 <= i < |ops| ==> ops[i].at <= now
    ensures var c := Run(ops, |ops|);
            && (forall id :: id in ListedIds(c, user, now) <==> LiveFor(c, user, id, now))
            && (forall id, t :: t >= now ==> !LiveFor(DeleteAll(c, user, now), user, id, t))
  {
    var c := Run(ops, |ops|);
    RunKeeps(ops, |ops|, now);
    CoveredAgrees(c, now);
    assert Listed(c, user, now);
    DeleteAllLeavesNone(c, user, now);
  }

  // ----- The operations on the store -----

  class SessionCache {
    var store: map<string, Stored>
    var index: map<string, UserIndex>

    function State(): Cache
      reads this
    {
      Cache(store, index)
    }

    constructor ()
      ensures State() == EMPTY
    {
      store, index := map[], map[];
    }

    method CreateSession(s: Session, now: int) returns (ok: bool)
      modifies this
      ensures ok == (s.expiresAt > now) && State() == Create(old(State()), s, now)
    {
      var ttl := s.expiresAt - now;
      if ttl <= 0 {
        return false;
      }
      store := store[s.id := Stored(s, SetExpiry(now, ttl, None))];
      var ids := IndexIds(Cache(store, index), s.userId, now) + {s.id};
      var expiry := if s.userId in index then index[s.userId].expiry else now;
      index := index[s.userId := UserIndex(ids, expiry)];
      index := index[s.userId := UserIndex(ids, now + ExpireSeconds(ttl + HOUR) * SECOND)];
      return true;
    }

    method GetSession(id: string, now: int) returns (r: Option<Session>)
      ensures r == if Live(State(), id, now) then Some(store[id].session) else None
    {
      if id !in store || !Alive(store[id].expiry, now) {
        return None;
      }
      return Some(store[id].session);
    }

    method UpdateSessionActivity(id: string, readAt: int, writeAt: int)
      modifies this
      ensures State() == Touch(old(State()), id, readAt, writeAt)
    {
      var s := GetSession(id, readAt);
      if s.None? {
        return;
      }
      var kept := if Alive(store[id].expiry, writeAt) then store[id].expiry else None;
      store := store[id := Stored(s.value.(lastActiveAt := writeAt), SetExpiry(writeAt, s.value.expiresAt - writeAt, kept))];
    }

    method DeleteSession(id: string, user: string)
      modifies this
      ensures State() == Delete(old(State()), id, user)
    {
      store := store - {id};
      if user in index {
        index := index[user := index[user].(ids := index[user].ids - {id})];
      }
    }

    method DeleteAllUserSessions(user: string, now: int)
      modifies this
      ensures State() == DeleteAll(old(State()), user, now)
    {
      var ids := IndexIds(Cache(store, index), user, now);
      if ids == {} {
        return;
      }
      var rest := ids;
      while rest != {}
        invariant rest <= ids && index == old(index) && store == old(store) - (ids - rest)
        decreases |rest|
      {
        ghost var some := SomeElement(rest);
        var id :| id in rest;
        store := store - {id};
        rest := rest - {id};
      }
      index := index - {user};
    }

    /** Skips ids whose session is gone; every listed session appears once. */
    method GetUserSessions(user: string, now: int) returns (r: seq<Session>)
      ensures Lists(r, State(), ListedIds(State(), user, now))
    {
      hide Lists, LiveAmong;
      ghost var c := State();
      var rest := IndexIds(Cache(store, index), user, now);
      r := [];
      ghost var done: set<string> := {};
      NoneListed(c, now);
      while rest != {}
        invariant done + rest == IndexIds(c, user, now) && done !! rest
        invariant Lists(r, c, LiveAmong(c, done, now))
        decreases |rest|
      {
        ghost var some := SomeElement(rest);
        var id :| id in rest;
        rest := rest - {id};
        var s := GetSession(id, now);
        LiveAmongGrows(c, done, id, now);
        if s.Some? {
          ListsSnoc(r, c, LiveAmong(c, done, now), id);
          r := r + [s.value];
        }
        done := done + {id};
      }
    }
  }

  /** A list of the sessions with these ids, one entry each. */
  ghost predicate Lists(r: seq<Session>, c: Cache, ids: set<string>) {
    && |r| == |ids|
    && (forall i :: 0 <= i < |r| ==> exists id :: id in ids && id in c.store && r[i] == c.store[id].session)
    && (forall id :: id in ids ==> id in c.store && c.store[id].session in r)
  }

  lemma {:induction false} ListsSnoc(r: seq<Session>, c: Cache, ids: set<string>, id: string)
    requires Lists(r, c, ids) && id in c.store && id !in ids
    ensures Lists(r + [c.store[id].session], c, ids + {id})
  {
  }
}

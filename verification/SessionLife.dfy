/** What each session operation does to sessions and listings, instant by instant, and what a deletion means for a run. */
module SessionLife {
  import opened Options
  import opened Sessions

  /** Whole milliseconds of a positive lifetime in nanoseconds, at least one. */
  function Millis(lifetime: int): int
    requires lifetime > 0
  {
    if lifetime < 1_000_000 then 1_000_000 else lifetime - lifetime % 1_000_000
  }

  /** The other sessions and their keys are as they were. */
  ghost predicate OthersKept(before: Cache, after: Cache, id: string) {
    forall other :: other != id ==>
      (other in after.store <==> other in before.store) && (other in after.store ==> after.store[other] == before.store[other])
  }

  /**
   A new session is stored as it is, lives for its time in whole milliseconds, and is listed for that
   time and an hour more, in whole seconds; the user's listed ones stay, under the new expiry.
   */
  lemma {:induction false} CreateStores(c: Cache, s: Session, now: int, user: string, t: int)
    requires s.expiresAt > now && t >= now
    ensures var c' := Create(c, s, now);
            && Live(c', s.id, t) == (t < now + Millis(s.expiresAt - now))
            && s.id in c'.store && c'.store[s.id].session == s && OthersKept(c, c', s.id)
            && (user != s.userId ==> IndexIds(c', user, t) == IndexIds(c, user, t))
            && IndexIds(c', s.userId, t) ==
               if t - now < (s.expiresAt - now + 3_600_000_000_000) / 1_000_000_000 * 1_000_000_000 then
                 IndexIds(c, s.userId, now) + {s.id}
               else {}
  {
  }

  /** A refresh before the end keeps the session but for the instant of its last activity, and lets it live to its end in whole milliseconds. */
  lemma {:induction false} TouchRefreshes(c: Cache, id: string, readAt: int, writeAt: int, t: int)
    requires Live(c, id, readAt) && writeAt < c.store[id].session.expiresAt && t >= writeAt
    ensures var c', s := Touch(c, id, readAt, writeAt), c.store[id].session;
            && Live(c', id, t) == (t < writeAt + Millis(s.expiresAt - writeAt))
            && id in c'.store && c'.store[id].session == Session(s.id, s.userId, s.expiresAt, writeAt)
            && OthersKept(c, c', id) && c'.index == c.index
  {
  }

  /** Refreshing a session that is gone, or creating one that has ended, changes nothing. */
  lemma {:induction false} NothingToDo(c: Cache, id: string, s: Session, readAt: int, now: int)
    ensures !Live(c, id, readAt) ==> Touch(c, id, readAt, now) == c
    ensures s.expiresAt <= now ==> Create(c, s, now) == c
  {
  }

  /** A deleted session is live at no instant and listed for that user at none; everything else stays. */
  lemma {:induction false} DeleteRemoves(c: Cache, id: string, user: string, other: string, t: int)
    ensures var c' := Delete(c, id, user);
            && !Live(c', id, t) && OthersKept(c, c', id)
            && id !in IndexIds(c', user, t)
            && IndexIds(c', other, t) == IndexIds(c, other, t) - (if other == user then {id} else {})
  {
  }

  /** Logging out everywhere removes exactly the listed sessions, and the listing. */
  lemma {:induction false} DeleteAllRemoves(c: Cache, user: string, now: int, other: string, id: string, t: int)
    requires t >= now
    ensures var c' := DeleteAll(c, user, now);
            && (id in c'.store <==> id in c.store && id !in IndexIds(c, user, now))
            && (id in c'.store ==> c'.store[id] == c.store[id])
            && IndexIds(c', user, t) == {}
            && (other != user ==> IndexIds(c', other, t) == IndexIds(c, other, t))
  {
    assert IndexIds(c, user, t) <= IndexIds(c, user, now);
  }

  // ----- Deletion in runs -----

  /** The operation stores a session with this id. */
  predicate Creates(op: Op, id: string) { op.Creating? && op.session.id == id && op.session.expiresAt > op.at }

  /** From a deletion on, no session with the id is created. */
  ghost predicate DeletedFor(ops: seq<Op>, i: nat, id: string, user: string) {
    && i < |ops| && ops[i].Deleting? && ops[i].id == id && ops[i].user == user
    && forall j :: i < j < |ops| ==> !Creates(ops[j], id)
  }

  ghost predicate Absent(c: Cache, id: string, user: string) {
    id !in c.store && (user in c.index ==> id !in c.index[user].ids)
  }

  lemma {:induction false} StaysAbsent(c: Cache, op: Op, id: string, user: string)
    requires Absent(c, id, user) && !Creates(op, id)
    ensures Absent(Apply(c, op), id, user)
  {
  }

  lemma {:induction false} AbsentSince(ops: seq<Op>, i: nat, k: nat, id: string, user: string)
    requires DeletedFor(ops, i, id, user) && i < k <= |ops|
    ensures Absent(Run(ops, k), id, user)
    decreases k
  {
    if k == i + 1 {
      assert Run(ops, k) == Delete(Run(ops, i), id, user);
    } else {
      AbsentSince(ops, i, k - 1, id, user);
      StaysAbsent(Run(ops, k - 1), ops[k - 1], id, user);
    }
  }

  /** A session that was deleted and not created again is never live or listed, whatever else runs. */
  lemma {:induction false} DeletedForGood(ops: seq<Op>, i: nat, k: nat, id: string, user: string, anyone: string, t: int)
    requires DeletedFor(ops, i, id, user) && i < k <= |ops|
    ensures var c := Run(ops, k);
            !Live(c, id, t) && id !in ListedIds(c, anyone, t) && id !in IndexIds(c, user, t)
  {
    AbsentSince(ops, i, k, id, user);
  }

  // ----- Sessions of a run -----

  /** The session a run has stored under an id: the last one created, with the instant of the last refresh since. */
  function Current(ops: seq<Op>, k: nat, id: string): Option<Session>
    requires k <= |ops|
  {
    if k == 0 then None
    else
      var front, op := Current(ops, k - 1, id), ops[k - 1];
      if Creates(op, id) then Some(op.session)
      else if op.Touching? && op.id == id && Live(Run(ops, k - 1), id, op.readAt) && front.Some? then Some(front.value.(lastActiveAt := op.at))
      else front
  }

  /** Whatever runs, what is stored under an id is its current session; no operation mixes sessions up. */
  lemma {:induction false} StoredIsCurrent(ops: seq<Op>, k: nat, id: string)
    requires k <= |ops|
    ensures id in Run(ops, k).store ==> Current(ops, k, id) == Some(Run(ops, k).store[id].session)
  {
    if k > 0 { StoredIsCurrent(ops, k - 1, id); }
  }
}

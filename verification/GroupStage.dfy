/** Stage 2: from the user's direct groups and the raw group records to the effective groups. */
module GroupStage {
  import opened Options
  import opened Sets
  import opened Groups
  import opened AclTypes

  ghost predicate StrictlyIncreasing(ids: seq<int>) {
    forall i, j :: 0 <= i < j < |ids| ==> ids[i] < ids[j]
  }

  lemma {:induction false} EmptyIffNoElems(a: seq<int>)
    ensures Elems(a) == {} <==> a == []
  {
    if a != [] { assert a[0] in Elems(a); }
  }

  /** A strictly increasing list is determined by its elements. */
  lemma {:induction false} IncreasingUnique(a: seq<int>, b: seq<int>)
    requires StrictlyIncreasing(a) && StrictlyIncreasing(b) && Elems(a) == Elems(b)
    ensures a == b
    decreases |a|
  {
    if a == [] || b == [] {
      EmptyIffNoElems(a);
      EmptyIffNoElems(b);
    } else {
      assert a[0] in Elems(b) && b[0] in Elems(a);
      assert a[0] in b && b[0] in a;
      assert a[0] == b[0];
      forall x | x in Elems(a[1..]) ensures x in Elems(b[1..]) { assert x in Elems(a) && x != a[0]; assert x in b; }
      forall x | x in Elems(b[1..]) ensures x in Elems(a[1..]) { assert x in Elems(b) && x != b[0]; assert x in a; }
      assert Elems(a[1..]) == Elems(b[1..]);
      IncreasingUnique(a[1..], b[1..]);
      assert a == [a[0]] + a[1..] && b == [b[0]] + b[1..];
    }
  }

  /** Position of the first element above `x`. */
  method InsertionPoint(ids: seq<int>, x: int) returns (k: nat)
    requires StrictlyIncreasing(ids) && x !in ids
    ensures k <= |ids|
    ensures forall i :: 0 <= i < k ==> ids[i] < x
    ensures forall i :: k <= i < |ids| ==> x < ids[i]
  {
    k := 0;
    while k < |ids| && ids[k] < x
      invariant k <= |ids|
      invariant forall i :: 0 <= i < k ==> ids[i] < x
    {
      k := k + 1;
    }
    if k < |ids| {
      assert ids[k] in ids;
    }
  }

  lemma {:induction false} InsertKeeps(ids: seq<int>, k: nat, x: int)
    requires StrictlyIncreasing(ids) && k <= |ids|
    requires (forall i :: 0 <= i < k ==> ids[i] < x) && (forall i :: k <= i < |ids| ==> x < ids[i])
    ensures StrictlyIncreasing(ids[..k] + [x] + ids[k..])
    ensures Elems(ids[..k] + [x] + ids[k..]) == Elems(ids) + {x}
  {
  }

  /** The ids of a set in increasing order, collected in whatever order the set is walked. */
  method SortedIds(s: set<int>) returns (ids: seq<int>)
    ensures StrictlyIncreasing(ids) && Elems(ids) == s
  {
    var rest := s;
    ids := [];
    while rest != {}
      invariant rest <= s && StrictlyIncreasing(ids) && Elems(ids) == s - rest
      decreases |rest|
    {
      ghost var some := SomeElement(rest);
      var x :| x in rest;
      assert x !in Elems(ids);
      var k := InsertionPoint(ids, x);
      InsertKeeps(ids, k, x);
      ids := ids[..k] + [x] + ids[k..];
      rest := rest - {x};
    }
  }

  /** The known groups among the ids, in the order of the ids. */
  ghost function KnownRecords(ids: seq<int>, table: GroupTable, k: nat): seq<GroupRecord>
    requires k <= |ids|
  {
    if k == 0 then []
    else KnownRecords(ids, table, k - 1) + if ids[k - 1] in table then [table[ids[k - 1]]] else []
  }

  method CollectRecords(ids: seq<int>, table: GroupTable) returns (records: seq<GroupRecord>)
    ensures records == KnownRecords(ids, table, |ids|)
  {
    records := [];
    for i := 0 to |ids|
      invariant records == KnownRecords(ids, table, i)
    {
      if ids[i] in table {
        records := records + [table[ids[i]]];
      }
    }
  }

  /** What stage 2 promises about its groups. */
  ghost predicate Resolves(g: ResolvedGroups, user: User, table: GroupTable) {
    && g.effective == Closure(Elems(user.groupIds), table)
    && g.directIds == user.groupIds
    && StrictlyIncreasing(g.effectiveIds) && Elems(g.effectiveIds) == g.effective
    && StrictlyIncreasing(g.impliedIds) && Elems(g.impliedIds) == g.effective - Elems(user.groupIds)
    && g.groups == KnownRecords(g.effectiveIds, table, |g.effectiveIds|)
  }

  /** The records collected are those of the ids that have one. */
  lemma {:induction false} RecordsOfIds(ids: seq<int>, table: GroupTable, k: nat, r: GroupRecord)
    requires k <= |ids|
    ensures r in KnownRecords(ids, table, k) <==> exists i :: 0 <= i < k && ids[i] in table && r == table[ids[i]]
  {
    if k > 0 { RecordsOfIds(ids, table, k - 1, r); }
  }

  /**
   What stage 2 promises over the raw records: the effective groups are the least set closed under
   each id's last record, and the groups listed are the last records of effective ids.
   */
  lemma {:induction false} ResolvesOverRecords(g: ResolvedGroups, user: User, raw: seq<RawGroup>)
    requires TableOf(raw, |raw|).Some? && Resolves(g, user, TableOf(raw, |raw|).value)
    ensures IsEffective(g.effective, Elems(user.groupIds), raw)
    ensures g.directIds == user.groupIds && StrictlyIncreasing(g.effectiveIds) && StrictlyIncreasing(g.impliedIds)
    ensures forall id :: (id in g.effectiveIds <==> id in g.effective) && (id in g.impliedIds <==> id in g.effective && id !in user.groupIds)
    ensures forall i: nat, id :: IsLast(raw, |raw|, i, id) ==>
              (GroupRecord(id, raw[i].name, raw[i].impliedIds) in g.groups <==> id in g.effective)
  {
    hide TableOf, KnownRecords;
    var table := TableOf(raw, |raw|).value;
    EffectiveOverRecords(Elems(user.groupIds), raw);
    forall id ensures (id in g.effectiveIds <==> id in g.effective) && (id in g.impliedIds <==> id in g.effective && id !in user.groupIds) {
      assert id in Elems(g.effectiveIds) <==> id in g.effectiveIds;
      assert id in Elems(g.impliedIds) <==> id in g.impliedIds;
    }
    forall i: nat, id | IsLast(raw, |raw|, i, id)
      ensures GroupRecord(id, raw[i].name, raw[i].impliedIds) in g.groups <==> id in g.effective
    {
      ListedIfEffective(g, user, raw, i, id);
    }
  }

  lemma {:induction false} ListedIfEffective(g: ResolvedGroups, user: User, raw: seq<RawGroup>, i: nat, id: int)
    requires TableOf(raw, |raw|).Some? && Resolves(g, user, TableOf(raw, |raw|).value) && IsLast(raw, |raw|, i, id)
    ensures GroupRecord(id, raw[i].name, raw[i].impliedIds) in g.groups <==> id in g.effective
  {
    hide TableOf, KnownRecords, Closure;
    var table := TableOf(raw, |raw|).value;
    TableHoldsLast(raw, |raw|, id);
    var r := GroupRecord(id, raw[i].name, raw[i].impliedIds);
    var ids := g.effectiveIds;
    RecordsOfIds(ids, table, |ids|, r);
    if id in g.effective {
      assert id in Elems(ids);
      var j :| 0 <= j < |ids| && ids[j] == id;
    }
    forall j | 0 <= j < |ids| && ids[j] in table && r == table[ids[j]] ensures id in g.effective {
      RecordsKeepTheirId(raw, |raw|, ids[j]);
      assert ids[j] in Elems(ids);
    }
  }

  lemma {:induction false} RecordsKeepTheirId(raw: seq<RawGroup>, k: nat, id: int)
    requires k <= |raw| && TableOf(raw, k).Some? && id in TableOf(raw, k).value
    ensures TableOf(raw, k).value[id].id == id
  {
    TableHoldsLast(raw, k, id);
    var i :| 0 <= i < k && raw[i].id == Some(id);
    var last := LastExists(raw, k, i, id);
  }

  const RES_GROUPS := "res.groups"

  function GroupsResult(v: Verdict): StageResult { StageResult(GroupsStage, v, Unspecified, NoDetail) }

  /** The outcome of stage 2: an internal error when a record has no readable id. */
  datatype GroupsOutcome = Internal | Stopped(result: StageResult) | Resolved(groups: ResolvedGroups, result: StageResult)

  method ResolveGroups(schema: Schema, user: User, groupData: seq<RawGroup>) returns (r: GroupsOutcome)
    ensures IsSuperUser(user) ==>
              r.Resolved? && r.groups == ResolvedGroups(user.groupIds, [], user.groupIds, Elems(user.groupIds), [])
    ensures !IsSuperUser(user) && RES_GROUPS !in schema ==> r == Stopped(GroupsResult(ERROR))
    ensures !IsSuperUser(user) && RES_GROUPS in schema ==>
              match TableOf(groupData, |groupData|)
              case None => r == Internal
              case Some(table) =>
                if table == map[] then r == Stopped(GroupsResult(ERROR)) else r.Resolved? && Resolves(r.groups, user, table)
    ensures r.Resolved? ==> r.result == GroupsResult(OK)
  {
    if IsSuperUser(user) {
      var effective := set g | g in user.groupIds;
      return Resolved(ResolvedGroups(user.groupIds, [], user.groupIds, effective, []), GroupsResult(OK));
    }
    if RES_GROUPS !in schema {
      return Stopped(GroupsResult(ERROR));
    }
    var parsed := ParseGroupRecords(groupData);
    if parsed.None? {
      return Internal;
    }
    var table := parsed.value;
    if |table| == 0 {
      return Stopped(GroupsResult(ERROR));
    }
    var effective, _ := ExpandGroups(user.groupIds, table);
    var effectiveIds := SortedIds(effective);
    var direct := set g | g in user.groupIds;
    var impliedIds := SortedIds(effective - direct);
    var records := CollectRecords(effectiveIds, table);
    r := Resolved(ResolvedGroups(user.groupIds, impliedIds, effectiveIds, effective, records), GroupsResult(OK));
  }
}

/**
 Group expansion. `Closure` is the least set that holds the direct groups and, with every known
 group, the groups it implies; the breadth-first search over the implied ids computes it on any
 graph, cycles, unknown ids and repeated direct ids included.
 */
module Groups {
  import opened Options
  import opened Sets

  datatype GroupRecord = GroupRecord(id: int, name: string, impliedIds: seq<int>)

  /** A raw record from the agent; a missing or unreadable id is None. */
  datatype RawGroup = RawGroup(id: Option<int>, name: string, impliedIds: seq<int>)

  type GroupTable = map<int, GroupRecord>

  function Elems(ids: seq<int>): set<int> { set i | i in ids }

  // ----- Lookup table -----

  /** The table after the first `k` records: a later record with the same id replaces an earlier one. */
  function TableOf(raw: seq<RawGroup>, k: nat): Option<GroupTable>
    requires k <= |raw|
  {
    if k == 0 then Some(map[])
    else
      match (TableOf(raw, k - 1), raw[k - 1].id)
      case (Some(t), Some(id)) => Some(t[id := GroupRecord(id, raw[k - 1].name, raw[k - 1].impliedIds)])
      case _ => None
  }

  lemma {:induction false} TableFails(raw: seq<RawGroup>, k: nat)
    requires k <= |raw|
    ensures TableOf(raw, k).None? <==> exists i :: 0 <= i < k && raw[i].id.None?
  {
    if k > 0 { TableFails(raw, k - 1); }
  }

  /** The last record with an id. */
  ghost predicate IsLast(raw: seq<RawGroup>, k: nat, i: nat, id: int)
    requires k <= |raw|
  {
    i < k && raw[i].id == Some(id) && forall j :: i < j < k ==> raw[j].id != Some(id)
  }

  lemma {:induction false} TableKnows(raw: seq<RawGroup>, k: nat, id: int)
    requires k <= |raw| && TableOf(raw, k).Some?
    ensures id in TableOf(raw, k).value <==> exists i :: 0 <= i < k && raw[i].id == Some(id)
  {
    hide TableOf;
    TableStep(raw, k);
    if k > 0 { TableKnows(raw, k - 1, id); }
  }

  lemma {:induction false} TableLast(raw: seq<RawGroup>, k: nat, i: nat, id: int)
    requires k <= |raw| && TableOf(raw, k).Some? && IsLast(raw, k, i, id)
    ensures id in TableOf(raw, k).value && TableOf(raw, k).value[id] == GroupRecord(id, raw[i].name, raw[i].impliedIds)
  {
    hide TableOf;
    TableStep(raw, k);
    if i < k - 1 { TableLast(raw, k - 1, i, id); }
  }

  /** A table holds exactly the ids of the records, each with the name and the implied ids of its last record. */
  lemma {:induction false} TableHoldsLast(raw: seq<RawGroup>, k: nat, id: int)
    requires k <= |raw| && TableOf(raw, k).Some?
    ensures var table := TableOf(raw, k).value;
            && (id in table <==> exists i :: 0 <= i < k && raw[i].id == Some(id))
            && forall i: nat :: IsLast(raw, k, i, id) ==> id in table && table[id] == GroupRecord(id, raw[i].name, raw[i].impliedIds)
  {
    hide TableOf;
    TableKnows(raw, k, id);
    forall i: nat | IsLast(raw, k, i, id)
      ensures id in TableOf(raw, k).value && TableOf(raw, k).value[id] == GroupRecord(id, raw[i].name, raw[i].impliedIds)
    {
      TableLast(raw, k, i, id);
    }
  }

  lemma {:induction false} TableStep(raw: seq<RawGroup>, k: nat)
    requires k <= |raw| && TableOf(raw, k).Some?
    ensures k == 0 ==> TableOf(raw, k) == Some(map[])
    ensures k > 0 ==>
              && TableOf(raw, k - 1).Some? && raw[k - 1].id.Some?
              && var id := raw[k - 1].id.value;
                 TableOf(raw, k).value == TableOf(raw, k - 1).value[id := GroupRecord(id, raw[k - 1].name, raw[k - 1].impliedIds)]
  {
  }

  lemma {:induction false} LastExists(raw: seq<RawGroup>, k: nat, i: nat, id: int) returns (last: nat)
    requires i < k <= |raw| && raw[i].id == Some(id)
    ensures IsLast(raw, k, last, id)
    decreases k
  {
    if raw[k - 1].id == Some(id) {
      last := k - 1;
    } else {
      last := LastExists(raw, k - 1, i, id);
    }
  }

  method ParseGroupRecords(raw: seq<RawGroup>) returns (r: Option<GroupTable>)
    ensures r == TableOf(raw, |raw|)
  {
    var table: GroupTable := map[];
    for i := 0 to |raw|
      invariant TableOf(raw, i) == Some(table)
    {
      if raw[i].id.None? {
        TableFails(raw, |raw|);
        return None;
      }
      var id := raw[i].id.value;
      table := table[id := GroupRecord(id, raw[i].name, raw[i].impliedIds)];
    }
    r := Some(table);
  }

  // ----- The closure -----

  ghost predicate ClosedUnder(s: set<int>, table: GroupTable) {
    forall g, i :: g in s && g in table && i in table[g].impliedIds ==> i in s
  }

  ghost predicate IsClosure(s: set<int>, direct: set<int>, table: GroupTable) {
    && direct <= s
    && ClosedUnder(s, table)
    && forall t: set<int> :: direct <= t && ClosedUnder(t, table) ==> s <= t
  }

  ghost function AllImplied(table: GroupTable): set<int> {
    set g, i | g in table && i in table[g].impliedIds :: i
  }

  ghost function ImpliedBy(s: set<int>, table: GroupTable): set<int> {
    set g, i | g in s && g in table && i in table[g].impliedIds :: i
  }

  /** Groups implied by groups already in, until nothing is added. */
  ghost function Closure(s: set<int>, table: GroupTable): set<int>
    decreases |AllImplied(table) - s|
  {
    var added := ImpliedBy(s, table) - s;
    if added == {} then s
    else
      ClosureShrinks(s, table, added);
      Closure(s + added, table)
  }

  lemma {:induction false} ClosureShrinks(s: set<int>, table: GroupTable, added: set<int>)
    requires added == ImpliedBy(s, table) - s && added != {}
    ensures |AllImplied(table) - (s + added)| < |AllImplied(table) - s|
  {
    var all := AllImplied(table);
    var x :| x in added;
    assert x in all - s && x !in all - (s + added);
    assert all - (s + added) < all - s;
    SubsetSize(all - (s + added), all - s);
  }

  lemma {:induction false} ClosureIsLeast(s: set<int>, table: GroupTable)
    ensures IsClosure(Closure(s, table), s, table)
    decreases |AllImplied(table) - s|
  {
    var added := ImpliedBy(s, table) - s;
    if added == {} {
      forall g, i | g in s && g in table && i in table[g].impliedIds ensures i in s { assert i in ImpliedBy(s, table); }
    } else {
      ClosureShrinks(s, table, added);
      ClosureIsLeast(s + added, table);
      forall t: set<int> | s <= t && ClosedUnder(t, table)
        ensures Closure(s, table) <= t
      {
        assert s + added <= t;
      }
    }
  }

  lemma {:induction false} ClosureUnique(a: set<int>, b: set<int>, direct: set<int>, table: GroupTable)
    requires IsClosure(a, direct, table) && IsClosure(b, direct, table)
    ensures a == b
  {
  }

  /** More edges: every known group stays known and implies at least what it implied. */
  ghost predicate Extends(small: GroupTable, big: GroupTable) {
    forall g :: g in small ==> g in big && Elems(small[g].impliedIds) <= Elems(big[g].impliedIds)
  }

  /** More direct groups and more implied edges never lose an effective group. */
  lemma {:induction false} ClosureMonotone(s: set<int>, t: set<int>, small: GroupTable, big: GroupTable)
    requires s <= t && Extends(small, big)
    ensures Closure(s, small) <= Closure(t, big)
  {
    ClosureIsLeast(s, small);
    ClosureIsLeast(t, big);
    var c := Closure(t, big);
    forall g, i | g in c && g in small && i in small[g].impliedIds
      ensures i in c
    {
      assert i in Elems(small[g].impliedIds);
      assert i in Elems(big[g].impliedIds);
    }
    assert ClosedUnder(c, small);
  }

  // ----- Effective groups over the raw records -----

  /** With every group, the groups its last record implies. */
  ghost predicate ClosedUnderRecords(s: set<int>, raw: seq<RawGroup>) {
    forall i: nat, g, implied :: g in s && IsLast(raw, |raw|, i, g) && implied in raw[i].impliedIds ==> implied in s
  }

  /** The least set with the direct groups that is closed under the last records. */
  ghost predicate IsEffective(s: set<int>, direct: set<int>, raw: seq<RawGroup>) {
    && direct <= s && ClosedUnderRecords(s, raw)
    && forall t: set<int> :: direct <= t && ClosedUnderRecords(t, raw) ==> s <= t
  }

  lemma {:induction false} ClosedAlike(s: set<int>, raw: seq<RawGroup>)
    requires TableOf(raw, |raw|).Some?
    ensures ClosedUnder(s, TableOf(raw, |raw|).value) <==> ClosedUnderRecords(s, raw)
  {
    hide TableOf;
    var table := TableOf(raw, |raw|).value;
    forall g, implied | ClosedUnderRecords(s, raw) && g in s && g in table && implied in table[g].impliedIds ensures implied in s {
      TableHoldsLast(raw, |raw|, g);
      var i :| 0 <= i < |raw| && raw[i].id == Some(g);
      var last := LastExists(raw, |raw|, i, g);
    }
    forall i: nat, g, implied | ClosedUnder(s, table) && g in s && IsLast(raw, |raw|, i, g) && implied in raw[i].impliedIds ensures implied in s {
      TableHoldsLast(raw, |raw|, g);
    }
  }

  /** The closure over the table is the closure over the records it was read from. */
  lemma {:induction false} EffectiveOverRecords(direct: set<int>, raw: seq<RawGroup>)
    requires TableOf(raw, |raw|).Some?
    ensures IsEffective(Closure(direct, TableOf(raw, |raw|).value), direct, raw)
  {
    hide TableOf, ClosedUnder, ClosedUnderRecords;
    var table := TableOf(raw, |raw|).value;
    ClosureIsLeast(direct, table);
    forall t ensures ClosedUnder(t, table) <==> ClosedUnderRecords(t, raw) { ClosedAlike(t, raw); }
  }

  // ----- Breadth-first search -----

  /** Every effective group that is not waiting in the queue has had its implied groups added. */
  ghost predicate Expanded(effective: set<int>, queue: seq<int>, table: GroupTable) {
    forall g, i :: g in effective && g !in queue && g in table && i in table[g].impliedIds ==> i in effective
  }

  ghost predicate Minimal(effective: set<int>, direct: set<int>, table: GroupTable) {
    forall t: set<int> :: direct <= t && ClosedUnder(t, table) ==> effective <= t
  }

  lemma {:induction false} NoElems()
    ensures Elems([]) == {}
  {
  }

  lemma {:induction false} ElemsNext(ids: seq<int>, k: nat)
    requires k < |ids|
    ensures Elems(ids[..k + 1]) == Elems(ids[..k]) + {ids[k]}
  {
  }

  /** Adding a new element to the effective set and to the queue keeps them in step. */
  lemma {:induction false} QueueNext(effective0: set<int>, queue0: seq<int>, effective: set<int>, queue: seq<int>, x: int)
    requires effective0 <= effective && x !in effective
    requires Elems(queue) == Elems(queue0) + (effective - effective0)
    requires |queue| == |queue0| + |effective - effective0|
    ensures Elems(queue + [x]) == Elems(queue0) + ((effective + {x}) - effective0)
    ensures |queue + [x]| == |queue0| + |(effective + {x}) - effective0|
  {
    assert (effective + {x}) - effective0 == (effective - effective0) + {x};
    assert Elems(queue + [x]) == Elems(queue) + {x};
  }

  /** One queue turn: adds the implied groups that are not in yet and queues each of them once. */
  method AddImplied(implied: seq<int>, effective0: set<int>, queue0: seq<int>) returns (effective: set<int>, queue: seq<int>)
    ensures effective == effective0 + Elems(implied)
    ensures Elems(queue) == Elems(queue0) + (effective - effective0)
    ensures |queue| == |queue0| + |effective - effective0|
  {
    hide Elems;
    effective, queue := effective0, queue0;
    NoElems();
    ghost var done: set<int> := {};
    assert effective - effective0 == {};
    for i := 0 to |implied|
      invariant done == Elems(implied[..i])
      invariant effective == effective0 + done
      invariant Elems(queue) == Elems(queue0) + (effective - effective0)
      invariant |queue| == |queue0| + |effective - effective0|
    {
      ElemsNext(implied, i);
      done := done + {implied[i]};
      if implied[i] !in effective {
        QueueNext(effective0, queue0, effective, queue, implied[i]);
        effective := effective + {implied[i]};
        queue := queue + [implied[i]];
      }
    }
    assert implied[..|implied|] == implied;
  }

  /** What holds between two turns of the search. */
  ghost predicate SearchInv(effective: set<int>, queue: seq<int>, base: set<int>, table: GroupTable) {
    && base <= effective && Elems(queue) <= effective
    && Expanded(effective, queue, table)
    && Minimal(effective, base, table)
  }

  lemma {:induction false} SkipTurn(effective: set<int>, queue: seq<int>, base: set<int>, table: GroupTable)
    requires queue != [] && SearchInv(effective, queue, base, table) && queue[0] !in table
    ensures SearchInv(effective, queue[1..], base, table)
  {
  }

  lemma {:induction false} KnownTurn(effective: set<int>, queue: seq<int>, base: set<int>, table: GroupTable,
                                     effective': set<int>, queue': seq<int>)
    requires queue != [] && SearchInv(effective, queue, base, table) && queue[0] in table
    requires effective' == effective + Elems(table[queue[0]].impliedIds)
    requires Elems(queue') == Elems(queue[1..]) + (effective' - effective)
    ensures SearchInv(effective', queue', base, table)
    ensures effective' == effective || |AllImplied(table) - effective'| < |AllImplied(table) - effective|
    ensures |effective' - base| == |effective - base| + |effective' - effective|
  {
    var current, rest := queue[0], queue[1..];
    var implied := Elems(table[current].impliedIds);
    KnownTurnSizes(effective, base, table, current, effective');
    assert current in Elems(queue);
    assert forall g :: g in queue ==> g == current || g in Elems(rest);
    assert forall g :: g in rest ==> g in queue;
    forall t: set<int> | base <= t && ClosedUnder(t, table)
      ensures effective' <= t
    {
      assert effective <= t && current in t;
      forall i | i in implied ensures i in t { assert i in table[current].impliedIds; }
    }
    forall g, i | g in effective' && g !in queue' && g in table && i in table[g].impliedIds
      ensures i in effective'
    {
      assert g !in Elems(queue');
      if g == current { assert i in implied; }
    }
  }

  lemma {:induction false} KnownTurnSizes(effective: set<int>, base: set<int>, table: GroupTable, current: int, effective': set<int>)
    requires base <= effective && current in table && effective' == effective + Elems(table[current].impliedIds)
    ensures effective' == effective || |AllImplied(table) - effective'| < |AllImplied(table) - effective|
    ensures |effective' - base| == |effective - base| + |effective' - effective|
  {
    var implied := Elems(table[current].impliedIds);
    forall i | i in implied ensures i in AllImplied(table) { assert i in table[current].impliedIds; }
    MeasureDrops(AllImplied(table), effective, effective');
    assert effective' - base == (effective - base) + (effective' - effective);
  }

  lemma {:induction false} MeasureDrops(all: set<int>, before: set<int>, after: set<int>)
    requires before <= after <= before + all
    ensures after == before || |all - after| < |all - before|
  {
    if after != before {
      assert after == before + (after - before);
      var x := SomeElement(after - before);
      assert x in all - before && x !in all - after;
      assert all - after < all - before;
      SubsetSize(all - after, all - before);
    }
  }

  /**
   The search computes the closure and pops the queue exactly once per listed direct id and once
   per group that was added.
   */
  method ExpandGroups(direct: seq<int>, table: GroupTable) returns (effective: set<int>, ghost pops: nat)
    ensures effective == Closure(Elems(direct), table)
    ensures pops == |direct| + |effective - Elems(direct)|
  {
    ghost var base := Elems(direct);
    effective := set g | g in direct;
    var queue := direct;
    pops := 0;
    assert effective - base == {};
    while |queue| > 0
      invariant SearchInv(effective, queue, base, table)
      invariant pops + |queue| == |direct| + |effective - base|
      decreases |AllImplied(table) - effective|, |queue|
    {
      var current := queue[0];
      if current in table {
        var effective', queue' := AddImplied(table[current].impliedIds, effective, queue[1..]);
        KnownTurn(effective, queue, base, table, effective', queue');
        effective, queue := effective', queue';
      } else {
        SkipTurn(effective, queue, base, table);
        queue := queue[1..];
      }
      pops := pops + 1;
    }
    assert IsClosure(effective, base, table);
    ClosureIsLeast(base, table);
    ClosureUnique(effective, Closure(base, table), base, table);
  }
}

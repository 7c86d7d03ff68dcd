/** When compaction raises, read off the rows in the order they appear. */
module RegistryRaises {
  import opened Text
  import opened Lists
  import opened Merge
  import opened Registry
  import opened RegistryGuards
  import opened RegistryOpen

  /** The entity's versions of one kind, in order of first appearance. */
  function OfKind(k: Known, eid: string, kind: string -> bool): seq<string> {
    Keep(kind, Keep(InEntity(k.table, eid), k.order))
  }

  function Tombstones(k: Known): string -> bool { id => id in k.table && Tombstone(k, id) }

  function Opens(k: Known): string -> bool { id => id in k.table && OpenByItself(k, id) }

  /** None of these carries a stamp, and the last of them has no `indexed_at` at all. */
  predicate NoneStamped(k: Known, ids: seq<string>) {
    && ids != [] && (forall i :: 0 <= i < |ids| ==> ids[i] in k.table && Stamp(k.table[ids[i]]) == "")
    && Get(k.table[Last(ids)], "indexed_at").None?
  }

  /** The entity has tombstones and versions open by themselves, and none of one kind is stamped. */
  predicate Incomparable(k: Known, eid: string) {
    var tombstones, opens := OfKind(k, eid, Tombstones(k)), OfKind(k, eid, Opens(k));
    tombstones != [] && opens != [] && (NoneStamped(k, tombstones) || NoneStamped(k, opens))
  }

  // ---- the last of a kind after sorting -----------------------------------------------------------

  lemma NothingIsBeforeBlank(a: string)
    requires StrLe(a, "")
    ensures a == ""
  {
  }

  lemma SortingTheUnstamped(k: Known, ids: seq<string>)
    requires forall i :: 0 <= i < |ids| ==> StampIn(k.table)(ids[i]) == ""
    ensures StableSort(StampIn(k.table), ids) == ids
  {
    SortingTheSorted(StampIn(k.table), ids);
  }

  lemma {:induction false} BlankLastIsAllBlank<T(!new)>(key: T -> string, s: seq<T>)
    requires SortedBy(key, s) && s != [] && key(Last(s)) == ""
    ensures forall x :: x in s ==> key(x) == ""
  {
    forall x | x in s ensures key(x) == "" {
      var j :| 0 <= j < |s| && s[j] == x;
      if j < |s| - 1 { NothingIsBeforeBlank(key(s[j])); }
    }
  }

  lemma BlankAfterSorting(k: Known, ids: seq<string>)
    requires ids != []
    ensures var key := StampIn(k.table);
            Last(StableSort(key, ids)) in ids
            && (key(Last(StableSort(key, ids))) == "" <==> forall i :: 0 <= i < |ids| ==> key(ids[i]) == "")
  {
    var key := StampIn(k.table);
    var sorted := StableSort(key, ids);
    SortingKeepsMembers(ids, key);
    StableSortSorts(key, ids);
    assert Last(sorted) in sorted;
    if key(Last(sorted)) == "" {
      BlankLastIsAllBlank(key, sorted);
      forall i | 0 <= i < |ids| ensures key(ids[i]) == "" { assert ids[i] in sorted; }
    }
  }

  lemma LastOfSorted(k: Known, ids: seq<string>)
    requires ids != [] && forall i :: 0 <= i < |ids| ==> ids[i] in k.table
    ensures var last := Last(StableSort(StampIn(k.table), ids));
            last in k.table && (Get(k.table[last], "indexed_at").None? <==> NoneStamped(k, ids))
  {
    var key := StampIn(k.table);
    BlankAfterSorting(k, ids);
    assert forall i :: 0 <= i < |ids| ==> key(ids[i]) == Stamp(k.table[ids[i]]);
    if forall i :: 0 <= i < |ids| ==> key(ids[i]) == "" { SortingTheUnstamped(k, ids); }
  }

  // ---- the versions of a kind ------------------------------------------------------------------------

  lemma VersionsOneMore(k: Known, ids: seq<string>, id: string)
    requires id in k.table && forall i :: 0 <= i < |ids| ==> ids[i] in k.table
    ensures VersionsOf(k, ids + [id]) == VersionsOf(k, ids) + [Derived(k, id)]
  {
  }

  lemma KeepingOneVersionMore(k: Known, kind: string -> bool, p: Version -> bool, front: seq<string>, id: string)
    requires id in k.table && (forall i :: 0 <= i < |front| ==> front[i] in k.table) && kind(id) == p(Derived(k, id))
    requires forall i :: 0 <= i < |Keep(kind, front)| ==> Keep(kind, front)[i] in k.table
    requires Keep(p, VersionsOf(k, front)) == VersionsOf(k, Keep(kind, front))
    ensures forall i :: 0 <= i < |Keep(kind, front + [id])| ==> Keep(kind, front + [id])[i] in k.table
    ensures Keep(p, VersionsOf(k, front + [id])) == VersionsOf(k, Keep(kind, front + [id]))
  {
    VersionsOneMore(k, front, id);
    KeepOneMore(kind, front, id);
    KeepOneMore(p, VersionsOf(k, front), Derived(k, id));
    if kind(id) { VersionsOneMore(k, Keep(kind, front), id); }
  }

  lemma {:induction false} KeepingVersions(k: Known, kind: string -> bool, p: Version -> bool, ids: seq<string>)
    requires forall i :: 0 <= i < |ids| ==> ids[i] in k.table && kind(ids[i]) == p(Derived(k, ids[i]))
    ensures forall i :: 0 <= i < |Keep(kind, ids)| ==> Keep(kind, ids)[i] in k.table
    ensures Keep(p, VersionsOf(k, ids)) == VersionsOf(k, Keep(kind, ids))
    decreases |ids|
  {
    if ids != [] {
      var front, id := ids[..|ids| - 1], ids[|ids| - 1];
      KeepingVersions(k, kind, p, front);
      KeepingOneVersionMore(k, kind, p, front, id);
      assert ids == front + [id];
    }
  }

  lemma OfKindIsKnown(k: Known, eid: string, kind: string -> bool)
    ensures forall i :: 0 <= i < |OfKind(k, eid, kind)| ==> OfKind(k, eid, kind)[i] in k.table
  {
    var members := Keep(InEntity(k.table, eid), k.order);
    KeepMembers(InEntity(k.table, eid), k.order);
    KeepMembers(kind, members);
    forall i | 0 <= i < |OfKind(k, eid, kind)| ensures OfKind(k, eid, kind)[i] in k.table {
      assert OfKind(k, eid, kind)[i] in Keep(kind, members);
    }
  }

  function VersionsIn(k: Known, eid: string): seq<Version> {
    GroupMembers(k, eid);
    VersionsOf(k, Group(k, eid))
  }

  /** The versions of a kind are the ids of that kind, sorted by their stamps. */
  lemma KindIsSorted(k: Known, eid: string, kind: string -> bool, p: Version -> bool)
    requires forall id :: id in k.table ==> kind(id) == p(Derived(k, id))
    ensures var sorted := StableSort(StampIn(k.table), OfKind(k, eid, kind));
            && (forall i :: 0 <= i < |sorted| ==> sorted[i] in k.table)
            && Keep(p, VersionsIn(k, eid)) == VersionsOf(k, sorted)
  {
    GroupMembers(k, eid);
    forall i | 0 <= i < |Group(k, eid)| ensures Group(k, eid)[i] in k.table { assert Group(k, eid)[i] in Group(k, eid); }
    KeepingVersions(k, kind, p, Group(k, eid));
    SortingAndKeeping(StampIn(k.table), kind, Keep(InEntity(k.table, eid), k.order));
  }

  /** The last version of a kind lacks its stamp exactly when none of the kind has one. */
  lemma LastLacksAStampExactlyWhen(k: Known, eid: string, kind: string -> bool, p: Version -> bool)
    requires Consistent(k) && forall id :: id in k.table ==> kind(id) == p(Derived(k, id))
    ensures var vs := Keep(p, VersionsIn(k, eid));
            && (vs == [] <==> OfKind(k, eid, kind) == [])
            && (vs != [] ==> (Get(Last(vs).row, "indexed_at").None? <==> NoneStamped(k, OfKind(k, eid, kind))))
  {
    var ids := OfKind(k, eid, kind);
    var sorted := StableSort(StampIn(k.table), ids);
    KindIsSorted(k, eid, kind, p);
    OfKindIsKnown(k, eid, kind);
    if ids != [] {
      LastOfSorted(k, ids);
      LifeByItself(k, Last(sorted));
    }
  }

  lemma KindsAreLives(k: Known)
    requires Consistent(k)
    ensures forall id :: id in k.table ==>
              Tombstones(k)(id) == IsTombstoned(Derived(k, id)) && Opens(k)(id) == IsCurrent(Derived(k, id))
  {
    forall id | id in k.table
      ensures Tombstones(k)(id) == IsTombstoned(Derived(k, id)) && Opens(k)(id) == IsCurrent(Derived(k, id))
    {
      LifeByItself(k, id);
    }
  }

  lemma HeadByLasts(vs: seq<Version>)
    requires vs != []
    ensures Head(vs).None? <==>
            && Keep(IsTombstoned, vs) != [] && Keep(IsCurrent, vs) != []
            && (|| Get(Last(Keep(IsTombstoned, vs)).row, "indexed_at").None?
                || Get(Last(Keep(IsCurrent, vs)).row, "indexed_at").None?)
  {
  }

  lemma HeadRaisesExactlyWhen(k: Known, eid: string)
    requires Consistent(k) && VersionsIn(k, eid) != []
    ensures Head(VersionsIn(k, eid)).None? <==> Incomparable(k, eid)
  {
    var vs := VersionsIn(k, eid);
    HeadByLasts(vs);
    KindsAreLives(k);
    LastLacksAStampExactlyWhen(k, eid, Tombstones(k), IsTombstoned);
    LastLacksAStampExactlyWhen(k, eid, Opens(k), IsCurrent);
  }

  lemma EntityRaisesExactlyWhen(k: Known, eid: string)
    requires Consistent(k) && eid in Entities(k.order, k.table)
    ensures CompactEntity(k, eid).None? <==> Incomparable(k, eid)
  {
    GroupIsNotEmpty(k, eid);
    var vs := VersionsIn(k, eid);
    assert |vs| == |Group(k, eid)|;
    HeadRaisesExactlyWhen(k, eid);
    assert CompactEntity(k, eid).None? <==> Head(vs).None?;
  }

  ghost predicate SomeRaises(k: Known) {
    exists eid :: eid in Entities(k.order, k.table) && CompactEntity(k, eid).None?
  }

  ghost predicate SomeIncomparable(k: Known) {
    exists eid :: eid in Entities(k.order, k.table) && Incomparable(k, eid)
  }

  lemma SomeEntityRaises(k: Known)
    ensures Gather(Choices(k, Sorted(Entities(k.order, k.table)))).None? <==> SomeRaises(k)
  {
    var entities := Entities(k.order, k.table);
    var eids := Sorted(entities);
    SortingKeepsMembers(entities, Itself);
    GatherEntries(Choices(k, eids));
    if n :| 0 <= n < |eids| && Choices(k, eids)[n].None? { assert eids[n] in eids; }
    if eid :| eid in entities && CompactEntity(k, eid).None? {
      assert eid in eids;
      var n :| 0 <= n < |eids| && eids[n] == eid;
      assert Choices(k, eids)[n].None?;
    }
  }

  lemma RaisingIsIncomparable(k: Known)
    requires Consistent(k)
    ensures SomeRaises(k) <==> SomeIncomparable(k)
  {
    forall eid | eid in Entities(k.order, k.table)
      ensures CompactEntity(k, eid).None? <==> Incomparable(k, eid)
    {
      EntityRaisesExactlyWhen(k, eid);
    }
  }

  /** Compaction raises exactly when some entity has tombstones and open versions and none of one kind is
      stamped. */
  lemma CompactionRaisesExactlyWhen(log: seq<Line>)
    ensures Compact(log).None? <==> SomeIncomparable(LearnAll(ValidRows(log)))
  {
    var k := LearnAll(ValidRows(log));
    ValidRowsAreAttributed(log);
    LearnAllIsConsistent(ValidRows(log));
    SomeEntityRaises(k);
    RaisingIsIncomparable(k);
    assert Compact(log) == Gather(Choices(k, Sorted(Entities(k.order, k.table))));
  }
}

/** What a compacted registry says of each version, and which version it puts at the head. */
module RegistryReport {
  import opened Text
  import opened Lists
  import opened Merge
  import opened Registry
  import opened RegistryGuards
  import opened RegistryOpen
  import opened RegistryRaises

  // ---- the lifecycle and the end of a version -------------------------------------------------------

  /** When a version begins: its `observed_at`, and where that is missing or empty its `indexed_at`. */
  predicate BeginsAt(r: Row, at: Option<string>) {
    at == if Get(r, "observed_at").Some? && Get(r, "observed_at") != Some("") then Get(r, "observed_at") else Get(r, "indexed_at")
  }

  /** The version at place `i` points to `id` and none that appeared later does. */
  ghost predicate PointedLastBy(k: Known, id: string, i: nat) {
    && i < |k.order| && k.order[i] in k.table && Get(k.table[k.order[i]], "supersedes") == Some(id)
    && forall j :: i < j < |k.order| && k.order[j] in k.table ==> Get(k.table[k.order[j]], "supersedes") != Some(id)
  }

  ghost predicate Pointed(k: Known, id: string) { exists p :: p in k.table && Get(k.table[p], "supersedes") == Some(id) }

  /** What a version says by itself: superseded, ending where the last version that points to it begins;
      else tombstoned by its own line, ending at its `valid_to` or where it was indexed; else current. */
  ghost predicate SaysByItself(k: Known, id: string, v: Version)
    requires id in k.table
  {
    var r := k.table[id];
    if Pointed(k, id) then
      v.life == Superseded && exists i: nat :: PointedLastBy(k, id, i) && BeginsAt(k.table[k.order[i]], v.validTo)
    else if Get(r, "lifecycle_state") == Some("tombstoned") then
      && v.life == Tombstoned
      && v.validTo == if Get(r, "valid_to").Some? && Get(r, "valid_to") != Some("") then Get(r, "valid_to") else Get(r, "indexed_at")
    else v.life == Current && v.validTo == Get(r, "valid_to")
  }

  lemma DerivedSaysByItself(k: Known, id: string)
    requires Consistent(k) && id in k.table && id != ""
    ensures Derived(k, id).row == k.table[id] && SaysByItself(k, id, Derived(k, id))
  {
    LifecycleFromPointersAndTombstones(k, id);
    if p :| p in k.table && Get(k.table[p], "supersedes") == Some(id) { assert PointsTo(k.table[p], id); }
    if Derived(k, id).life.Superseded? {
      var i :| 0 <= i < |k.order| && LastPointer(k.order, k.table, id, i)
        && Derived(k, id).validTo == Or(Get(k.table[k.order[i]], "observed_at"), Get(k.table[k.order[i]], "indexed_at"));
      LastPointerIs(k, id, i);
      assert BeginsAt(k.table[k.order[i]], Derived(k, id).validTo);
    }
  }

  lemma LastPointerIs(k: Known, id: string, i: nat)
    requires id != "" && i < |k.order| && LastPointer(k.order, k.table, id, i)
    ensures PointedLastBy(k, id, i) && Pointed(k, id)
  {
  }

  /** The head is a tombstone, and sweeps every other version that nothing points to and that is none. */
  predicate Swept(k: Known, head: Version, id: string)
    requires id in k.table
  {
    && head.life == Tombstoned && id != Kid(head.row)
    && (forall p | p in k.table :: Get(k.table[p], "supersedes") != Some(id))
    && Get(k.table[id], "lifecycle_state") != Some("tombstoned")
  }

  /** For every log that compacts and every version it reports: under a tombstoned head an open version is
      reported superseded and ends where that head begins; every other version is reported as it says by
      itself. */
  lemma EveryVersionIsReportedAs(log: seq<Line>, e: Entry, i: nat)
    requires Compact(log).Some? && e in Compact(log).value && i < |e.versions|
    ensures var k := LearnAll(ValidRows(log));
            var v, id := e.versions[i], Kid(e.versions[i].row);
            && id in k.table && Eid(k.table[id]) == e.entityId && v.row == k.table[id]
            && if Swept(k, e.head, id) then v.life == Superseded && BeginsAt(e.head.row, v.validTo) else SaysByItself(k, id, v)
  {
    var k := LearnAll(ValidRows(log));
    ValidRowsAreAttributed(log);
    LearnAllIsConsistent(ValidRows(log));
    CompactEntries(ValidRows(log));
    assert CompactEntity(k, e.entityId) == Some(e);
    GroupMembers(k, e.entityId);
    EntryListsItsGroup(k, e.entityId);
    var id := Group(k, e.entityId)[i];
    assert KidsOf(e.versions)[i] == id && id in Group(k, e.entityId);
    assert e.versions[i] == Close(e.head, Derived(k, id));
    KnownIdsAreNamed(log, id);
    ClosedAs(k, e.head, id);
  }

  lemma KnownIdsAreNamed(log: seq<Line>, id: string)
    requires id in LearnAll(ValidRows(log)).table
    ensures id != ""
  {
    ValidRowsAreAttributed(log);
    LearnAllMergesPerVersion(ValidRows(log), id);
    var r := RowsOf(ValidRows(log), id)[0];
    assert r in RowsOf(ValidRows(log), id);
    var i :| 0 <= i < |ValidRows(log)| && ValidRows(log)[i] == r;
  }

  lemma ClosedAs(k: Known, head: Version, id: string)
    requires Consistent(k) && id in k.table && id != ""
    ensures var v := Close(head, Derived(k, id));
            && v.row == k.table[id]
            && if Swept(k, head, id) then v.life == Superseded && BeginsAt(head.row, v.validTo) else SaysByItself(k, id, v)
  {
    DerivedSaysByItself(k, id);
    assert Pointed(k, id) <==> !forall p | p in k.table :: Get(k.table[p], "supersedes") != Some(id);
  }

  // ---- the head ---------------------------------------------------------------------------------------

  /** `ids[n]` is at least as late as every id before it, and later than every id after it. */
  predicate LatestAt(k: Known, ids: seq<string>, n: nat) {
    && n < |ids| && (forall i :: 0 <= i < |ids| ==> ids[i] in k.table)
    && (forall m :: 0 <= m < n ==> StrLe(Stamp(k.table[ids[m]]), Stamp(k.table[ids[n]])))
    && forall m :: n < m < |ids| ==> !StrLe(Stamp(k.table[ids[n]]), Stamp(k.table[ids[m]]))
  }

  lemma {:induction false} LastInserted(key: string -> string, x: string, s: seq<string>)
    requires SortedBy(key, s)
    ensures var r := Insert(key, x, s);
            r != [] && if s != [] && StrLe(key(x), key(Last(s))) then Last(r) == Last(s)
                       else Last(r) == x && forall i :: 0 <= i < |s| ==> !StrLe(key(x), key(s[i]))
  {
    if s != [] {
      if StrLe(key(x), key(s[0])) {
        if |s| > 1 { StrLeTransitive(key(x), key(s[0]), key(Last(s))); }
      } else {
        TailIsSorted(key, s);
        LastInserted(key, x, s[1..]);
        if |s| == 1 { assert s[1..] == []; }
      }
    }
  }

  /** The last of a stable sort is a latest element, and of the latest the one that came last. */
  lemma {:induction false} LastOfStableSort(key: string -> string, s: seq<string>) returns (n: nat)
    requires s != []
    ensures n < |s| && StableSort(key, s) != [] && Last(StableSort(key, s)) == s[n]
    ensures forall m :: 0 <= m < n ==> StrLe(key(s[m]), key(s[n]))
    ensures forall m :: n < m < |s| ==> !StrLe(key(s[n]), key(s[m]))
    decreases |s|
  {
    var x, rest := s[0], s[1..];
    StableSortSorts(key, rest);
    SortingKeepsMembers(rest, key);
    LastInserted(key, x, StableSort(key, rest));
    if rest == [] {
      n := 0;
    } else {
      var n' := LastOfStableSort(key, rest);
      if StrLe(key(x), key(rest[n'])) {
        n := n' + 1;
      } else {
        n := 0;
        forall m | 0 < m < |s| ensures !StrLe(key(x), key(s[m])) {
          assert rest[m - 1] in StableSort(key, rest);
        }
      }
    }
  }

  /** The versions the head is chosen from, in order of first appearance. */
  function Candidates(k: Known, eid: string, head: Life): seq<string> {
    if head == Tombstoned then OfKind(k, eid, Tombstones(k))
    else if head == Current then OfKind(k, eid, Opens(k))
    else Keep(InEntity(k.table, eid), k.order)
  }

  lemma LatestOfCandidates(k: Known, ids: seq<string>) returns (n: nat)
    requires ids != [] && forall i :: 0 <= i < |ids| ==> ids[i] in k.table
    ensures LatestAt(k, ids, n) && StableSort(StampIn(k.table), ids) != [] && Last(StableSort(StampIn(k.table), ids)) == ids[n]
  {
    var key := StampIn(k.table);
    n := LastOfStableSort(key, ids);
    assert forall i :: 0 <= i < |ids| ==> key(ids[i]) == Stamp(k.table[ids[i]]);
  }

  lemma LastOfVersions(k: Known, ids: seq<string>)
    requires ids != [] && forall i :: 0 <= i < |ids| ==> ids[i] in k.table
    ensures Last(VersionsOf(k, ids)) == Derived(k, Last(ids))
  {
  }

  lemma LastOfKind(k: Known, eid: string, kind: string -> bool, p: Version -> bool) returns (n: nat)
    requires forall id :: id in k.table ==> kind(id) == p(Derived(k, id))
    requires Keep(p, VersionsIn(k, eid)) != []
    ensures LatestAt(k, OfKind(k, eid, kind), n) && Last(Keep(p, VersionsIn(k, eid))) == Derived(k, OfKind(k, eid, kind)[n])
  {
    var ids := OfKind(k, eid, kind);
    var sorted := StableSort(StampIn(k.table), ids);
    KindIsSorted(k, eid, kind, p);
    OfKindIsKnown(k, eid, kind);
    assert |Keep(p, VersionsIn(k, eid))| == |sorted|;
    StableSortPermutes(StampIn(k.table), ids);
    n := LatestOfCandidates(k, ids);
    LastOfVersions(k, sorted);
  }

  lemma EntityIsKnown(k: Known, eid: string, ids: seq<string>)
    requires ids == Keep(InEntity(k.table, eid), k.order)
    ensures forall i :: 0 <= i < |ids| ==> ids[i] in k.table
  {
    KeepMembers(InEntity(k.table, eid), k.order);
    forall i | 0 <= i < |ids| ensures ids[i] in k.table { assert ids[i] in ids; }
  }

  lemma LastVersion(k: Known, eid: string)
    requires Group(k, eid) != []
    ensures Last(Group(k, eid)) in k.table && VersionsIn(k, eid) != []
    ensures Last(VersionsIn(k, eid)) == Derived(k, Last(Group(k, eid)))
  {
    GroupIsOldestFirst(k, eid);
    LastOfVersions(k, Group(k, eid));
  }

  lemma LastOfGroup(k: Known, eid: string) returns (n: nat)
    requires Group(k, eid) != []
    ensures var ids := Keep(InEntity(k.table, eid), k.order);
            LatestAt(k, ids, n) && VersionsIn(k, eid) != [] && Last(VersionsIn(k, eid)) == Derived(k, ids[n])
  {
    var ids := Keep(InEntity(k.table, eid), k.order);
    EntityIsKnown(k, eid, ids);
    StableSortPermutes(StampIn(k.table), ids);
    assert |Group(k, eid)| == |ids|;
    n := LatestOfCandidates(k, ids);
    LastVersion(k, eid);
  }

  lemma HeadOf(log: seq<Line>, e: Entry)
    requires Compact(log).Some? && e in Compact(log).value
    ensures var k := LearnAll(ValidRows(log));
            var vs := VersionsIn(k, e.entityId);
            Consistent(k) && vs != [] && |vs| == |Group(k, e.entityId)| && Head(vs) == Some(e.head)
  {
    ValidRowsAreAttributed(log);
    LearnAllIsConsistent(ValidRows(log));
    CompactEntries(ValidRows(log));
    assert CompactEntity(LearnAll(ValidRows(log)), e.entityId) == Some(e);
  }

  lemma HeadIsTheLatestIn(k: Known, eid: string, head: Version) returns (n: nat)
    requires Consistent(k) && VersionsIn(k, eid) != [] && |VersionsIn(k, eid)| == |Group(k, eid)|
    requires Head(VersionsIn(k, eid)) == Some(head)
    ensures LatestAt(k, Candidates(k, eid, head.life), n) && head == Derived(k, Candidates(k, eid, head.life)[n])
  {
    HeadOfItsLife(VersionsIn(k, eid));
    KindsAreLives(k);
    match head.life
    case Tombstoned => n := LastOfKind(k, eid, Tombstones(k), IsTombstoned);
    case Current => n := LastOfKind(k, eid, Opens(k), IsCurrent);
    case Superseded => n := LastOfGroup(k, eid);
  }

  /** For every entity the head is the latest of its candidates, and of the latest the one that appeared last. */
  lemma HeadIsTheLatest(log: seq<Line>, e: Entry) returns (n: nat)
    requires Compact(log).Some? && e in Compact(log).value
    ensures var k := LearnAll(ValidRows(log));
            LatestAt(k, Candidates(k, e.entityId, e.head.life), n)
            && e.head == Derived(k, Candidates(k, e.entityId, e.head.life)[n])
  {
    HeadOf(log, e);
    n := HeadIsTheLatestIn(LearnAll(ValidRows(log)), e.entityId, e.head);
  }

  lemma HeadOfItsLife(vs: seq<Version>)
    requires vs != [] && Head(vs).Some?
    ensures var h := Head(vs).value;
            && (h.life.Tombstoned? ==> Keep(IsTombstoned, vs) != [] && h == Last(Keep(IsTombstoned, vs)))
            && (h.life.Current? ==> Keep(IsCurrent, vs) != [] && h == Last(Keep(IsCurrent, vs)))
            && (h.life.Superseded? ==> h == Last(vs))
  {
    var tombs, lives := Tombs(vs), Lives(vs);
    if tombs != [] { assert Last(tombs) in tombs; }
    if lives != [] { assert Last(lives) in lives; }
    assert Last(vs) in vs;
    if tombs == [] && lives == [] { assert Last(vs) !in tombs && Last(vs) !in lives; }
  }

  // ---- the order of what is reported ----------------------------------------------------------------

  /** Entities are reported in the order of their ids, each once. */
  lemma EntitiesAreReportedInOrder(log: seq<Line>, i: nat, j: nat)
    requires Compact(log).Some? && i < j < |Compact(log).value|
    ensures StrLe(Compact(log).value[i].entityId, Compact(log).value[j].entityId)
    ensures Compact(log).value[i].entityId != Compact(log).value[j].entityId
  {
    var k := LearnAll(ValidRows(log));
    var entities := Entities(k.order, k.table);
    ValidRowsAreAttributed(log);
    LearnAllIsConsistent(ValidRows(log));
    CompactEntries(ValidRows(log));
    EntitiesAreTheVersions(k.order, k.table);
    StableSortSorts(Itself, entities);
    SortingKeepsMembers(entities, Itself);
    var eids := Sorted(entities);
    assert CompactEntity(k, eids[i]).value.entityId == eids[i] && CompactEntity(k, eids[j]).value.entityId == eids[j];
    assert StrLe(Itself(eids[i]), Itself(eids[j]));
  }

  lemma EntryOfGroup(log: seq<Line>, e: Entry)
    requires Compact(log).Some? && e in Compact(log).value
    ensures var k := LearnAll(ValidRows(log));
            && KidsOf(e.versions) == Group(k, e.entityId)
            && e.versions == CloseAll(e.head, VersionsIn(k, e.entityId))
  {
    var k := LearnAll(ValidRows(log));
    ValidRowsAreAttributed(log);
    LearnAllIsConsistent(ValidRows(log));
    CompactEntries(ValidRows(log));
    assert CompactEntity(k, e.entityId) == Some(e);
    EntryListsItsGroup(k, e.entityId);
  }

  /** An entity's versions are reported oldest first. */
  lemma VersionsAreReportedOldestFirst(log: seq<Line>, e: Entry, i: nat, j: nat)
    requires Compact(log).Some? && e in Compact(log).value && i < j < |e.versions|
    ensures StrLe(Stamp(e.versions[i].row), Stamp(e.versions[j].row))
  {
    var k := LearnAll(ValidRows(log));
    EntryOfGroup(log, e);
    GroupIsOldestFirst(k, e.entityId);
    var vs := VersionsIn(k, e.entityId);
    assert !Later(vs[i], vs[j]);
  }

  /** Versions of one stamp are reported in order of first appearance. */
  lemma VersionsOfOneStampKeepTheirOrder(log: seq<Line>, e: Entry, stamp: string)
    requires Compact(log).Some? && e in Compact(log).value
    ensures var k := LearnAll(ValidRows(log));
            Keep(OfKey(StampIn(k.table), stamp), KidsOf(e.versions))
            == Keep(OfKey(StampIn(k.table), stamp), Keep(InEntity(k.table, e.entityId), k.order))
  {
    var k := LearnAll(ValidRows(log));
    EntryOfGroup(log, e);
    OneStampKeepsItsOrder(k, Keep(InEntity(k.table, e.entityId), k.order), stamp);
  }

  lemma OneStampKeepsItsOrder(k: Known, ids: seq<string>, stamp: string)
    ensures var p := OfKey(StampIn(k.table), stamp); Keep(p, StableSort(StampIn(k.table), ids)) == Keep(p, ids)
  {
    var key := StampIn(k.table);
    var p := OfKey(key, stamp);
    SortingAndKeeping(key, p, ids);
    KeepMembers(p, ids);
    forall i, j | 0 <= i < j < |Keep(p, ids)| ensures StrLe(key(Keep(p, ids)[i]), key(Keep(p, ids)[j])) {
      assert Keep(p, ids)[i] in Keep(p, ids) && Keep(p, ids)[j] in Keep(p, ids);
      StrLeTotal(stamp, stamp);
    }
    SortingTheSorted(key, Keep(p, ids));
  }
}

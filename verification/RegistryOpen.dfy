/** Which versions a compacted registry reports open, read off the rows and their pointers. */
module RegistryOpen {
  import opened Text
  import opened Lists
  import opened Merge
  import opened Registry
  import opened RegistryGuards

  predicate Unpointed(k: Known, id: string) { forall p | p in k.table :: !PointsTo(k.table[p], id) }

  /** Nothing points to the version and it is not a tombstone itself. */
  predicate OpenByItself(k: Known, id: string)
    requires id in k.table
  {
    Unpointed(k, id) && Get(k.table[id], "lifecycle_state") != Some("tombstoned")
  }

  /** A tombstone nothing points to. */
  predicate Tombstone(k: Known, id: string)
    requires id in k.table
  {
    Unpointed(k, id) && Get(k.table[id], "lifecycle_state") == Some("tombstoned")
  }

  /** Some tombstone of the entity is at least as late as every version that is open by itself. */
  ghost predicate Covered(k: Known, eid: string) { exists t :: Covers(k, eid, t) }

  ghost predicate Covers(k: Known, eid: string, t: string) {
    && t in k.table && Eid(k.table[t]) == eid && Tombstone(k, t)
    && forall v :: OpenIn(k, eid, v) ==> StrLe(Stamp(k.table[v]), Stamp(k.table[t]))
  }

  /** A version of the entity that is open by itself. */
  predicate OpenIn(k: Known, eid: string, id: string) {
    id in k.table && Eid(k.table[id]) == eid && OpenByItself(k, id)
  }

  lemma LifeByItself(k: Known, id: string)
    requires Consistent(k) && id in k.table
    ensures Derived(k, id).row == k.table[id]
    ensures Derived(k, id).life.Current? <==> OpenByItself(k, id)
    ensures Derived(k, id).life.Tombstoned? <==> Tombstone(k, id)
  {
    LifecycleFromPointersAndTombstones(k, id);
  }

  lemma MemberOf(k: Known, eid: string, id: string)
    requires id in k.table && Eid(k.table[id]) == eid
    ensures Derived(k, id) in Members(k, eid)
  {
  }

  /** The reported head is a tombstone exactly when the entity is covered. */
  lemma HeadIsATombstoneExactlyWhenCovered(log: seq<Line>, e: Entry)
    requires Compact(log).Some? && e in Compact(log).value
    ensures e.head.life.Tombstoned? <==> Covered(LearnAll(ValidRows(log)), e.entityId)
  {
    var k := LearnAll(ValidRows(log));
    ValidRowsAreAttributed(log);
    LearnAllIsConsistent(ValidRows(log));
    HeadCharacterisation(log, e);
    var h :| h in k.table && Eid(k.table[h]) == e.entityId && e.head == Derived(k, h);
    LifeByItself(k, h);
    if e.head.life.Tombstoned? {
      forall v | OpenIn(k, e.entityId, v)
        ensures StrLe(Stamp(k.table[v]), Stamp(k.table[h]))
      {
        LifeByItself(k, v);
        MemberOf(k, e.entityId, v);
        assert !Later(Derived(k, v), e.head);
      }
      assert Covers(k, e.entityId, h);
    }
    if t :| Covers(k, e.entityId, t) {
      LifeByItself(k, t);
      MemberOf(k, e.entityId, t);
      assert e.head.life.Current? ==> Later(e.head, Derived(k, t));
    }
  }

  /** A version is reported `current` exactly when it is open by itself and no tombstone of its entity
      is as late as every version that is open by itself. */
  lemma CurrentExactlyWhen(log: seq<Line>, e: Entry, i: nat)
    requires Compact(log).Some? && e in Compact(log).value && i < |e.versions|
    ensures var k := LearnAll(ValidRows(log));
            var id := Kid(e.versions[i].row);
            && id in k.table && Eid(k.table[id]) == e.entityId
            && (e.versions[i].life.Current? <==> OpenByItself(k, id) && !Covered(k, e.entityId))
  {
    var k := LearnAll(ValidRows(log));
    ValidRowsAreAttributed(log);
    LearnAllIsConsistent(ValidRows(log));
    CompactEntries(ValidRows(log));
    assert CompactEntity(k, e.entityId) == Some(e);
    HeadCharacterisation(log, e);
    HeadIsATombstoneExactlyWhenCovered(log, e);
    GroupMembers(k, e.entityId);
    EntryListsItsGroup(k, e.entityId);
    var id := Group(k, e.entityId)[i];
    assert KidsOf(e.versions)[i] == id && id in Group(k, e.entityId);
    LifeByItself(k, id);
    assert e.versions[i] == Close(e.head, Derived(k, id));
    if e.head.life.Tombstoned? { assert e.versions[i] in e.versions; }
  }

  // ---- where a version is reported ------------------------------------------------------------

  lemma EntityIsListed(k: Known, id: string) returns (n: nat)
    requires id in k.order && id in k.table
    ensures var eids := Sorted(Entities(k.order, k.table)); n < |eids| && eids[n] == Eid(k.table[id])
  {
    EntitiesAreTheVersions(k.order, k.table);
    SortingKeepsMembers(Entities(k.order, k.table), Itself);
    assert Eid(k.table[id]) in Entities(k.order, k.table);
    var eids := Sorted(Entities(k.order, k.table));
    n :| 0 <= n < |eids| && eids[n] == Eid(k.table[id]);
  }

  /** The entry of a known version's entity. */
  lemma EntryOf(log: seq<Line>, id: string) returns (e: Entry)
    requires Compact(log).Some? && id in LearnAll(ValidRows(log)).table
    ensures var k := LearnAll(ValidRows(log));
            e in Compact(log).value && CompactEntity(k, Eid(k.table[id])) == Some(e)
  {
    var rows := ValidRows(log);
    ValidRowsAreAttributed(log);
    LearnAllIsConsistent(rows);
    CompactEntries(rows);
    var n := EntityIsListed(LearnAll(rows), id);
    e := Compact(log).value[n];
  }

  lemma PlaceIn(k: Known, id: string, e: Entry) returns (i: nat)
    requires Consistent(k) && id in k.table && CompactEntity(k, Eid(k.table[id])) == Some(e)
    ensures i < |e.versions| && Kid(e.versions[i].row) == id
  {
    var eid := Eid(k.table[id]);
    EntryListsItsGroup(k, eid);
    GroupMembers(k, eid);
    assert id in KidsOf(e.versions);
    i :| 0 <= i < |KidsOf(e.versions)| && KidsOf(e.versions)[i] == id;
  }

  /** The version is reported, as current or not. */
  ghost predicate Reported(log: seq<Line>, id: string, current: bool) {
    Compact(log).Some? && exists e, i :: e in Compact(log).value && ReportedAs(e, i, id, current)
  }

  predicate ReportedAs(e: Entry, i: int, id: string, current: bool) {
    0 <= i < |e.versions| && Kid(e.versions[i].row) == id && e.versions[i].life.Current? == current
  }

  /** The rule for a version, wherever it is reported. */
  lemma ReportedCurrentExactlyWhen(log: seq<Line>, id: string)
    requires Compact(log).Some? && id in LearnAll(ValidRows(log)).table
    ensures var k := LearnAll(ValidRows(log));
            var open := OpenByItself(k, id) && !Covered(k, Eid(k.table[id]));
            (Reported(log, id, true) <==> open) && (Reported(log, id, false) <==> !open)
  {
    var k := LearnAll(ValidRows(log));
    ValidRowsAreAttributed(log);
    LearnAllIsConsistent(ValidRows(log));
    var e := EntryOf(log, id);
    var i := PlaceIn(k, id, e);
    CurrentExactlyWhen(log, e, i);
    forall current: bool | Reported(log, id, current)
      ensures current == (OpenByItself(k, id) && !Covered(k, Eid(k.table[id])))
    {
      var f, j :| f in Compact(log).value && ReportedAs(f, j, id, current);
      CurrentExactlyWhen(log, f, j);
    }
    assert ReportedAs(e, i, id, e.versions[i].life.Current?);
  }

  // ---- at most one current ----------------------------------------------------------------------

  lemma GroupIsDistinct(k: Known, eid: string)
    requires Consistent(k)
    ensures Distinct(Group(k, eid))
  {
    forall x ensures multiset(Group(k, eid))[x] <= 1 {
      GroupCounts(k, eid, x);
      DistinctCounts(k.order, x);
    }
    CountsMakeDistinct(Group(k, eid));
  }

  ghost predicate AtMostOneCurrent(e: Entry) {
    forall i, j :: CurrentAt(e, i) && CurrentAt(e, j) ==> i == j
  }

  predicate CurrentAt(e: Entry, i: int) { 0 <= i < |e.versions| && e.versions[i].life.Current? }

  ghost predicate AtMostOneOpen(k: Known, eid: string) {
    forall a, b :: OpenIn(k, eid, a) && OpenIn(k, eid, b) ==> a == b
  }

  /** An entity reports at most one current version exactly when it is covered by a tombstone or at
      most one of its versions is open by itself. */
  lemma AtMostOneCurrentExactlyWhen(log: seq<Line>, e: Entry)
    requires Compact(log).Some? && e in Compact(log).value
    ensures var k := LearnAll(ValidRows(log));
            AtMostOneCurrent(e) <==> Covered(k, e.entityId) || AtMostOneOpen(k, e.entityId)
  {
    var k := LearnAll(ValidRows(log));
    ValidRowsAreAttributed(log);
    LearnAllIsConsistent(ValidRows(log));
    CompactEntries(ValidRows(log));
    assert CompactEntity(k, e.entityId) == Some(e);
    EntryListsItsGroup(k, e.entityId);
    GroupIsDistinct(k, e.entityId);
    forall i | 0 <= i < |e.versions|
      ensures Kid(e.versions[i].row) == Group(k, e.entityId)[i]
      ensures e.versions[i].life.Current? ==> !Covered(k, e.entityId)
    {
      CurrentExactlyWhen(log, e, i);
      assert KidsOf(e.versions)[i] == Group(k, e.entityId)[i];
    }
    if AtMostOneCurrent(e) && !Covered(k, e.entityId) {
      forall a, b | OpenIn(k, e.entityId, a) && OpenIn(k, e.entityId, b) ensures a == b {
        var i := PlaceIn(k, a, e);
        var j := PlaceIn(k, b, e);
        CurrentExactlyWhen(log, e, i);
        CurrentExactlyWhen(log, e, j);
        assert CurrentAt(e, i) && CurrentAt(e, j);
      }
    }
    if AtMostOneOpen(k, e.entityId) {
      forall i, j | CurrentAt(e, i) && CurrentAt(e, j) ensures i == j {
        CurrentExactlyWhen(log, e, i);
        CurrentExactlyWhen(log, e, j);
        assert OpenIn(k, e.entityId, Kid(e.versions[i].row)) && OpenIn(k, e.entityId, Kid(e.versions[j].row));
      }
    }
  }

  // ---- versions that open again -----------------------------------------------------------------

  /** For any log and any lines appended to it: a version reported, but not as current, becomes
      current exactly when it was closed by a pointer, its own tombstone or a covering one, and after
      the append it is open by itself and no tombstone covers its entity. */
  lemma BecomesCurrentExactlyWhen(log: seq<Line>, more: seq<Line>, id: string)
    requires Compact(log).Some? && Compact(log + more).Some?
    requires id in LearnAll(ValidRows(log)).table && id in LearnAll(ValidRows(log + more)).table
    ensures var before, after := LearnAll(ValidRows(log)), LearnAll(ValidRows(log + more));
            (Reported(log, id, false) && Reported(log + more, id, true)) <==>
            && (!OpenByItself(before, id) || Covered(before, Eid(before.table[id])))
            && OpenByItself(after, id) && !Covered(after, Eid(after.table[id]))
  {
    ReportedCurrentExactlyWhen(log, id);
    ReportedCurrentExactlyWhen(log + more, id);
  }

  /** A new live version without a pointer, later than every tombstone of its entity. */
  ghost predicate LaterLiveVersion(k: Known, y: Row) {
    && Kid(y) != "" && Kid(y) !in k.table && Eid(y) != ""
    && Get(y, "supersedes") == None && Get(y, "lifecycle_state") != Some("tombstoned")
    && (forall t :: t in k.table && Eid(k.table[t]) == Eid(y) && Tombstone(k, t) ==> !StrLe(Stamp(y), Stamp(k.table[t])))
    && Unpointed(k, Kid(y))
  }

  lemma LearnOneLater(log: seq<Line>, y: Row)
    requires LaterLiveVersion(LearnAll(ValidRows(log)), y)
    ensures var k := LearnAll(ValidRows(log));
            LearnAll(ValidRows(log + [Json(y)])) == Known(k.order + [Kid(y)], k.table[Kid(y) := y])
  {
    assert (log + [Json(y)])[..|log + [Json(y)]| - 1] == log;
    var rows := ValidRows(log);
    assert (rows + [y])[..|rows + [y]| - 1] == rows;
  }

  /** Appending it uncovers its entity and changes no pointer. */
  lemma LaterVersionUncovers(k: Known, y: Row)
    requires Consistent(k) && LaterLiveVersion(k, y)
    ensures var k' := Known(k.order + [Kid(y)], k.table[Kid(y) := y]);
            && !Covered(k', Eid(y))
            && forall id :: id in k.table ==> (OpenByItself(k', id) <==> OpenByItself(k, id))
  {
    var k' := Known(k.order + [Kid(y)], k.table[Kid(y) := y]);
    forall id | id in k'.table ensures Unpointed(k', id) <==> Unpointed(k, id) {
      assert !PointsTo(y, id);
      assert forall q :: q in k.table ==> k'.table[q] == k.table[q];
    }
    assert OpenIn(k', Eid(y), Kid(y));
    forall t ensures !Covers(k', Eid(y), t) {
      if t in k.table && Eid(k.table[t]) == Eid(y) && Tombstone(k', t) { assert Tombstone(k, t); }
    }
  }

  /** A version that its entity's tombstone closed is current again as soon as a later live version is
      appended, in any log. */
  lemma AnAppendReopensAClosedVersion(log: seq<Line>, y: Row, id: string)
    requires var k := LearnAll(ValidRows(log));
             && Compact(log).Some? && Compact(log + [Json(y)]).Some?
             && id in k.table && OpenByItself(k, id) && Covered(k, Eid(k.table[id]))
             && LaterLiveVersion(k, y) && Eid(y) == Eid(k.table[id])
    ensures Reported(log, id, false) && Reported(log + [Json(y)], id, true)
  {
    ValidRowsAreAttributed(log);
    LearnAllIsConsistent(ValidRows(log));
    LearnOneLater(log, y);
    LaterVersionUncovers(LearnAll(ValidRows(log)), y);
    BecomesCurrentExactlyWhen(log, [Json(y)], id);
  }
}

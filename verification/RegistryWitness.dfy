/** Small logs that show what compaction does not promise. */
module RegistryWitness {
  import opened Text
  import opened Lists
  import opened Merge
  import opened Registry
  import opened RegistryGuards
  import opened RegistryOpen
  import opened RegistryRaises

  function Ver(id: string, at: string, state: string): Row {
    map["knowledge_id" := Str(id), "entity_id" := Str("e"), "indexed_at" := Str(at), "lifecycle_state" := Str(state)]
  }

  lemma VerFields(id: string, at: string, state: string)
    ensures var r := Ver(id, at, state);
            && Get(r, "supersedes") == None && Get(r, "lifecycle_state") == Some(state) && Get(r, "indexed_at") == Some(at)
            && Kid(r) == id && Eid(r) == "e" && Stamp(r) == at
  {
  }

  /** Two versions of one entity, with no pointer between them. */
  predicate Unlinked(x: Row, y: Row) {
    && Kid(x) != "" && Kid(y) != "" && Kid(x) != Kid(y) && Eid(x) == Eid(y) != ""
    && Get(x, "supersedes") == None && Get(y, "supersedes") == None
  }

  predicate IsTombstone(r: Row) { Get(r, "lifecycle_state") == Some("tombstoned") }

  lemma LearnTwo(x: Row, y: Row)
    requires Unlinked(x, y)
    ensures ValidRows([Json(x), Json(y)]) == [x, y]
    ensures LearnAll([x, y]) == Known([Kid(x), Kid(y)], map[Kid(x) := x, Kid(y) := y])
  {
    assert [Json(x), Json(y)][..1] == [Json(x)] && [Json(x)][..0] == [];
    assert ValidRows([Json(x)]) == [x];
    assert [x, y][..1] == [x] && [x][..0] == [];
    assert LearnAll([x]) == Known([Kid(x)], map[Kid(x) := x]);
  }

  lemma TwoByThemselves(k: Known, x: Row, y: Row)
    requires Unlinked(x, y) && k.table == map[Kid(x) := x, Kid(y) := y]
    ensures OpenByItself(k, Kid(x)) <==> !IsTombstone(x)
    ensures OpenByItself(k, Kid(y)) <==> !IsTombstone(y)
    ensures Tombstone(k, Kid(x)) <==> IsTombstone(x)
    ensures Tombstone(k, Kid(y)) <==> IsTombstone(y)
  {
    assert Unpointed(k, Kid(x)) && Unpointed(k, Kid(y));
  }

  lemma TwoStampedCompact(x: Row, y: Row)
    requires Unlinked(x, y) && Get(x, "indexed_at").Some? && Get(y, "indexed_at").Some?
    ensures Compact([Json(x), Json(y)]).Some?
  {
    LearnTwo(x, y);
    StampedLogsCompact([Json(x), Json(y)]);
  }

  // ---- two current versions -------------------------------------------------------------------

  lemma TwoOpenNotCovered(k: Known, x: Row, y: Row)
    requires Unlinked(x, y) && k.table == map[Kid(x) := x, Kid(y) := y] && !IsTombstone(x) && !IsTombstone(y)
    ensures !Covered(k, Eid(x)) && !AtMostOneOpen(k, Eid(x))
  {
    TwoByThemselves(k, x, y);
    assert OpenIn(k, Eid(x), Kid(x)) && OpenIn(k, Eid(x), Kid(y));
  }

  lemma TwoLiveRowsAreBothCurrent(x: Row, y: Row)
    requires Unlinked(x, y) && Get(x, "indexed_at").Some? && Get(y, "indexed_at").Some?
    requires !IsTombstone(x) && !IsTombstone(y)
    ensures var registry := Compact([Json(x), Json(y)]);
            registry.Some? && exists e :: e in registry.value && !AtMostOneCurrent(e)
  {
    var log := [Json(x), Json(y)];
    LearnTwo(x, y);
    TwoStampedCompact(x, y);
    var k := LearnAll(ValidRows(log));
    TwoOpenNotCovered(k, x, y);
    var e := EntryOf(log, Kid(x));
    EntityOfEntry(k, Eid(x), e);
    AtMostOneCurrentExactlyWhen(log, e);
  }

  lemma EntityOfEntry(k: Known, eid: string, e: Entry)
    requires CompactEntity(k, eid) == Some(e)
    ensures e.entityId == eid
  {
  }

  /** Two versions of one entity without a pointer between them are both reported current. */
  lemma TwoUnlinkedVersionsAreBothCurrent()
    ensures var registry := Compact([Json(Ver("a", "1", "current")), Json(Ver("b", "2", "current"))]);
            registry.Some? && exists e :: e in registry.value && !AtMostOneCurrent(e)
  {
    VerFields("a", "1", "current");
    VerFields("b", "2", "current");
    TwoLiveRowsAreBothCurrent(Ver("a", "1", "current"), Ver("b", "2", "current"));
  }

  // ---- a closed version opens again ------------------------------------------------------------

  lemma ReopenedRows(x: Row, t: Row, y: Row)
    requires Unlinked(x, t) && Unlinked(x, y) && Unlinked(t, y)
    requires Get(x, "indexed_at").Some? && Get(t, "indexed_at").Some? && Get(y, "indexed_at").Some?
    requires !IsTombstone(x) && IsTombstone(t) && !IsTombstone(y)
    requires StrLe(Stamp(x), Stamp(t)) && !StrLe(Stamp(y), Stamp(t))
    ensures var log := [Json(x), Json(t)];
            Reported(log, Kid(x), false) && Reported(log + [Json(y)], Kid(x), true)
  {
    var log := [Json(x), Json(t)];
    LearnTwo(x, t);
    TwoStampedCompact(x, t);
    var k := LearnAll([x, t]);
    TwoByThemselves(k, x, t);
    ClosedByTheTombstone(k, x, t);
    OpensLater(k, x, t, y);
    ThreeStampedCompact(log, x, t, y);
    AnAppendReopensAClosedVersion(log, y, Kid(x));
  }

  lemma ClosedByTheTombstone(k: Known, x: Row, t: Row)
    requires Unlinked(x, t) && k.table == map[Kid(x) := x, Kid(t) := t]
    requires !IsTombstone(x) && IsTombstone(t) && StrLe(Stamp(x), Stamp(t))
    ensures Covered(k, Eid(x))
  {
    TwoByThemselves(k, x, t);
    assert Covers(k, Eid(x), Kid(t));
  }

  lemma OpensLater(k: Known, x: Row, t: Row, y: Row)
    requires Unlinked(x, t) && Unlinked(x, y) && Unlinked(t, y) && k.table == map[Kid(x) := x, Kid(t) := t]
    requires !IsTombstone(x) && IsTombstone(t) && !IsTombstone(y) && !StrLe(Stamp(y), Stamp(t))
    ensures LaterLiveVersion(k, y)
  {
    TwoByThemselves(k, x, t);
  }

  lemma OneValidRow(y: Row)
    requires Kid(y) != "" && Eid(y) != ""
    ensures ValidRows([Json(y)]) == [y]
  {
    assert [Json(y)][..0] == [];
  }

  lemma StampedRowsCompact(log: seq<Line>, rows: seq<Row>)
    requires ValidRows(log) == rows && forall i :: 0 <= i < |rows| ==> Get(rows[i], "indexed_at").Some?
    ensures Compact(log).Some?
  {
    StampedLogsCompact(log);
  }

  lemma ThreeValidRows(log: seq<Line>, x: Row, t: Row, y: Row)
    requires ValidRows(log) == [x, t] && Kid(y) != "" && Eid(y) != ""
    ensures ValidRows(log + [Json(y)]) == [x, t, y]
  {
    OneValidRow(y);
    ValidRowsConcat(log, [Json(y)]);
    assert [x, t] + [y] == [x, t, y];
  }

  lemma ThreeStampedCompact(log: seq<Line>, x: Row, t: Row, y: Row)
    requires ValidRows(log) == [x, t] && Kid(y) != "" && Eid(y) != ""
    requires Get(x, "indexed_at").Some? && Get(t, "indexed_at").Some? && Get(y, "indexed_at").Some?
    ensures Compact(log + [Json(y)]).Some?
  {
    ThreeValidRows(log, x, t, y);
    ThreeStamped(x, t, y);
    StampedRowsCompact(log + [Json(y)], [x, t, y]);
  }

  lemma ThreeStamped(x: Row, t: Row, y: Row)
    requires Get(x, "indexed_at").Some? && Get(t, "indexed_at").Some? && Get(y, "indexed_at").Some?
    ensures forall i :: 0 <= i < |[x, t, y]| ==> Get([x, t, y][i], "indexed_at").Some?
  {
  }

  /** A tombstone closes a version, and a later line opens it again. */
  lemma ALaterLineReopensAVersion()
    ensures var log := [Json(Ver("a", "1", "current")), Json(Ver("t", "2", "tombstoned"))];
            Reported(log, "a", false) && Reported(log + [Json(Ver("b", "3", "current"))], "a", true)
  {
    VerFields("a", "1", "current");
    VerFields("t", "2", "tombstoned");
    VerFields("b", "3", "current");
    ReopenedRows(Ver("a", "1", "current"), Ver("t", "2", "tombstoned"), Ver("b", "3", "current"));
  }

  // ---- a log that does not compact ---------------------------------------------------------------

  lemma UnstampedLiveRaises(x: Row, t: Row)
    requires Unlinked(x, t) && !IsTombstone(x) && IsTombstone(t) && Get(x, "indexed_at").None?
    ensures Compact([Json(x), Json(t)]).None?
  {
    var log := [Json(x), Json(t)];
    LearnTwo(x, t);
    var k := LearnAll(ValidRows(log));
    ValidRowsAreAttributed(log);
    LearnAllIsConsistent(ValidRows(log));
    TwoByThemselves(k, x, t);
    OnlyLiveIsUnstamped(k, x, t);
    EntitiesAreTheVersions(k.order, k.table);
    assert Kid(x) in k.order;
    assert Eid(x) in Entities(k.order, k.table);
    CompactionRaisesExactlyWhen(log);
  }

  lemma KindOf(k: Known, eid: string, kind: string -> bool, id: string)
    requires id in k.table && id in k.order && Eid(k.table[id]) == eid && kind(id)
    requires forall other :: other in k.table && other != id ==> !kind(other)
    ensures OfKind(k, eid, kind) != [] && forall i :: 0 <= i < |OfKind(k, eid, kind)| ==> OfKind(k, eid, kind)[i] == id
  {
    var members, ids := Keep(InEntity(k.table, eid), k.order), OfKind(k, eid, kind);
    KeepMembers(InEntity(k.table, eid), k.order);
    KeepMembers(kind, members);
    assert id in ids;
    forall i | 0 <= i < |ids| ensures ids[i] == id { assert ids[i] in ids; }
  }

  lemma OnlyLiveIsUnstamped(k: Known, x: Row, t: Row)
    requires Consistent(k) && Unlinked(x, t) && k.table == map[Kid(x) := x, Kid(t) := t] && k.order == [Kid(x), Kid(t)]
    requires !IsTombstone(x) && IsTombstone(t) && Get(x, "indexed_at").None?
    ensures Incomparable(k, Eid(x))
  {
    TwoByThemselves(k, x, t);
    KindOf(k, Eid(x), Opens(k), Kid(x));
    KindOf(k, Eid(x), Tombstones(k), Kid(t));
    assert Last(OfKind(k, Eid(x), Opens(k))) == Kid(x);
  }

  /** A live version without `indexed_at` beside a tombstone makes compaction raise. */
  lemma AnUnstampedVersionRaises()
    ensures var x: Row := map["knowledge_id" := Str("a"), "entity_id" := Str("e")];
            Compact([Json(x), Json(Ver("t", "2", "tombstoned"))]).None?
  {
    VerFields("t", "2", "tombstoned");
    UnstampedLiveRaises(map["knowledge_id" := Str("a"), "entity_id" := Str("e")], Ver("t", "2", "tombstoned"));
  }
}

/** Registry compaction: one row per version, one head per entity, lifecycle derived from pointers and
    tombstones. */
module Registry {
  import opened Text
  import opened Lists
  import opened Merge

  // ---- pass 1: one row per version ------------------------------------------------------

  /** The versions seen so far, in order of first appearance, with their merged rows. */
  datatype Known = Known(order: seq<string>, table: map<string, Row>)

  function Learn(k: Known, r: Row): Known {
    var id := Kid(r);
    if id in k.table then k.(table := k.table[id := MergeRow(k.table[id], r)])
    else Known(k.order + [id], k.table[id := r])
  }

  function LearnAll(rows: seq<Row>): Known
    decreases |rows|
  {
    if rows == [] then Known([], map[]) else Learn(LearnAll(rows[..|rows| - 1]), rows[|rows| - 1])
  }

  function RowsOf(rows: seq<Row>, id: string): (r: seq<Row>)
    ensures forall x :: x in r <==> x in rows && Kid(x) == id
  {
    KeepMembers((r: Row) => Kid(r) == id, rows);
    Keep((r: Row) => Kid(r) == id, rows)
  }

  ghost predicate AllAttributed(rows: seq<Row>) {
    forall i :: 0 <= i < |rows| ==> Kid(rows[i]) != "" && Eid(rows[i]) != ""
  }

  ghost predicate Consistent(k: Known) {
    && Distinct(k.order)
    && (forall id :: id in k.order <==> id in k.table)
    && (forall id :: id in k.table ==> Kid(k.table[id]) == id && Eid(k.table[id]) != "")
  }

  lemma {:induction false} ValidRowsAreAttributed(log: seq<Line>)
    ensures AllAttributed(ValidRows(log))
    decreases |log|
  {
    if log != [] { ValidRowsAreAttributed(log[..|log| - 1]); }
  }

  lemma MergeRowKeepsIds(known: Row, r: Row)
    requires Kid(known) == Kid(r) != "" && Eid(known) != "" && Eid(r) != ""
    ensures Kid(MergeRow(known, r)) == Kid(r) && Eid(MergeRow(known, r)) != ""
  {
    MergeGet(known, r, "knowledge_id");
    MergeGet(known, r, "entity_id");
  }

  lemma {:induction false} LearnAllIsConsistent(rows: seq<Row>)
    requires AllAttributed(rows)
    ensures Consistent(LearnAll(rows))
    decreases |rows|
  {
    if rows != [] {
      var n := |rows| - 1;
      LearnAllIsConsistent(rows[..n]);
      var k := LearnAll(rows[..n]);
      if Kid(rows[n]) in k.table { MergeRowKeepsIds(k.table[Kid(rows[n])], rows[n]); }
    }
  }

  lemma RowsOfOneMore(rows: seq<Row>, r: Row, id: string)
    ensures RowsOf(rows + [r], id) == RowsOf(rows, id) + if Kid(r) == id then [r] else []
  {
    KeepOneMore((r: Row) => Kid(r) == id, rows, r);
  }

  ghost predicate Knows(k: Known, rows: seq<Row>, id: string) {
    && (id in k.table <==> RowsOf(rows, id) != [])
    && (id in k.table ==> k.table[id] == MergeAll(RowsOf(rows, id)))
  }

  lemma LearnKeepsKnowing(k: Known, rows: seq<Row>, r: Row, id: string)
    requires Knows(k, rows, id)
    ensures Knows(Learn(k, r), rows + [r], id)
  {
    RowsOfOneMore(rows, r, id);
    if Kid(r) == id && id in k.table { MergeAllOneMore(RowsOf(rows, id), r); }
    if Kid(r) == id && id !in k.table { assert RowsOf(rows + [r], id) == [r]; }
    if Kid(r) != id { assert RowsOf(rows + [r], id) == RowsOf(rows, id); }
  }

  /** Each version's row is the merge of its own lines, whatever was interleaved with them. */
  lemma LearnAllMergesPerVersion(rows: seq<Row>, id: string)
    ensures id in LearnAll(rows).table <==> RowsOf(rows, id) != []
    ensures id in LearnAll(rows).table ==> LearnAll(rows).table[id] == MergeAll(RowsOf(rows, id))
  {
    KnowsEveryVersion(rows, id);
  }

  lemma {:induction false} KnowsEveryVersion(rows: seq<Row>, id: string)
    ensures Knows(LearnAll(rows), rows, id)
    decreases |rows|
  {
    if rows != [] {
      var front, last := rows[..|rows| - 1], rows[|rows| - 1];
      KnowsEveryVersion(front, id);
      LearnKeepsKnowing(LearnAll(front), front, last, id);
      assert front + [last] == rows;
    }
  }

  // ---- lifecycle ------------------------------------------------------------------------

  datatype Life = Current | Superseded | Tombstoned

  datatype Version = Version(row: Row, life: Life, validTo: Option<string>)

  /** `a or b` on optional texts. */
  function Or(a: Option<string>, b: Option<string>): Option<string> {
    if a.Some? && a.value != "" then a else b
  }

  predicate PointsTo(r: Row, id: string) { id != "" && Get(r, "supersedes") == Some(id) }

  /** The last version, in order of first appearance, whose `supersedes` names `id`. */
  function Successor(order: seq<string>, table: map<string, Row>, id: string): Option<Row>
    decreases |order|
  {
    if order == [] then None
    else
      var last := order[|order| - 1];
      if last in table && PointsTo(table[last], id) then Some(table[last])
      else Successor(order[..|order| - 1], table, id)
  }

  function Derive(r: Row, successor: Option<Row>): Version {
    if successor.Some? then
      Version(r, Superseded, Or(Get(successor.value, "observed_at"), Get(successor.value, "indexed_at")))
    else if Get(r, "lifecycle_state") == Some("tombstoned") then
      Version(r, Tombstoned, Or(Get(r, "valid_to"), Get(r, "indexed_at")))
    else Version(r, Current, Get(r, "valid_to"))
  }

  /** A version as its own lines and the pointers of the others make it. */
  function Derived(k: Known, id: string): Version
    requires id in k.table
  {
    Derive(k.table[id], Successor(k.order, k.table, id))
  }

  /** Entry `i` points to `id` and no later one does. */
  ghost predicate LastPointer(order: seq<string>, table: map<string, Row>, id: string, i: nat)
    requires i < |order|
  {
    && order[i] in table && PointsTo(table[order[i]], id)
    && (forall j :: i < j < |order| && order[j] in table ==> !PointsTo(table[order[j]], id))
  }

  lemma {:induction false} SuccessorExactlyWhen(order: seq<string>, table: map<string, Row>, id: string)
    ensures var s := Successor(order, table, id);
            && (s.Some? <==> exists i :: 0 <= i < |order| && order[i] in table && PointsTo(table[order[i]], id))
            && (s.Some? ==> (exists i :: 0 <= i < |order| && LastPointer(order, table, id, i)
                                         && s.value == table[order[i]]))
    decreases |order|
  {
    if order != [] {
      var n := |order| - 1;
      if order[n] in table && PointsTo(table[order[n]], id) {
        assert LastPointer(order, table, id, n);
      } else {
        SuccessorExactlyWhen(order[..n], table, id);
        var s := Successor(order[..n], table, id);
        if s.Some? {
          var i :| 0 <= i < n && LastPointer(order[..n], table, id, i) && s.value == table[order[..n][i]];
          forall j | i < j < |order| && order[j] in table ensures !PointsTo(table[order[j]], id) {
            if j < n { assert order[..n][j] == order[j]; }
          }
          assert LastPointer(order, table, id, i);
        } else {
          forall i | 0 <= i < |order| && order[i] in table ensures !PointsTo(table[order[i]], id) {
            if i < n { assert order[..n][i] == order[i]; }
          }
        }
      }
    }
  }

  /** A version is superseded exactly when some version points to it, and then it ends where the
      last one that does begins; otherwise its own tombstone decides. */
  lemma LifecycleFromPointersAndTombstones(k: Known, id: string)
    requires Consistent(k) && id in k.table
    ensures var v := Derived(k, id);
            && v.row == k.table[id]
            && (v.life.Superseded? <==> exists p :: p in k.table && PointsTo(k.table[p], id))
            && (v.life.Superseded? ==>
                  (exists i :: 0 <= i < |k.order| && LastPointer(k.order, k.table, id, i)
                     && v.validTo == Or(Get(k.table[k.order[i]], "observed_at"), Get(k.table[k.order[i]], "indexed_at"))))
            && (v.life.Tombstoned? <==> !v.life.Superseded? && Get(v.row, "lifecycle_state") == Some("tombstoned"))
  {
    SuccessorExactlyWhen(k.order, k.table, id);
    if Successor(k.order, k.table, id).None? {
      forall p | p in k.table ensures !PointsTo(k.table[p], id) {
        assert p in k.order;
        var i :| 0 <= i < |k.order| && k.order[i] == p;
      }
    }
  }

  // ---- pass 2: one head per entity --------------------------------------------------------

  function StampIn(table: map<string, Row>): string -> string {
    id => if id in table then Stamp(table[id]) else ""
  }

  function InEntity(table: map<string, Row>, eid: string): string -> bool {
    id => id in table && Eid(table[id]) == eid
  }

  /** The entity's versions, oldest first. */
  function Group(k: Known, eid: string): seq<string> {
    StableSort(StampIn(k.table), Keep(InEntity(k.table, eid), k.order))
  }

  function EntityIn(table: map<string, Row>): string -> string { id => if id in table then Eid(table[id]) else "" }

  function Listed(table: map<string, Row>): string -> bool { id => id in table }

  /** Entities in order of first appearance. */
  function Entities(order: seq<string>, table: map<string, Row>): seq<string> {
    FirstKeys(EntityIn(table), Keep(Listed(table), order))
  }

  /** The entities are those of the listed versions, each once. */
  lemma EntitiesAreTheVersions(order: seq<string>, table: map<string, Row>)
    ensures Distinct(Entities(order, table))
    ensures forall e :: e in Entities(order, table) <==> exists id :: id in order && id in table && Eid(table[id]) == e
  {
    var listed := Keep(Listed(table), order);
    KeepMembers(Listed(table), order);
    FirstKeysAreTheKeys(EntityIn(table), listed);
    forall e ensures e in Entities(order, table) <==> exists id :: id in order && id in table && Eid(table[id]) == e {
      if e in Entities(order, table) {
        var i :| 0 <= i < |listed| && EntityIn(table)(listed[i]) == e;
        assert listed[i] in listed;
      }
      if id :| id in order && id in table && Eid(table[id]) == e {
        assert Listed(table)(id);
        assert id in listed;
        var i :| 0 <= i < |listed| && listed[i] == id;
        assert EntityIn(table)(listed[i]) == e;
      }
    }
  }

  function Last<T>(s: seq<T>): T
    requires s != []
  {
    s[|s| - 1]
  }

  predicate IsTombstoned(v: Version) { v.life.Tombstoned? }

  predicate IsCurrent(v: Version) { v.life.Current? }

  function Tombs(vs: seq<Version>): (r: seq<Version>)
    ensures forall v :: v in r <==> v in vs && v.life.Tombstoned?
  {
    KeepMembers(IsTombstoned, vs);
    Keep(IsTombstoned, vs)
  }

  function Lives(vs: seq<Version>): (r: seq<Version>)
    ensures forall v :: v in r <==> v in vs && v.life.Current?
  {
    KeepMembers(IsCurrent, vs);
    Keep(IsCurrent, vs)
  }

  /** The two stamps are compared raw: a missing or null one raises. */
  predicate Comparable(t: Version, l: Version) {
    Get(t.row, "indexed_at").Some? && Get(l.row, "indexed_at").Some?
  }

  predicate Later(a: Version, b: Version) { !StrLe(Stamp(a.row), Stamp(b.row)) }

  /** The reported version; None when the comparison raises. */
  function Head(vs: seq<Version>): Option<Version>
    requires vs != []
  {
    var tombs, lives := Tombs(vs), Lives(vs);
    if tombs != [] && lives != [] && !Comparable(Last(tombs), Last(lives)) then None
    else if tombs != [] && (lives == [] || !Later(Last(lives), Last(tombs))) then Some(Last(tombs))
    else if lives != [] then Some(Last(lives))
    else Some(Last(vs))
  }

  /** A terminal tombstone closes the versions still open. */
  function Close(head: Version, v: Version): Version {
    if head.life.Tombstoned? && Kid(v.row) != Kid(head.row) && v.life.Current?
    then Version(v.row, Superseded, Or(Get(head.row, "observed_at"), Get(head.row, "indexed_at")))
    else v
  }

  datatype Entry = Entry(entityId: string, head: Version, versions: seq<Version>)

  function VersionsOf(k: Known, ids: seq<string>): seq<Version>
    requires forall i :: 0 <= i < |ids| ==> ids[i] in k.table
  {
    seq(|ids|, i requires 0 <= i < |ids| => Derived(k, ids[i]))
  }

  function CloseAll(head: Version, vs: seq<Version>): seq<Version> {
    seq(|vs|, i requires 0 <= i < |vs| => Close(head, vs[i]))
  }

  lemma GroupMembers(k: Known, eid: string)
    ensures forall id :: id in Group(k, eid) <==> id in k.order && id in k.table && Eid(k.table[id]) == eid
  {
    var members := Keep(InEntity(k.table, eid), k.order);
    KeepMembers(InEntity(k.table, eid), k.order);
    StableSortPermutes(StampIn(k.table), members);
    forall id ensures id in Group(k, eid) <==> id in members {
      assert id in multiset(Group(k, eid)) <==> id in multiset(members);
    }
  }

  function CompactEntity(k: Known, eid: string): Option<Entry> {
    GroupMembers(k, eid);
    var vs := VersionsOf(k, Group(k, eid));
    if vs == [] || Head(vs).None? then None
    else Some(Entry(eid, Head(vs).value, CloseAll(Head(vs).value, vs)))
  }

  /** The entries when every one is there. */
  function Gather<T>(s: seq<Option<T>>): Option<seq<T>>
    decreases |s|
  {
    if s == [] then Some([])
    else
      var front, last := Gather(s[..|s| - 1]), s[|s| - 1];
      if front.None? || last.None? then None else Some(front.value + [last.value])
  }

  function Choices(k: Known, eids: seq<string>): seq<Option<Entry>> {
    seq(|eids|, i requires 0 <= i < |eids| => CompactEntity(k, eids[i]))
  }

  /** The entities in sorted order; None when one of them raises. */
  function CompactRows(rows: seq<Row>): Option<seq<Entry>> {
    var k := LearnAll(rows);
    Gather(Choices(k, Sorted(Entities(k.order, k.table))))
  }

  /** `_compact_registry_index` on the lines of the file. */
  function Compact(log: seq<Line>): Option<seq<Entry>> { CompactRows(ValidRows(log)) }

  // ---- what a head means ------------------------------------------------------------------

  lemma {:induction false} KeptAreNotLaterThanLast(p: Version -> bool, vs: seq<Version>, v: Version)
    requires forall i, j :: 0 <= i < j < |vs| ==> !Later(vs[i], vs[j])
    requires v in vs && p(v)
    ensures Keep(p, vs) != [] && !Later(v, Last(Keep(p, vs)))
    decreases |vs|
  {
    var n := |vs| - 1;
    assert vs == vs[..n] + [vs[n]];
    if p(vs[n]) {
      if v == vs[n] {
        StrLeTotal(Stamp(v.row), Stamp(v.row));
      } else {
        var i :| 0 <= i < |vs| && vs[i] == v;
      }
    } else {
      KeptAreNotLaterThanLast(p, vs[..n], v);
    }
  }

  ghost predicate OldestFirst(vs: seq<Version>) {
    forall i, j :: 0 <= i < j < |vs| ==> !Later(vs[i], vs[j])
  }

  /** Which version is reported, and what the others are then. */
  ghost predicate HeadMeans(head: Version, vs: seq<Version>) {
    && head in vs
    && (head.life.Tombstoned? ==>
          && (forall v :: v in vs && !v.life.Superseded? ==> !Later(v, head))
          && (forall v :: v in vs ==> !Close(head, v).life.Current? || Kid(v.row) == Kid(head.row)))
    && (head.life.Current? ==>
          && (forall v :: v in vs && v.life.Current? ==> !Later(v, head))
          && (forall v :: v in vs && v.life.Tombstoned? ==> Later(head, v)))
    && (head.life.Superseded? <==> forall v :: v in vs ==> v.life.Superseded?)
  }

  lemma HeadIsWhatItMeans(vs: seq<Version>)
    requires vs != [] && OldestFirst(vs) && Head(vs).Some?
    ensures HeadMeans(Head(vs).value, vs)
  {
    var head := Head(vs).value;
    forall v | v in vs && v.life.Tombstoned? ensures Tombs(vs) != [] && !Later(v, Last(Tombs(vs))) {
      KeptAreNotLaterThanLast(IsTombstoned, vs, v);
    }
    forall v | v in vs && v.life.Current? ensures Lives(vs) != [] && !Later(v, Last(Lives(vs))) {
      KeptAreNotLaterThanLast(IsCurrent, vs, v);
    }
    if head.life.Tombstoned? {
      assert head in vs;
      assert head == Last(Tombs(vs));
      forall v | v in vs && v.life.Current? ensures !Later(v, head) {
        StrLeTransitive(Stamp(v.row), Stamp(Last(Lives(vs)).row), Stamp(head.row));
      }
    } else if head.life.Current? {
      assert head == Last(Lives(vs));
      forall v | v in vs && v.life.Tombstoned? ensures Later(head, v) {
        if StrLe(Stamp(head.row), Stamp(v.row)) {
          StrLeTransitive(Stamp(head.row), Stamp(v.row), Stamp(Last(Tombs(vs)).row));
        }
      }
    }
  }

  lemma GroupIsOldestFirst(k: Known, eid: string)
    ensures forall i :: 0 <= i < |Group(k, eid)| ==> Group(k, eid)[i] in k.table
    ensures OldestFirst(VersionsOf(k, Group(k, eid)))
  {
    GroupMembers(k, eid);
    StableSortSorts(StampIn(k.table), Keep(InEntity(k.table, eid), k.order));
    var g := Group(k, eid);
    var vs := VersionsOf(k, g);
    forall i, j | 0 <= i < j < |vs| ensures !Later(vs[i], vs[j]) {
      assert StrLe(StampIn(k.table)(g[i]), StampIn(k.table)(g[j]));
    }
  }

  lemma {:induction false} GatherEntries<T>(s: seq<Option<T>>)
    ensures Gather(s).None? <==> exists i :: 0 <= i < |s| && s[i].None?
    ensures Gather(s).Some? ==> |Gather(s).value| == |s|
    ensures Gather(s).Some? ==> forall i :: 0 <= i < |s| ==> s[i] == Some(Gather(s).value[i])
    decreases |s|
  {
    if s != [] {
      var n := |s| - 1;
      GatherEntries(s[..n]);
      if Gather(s[..n]).None? {
        var i :| 0 <= i < n && s[..n][i].None?;
        assert s[i].None?;
      } else {
        forall i | 0 <= i < n ensures s[i] == Some(Gather(s[..n]).value[i]) { assert s[..n][i] == s[i]; }
      }
    }
  }

  lemma CompactEntries(rows: seq<Row>)
    ensures var k := LearnAll(rows);
            var eids := Sorted(Entities(k.order, k.table));
            CompactRows(rows).Some? ==>
              |CompactRows(rows).value| == |eids|
              && forall i :: 0 <= i < |eids| ==> CompactEntity(k, eids[i]) == Some(CompactRows(rows).value[i])
  {
    var k := LearnAll(rows);
    var eids := Sorted(Entities(k.order, k.table));
    GatherEntries(Choices(k, eids));
  }

  /** All versions of the entity as derived, before a tombstone closes any. */
  ghost function Members(k: Known, eid: string): set<Version> {
    set id | id in k.table && Eid(k.table[id]) == eid :: Derived(k, id)
  }

  lemma MembersAreTheGroup(k: Known, eid: string)
    requires forall i :: 0 <= i < |Group(k, eid)| ==> Group(k, eid)[i] in k.table
    requires Consistent(k)
    ensures forall v :: v in Members(k, eid) <==> v in VersionsOf(k, Group(k, eid))
  {
    GroupMembers(k, eid);
    var g := Group(k, eid);
    var vs := VersionsOf(k, g);
    forall v ensures v in Members(k, eid) <==> v in vs {
      if v in Members(k, eid) {
        var id :| id in k.table && Eid(k.table[id]) == eid && v == Derived(k, id);
        var i :| 0 <= i < |g| && g[i] == id;
        assert vs[i] == v;
      }
      if v in vs {
        var i :| 0 <= i < |vs| && vs[i] == v;
        assert g[i] in g;
      }
    }
  }

  lemma ClosedIsNotOpen(k: Known, g: seq<string>, i: nat, j: nat)
    requires Consistent(k) && i < |g| && j < |g| && g[i] in k.table && g[j] in k.table
    requires Derived(k, g[j]).life.Tombstoned?
    ensures !Close(Derived(k, g[j]), Derived(k, g[i])).life.Current?
  {
    assert Kid(Derived(k, g[i]).row) == g[i] && Kid(Derived(k, g[j]).row) == g[j];
  }

  /** What a tombstoned head leaves: nothing open. */
  lemma NothingStaysOpen(k: Known, g: seq<string>, head: Version)
    requires Consistent(k) && forall i :: 0 <= i < |g| ==> g[i] in k.table
    requires head in VersionsOf(k, g) && head.life.Tombstoned?
    ensures forall v :: v in CloseAll(head, VersionsOf(k, g)) ==> !v.life.Current?
  {
    var vs := VersionsOf(k, g);
    var j :| 0 <= j < |vs| && vs[j] == head;
    forall i | 0 <= i < |vs| ensures !CloseAll(head, vs)[i].life.Current? { ClosedIsNotOpen(k, g, i, j); }
  }

  /** For every log that compacts and every entity in the result: a tombstoned head is at least as
      late as every live or tombstoned version and leaves no version open; a current head is a
      latest live version, strictly later than every tombstone; a superseded head occurs exactly
      when every version is superseded. */
  lemma HeadCharacterisation(log: seq<Line>, e: Entry)
    requires Compact(log).Some? && e in Compact(log).value
    ensures var all := Members(LearnAll(ValidRows(log)), e.entityId);
            && e.head in all
            && (e.head.life.Tombstoned? ==>
                  && (forall v :: v in all && !v.life.Superseded? ==> !Later(v, e.head))
                  && (forall v :: v in e.versions ==> !v.life.Current?))
            && (e.head.life.Current? ==>
                  && (forall v :: v in all && v.life.Current? ==> !Later(v, e.head))
                  && (forall v :: v in all && v.life.Tombstoned? ==> Later(e.head, v)))
            && (e.head.life.Superseded? <==> forall v :: v in all ==> v.life.Superseded?)
  {
    var k := LearnAll(ValidRows(log));
    ValidRowsAreAttributed(log);
    LearnAllIsConsistent(ValidRows(log));
    CompactEntries(ValidRows(log));
    assert CompactEntity(k, e.entityId) == Some(e);
    GroupIsOldestFirst(k, e.entityId);
    MembersAreTheGroup(k, e.entityId);
    var vs := VersionsOf(k, Group(k, e.entityId));
    HeadIsWhatItMeans(vs);
    if e.head.life.Tombstoned? { NothingStaysOpen(k, Group(k, e.entityId), e.head); }
  }
}

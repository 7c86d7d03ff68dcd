/** Compaction loses no version, and the drain guards over a history of manifest writes. */
module RegistryGuards {
  import opened Text
  import opened Lists
  import opened Merge
  import opened Registry

  // ---- conservation -----------------------------------------------------------------------

  /** `_registry_version_count` */
  function VersionCount(registry: seq<Entry>): nat
    decreases |registry|
  {
    if registry == [] then 0
    else VersionCount(registry[..|registry| - 1]) + |registry[|registry| - 1].versions|
  }

  function KidsOf(vs: seq<Version>): seq<string> { seq(|vs|, i requires 0 <= i < |vs| => Kid(vs[i].row)) }

  /** The version ids of a registry, entity after entity. */
  function AllKids(registry: seq<Entry>): seq<string>
    decreases |registry|
  {
    if registry == [] then []
    else AllKids(registry[..|registry| - 1]) + KidsOf(registry[|registry| - 1].versions)
  }

  /** The distinct version ids of the valid rows. */
  function KidSet(rows: seq<Row>): set<string> { set r | r in rows :: Kid(r) }

  function Groups(k: Known, eids: seq<string>): seq<string>
    decreases |eids|
  {
    if eids == [] then [] else Groups(k, eids[..|eids| - 1]) + Group(k, eids[|eids| - 1])
  }

  lemma KidsOfTheGroup(k: Known, g: seq<string>, head: Version)
    requires Consistent(k) && forall i :: 0 <= i < |g| ==> g[i] in k.table
    ensures KidsOf(CloseAll(head, VersionsOf(k, g))) == g
  {
    var vs := VersionsOf(k, g);
    forall i | 0 <= i < |g| ensures Kid(CloseAll(head, vs)[i].row) == g[i] {
      assert CloseAll(head, vs)[i].row == vs[i].row == k.table[g[i]];
    }
  }

  lemma EntryListsItsGroup(k: Known, eid: string)
    requires Consistent(k) && CompactEntity(k, eid).Some?
    ensures KidsOf(CompactEntity(k, eid).value.versions) == Group(k, eid)
    ensures CompactEntity(k, eid).value.entityId == eid
  {
    GroupMembers(k, eid);
    KidsOfTheGroup(k, Group(k, eid), Head(VersionsOf(k, Group(k, eid))).value);
  }

  lemma {:induction false} AllKidsAreTheGroups(k: Known, eids: seq<string>, registry: seq<Entry>)
    requires Consistent(k) && |registry| == |eids|
    requires forall i :: 0 <= i < |eids| ==> CompactEntity(k, eids[i]) == Some(registry[i])
    ensures AllKids(registry) == Groups(k, eids)
    ensures VersionCount(registry) == |AllKids(registry)|
    decreases |eids|
  {
    if eids != [] {
      var n := |eids| - 1;
      AllKidsAreTheGroups(k, eids[..n], registry[..n]);
      EntryListsItsGroup(k, eids[n]);
      assert CompactEntity(k, eids[n]) == Some(registry[n]);
      assert |KidsOf(registry[n].versions)| == |registry[n].versions|;
    }
  }

  lemma GroupCounts(k: Known, eid: string, x: string)
    ensures multiset(Group(k, eid))[x]
         == if x in k.table && Eid(k.table[x]) == eid then multiset(k.order)[x] else 0
  {
    StableSortPermutes(StampIn(k.table), Keep(InEntity(k.table, eid), k.order));
    KeepCounts(InEntity(k.table, eid), k.order, x);
  }

  /** Every version is in the group of its own entity and in no other. */
  lemma {:induction false} GroupsCount(k: Known, eids: seq<string>, x: string)
    requires Distinct(eids)
    ensures multiset(Groups(k, eids))[x]
         == if x in k.table && Eid(k.table[x]) in eids then multiset(k.order)[x] else 0
    decreases |eids|
  {
    if eids != [] {
      var n := |eids| - 1;
      GroupsCount(k, eids[..n], x);
      GroupCounts(k, eids[n], x);
      assert eids == eids[..n] + [eids[n]];
    }
  }

  lemma SortedKeepsDistinct(s: seq<string>)
    requires Distinct(s)
    ensures Distinct(Sorted(s)) && forall x :: x in Sorted(s) <==> x in s
  {
    StableSortPermutes(Itself, s);
    forall x ensures multiset(Sorted(s))[x] <= 1 && (x in Sorted(s) <==> x in s) {
      DistinctCounts(s, x);
      assert x in Sorted(s) <==> x in multiset(Sorted(s));
    }
    CountsMakeDistinct(Sorted(s));
  }

  lemma KnownIdsAreTheKids(rows: seq<Row>)
    ensures LearnAll(rows).table.Keys == KidSet(rows)
  {
    forall id ensures id in LearnAll(rows).table <==> id in KidSet(rows) {
      LearnAllMergesPerVersion(rows, id);
      if id in KidSet(rows) {
        var r :| r in rows && Kid(r) == id;
        assert r in RowsOf(rows, id);
      }
      if RowsOf(rows, id) != [] { assert RowsOf(rows, id)[0] in rows; }
    }
  }

  lemma KidsCount(k: Known, id: string)
    requires Consistent(k)
    ensures multiset(Groups(k, Sorted(Entities(k.order, k.table))))[id] == if id in k.table then 1 else 0
  {
    EntitiesAreTheVersions(k.order, k.table);
    SortedKeepsDistinct(Entities(k.order, k.table));
    GroupsCount(k, Sorted(Entities(k.order, k.table)), id);
    DistinctCounts(k.order, id);
  }

  lemma OnceEach(all: seq<string>, ids: set<string>)
    requires forall id :: multiset(all)[id] == if id in ids then 1 else 0
    ensures Distinct(all) && |all| == |ids|
    ensures forall id :: id in all <==> id in ids
  {
    CountsMakeDistinct(all);
    forall id ensures id in all <==> id in ids { assert id in all <==> id in multiset(all); }
    DistinctLength(all);
    assert (set x | x in all) == ids;
  }

  /** A compacted registry lists every version id of the valid rows, each once and so in exactly one
      entity, and its version count is the number of distinct ids. */
  lemma EveryVersionOnce(log: seq<Line>)
    requires Compact(log).Some?
    ensures var reg, ids := Compact(log).value, KidSet(ValidRows(log));
            && Distinct(AllKids(reg))
            && (forall id :: id in AllKids(reg) <==> id in ids)
            && VersionCount(reg) == |ids|
  {
    var rows := ValidRows(log);
    var k := LearnAll(rows);
    ValidRowsAreAttributed(log);
    LearnAllIsConsistent(rows);
    KnownIdsAreTheKids(rows);
    forall id { KidsCount(k, id); }
    OnceEach(Groups(k, Sorted(Entities(k.order, k.table))), KidSet(rows));
    CompactEntries(rows);
    AllKidsAreTheGroups(k, Sorted(Entities(k.order, k.table)), Compact(log).value);
  }

  // ---- when compaction raises ---------------------------------------------------------------

  /** Every valid row carries its `indexed_at`. */
  ghost predicate AllStamped(log: seq<Line>) {
    forall r :: r in ValidRows(log) ==> Get(r, "indexed_at").Some?
  }

  lemma StampedVersionsHaveAHead(vs: seq<Version>)
    requires vs != [] && forall v :: v in vs ==> Get(v.row, "indexed_at").Some?
    ensures Head(vs).Some?
  {
    if Tombs(vs) != [] && Lives(vs) != [] {
      assert Last(Tombs(vs)) in vs && Last(Lives(vs)) in vs;
    }
  }

  ghost predicate Stamped(k: Known) {
    forall id :: id in k.table ==> Get(k.table[id], "indexed_at").Some?
  }

  lemma StampedGroup(k: Known, g: seq<string>)
    requires Stamped(k) && forall i :: 0 <= i < |g| ==> g[i] in k.table
    ensures forall v :: v in VersionsOf(k, g) ==> Get(v.row, "indexed_at").Some?
  {
    forall v | v in VersionsOf(k, g) ensures Get(v.row, "indexed_at").Some? {
      var j :| 0 <= j < |g| && VersionsOf(k, g)[j] == v;
      assert v.row == k.table[g[j]];
    }
  }

  lemma GroupIsNotEmpty(k: Known, eid: string)
    requires eid in Entities(k.order, k.table)
    ensures Group(k, eid) != []
  {
    GroupMembers(k, eid);
    EntitiesAreTheVersions(k.order, k.table);
    var id :| id in k.order && id in k.table && Eid(k.table[id]) == eid;
    assert id in Group(k, eid);
  }

  lemma StampedEntityCompacts(k: Known, eid: string)
    requires Stamped(k) && eid in Entities(k.order, k.table)
    ensures CompactEntity(k, eid).Some?
  {
    GroupMembers(k, eid);
    GroupIsNotEmpty(k, eid);
    StampedGroup(k, Group(k, eid));
    StampedVersionsHaveAHead(VersionsOf(k, Group(k, eid)));
  }

  lemma StampedRowsStayStamped(rows: seq<Row>)
    requires forall r :: r in rows ==> Get(r, "indexed_at").Some?
    ensures Stamped(LearnAll(rows))
  {
    forall id | id in LearnAll(rows).table ensures Get(LearnAll(rows).table[id], "indexed_at").Some? {
      LearnAllMergesPerVersion(rows, id);
      assert RowsOf(rows, id)[0] in rows;
      MergeKeepsFirstKeys(RowsOf(rows, id), "indexed_at");
    }
  }

  /** A log whose rows all carry `indexed_at` always compacts. */
  lemma StampedLogsCompact(log: seq<Line>)
    requires AllStamped(log)
    ensures Compact(log).Some?
  {
    var k := LearnAll(ValidRows(log));
    var eids := Sorted(Entities(k.order, k.table));
    StampedRowsStayStamped(ValidRows(log));
    var entries := Choices(k, eids);
    StableSortPermutes(Itself, Entities(k.order, k.table));
    forall i | 0 <= i < |eids| ensures entries[i].Some? {
      assert eids[i] in multiset(eids);
      assert eids[i] in multiset(Entities(k.order, k.table));
      StampedEntityCompacts(k, eids[i]);
    }
    GatherEntries(entries);
  }

  // ---- the drain guards -----------------------------------------------------------------------

  /** What a written manifest records about the registry. */
  datatype Manifest = Manifest(registry: seq<Entry>, sourceRows: nat)

  datatype Attempt = Crashed | Refused | Written(manifest: Manifest)

  /** `_read_previous_registry_versions`: an empty registry is no baseline. */
  function PreviousVersions(previous: Option<Manifest>): Option<nat> {
    if previous.None? || previous.value.registry == [] then None else Some(VersionCount(previous.value.registry))
  }

  function PreviousSourceRows(previous: Option<Manifest>): Option<nat> {
    if previous.None? then None else Some(previous.value.sourceRows)
  }

  /** `detect_registry_drain` and `detect_registry_source_drain` */
  predicate Drained(count: nat, previous: Option<nat>) { previous.Some? && count < previous.value }

  /** The write decision in `main`. */
  function TryWrite(previous: Option<Manifest>, log: seq<Line>, allowShrink: bool): Attempt {
    var registry, sourceRows := Compact(log), |ValidRows(log)|;
    if registry.None? then Crashed
    else if (Drained(VersionCount(registry.value), PreviousVersions(previous))
             || Drained(sourceRows, PreviousSourceRows(previous))) && !allowShrink then Refused
    else Written(Manifest(registry.value, sourceRows))
  }

  datatype Call = Call(log: seq<Line>, allowShrink: bool)

  /** The manifest on disk after a history of calls. */
  function OnDisk(calls: seq<Call>): Option<Manifest>
    decreases |calls|
  {
    if calls == [] then None
    else
      var before, last := OnDisk(calls[..|calls| - 1]), calls[|calls| - 1];
      var attempt := TryWrite(before, last.log, last.allowShrink);
      if attempt.Written? then Some(attempt.manifest) else before
  }

  /** The log the manifest on disk was written from. */
  function WrittenFrom(calls: seq<Call>): seq<Line>
    decreases |calls|
  {
    if calls == [] then []
    else
      var before, last := calls[..|calls| - 1], calls[|calls| - 1];
      if TryWrite(OnDisk(before), last.log, last.allowShrink).Written? then last.log else WrittenFrom(before)
  }

  lemma {:induction false} ManifestDescribesItsLog(calls: seq<Call>)
    ensures OnDisk(calls).Some? ==>
              Compact(WrittenFrom(calls)) == Some(OnDisk(calls).value.registry)
              && OnDisk(calls).value.sourceRows == |ValidRows(WrittenFrom(calls))|
    decreases |calls|
  {
    if calls != [] { ManifestDescribesItsLog(calls[..|calls| - 1]); }
  }

  lemma VersionsAreTheIds(log: seq<Line>)
    ensures Compact(log).Some? ==> VersionCount(Compact(log).value) == |KidSet(ValidRows(log))|
  {
    if Compact(log).Some? { EveryVersionOnce(log); }
  }

  /** In terms of the logs alone: after any history, a compaction is refused exactly when fewer
      distinct version ids or fewer valid rows are left than at the last write. */
  lemma RefusedExactlyWhen(calls: seq<Call>, log: seq<Line>)
    requires OnDisk(calls).Some?
    ensures var was := WrittenFrom(calls);
            TryWrite(OnDisk(calls), log, false).Refused? <==>
            Compact(log).Some? && (|KidSet(ValidRows(log))| < |KidSet(ValidRows(was))|
                                   || |ValidRows(log)| < |ValidRows(was)|)
  {
    ManifestDescribesItsLog(calls);
    VersionsAreTheIds(WrittenFrom(calls));
    VersionsAreTheIds(log);
    NoVersionsNoEntries(OnDisk(calls).value.registry);
  }

  lemma NoVersionsNoEntries(registry: seq<Entry>)
    ensures registry == [] ==> VersionCount(registry) == 0
  {
  }

  /** What a write leaves or reports, with and without the override: the compaction and the number of valid rows
      are written unless the compaction raises, or the write would shrink a count and is not allowed to. */
  lemma WritesExactlyWhen(previous: Option<Manifest>, log: seq<Line>, allowShrink: bool)
    ensures var attempt := TryWrite(previous, log, allowShrink);
            && (attempt == Crashed <==> Compact(log) == None)
            && (attempt.Refused? ==> !allowShrink && previous.Some?)
            && (attempt.Written? ==> Compact(log) == Some(attempt.manifest.registry)
                                     && attempt.manifest.sourceRows == |ValidRows(log)|)
            && (allowShrink && Compact(log) != None ==> attempt.Written?)
  {
  }

  ghost predicate NeverAllowed(calls: seq<Call>) { forall i :: 0 <= i < |calls| ==> !calls[i].allowShrink }

  lemma AcceptedWriteKeepsCounts(before: Manifest, log: seq<Line>)
    requires TryWrite(Some(before), log, false).Written?
    ensures var after := TryWrite(Some(before), log, false).manifest;
            VersionCount(before.registry) <= VersionCount(after.registry) && before.sourceRows <= after.sourceRows
  {
  }

  lemma OneMoreCallKeepsCounts(calls: seq<Call>)
    requires calls != [] && !calls[|calls| - 1].allowShrink && OnDisk(calls[..|calls| - 1]).Some?
    ensures var before, after := OnDisk(calls[..|calls| - 1]), OnDisk(calls);
            && after.Some?
            && VersionCount(before.value.registry) <= VersionCount(after.value.registry)
            && before.value.sourceRows <= after.value.sourceRows
  {
    var before, last := OnDisk(calls[..|calls| - 1]), calls[|calls| - 1];
    if TryWrite(before, last.log, false).Written? { AcceptedWriteKeepsCounts(before.value, last.log); }
  }

  /** Without `--allow-shrink` both recorded counts only ever rise. */
  lemma {:induction false} RecordedCountsNeverFall(calls: seq<Call>, n: nat)
    requires NeverAllowed(calls) && n <= |calls| && OnDisk(calls[..n]).Some?
    ensures OnDisk(calls).Some?
    ensures VersionCount(OnDisk(calls[..n]).value.registry) <= VersionCount(OnDisk(calls).value.registry)
    ensures OnDisk(calls[..n]).value.sourceRows <= OnDisk(calls).value.sourceRows
    decreases |calls|
  {
    if n == |calls| {
      assert calls[..n] == calls;
    } else {
      var front := calls[..|calls| - 1];
      assert front[..n] == calls[..n];
      RecordedCountsNeverFall(front, n);
      OneMoreCallKeepsCounts(calls);
    }
  }

  lemma {:induction false} ValidRowsConcat(a: seq<Line>, b: seq<Line>)
    ensures ValidRows(a + b) == ValidRows(a) + ValidRows(b)
    decreases |b|
  {
    if b == [] {
      assert a + b == a;
    } else {
      ValidRowsConcat(a, b[..|b| - 1]);
      assert (a + b)[..|a + b| - 1] == a + b[..|b| - 1];
    }
  }

  lemma SubsetIsSmaller<T>(a: set<T>, b: set<T>)
    requires a <= b
    ensures |a| <= |b|
  {
    assert b == a + (b - a);
  }

  /** Appending to the log the manifest was written from is never refused. */
  lemma AppendsAreNeverRefused(calls: seq<Call>, more: seq<Line>)
    ensures !TryWrite(OnDisk(calls), WrittenFrom(calls) + more, false).Refused?
  {
    if OnDisk(calls).Some? {
      var was := WrittenFrom(calls);
      RefusedExactlyWhen(calls, was + more);
      ValidRowsConcat(was, more);
      assert KidSet(ValidRows(was)) <= KidSet(ValidRows(was + more));
      SubsetIsSmaller(KidSet(ValidRows(was)), KidSet(ValidRows(was + more)));
    }
  }

  lemma FewerRows(a: multiset<Row>, b: multiset<Row>)
    requires a < b
    ensures |a| < |b|
  {
    assert b == a + (b - a);
    assert |b - a| > 0 by { assert b - a != multiset{}; }
  }

  /** Deleting valid rows without replacing them is never accepted. */
  lemma PureDeletionIsNeverAccepted(calls: seq<Call>, log: seq<Line>)
    requires OnDisk(calls).Some?
    requires multiset(ValidRows(log)) < multiset(ValidRows(WrittenFrom(calls)))
    ensures !TryWrite(OnDisk(calls), log, false).Written?
    ensures Compact(log).Some? ==> TryWrite(OnDisk(calls), log, false).Refused?
  {
    RefusedExactlyWhen(calls, log);
    FewerRows(multiset(ValidRows(log)), multiset(ValidRows(WrittenFrom(calls))));
  }
}

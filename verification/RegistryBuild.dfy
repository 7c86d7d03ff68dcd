/** The compaction as the script runs it: two passes over tables, buckets and sorts. */
module RegistryBuild {
  import opened Text
  import opened Lists
  import opened Merge
  import opened Registry
  import opened RegistryGuards

  lemma LearnOneMore(rows: seq<Row>, r: Row)
    ensures LearnAll(rows + [r]) == Learn(LearnAll(rows), r)
  {
    assert (rows + [r])[..|rows + [r]| - 1] == rows;
  }

  lemma ValidRowsOneMore(log: seq<Line>, i: nat)
    requires i < |log|
    ensures ValidRows(log[..i + 1]) == ValidRows(log[..i]) + if IsValid(log[i]) then [log[i].row] else []
  {
    assert log[..i + 1][..|log[..i + 1]| - 1] == log[..i];
  }

  /** Pass 1: the valid lines folded into one row per version. */
  method CollapseVersions(log: seq<Line>) returns (byKnowledgeId: map<string, Row>, order: seq<string>)
    ensures Known(order, byKnowledgeId) == LearnAll(ValidRows(log))
  {
    byKnowledgeId, order := map[], [];
    for i := 0 to |log|
      invariant Known(order, byKnowledgeId) == LearnAll(ValidRows(log[..i]))
    {
      ValidRowsOneMore(log, i);
      if !IsValid(log[i]) {
        assert ValidRows(log[..i + 1]) == ValidRows(log[..i]);
        continue;
      }
      var row := log[i].row;
      LearnOneMore(ValidRows(log[..i]), row);
      var kid := Kid(row);
      if kid !in byKnowledgeId {
        byKnowledgeId, order := byKnowledgeId[kid := row], order + [kid];
      } else if StrLe(Stamp(byKnowledgeId[kid]), Stamp(row)) {
        byKnowledgeId := byKnowledgeId[kid := byKnowledgeId[kid] + NonNull(row)];
      } else {
        assert byKnowledgeId[kid := byKnowledgeId[kid]] == byKnowledgeId;
      }
    }
    assert log[..|log|] == log;
  }

  /** `successor_by_predecessor_kid`: a later version with the same pointer replaces an earlier one. */
  method SuccessorTable(order: seq<string>, table: map<string, Row>) returns (successors: map<string, Row>)
    ensures forall id :: Successor(order, table, id) == if id in successors then Some(successors[id]) else None
  {
    successors := map[];
    for i := 0 to |order|
      invariant forall id ::
        Successor(order[..i], table, id) == if id in successors then Some(successors[id]) else None
    {
      assert order[..i + 1][..i] == order[..i];
      if order[i] in table {
        var pointer := GetOrBlank(table[order[i]], "supersedes");
        if pointer != "" { successors := successors[pointer := table[order[i]]]; }
      }
    }
    assert order[..|order|] == order;
  }

  /** The buckets hold each entity's versions in the order they came. */
  ghost predicate Bucketed(byEntity: map<string, seq<string>>, table: map<string, Row>, order: seq<string>) {
    forall e :: (if e in byEntity then byEntity[e] else []) == Keep(InEntity(table, e), order)
  }

  lemma BucketOneMore(byEntity: map<string, seq<string>>, table: map<string, Row>, order: seq<string>, id: string)
    requires Bucketed(byEntity, table, order) && id in table
    ensures var eid := Eid(table[id]);
            Bucketed(byEntity[eid := (if eid in byEntity then byEntity[eid] else []) + [id]], table, order + [id])
  {
    var eid := Eid(table[id]);
    var bigger := byEntity[eid := (if eid in byEntity then byEntity[eid] else []) + [id]];
    forall e ensures (if e in bigger then bigger[e] else []) == Keep(InEntity(table, e), order + [id]) {
      KeepOneMore(InEntity(table, e), order, id);
    }
  }

  lemma EntitiesOneMore(order: seq<string>, table: map<string, Row>, id: string)
    requires id in table
    ensures Entities(order + [id], table) == Entities(order, table)
              + if Eid(table[id]) in Entities(order, table) then [] else [Eid(table[id])]
  {
    KeepOneMore(Listed(table), order, id);
    FirstKeysOneMore(EntityIn(table), Keep(Listed(table), order), id);
    assert Entities(order, table) + [] == Entities(order, table);
  }

  /** Versions bucketed by entity, both in order of first appearance. */
  method BucketByEntity(order: seq<string>, table: map<string, Row>)
    returns (byEntity: map<string, seq<string>>, entities: seq<string>)
    requires forall id :: id in order ==> id in table
    ensures entities == Entities(order, table)
    ensures forall e :: e in byEntity <==> e in entities
    ensures Bucketed(byEntity, table, order)
  {
    byEntity, entities := map[], [];
    for i := 0 to |order|
      invariant entities == Entities(order[..i], table)
      invariant forall e :: e in byEntity <==> e in entities
      invariant Bucketed(byEntity, table, order[..i])
    {
      TakeOneMore(order, i);
      var eid := Eid(table[order[i]]);
      BucketOneMore(byEntity, table, order[..i], order[i]);
      EntitiesOneMore(order[..i], table, order[i]);
      if eid !in byEntity { entities := entities + [eid]; }
      byEntity := byEntity[eid := (if eid in byEntity then byEntity[eid] else []) + [order[i]]];
    }
    assert order[..|order|] == order;
  }

  /** The derived versions are those of the log. */
  ghost predicate DerivedFrom(k: Known, derived: map<string, Version>) {
    derived.Keys == k.table.Keys && forall id :: id in derived ==> derived[id] == Derived(k, id)
  }

  lemma SortsLikeTheGroup(k: Known, eid: string, derived: map<string, Version>, stampOf: string -> string)
    requires DerivedFrom(k, derived)
    requires forall id :: stampOf(id) == if id in derived then Stamp(derived[id].row) else ""
    ensures StableSort(stampOf, Keep(InEntity(k.table, eid), k.order)) == Group(k, eid)
  {
    SortKeysAgree(stampOf, StampIn(k.table), Keep(InEntity(k.table, eid), k.order));
  }

  function RowsFor(derived: map<string, Version>, ids: seq<string>): seq<Version>
    requires forall i :: 0 <= i < |ids| ==> ids[i] in derived
  {
    seq(|ids|, i requires 0 <= i < |ids| => derived[ids[i]])
  }

  lemma RowsForAreTheVersions(k: Known, ids: seq<string>, derived: map<string, Version>)
    requires DerivedFrom(k, derived) && forall i :: 0 <= i < |ids| ==> ids[i] in k.table
    ensures RowsFor(derived, ids) == VersionsOf(k, ids)
  {
  }

  lemma DerivedTable(k: Known, successors: map<string, Row>, derived: map<string, Version>)
    requires forall id :: Successor(k.order, k.table, id) == if id in successors then Some(successors[id]) else None
    requires derived == map id | id in k.table ::
               Derive(k.table[id], if id in successors then Some(successors[id]) else None)
    ensures DerivedFrom(k, derived)
  {
  }

  /** The rows of one entity, oldest first. */
  method SortedRows(ghost k: Known, ghost eid: string, ids: seq<string>, derived: map<string, Version>)
    returns (rows: seq<Version>)
    requires DerivedFrom(k, derived) && ids == Keep(InEntity(k.table, eid), k.order)
    ensures forall i :: 0 <= i < |Group(k, eid)| ==> Group(k, eid)[i] in k.table
    ensures rows == VersionsOf(k, Group(k, eid))
  {
    GroupMembers(k, eid);
    var stampOf := (id: string) => if id in derived then Stamp(derived[id].row) else "";
    SortsLikeTheGroup(k, eid, derived, stampOf);
    StableSortPermutes(stampOf, ids);
    rows := RowsFor(derived, StableSort(stampOf, ids));
    RowsForAreTheVersions(k, Group(k, eid), derived);
  }

  /** One entity rolled up: sorted, its head chosen, open versions closed under a tombstone. */
  method CompactOne(ghost k: Known, eid: string, ids: seq<string>, derived: map<string, Version>)
    returns (entry: Option<Entry>)
    requires DerivedFrom(k, derived)
    requires ids == Keep(InEntity(k.table, eid), k.order) && eid in Entities(k.order, k.table)
    ensures entry == CompactEntity(k, eid)
  {
    GroupIsNotEmpty(k, eid);
    var rows := SortedRows(k, eid, ids, derived);
    assert |rows| == |Group(k, eid)| > 0;
    var head := Head(rows);
    if head.None? { return None; }
    entry := Some(Entry(eid, head.value, CloseAll(head.value, rows)));
  }

  lemma {:induction false} InsertKeysAgree(f: string -> string, g: string -> string, x: string, s: seq<string>)
    requires forall id :: f(id) == g(id)
    ensures Insert(f, x, s) == Insert(g, x, s)
  {
    if s != [] { InsertKeysAgree(f, g, x, s[1..]); }
  }

  lemma {:induction false} SortKeysAgree(f: string -> string, g: string -> string, s: seq<string>)
    requires forall id :: f(id) == g(id)
    ensures StableSort(f, s) == StableSort(g, s)
  {
    if s != [] {
      SortKeysAgree(f, g, s[1..]);
      InsertKeysAgree(f, g, s[0], StableSort(g, s[1..]));
    }
  }

  lemma SortedMember(s: seq<string>, n: nat)
    requires n < |s|
    ensures n < |Sorted(s)| && Sorted(s)[n] in s
  {
    StableSortPermutes(Itself, s);
    assert Sorted(s)[n] in multiset(s);
  }

  lemma GatherOneMore(done: seq<Option<Entry>>, next: Option<Entry>)
    ensures Gather(done + [next]) ==
            if Gather(done).None? || next.None? then None else Some(Gather(done).value + [next.value])
  {
    assert (done + [next])[..|done + [next]| - 1] == done;
  }

  lemma ChoiceIs(k: Known, eids: seq<string>, n: nat)
    requires n < |eids|
    ensures Choices(k, eids)[..n + 1] == Choices(k, eids)[..n] + [CompactEntity(k, eids[n])]
    ensures CompactEntity(k, eids[n]).None? ==> Gather(Choices(k, eids)).None?
  {
    TakeOneMore(Choices(k, eids), n);
    if CompactEntity(k, eids[n]).None? {
      GatherEntries(Choices(k, eids));
      assert Choices(k, eids)[n].None?;
    }
  }

  /** Pass 2: the entities rolled up one after another. */
  method RollUp(ghost k: Known, eids: seq<string>, byEntity: map<string, seq<string>>, derived: map<string, Version>)
    returns (registry: Option<seq<Entry>>)
    requires DerivedFrom(k, derived) && Bucketed(byEntity, k.table, k.order)
    requires forall e :: e in eids ==> e in Entities(k.order, k.table) && e in byEntity
    ensures registry == Gather(Choices(k, eids))
  {
    var compacted: seq<Entry> := [];
    for n := 0 to |eids|
      invariant Gather(Choices(k, eids)[..n]) == Some(compacted)
    {
      var entry := CompactOne(k, eids[n], byEntity[eids[n]], derived);
      ChoiceIs(k, eids, n);
      GatherOneMore(Choices(k, eids)[..n], entry);
      if entry.None? { return None; }
      compacted := compacted + [entry.value];
    }
    assert Choices(k, eids)[..|eids|] == Choices(k, eids);
    registry := Some(compacted);
  }

  /** The whole of `_compact_registry_index`; None when a raw stamp comparison raises. */
  method CompactRegistryIndex(log: seq<Line>) returns (registry: Option<seq<Entry>>)
    ensures registry == Compact(log)
  {
    ValidRowsAreAttributed(log);
    LearnAllIsConsistent(ValidRows(log));
    var table, order := CollapseVersions(log);
    ghost var k := Known(order, table);
    var successors := SuccessorTable(order, table);
    var derived := map id | id in table ::
      Derive(table[id], if id in successors then Some(successors[id]) else None);
    DerivedTable(k, successors, derived);
    var byEntity, entities := BucketByEntity(order, table);
    StableSortPermutes(Itself, entities);
    forall n: nat | n < |Sorted(entities)| { SortedMember(entities, n); }
    registry := RollUp(k, Sorted(entities), byEntity, derived);
  }
}

/** The scheduler's loops and the queue they fill. */
module Enqueue {
  import opened Lists
  import opened Text
  import opened RoundRobin
  import opened Schedule

  // ---- grouping ----------------------------------------------------------------------------

  /** `keys` is the insertion order of the dict `groups`, which holds the elements of `s` under their keys. */
  ghost predicate Grouped<T(!new)>(key: T -> string, s: seq<T>, keys: seq<string>, groups: map<string, seq<T>>) {
    && keys == FirstKeys(key, s)
    && (forall k :: k in groups <==> k in keys)
    && forall k :: Group(groups, k) == Keep(OfKey(key, k), s)
  }

  function Group<T>(groups: map<string, seq<T>>, k: string): seq<T> { if k in groups then groups[k] else [] }

  function GroupsOf<T>(groups: map<string, seq<T>>, keys: seq<string>): seq<seq<T>> {
    seq(|keys|, i requires 0 <= i < |keys| => Group(groups, keys[i]))
  }

  lemma GroupOneMore<T(!new)>(key: T -> string, s: seq<T>, x: T, keys: seq<string>, groups: map<string, seq<T>>)
    requires Grouped(key, s, keys, groups)
    ensures Grouped(key, s + [x], if key(x) in groups then keys else keys + [key(x)],
                    groups[key(x) := Group(groups, key(x)) + [x]])
  {
    FirstKeysOneMore(key, s, x);
    var more := groups[key(x) := Group(groups, key(x)) + [x]];
    forall k ensures Group(more, k) == Keep(OfKey(key, k), s + [x]) {
      KeepOneMore(OfKey(key, k), s, x);
      var p := OfKey(key, k);
      assert p(x) == (key(x) == k);
      assert Keep(p, s) == Group(groups, k);
      if k != key(x) { assert Group(more, k) == Group(groups, k) + []; }
    }
  }

  /** `buckets.setdefault(key(x), []).append(x)` for each x. */
  method GroupByKey<T(!new)>(key: T -> string, s: seq<T>) returns (keys: seq<string>, groups: map<string, seq<T>>)
    ensures Grouped(key, s, keys, groups)
  {
    keys, groups := [], map[];
    for n := 0 to |s|
      invariant Grouped(key, s[..n], keys, groups)
    {
      var k := key(s[n]);
      TakeOneMore(s, n);
      GroupOneMore(key, s[..n], s[n], keys, groups);
      if k !in groups { keys := keys + [k]; }
      groups := groups[k := Group(groups, k) + [s[n]]];
    }
    assert s[..|s|] == s;
  }

  // ---- spreading models over providers -------------------------------------------------------

  /** What each bucket still holds behind its index. */
  function Left(buckets: map<string, seq<string>>, idx: map<string, nat>, providers: seq<string>): seq<seq<string>> {
    seq(|providers|, i requires 0 <= i < |providers| => Behind(buckets, idx, providers[i]))
  }

  function Behind(buckets: map<string, seq<string>>, idx: map<string, nat>, p: string): seq<string> {
    if p in buckets && p in idx && idx[p] <= |buckets[p]| then buckets[p][idx[p]..] else []
  }

  ghost predicate Indexed(buckets: map<string, seq<string>>, idx: map<string, nat>, providers: seq<string>) {
    forall p :: p in providers ==> p in buckets && p in idx && idx[p] <= |buckets[p]|
  }

  /** Moving one index on takes the front of its bucket and leaves the others. */
  lemma BehindMovesOn(buckets: map<string, seq<string>>, idx: map<string, nat>, p: string, q: string)
    requires p in buckets && p in idx && idx[p] < |buckets[p]|
    ensures Behind(buckets, idx[p := idx[p] + 1], q) ==
            if q == p then Tail(Behind(buckets, idx, p)) else Behind(buckets, idx, q)
    ensures HeadOf(Behind(buckets, idx, p)) == [buckets[p][idx[p]]]
  {
  }

  /** The first `i` buckets have given one element of `left`. */
  ghost predicate Given(buckets: map<string, seq<string>>, idx: map<string, nat>, providers: seq<string>,
                        left: seq<seq<string>>, i: nat)
    requires |left| == |providers|
  {
    && Indexed(buckets, idx, providers)
    && forall j :: 0 <= j < |providers| ==>
         Behind(buckets, idx, providers[j]) == if j < i then Tail(left[j]) else left[j]
  }

  lemma GivenOneMore(buckets: map<string, seq<string>>, idx: map<string, nat>, providers: seq<string>,
                     left: seq<seq<string>>, i: nat)
    requires Distinct(providers) && |left| == |providers| && i < |providers| && Given(buckets, idx, providers, left, i)
    ensures var p := providers[i];
            && p in buckets && p in idx && idx[p] <= |buckets[p]|
            && if idx[p] < |buckets[p]| then
                 Given(buckets, idx[p := idx[p] + 1], providers, left, i + 1) && HeadOf(left[i]) == [buckets[p][idx[p]]]
               else Given(buckets, idx, providers, left, i + 1) && HeadOf(left[i]) == []
  {
    var p := providers[i];
    assert p in providers;
    if idx[p] < |buckets[p]| {
      forall j | 0 <= j < |providers|
        ensures Behind(buckets, idx[p := idx[p] + 1], providers[j]) == if j < i + 1 then Tail(left[j]) else left[j]
      {
        BehindMovesOn(buckets, idx, p, providers[j]);
      }
    }
  }

  lemma AllGiven(buckets: map<string, seq<string>>, idx: map<string, nat>, providers: seq<string>, left: seq<seq<string>>)
    requires |left| == |providers| && Given(buckets, idx, providers, left, |providers|)
    ensures Left(buckets, idx, providers) == Tails(left)
    ensures Heads(left[..|providers|]) == Heads(left)
  {
    forall j | 0 <= j < |providers| ensures Left(buckets, idx, providers)[j] == Tails(left)[j] {
      assert Behind(buckets, idx, providers[j]) == Tail(left[j]);
    }
    assert left[..|providers|] == left;
  }

  /** Takes the next model of one provider. */
  method SpreadOne(buckets: map<string, seq<string>>, providers: seq<string>, ghost left: seq<seq<string>>, i: nat,
                   order: seq<string>, idx: map<string, nat>)
    returns (longer: seq<string>, next: map<string, nat>)
    requires Distinct(providers) && |left| == |providers| && i < |providers| && Given(buckets, idx, providers, left, i)
    ensures Given(buckets, next, providers, left, i + 1)
    ensures longer == order + HeadOf(left[i])
  {
    var p := providers[i];
    GivenOneMore(buckets, idx, providers, left, i);
    longer, next := order, idx;
    if idx[p] < |buckets[p]| {
      longer := order + [buckets[p][idx[p]]];
      next := idx[p := idx[p] + 1];
    } else {
      assert order + [] == order;
    }
  }

  /** One round: the next model of every provider that has one. */
  method SpreadRound(buckets: map<string, seq<string>>, providers: seq<string>, order: seq<string>, idx: map<string, nat>)
    returns (longer: seq<string>, next: map<string, nat>)
    requires Distinct(providers) && Indexed(buckets, idx, providers)
    ensures Indexed(buckets, next, providers)
    ensures longer == order + Heads(Left(buckets, idx, providers))
    ensures Left(buckets, next, providers) == Tails(Left(buckets, idx, providers))
  {
    longer, next := order, idx;
    ghost var left := Left(buckets, idx, providers);
    for i := 0 to |providers|
      invariant Given(buckets, next, providers, left, i)
      invariant longer == order + Heads(left[..i])
    {
      HeadsOneMore(left, i);
      ConcatAssociates(order, Heads(left[..i]), HeadOf(left[i]));
      longer, next := SpreadOne(buckets, providers, left, i, longer, next);
    }
    AllGiven(buckets, next, providers, left);
  }

  /** The `while len(order) < remaining` loop. */
  method SpreadBuckets(buckets: map<string, seq<string>>, providers: seq<string>) returns (order: seq<string>)
    requires Distinct(providers) && forall p :: p in providers ==> p in buckets
    ensures order == Rounds(GroupsOf(buckets, providers))
  {
    var remaining := SumOfLengths(buckets, providers);
    var idx: map<string, nat> := map p | p in providers :: 0;
    ghost var left := GroupsOf(buckets, providers);
    NothingTakenYet(buckets, idx, providers);
    order := [];
    while |order| < remaining
      invariant Indexed(buckets, idx, providers) && left == Left(buckets, idx, providers)
      invariant order + Rounds(left) == Rounds(GroupsOf(buckets, providers))
      invariant |order| + Total(left) == remaining
      decreases remaining - |order|
    {
      TailsAreShorter(left);
      NothingTotalsNothing(left);
      ConcatAssociates(order, Heads(left), Rounds(Tails(left)));
      order, idx := SpreadRound(buckets, providers, order, idx);
      left := Tails(left);
    }
    NothingTotalsNothing(left);
    assert order + [] == order;
  }

  lemma NothingTakenYet(buckets: map<string, seq<string>>, idx: map<string, nat>, providers: seq<string>)
    requires forall p :: p in providers ==> p in buckets && p in idx && idx[p] == 0
    ensures Left(buckets, idx, providers) == GroupsOf(buckets, providers)
  {
    forall i | 0 <= i < |providers| ensures Behind(buckets, idx, providers[i]) == Group(buckets, providers[i]) {
      assert providers[i] in providers;
    }
  }

  lemma SortedGroupsAreTheBuckets(
    models: seq<string>, keys: seq<string>, groups: map<string, seq<string>>, sorted: map<string, seq<string>>)
    requires Grouped(Provider, models, keys, groups) && sorted.Keys == groups.Keys
    requires forall p :: p in Providers(models) ==> p in keys && sorted[p] == Sorted(groups[p])
    ensures GroupsOf(sorted, Providers(models)) == BucketsOf(models, Providers(models))
  {
    var providers := Providers(models);
    forall i | 0 <= i < |providers| ensures Group(sorted, providers[i]) == BucketsOf(models, providers)[i] {
      assert providers[i] in providers;
      assert Group(groups, providers[i]) == Keep(OfKey(Provider, providers[i]), models);
    }
  }

  /** `_spread_order` */
  method SpreadModels(models: seq<string>) returns (order: seq<string>)
    ensures order == SpreadOrder(models)
  {
    var keys, buckets := GroupByKey(Provider, models);
    var providers := StableSort(Priority, keys);
    ProvidersAreDistinct(models);
    SortingKeepsMembers(keys, Priority);
    var sorted := SortEach(buckets, providers);
    order := SpreadBuckets(sorted, providers);
    SortedGroupsAreTheBuckets(models, keys, buckets, sorted);
  }

  lemma {:induction false} NothingTotalsNothing<T>(lanes: seq<seq<T>>)
    ensures Total(lanes) == 0 <==> AllEmpty(lanes)
    decreases |lanes|
  {
    if lanes != [] {
      var n := |lanes| - 1;
      NothingTotalsNothing(lanes[..n]);
      assert lanes == lanes[..n] + [lanes[n]];
    }
  }

  /** `for p in providers: buckets[p].sort()` */
  method SortEach(buckets: map<string, seq<string>>, providers: seq<string>) returns (sorted: map<string, seq<string>>)
    requires Distinct(providers) && forall p :: p in providers ==> p in buckets
    ensures sorted.Keys == buckets.Keys
    ensures forall p :: p in providers ==> sorted[p] == Sorted(buckets[p])
  {
    sorted := buckets;
    for i := 0 to |providers|
      invariant sorted.Keys == buckets.Keys
      invariant forall j :: 0 <= j < i ==> sorted[providers[j]] == Sorted(buckets[providers[j]])
      invariant forall j :: i <= j < |providers| ==> sorted[providers[j]] == buckets[providers[j]]
    {
      assert providers[i] in providers;
      sorted := sorted[providers[i] := Sorted(sorted[providers[i]])];
    }
  }

  /** `sum(len(v) for v in buckets.values())` */
  method SumOfLengths(buckets: map<string, seq<string>>, providers: seq<string>) returns (n: nat)
    requires forall p :: p in providers ==> p in buckets
    ensures n == Total(GroupsOf(buckets, providers))
  {
    ghost var lanes := GroupsOf(buckets, providers);
    n := 0;
    for i := 0 to |providers|
      invariant n == Total(lanes[..i])
    {
      assert providers[i] in providers;
      assert lanes[..i + 1][..i] == lanes[..i];
      n := n + |buckets[providers[i]]|;
    }
    assert lanes[..|lanes|] == lanes;
  }

  // ---- serving cells ---------------------------------------------------------------------------

  lemma GroupPops(pools: map<string, seq<Cell>>, m: string, q: string)
    requires m in pools && |pools[m]| > 0
    ensures Group(pools[m := pools[m][1..]], q) == if q == m then Tail(Group(pools, m)) else Group(pools, q)
    ensures HeadOf(Group(pools, m)) == [pools[m][0]]
  {
  }

  /** The first `i` pools have served one cell of `waiting`. */
  ghost predicate ServedSoFar(pools: map<string, seq<Cell>>, order: seq<string>, waiting: seq<seq<Cell>>, i: nat)
    requires |waiting| == |order|
  {
    forall j :: 0 <= j < |order| ==> Group(pools, order[j]) == if j < i then Tail(waiting[j]) else waiting[j]
  }

  lemma ServedOneMore(pools: map<string, seq<Cell>>, order: seq<string>, waiting: seq<seq<Cell>>, i: nat)
    requires Distinct(order) && |waiting| == |order| && i < |order| && ServedSoFar(pools, order, waiting, i)
    requires order[i] in pools
    ensures var m := order[i];
            if |pools[m]| > 0 then
              ServedSoFar(pools[m := pools[m][1..]], order, waiting, i + 1) && HeadOf(waiting[i]) == [pools[m][0]]
            else ServedSoFar(pools, order, waiting, i + 1) && HeadOf(waiting[i]) == []
  {
    var m := order[i];
    if |pools[m]| > 0 {
      forall j | 0 <= j < |order|
        ensures Group(pools[m := pools[m][1..]], order[j]) == if j < i + 1 then Tail(waiting[j]) else waiting[j]
      {
        GroupPops(pools, m, order[j]);
      }
    }
  }

  lemma AllServed(pools: map<string, seq<Cell>>, order: seq<string>, waiting: seq<seq<Cell>>)
    requires |waiting| == |order| && ServedSoFar(pools, order, waiting, |order|)
    ensures GroupsOf(pools, order) == Tails(waiting)
    ensures Heads(waiting[..|order|]) == Heads(waiting)
  {
    assert waiting[..|order|] == waiting;
  }

  /** Serves the front of one pool. */
  method ServeOne(pools: map<string, seq<Cell>>, order: seq<string>, ghost waiting: seq<seq<Cell>>, i: nat, out: seq<Cell>)
    returns (longer: seq<Cell>, rest: map<string, seq<Cell>>)
    requires Distinct(order) && |waiting| == |order| && i < |order| && order[i] in pools
    requires ServedSoFar(pools, order, waiting, i)
    ensures rest.Keys == pools.Keys && ServedSoFar(rest, order, waiting, i + 1)
    ensures longer == out + HeadOf(waiting[i])
  {
    var m := order[i];
    ServedOneMore(pools, order, waiting, i);
    longer, rest := out, pools;
    if |pools[m]| > 0 {
      longer := out + [pools[m][0]];
      rest := pools[m := pools[m][1..]];
    } else {
      assert out + [] == out;
    }
  }

  /** One round: the front cell of every model that has one. */
  method ServeRound(pools: map<string, seq<Cell>>, order: seq<string>, out: seq<Cell>)
    returns (longer: seq<Cell>, rest: map<string, seq<Cell>>)
    requires Distinct(order) && forall m :: m in pools <==> m in order
    ensures rest.Keys == pools.Keys
    ensures longer == out + Heads(GroupsOf(pools, order))
    ensures GroupsOf(rest, order) == Tails(GroupsOf(pools, order))
  {
    longer, rest := out, pools;
    ghost var waiting := GroupsOf(pools, order);
    for i := 0 to |order|
      invariant rest.Keys == pools.Keys && ServedSoFar(rest, order, waiting, i)
      invariant longer == out + Heads(waiting[..i])
    {
      assert order[i] in order;
      HeadsOneMore(waiting, i);
      ConcatAssociates(out, Heads(waiting[..i]), HeadOf(waiting[i]));
      longer, rest := ServeOne(rest, order, waiting, i, longer);
    }
    AllServed(rest, order, waiting);
  }

  /** `any(pools.values())` */
  predicate AnyWaiting(pools: map<string, seq<Cell>>) { exists m | m in pools :: |pools[m]| > 0 }

  /** The `while any(pools.values())` loop. */
  method ServeAll(pools: map<string, seq<Cell>>, order: seq<string>) returns (out: seq<Cell>)
    requires Distinct(order) && forall m :: m in pools <==> m in order
    ensures out == Rounds(GroupsOf(pools, order))
  {
    var rest := pools;
    ghost var waiting := GroupsOf(pools, order);
    out := [];
    SomeoneWaits(rest, order);
    while AnyWaiting(rest)
      invariant rest.Keys == pools.Keys && waiting == GroupsOf(rest, order)
      invariant out + Rounds(waiting) == Rounds(GroupsOf(pools, order))
      invariant AnyWaiting(rest) <==> !AllEmpty(waiting)
      decreases Total(waiting)
    {
      TailsAreShorter(waiting);
      ConcatAssociates(out, Heads(waiting), Rounds(Tails(waiting)));
      out, rest := ServeRound(rest, order, out);
      waiting := Tails(waiting);
      SomeoneWaits(rest, order);
    }
    assert out + [] == out;
  }

  /** `interleave_cells` */
  method InterleaveCells(cells: seq<Cell>) returns (out: seq<Cell>)
    ensures out == Interleave(cells)
  {
    var models, pools := GroupByKey(ModelOf, cells);
    var order := SpreadModels(models);
    OrderIsTheModels(cells);
    PoolsAreInOrder(cells, models, pools);
    out := ServeAll(pools, order);
  }

  lemma PoolsAreInOrder(cells: seq<Cell>, models: seq<string>, pools: map<string, seq<Cell>>)
    requires Grouped(ModelOf, cells, models, pools)
    ensures forall m :: m in pools <==> m in Order(cells)
    ensures GroupsOf(pools, Order(cells)) == PoolsOf(cells, Order(cells))
  {
    var order := Order(cells);
    SpreadOrderPermutes(models);
    forall m ensures m in order <==> m in models {
      assert m in multiset(order) <==> m in multiset(models);
    }
    forall i | 0 <= i < |order| ensures Group(pools, order[i]) == PoolsOf(cells, order)[i] {}
  }

  lemma SomeoneWaits(pools: map<string, seq<Cell>>, order: seq<string>)
    requires forall m :: m in pools <==> m in order
    ensures AnyWaiting(pools) <==> !AllEmpty(GroupsOf(pools, order))
  {
    if AnyWaiting(pools) {
      var m :| m in pools && |pools[m]| > 0;
      var i :| 0 <= i < |order| && order[i] == m;
      assert |GroupsOf(pools, order)[i]| > 0;
    }
    if i :| 0 <= i < |order| && |GroupsOf(pools, order)[i]| != 0 { assert order[i] in order; }
  }
}

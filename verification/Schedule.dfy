/** The order cells run in: round robin over models, with providers spread. */
module Schedule {
  import opened Lists
  import opened Text
  import opened RoundRobin

  datatype Cell = Cell(id: string, model: string, payload: string)

  /** `model.split("/", 1)[0]` */
  function Provider(model: string): string {
    if model == "" || model[0] == '/' then "" else [model[0]] + Provider(model[1..])
  }

  /** deepseek 0, anthropic 1, openai 2, everyone else 99, as strings that compare like those numbers. */
  function Priority(provider: string): string {
    if provider == "deepseek" then "0"
    else if provider == "anthropic" then "1"
    else if provider == "openai" then "2"
    else "99"
  }

  function Providers(models: seq<string>): seq<string> {
    StableSort(Priority, FirstKeys(Provider, models))
  }

  function Bucket(models: seq<string>, provider: string): seq<string> { Sorted(Keep(OfKey(Provider, provider), models)) }

  function BucketsOf(models: seq<string>, providers: seq<string>): seq<seq<string>> {
    seq(|providers|, i requires 0 <= i < |providers| => Bucket(models, providers[i]))
  }

  /** `_spread_order` */
  function SpreadOrder(models: seq<string>): seq<string> {
    Rounds(BucketsOf(models, Providers(models)))
  }

  function ModelOf(c: Cell): string { c.model }

  function PoolsOf(cells: seq<Cell>, order: seq<string>): seq<seq<Cell>> {
    seq(|order|, i requires 0 <= i < |order| => Keep(OfKey(ModelOf, order[i]), cells))
  }

  /** `interleave_cells` */
  function Interleave(cells: seq<Cell>): seq<Cell> {
    Rounds(PoolsOf(cells, SpreadOrder(FirstKeys(ModelOf, cells))))
  }

  // ---- what a provider is ---------------------------------------------------------------------

  /** A model is named `provider/model`; what follows the first slash is not looked at. */
  lemma {:induction false} ProviderIsBeforeTheSlash(p: string, r: string)
    requires '/' !in p
    ensures Provider(p + "/" + r) == p
  {
    var model := p + "/" + r;
    if p != "" {
      assert model[0] == p[0] && p[0] in p && model[1..] == p[1..] + "/" + r;
      ProviderIsBeforeTheSlash(p[1..], r);
      assert p == [p[0]] + p[1..];
    }
  }

  lemma {:induction false} WithoutASlashItIsTheProvider(model: string)
    requires '/' !in model
    ensures Provider(model) == model
  {
    if model != "" {
      assert model[0] in model;
      WithoutASlashItIsTheProvider(model[1..]);
      assert model == [model[0]] + model[1..];
    }
  }

  // ---- _spread_order -----------------------------------------------------------------------

  lemma ProvidersAreDistinct(models: seq<string>)
    ensures Distinct(Providers(models))
    ensures forall p :: p in Providers(models) <==> exists m :: m in models && Provider(m) == p
  {
    FirstKeysAreTheKeys(Provider, models);
    SortingKeepsMembers(FirstKeys(Provider, models), Priority);
    forall p ensures p in Providers(models) <==> exists m :: m in models && Provider(m) == p {
      if m :| m in models && Provider(m) == p { var i :| 0 <= i < |models| && models[i] == m; }
      if p in Providers(models) {
        var i :| 0 <= i < |models| && Provider(models[i]) == p;
        assert models[i] in models;
      }
    }
  }

  lemma BucketIsOneProvider(models: seq<string>, provider: string)
    ensures var bucket, mine := Bucket(models, provider), Keep(OfKey(Provider, provider), models);
            && multiset(bucket) == multiset(mine)
            && (forall j :: 0 <= j < |bucket| ==> Provider(bucket[j]) == provider)
            && (forall m :: m in models && Provider(m) == provider ==> m in bucket)
  {
    var bucket, mine := Bucket(models, provider), Keep(OfKey(Provider, provider), models);
    KeepMembers(OfKey(Provider, provider), models);
    SortingKeepsMembers(mine, Itself);
    StableSortPermutes(Itself, mine);
    forall j | 0 <= j < |bucket| ensures Provider(bucket[j]) == provider { assert bucket[j] in mine; }
    forall m | m in models && Provider(m) == provider ensures m in bucket { assert m in mine; }
  }

  lemma BucketsDeal(models: seq<string>)
    ensures Deals(BucketsOf(models, Providers(models)), Providers(models), Provider, models)
    ensures forall i :: 0 <= i < |Providers(models)| ==> |BucketsOf(models, Providers(models))[i]| > 0
  {
    var providers := Providers(models);
    var buckets := BucketsOf(models, providers);
    ProvidersAreDistinct(models);
    forall i | 0 <= i < |providers|
      ensures |buckets[i]| > 0 && multiset(buckets[i]) == multiset(Keep(OfKey(Provider, providers[i]), models))
      ensures forall j :: 0 <= j < |buckets[i]| ==> Provider(buckets[i][j]) == providers[i]
    {
      assert buckets[i] == Bucket(models, providers[i]) && providers[i] in providers;
      BucketIsOneProvider(models, providers[i]);
      var m :| m in models && Provider(m) == providers[i];
      assert m in buckets[i];
    }
  }

  /** Every model is in the order exactly as often as it was given. */
  lemma SpreadOrderPermutes(models: seq<string>)
    ensures multiset(SpreadOrder(models)) == multiset(models)
  {
    BucketsDeal(models);
    RoundsPermute(BucketsOf(models, Providers(models)), Providers(models), Provider, models);
  }

  /** Two neighbours share a provider only when nothing of any other provider comes later. */
  lemma NeighboursShareAProviderOnlyAtTheEnd(models: seq<string>, a: nat, b: nat)
    requires a + 1 < b
    ensures var order := SpreadOrder(models);
            b < |order| && Provider(order[a]) == Provider(order[a + 1]) ==> Provider(order[b]) == Provider(order[a])
  {
    var order := SpreadOrder(models);
    BucketsDeal(models);
    if b < |order| && Provider(order[a]) == Provider(order[a + 1]) {
      NeighboursDiffer(BucketsOf(models, Providers(models)), Providers(models), Provider, a, b);
    }
  }

  /** A model's name in two parts; the first holds no slash. */
  predicate NamedAs(model: string, provider: string, rest: string) {
    '/' !in provider && model == provider + "/" + rest
  }

  /** The same on names: where a model of a third provider or of another one comes later, two neighbours are
      of two providers. */
  lemma NeighboursAreOfTwoProviders(models: seq<string>, a: nat, b: nat, p: string, r: string, q: string, t: string, o: string, u: string)
    requires a + 1 < b < |SpreadOrder(models)| && o != p
    requires NamedAs(SpreadOrder(models)[a], p, r) && NamedAs(SpreadOrder(models)[a + 1], q, t)
    requires NamedAs(SpreadOrder(models)[b], o, u)
    ensures p != q
  {
    ProviderIsBeforeTheSlash(p, r);
    ProviderIsBeforeTheSlash(q, t);
    ProviderIsBeforeTheSlash(o, u);
    if p == q { NeighboursShareAProviderOnlyAtTheEnd(models, a, b); }
  }

  /** `PROVIDER_PRIORITY`, with 99 for everyone else. */
  function PriorityRank(provider: string): nat {
    if provider == "deepseek" then 0 else if provider == "anthropic" then 1 else if provider == "openai" then 2 else 99
  }

  lemma PrioritiesCompareLikeRanks(p: string, q: string)
    ensures StrLe(Priority(p), Priority(q)) <==> PriorityRank(p) <= PriorityRank(q)
  {
    assert StrLe("0", "0") && StrLe("0", "1") && StrLe("0", "2") && StrLe("0", "99");
    assert !StrLe("1", "0") && StrLe("1", "1") && StrLe("1", "2") && StrLe("1", "99");
    assert !StrLe("2", "0") && !StrLe("2", "1") && StrLe("2", "2") && StrLe("2", "99");
    assert !StrLe("99", "0") && !StrLe("99", "1") && !StrLe("99", "2");
    assert "99"[1..] == "9" && "9"[1..] == "" && StrLe("9", "9");
    assert StrLe("99", "99");
  }

  function Unranked(provider: string): bool { PriorityRank(provider) == 99 }

  lemma ProvidersFollowThePriorities(models: seq<string>)
    ensures var met, given := Providers(models), FirstKeys(Provider, models);
            && (forall i, j :: 0 <= i < j < |met| ==> PriorityRank(met[i]) <= PriorityRank(met[j]))
            && Keep(Unranked, met) == Keep(Unranked, given)
            && multiset(met) == multiset(given)
  {
    var given := FirstKeys(Provider, models);
    var met := Providers(models);
    StableSortSorts(Priority, given);
    StableSortPermutes(Priority, given);
    forall i, j | 0 <= i < j < |met| ensures PriorityRank(met[i]) <= PriorityRank(met[j]) {
      PrioritiesCompareLikeRanks(met[i], met[j]);
    }
    SortingAndKeeping(Priority, Unranked, given);
    KeepMembers(Unranked, given);
    forall i | 0 <= i < |Keep(Unranked, given)| ensures Unranked(Keep(Unranked, given)[i]) {
      assert Keep(Unranked, given)[i] in Keep(Unranked, given);
    }
    UnrankedStay(Keep(Unranked, given));
  }

  /** The order meets the preferred providers first, by their priority, and the others in the order in which
      they were given. */
  lemma SpreadFollowsThePriorities(models: seq<string>)
    ensures var met, given := FirstKeys(Provider, SpreadOrder(models)), FirstKeys(Provider, models);
            && (forall i, j :: 0 <= i < j < |met| ==> PriorityRank(met[i]) <= PriorityRank(met[j]))
            && Keep(Unranked, met) == Keep(Unranked, given)
            && multiset(met) == multiset(given)
  {
    BucketsDeal(models);
    RoundsMeetTheKeysInOrder(BucketsOf(models, Providers(models)), Providers(models), Provider);
    ProvidersFollowThePriorities(models);
  }

  lemma UnrankedStay(providers: seq<string>)
    requires forall i :: 0 <= i < |providers| ==> Unranked(providers[i])
    ensures StableSort(Priority, providers) == providers
  {
    forall i, j | 0 <= i < j < |providers| ensures StrLe(Priority(providers[i]), Priority(providers[j])) {
      PrioritiesCompareLikeRanks(providers[i], providers[j]);
    }
    SortingTheSorted(Priority, providers);
  }

  /** Within a provider the models are in alphabetical order. */
  lemma AProvidersModelsAreSorted(models: seq<string>, provider: string)
    ensures var mine := Keep(OfKey(Provider, provider), SpreadOrder(models));
            SortedBy(Itself, mine) && multiset(mine) == multiset(Keep(OfKey(Provider, provider), models))
  {
    var mine := Keep(OfKey(Provider, provider), models);
    BucketsDeal(models);
    ProvidersAreDistinct(models);
    StableSortSorts(Itself, mine);
    StableSortPermutes(Itself, mine);
    if provider in Providers(models) {
      var i :| 0 <= i < |Providers(models)| && Providers(models)[i] == provider;
      EachLaneKeepsItsOrder(BucketsOf(models, Providers(models)), Providers(models), Provider, i);
    } else {
      OnlyLaneElements(BucketsOf(models, Providers(models)), Providers(models), Provider, provider);
      KeepMembers(OfKey(Provider, provider), models);
      EmptyOrInhabited(mine);
    }
  }

  // ---- interleave_cells --------------------------------------------------------------------

  function Order(cells: seq<Cell>): seq<string> { SpreadOrder(FirstKeys(ModelOf, cells)) }

  lemma OrderIsTheModels(cells: seq<Cell>)
    ensures Distinct(Order(cells))
    ensures forall c :: c in cells ==> c.model in Order(cells)
    ensures forall m :: m in Order(cells) ==> exists c :: c in cells && c.model == m
  {
    var models := FirstKeys(ModelOf, cells);
    FirstKeysAreTheKeys(ModelOf, cells);
    SpreadOrderPermutes(models);
    forall x ensures multiset(Order(cells))[x] <= 1 { DistinctCounts(models, x); }
    CountsMakeDistinct(Order(cells));
    forall m ensures m in Order(cells) <==> m in models {
      assert m in multiset(Order(cells)) <==> m in multiset(models);
    }
    forall c | c in cells ensures c.model in Order(cells) {
      var i :| 0 <= i < |cells| && cells[i] == c;
      assert ModelOf(cells[i]) in models;
    }
    forall m | m in Order(cells) ensures exists c :: c in cells && c.model == m {
      var i :| 0 <= i < |cells| && ModelOf(cells[i]) == m;
      assert cells[i] in cells;
    }
  }

  lemma PoolIsOneModel(cells: seq<Cell>, model: string)
    requires exists c :: c in cells && c.model == model
    ensures var pool := Keep(OfKey(ModelOf, model), cells);
            |pool| > 0 && forall j :: 0 <= j < |pool| ==> ModelOf(pool[j]) == model
  {
    var pool := Keep(OfKey(ModelOf, model), cells);
    KeepMembers(OfKey(ModelOf, model), cells);
    var c :| c in cells && c.model == model;
    assert ModelOf(c) == model;
    var p := OfKey(ModelOf, model);
    assert p(c) == (ModelOf(c) == model);
    assert |pool| > 0 by { assert c in pool; }
    forall j | 0 <= j < |pool| ensures ModelOf(pool[j]) == model { assert pool[j] in pool; }
  }

  lemma PoolsDeal(cells: seq<Cell>)
    ensures Deals(PoolsOf(cells, Order(cells)), Order(cells), ModelOf, cells)
    ensures forall i :: 0 <= i < |Order(cells)| ==> |PoolsOf(cells, Order(cells))[i]| > 0
  {
    var order := Order(cells);
    var pools := PoolsOf(cells, order);
    OrderIsTheModels(cells);
    forall i | 0 <= i < |order|
      ensures |pools[i]| > 0 && forall j :: 0 <= j < |pools[i]| ==> ModelOf(pools[i][j]) == order[i]
    {
      assert order[i] in order;
      PoolIsOneModel(cells, order[i]);
    }
  }

  /** No cell is lost, invented or repeated. */
  lemma InterleavePermutes(cells: seq<Cell>)
    ensures multiset(Interleave(cells)) == multiset(cells)
  {
    PoolsDeal(cells);
    RoundsPermute(PoolsOf(cells, Order(cells)), Order(cells), ModelOf, cells);
  }

  /** Each model's cells keep their order. */
  lemma InterleaveKeepsEachModelsOrder(cells: seq<Cell>, model: string)
    ensures Keep(OfKey(ModelOf, model), Interleave(cells)) == Keep(OfKey(ModelOf, model), cells)
  {
    PoolsDeal(cells);
    if model in Order(cells) {
      var i :| 0 <= i < |Order(cells)| && Order(cells)[i] == model;
      EachLaneKeepsItsOrder(PoolsOf(cells, Order(cells)), Order(cells), ModelOf, i);
    } else {
      OnlyLaneElements(PoolsOf(cells, Order(cells)), Order(cells), ModelOf, model);
      KeepMembers(OfKey(ModelOf, model), cells);
      EmptyOrInhabited(Keep(OfKey(ModelOf, model), cells));
    }
  }

  /** The models are first served in the spread order. */
  lemma InterleaveServesInSpreadOrder(cells: seq<Cell>)
    ensures FirstKeys(ModelOf, Interleave(cells)) == SpreadOrder(FirstKeys(ModelOf, cells))
  {
    PoolsDeal(cells);
    RoundsMeetTheKeysInOrder(PoolsOf(cells, Order(cells)), Order(cells), ModelOf);
  }

  /** However many cells the workers have taken, a model is at most one ahead of any other that still has cells. */
  lemma InterleaveIsFair(cells: seq<Cell>, n: nat, ahead: string, other: string)
    requires n <= |cells| && ahead in Order(cells) && other in Order(cells)
    ensures |Interleave(cells)| == |cells|
    ensures Fair(ModelOf, ahead, other, Keep(OfKey(ModelOf, other), cells), Interleave(cells)[..n])
  {
    InterleavePermutes(cells);
    assert |multiset(Interleave(cells))| == |multiset(cells)|;
    PoolsDeal(cells);
    var i :| 0 <= i < |Order(cells)| && Order(cells)[i] == ahead;
    var j :| 0 <= j < |Order(cells)| && Order(cells)[j] == other;
    EveryPrefixIsFair(PoolsOf(cells, Order(cells)), Order(cells), ModelOf, n, i, j);
  }

  // ---- interleaving again changes nothing ----------------------------------------------------

  lemma SpreadKeepsItsBuckets(models: seq<string>)
    ensures BucketsOf(SpreadOrder(models), Providers(models)) == BucketsOf(models, Providers(models))
  {
    var providers := Providers(models);
    var buckets := BucketsOf(models, providers);
    BucketsDeal(models);
    forall i | 0 <= i < |providers| ensures BucketsOf(SpreadOrder(models), providers)[i] == buckets[i] {
      EachLaneKeepsItsOrder(buckets, providers, Provider, i);
      StableSortSorts(Itself, Keep(OfKey(Provider, providers[i]), models));
      SortingTheSorted(Itself, buckets[i]);
    }
  }

  lemma SpreadKeepsItsProviders(models: seq<string>)
    ensures Providers(SpreadOrder(models)) == Providers(models)
  {
    BucketsDeal(models);
    RoundsMeetTheKeysInOrder(BucketsOf(models, Providers(models)), Providers(models), Provider);
    StableSortSorts(Priority, FirstKeys(Provider, models));
    SortingTheSorted(Priority, Providers(models));
  }

  lemma SpreadOrderIsItsOwnSpread(models: seq<string>)
    ensures SpreadOrder(SpreadOrder(models)) == SpreadOrder(models)
  {
    SpreadKeepsItsProviders(models);
    SpreadKeepsItsBuckets(models);
  }

  lemma InterleaveKeepsTheOrder(cells: seq<Cell>)
    ensures Order(Interleave(cells)) == Order(cells)
  {
    PoolsDeal(cells);
    RoundsMeetTheKeysInOrder(PoolsOf(cells, Order(cells)), Order(cells), ModelOf);
    SpreadOrderIsItsOwnSpread(FirstKeys(ModelOf, cells));
  }

  lemma InterleaveKeepsThePools(cells: seq<Cell>)
    ensures PoolsOf(Interleave(cells), Order(cells)) == PoolsOf(cells, Order(cells))
  {
    var order := Order(cells);
    PoolsDeal(cells);
    forall i | 0 <= i < |order| ensures PoolsOf(Interleave(cells), order)[i] == PoolsOf(cells, order)[i] {
      EachLaneKeepsItsOrder(PoolsOf(cells, order), order, ModelOf, i);
    }
  }

  /** A rebuild with nothing new leaves the queue as it is. */
  lemma InterleaveIsIdempotent(cells: seq<Cell>)
    ensures Interleave(Interleave(cells)) == Interleave(cells)
  {
    InterleaveKeepsTheOrder(cells);
    InterleaveKeepsThePools(cells);
  }
}

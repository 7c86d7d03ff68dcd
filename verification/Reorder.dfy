/** Re-interleaving a waiting lane so that neighbours differ in provider, the fullest provider first. */
module Reorder {
  import opened Text
  import opened Lists
  import opened RoundRobin
  import opened Schedule
  import opened Enqueue

  /** The first of the longest among the first `n` lanes that have elements and not the key `last`. */
  function Longest<T>(lanes: seq<seq<T>>, keys: seq<string>, last: Option<string>, n: nat): (b: Option<nat>)
    requires n <= |lanes| == |keys|
    ensures b.Some? ==> b.value < n && |lanes[b.value]| > 0 && last != Some(keys[b.value])
    ensures forall i :: 0 <= i < n && last != Some(keys[i]) ==> |lanes[i]| <= if b.Some? then |lanes[b.value]| else 0
  {
    if n == 0 then None
    else
      var b := Longest(lanes, keys, last, n - 1);
      if last == Some(keys[n - 1]) || |lanes[n - 1]| == 0 then b
      else if b.Some? && |lanes[n - 1]| <= |lanes[b.value]| then b
      else Some(n - 1)
  }

  lemma {:induction false} LongestIsTheFirst<T>(lanes: seq<seq<T>>, keys: seq<string>, last: Option<string>, n: nat)
    requires n <= |lanes| == |keys|
    ensures var b := Longest(lanes, keys, last, n);
            b.Some? ==> forall i :: 0 <= i < b.value && last != Some(keys[i]) ==> |lanes[i]| < |lanes[b.value]|
  {
    if n > 0 { LongestIsTheFirst(lanes, keys, last, n - 1); }
  }

  /** The lane served next: the longest of another key, or of the same key when no other is left. */
  function Pick<T>(lanes: seq<seq<T>>, keys: seq<string>, last: Option<string>): (b: nat)
    requires |lanes| == |keys| && !AllEmpty(lanes)
    ensures b < |lanes| && |lanes[b]| > 0
  {
    var other := Longest(lanes, keys, last, |lanes|);
    if other.Some? then other.value else Longest(lanes, keys, None, |lanes|).value
  }

  function AfterServing<T>(lanes: seq<seq<T>>, b: nat): seq<seq<T>>
    requires b < |lanes|
  {
    lanes[b := Tail(lanes[b])]
  }

  lemma {:induction false} ServingShortens<T>(lanes: seq<seq<T>>, b: nat)
    requires b < |lanes| && |lanes[b]| > 0
    ensures Total(AfterServing(lanes, b)) + 1 == Total(lanes)
    decreases |lanes|
  {
    var n := |lanes| - 1;
    assert AfterServing(lanes, b)[..n] == if b < n then AfterServing(lanes[..n], b) else lanes[..n];
    if b < n { ServingShortens(lanes[..n], b); }
  }

  /** The loop of `reinterleave_cells`. */
  function Spread<T>(lanes: seq<seq<T>>, keys: seq<string>, last: Option<string>): seq<T>
    requires |lanes| == |keys|
    decreases Total(lanes)
  {
    if AllEmpty(lanes) then []
    else
      var b := Pick(lanes, keys, last);
      ServingShortens(lanes, b);
      [lanes[b][0]] + Spread(AfterServing(lanes, b), keys, Some(keys[b]))
  }

  lemma SpreadUnfolds<T>(lanes: seq<seq<T>>, keys: seq<string>, last: Option<string>)
    requires |lanes| == |keys| && !AllEmpty(lanes)
    ensures var b := Pick(lanes, keys, last);
            && Total(AfterServing(lanes, b)) < Total(lanes)
            && Spread(lanes, keys, last) == [lanes[b][0]] + Spread(AfterServing(lanes, b), keys, Some(keys[b]))
  {
    ServingShortens(lanes, Pick(lanes, keys, last));
  }

  // ---- every element comes out once, each key's in their own order -----------------------------------

  lemma ServedStaysKeyed<T>(lanes: seq<seq<T>>, keys: seq<string>, key: T -> string, b: nat)
    requires Keyed(lanes, keys, key) && b < |lanes|
    ensures Keyed(AfterServing(lanes, b), keys, key)
  {
  }

  /** The lane of this key, empty when there is none. */
  function LaneOf<T>(lanes: seq<seq<T>>, keys: seq<string>, k: string): seq<T>
    requires |lanes| == |keys|
    decreases |keys|
  {
    if keys == [] then []
    else if keys[|keys| - 1] == k then lanes[|keys| - 1]
    else LaneOf(lanes[..|keys| - 1], keys[..|keys| - 1], k)
  }

  lemma {:induction false} LaneOfIs<T>(lanes: seq<seq<T>>, keys: seq<string>, k: string)
    requires |lanes| == |keys| && Distinct(keys)
    ensures forall i :: 0 <= i < |keys| && keys[i] == k ==> LaneOf(lanes, keys, k) == lanes[i]
    ensures k !in keys ==> LaneOf(lanes, keys, k) == []
    decreases |keys|
  {
    if keys != [] && keys[|keys| - 1] != k { LaneOfIs(lanes[..|keys| - 1], keys[..|keys| - 1], k); }
  }

  lemma ServingOneLane<T>(lanes: seq<seq<T>>, keys: seq<string>, b: nat, k: string)
    requires |lanes| == |keys| && Distinct(keys) && b < |lanes|
    ensures LaneOf(AfterServing(lanes, b), keys, k) == if keys[b] == k then Tail(lanes[b]) else LaneOf(lanes, keys, k)
    ensures keys[b] == k ==> LaneOf(lanes, keys, k) == lanes[b]
  {
    LaneOfIs(lanes, keys, k);
    LaneOfIs(AfterServing(lanes, b), keys, k);
    if k in keys { var i :| 0 <= i < |keys| && keys[i] == k; }
  }

  lemma {:induction false} SpreadKeepsLanes<T(!new)>(
    lanes: seq<seq<T>>, keys: seq<string>, key: T -> string, last: Option<string>, k: string)
    requires Keyed(lanes, keys, key)
    ensures Keep(OfKey(key, k), Spread(lanes, keys, last)) == LaneOf(lanes, keys, k)
    decreases Total(lanes)
  {
    LaneOfIs(lanes, keys, k);
    if AllEmpty(lanes) {
      if k in keys {
        var i :| 0 <= i < |keys| && keys[i] == k;
        assert |lanes[i]| == 0;
      }
    } else {
      var b := Pick(lanes, keys, last);
      SpreadUnfolds(lanes, keys, last);
      ServedStaysKeyed(lanes, keys, key, b);
      SpreadKeepsLanes(AfterServing(lanes, b), keys, key, Some(keys[b]), k);
      KeepFirst(OfKey(key, k), lanes[b][0], Spread(AfterServing(lanes, b), keys, Some(keys[b])));
      ServingOneLane(lanes, keys, b, k);
      LaneIsHeadAndTail(lanes[b]);
      assert OfKey(key, k)(lanes[b][0]) <==> keys[b] == k;
    }
  }

  // ---- neighbours differ ------------------------------------------------------------------------------

  /** No key holds more than half of what is left; the one served last no more than the others together. */
  ghost predicate Spreadable<T>(lanes: seq<seq<T>>, keys: seq<string>, last: Option<string>)
    requires |lanes| == |keys|
  {
    forall i :: 0 <= i < |lanes| ==> 2 * |lanes[i]| <= Total(lanes) + if last == Some(keys[i]) then 0 else 1
  }

  lemma {:induction false} LaneWithinTotal<T>(lanes: seq<seq<T>>, i: nat)
    requires i < |lanes|
    ensures |lanes[i]| <= Total(lanes)
    decreases |lanes|
  {
    if i < |lanes| - 1 { LaneWithinTotal(lanes[..|lanes| - 1], i); }
  }

  lemma {:induction false} TwoWithinTotal<T>(lanes: seq<seq<T>>, i: nat, j: nat)
    requires i < j < |lanes|
    ensures |lanes[i]| + |lanes[j]| <= Total(lanes)
    decreases |lanes|
  {
    if j < |lanes| - 1 { TwoWithinTotal(lanes[..|lanes| - 1], i, j); } else { LaneWithinTotal(lanes[..|lanes| - 1], i); }
  }

  /** Only one key is left: then all of the total is its. */
  lemma {:induction false} OnlyOneLane<T>(lanes: seq<seq<T>>, i: nat)
    requires i < |lanes| && forall j :: 0 <= j < |lanes| && j != i ==> |lanes[j]| == 0
    ensures Total(lanes) == |lanes[i]|
    decreases |lanes|
  {
    var n := |lanes| - 1;
    NothingTotalsNothing(lanes[..n]);
    if i < n { OnlyOneLane(lanes[..n], i); }
  }

  lemma AnotherKeyIsLeft<T>(lanes: seq<seq<T>>, keys: seq<string>, last: Option<string>)
    requires |lanes| == |keys| && Distinct(keys) && !AllEmpty(lanes) && Spreadable(lanes, keys, last)
    ensures Longest(lanes, keys, last, |lanes|).Some?
  {
    var i :| 0 <= i < |lanes| && |lanes[i]| > 0;
    if Longest(lanes, keys, last, |lanes|).None? {
      assert last == Some(keys[i]);
      OnlyOneLane(lanes, i);
    }
  }

  /** Serving the longest lane of another key keeps the rest spreadable. */
  lemma ServingKeepsSpreadable<T>(lanes: seq<seq<T>>, keys: seq<string>, last: Option<string>)
    requires |lanes| == |keys| && Distinct(keys) && !AllEmpty(lanes) && Spreadable(lanes, keys, last)
    ensures var b := Pick(lanes, keys, last);
            last != Some(keys[b]) && Spreadable(AfterServing(lanes, b), keys, Some(keys[b]))
  {
    AnotherKeyIsLeft(lanes, keys, last);
    var b := Pick(lanes, keys, last);
    var rest := AfterServing(lanes, b);
    ServingShortens(lanes, b);
    forall i | 0 <= i < |lanes| ensures 2 * |rest[i]| <= Total(rest) + if Some(keys[b]) == Some(keys[i]) then 0 else 1 {
      if i != b && last != Some(keys[i]) {
        assert |lanes[i]| <= |lanes[b]|;
        if i < b { TwoWithinTotal(lanes, i, b); } else { TwoWithinTotal(lanes, b, i); }
      }
    }
  }

  /** Neighbours differ, and the first differs from `last`. */
  ghost predicate Differ<T(!new)>(key: T -> string, last: Option<string>, s: seq<T>) {
    && (s != [] ==> last != Some(key(s[0])))
    && forall i :: 0 <= i < |s| - 1 ==> key(s[i]) != key(s[i + 1])
  }

  lemma DifferOneMore<T(!new)>(key: T -> string, last: Option<string>, x: T, rest: seq<T>)
    requires last != Some(key(x)) && Differ(key, Some(key(x)), rest)
    ensures Differ(key, last, [x] + rest)
  {
    var s := [x] + rest;
    forall i | 0 <= i < |s| - 1 ensures key(s[i]) != key(s[i + 1]) {
      if i > 0 { assert s[i] == rest[i - 1] && s[i + 1] == rest[i]; }
    }
  }

  lemma {:induction false} SpreadDiffers<T(!new)>(
    lanes: seq<seq<T>>, keys: seq<string>, key: T -> string, last: Option<string>)
    requires Keyed(lanes, keys, key) && Spreadable(lanes, keys, last)
    ensures Differ(key, last, Spread(lanes, keys, last))
    decreases Total(lanes)
  {
    if !AllEmpty(lanes) {
      var b := Pick(lanes, keys, last);
      SpreadUnfolds(lanes, keys, last);
      ServedStaysKeyed(lanes, keys, key, b);
      ServingKeepsSpreadable(lanes, keys, last);
      assert key(lanes[b][0]) == keys[b];
      SpreadDiffers(AfterServing(lanes, b), keys, key, Some(keys[b]));
      DifferOneMore(key, last, lanes[b][0], Spread(AfterServing(lanes, b), keys, Some(keys[b])));
    }
  }

  // ---- the fullest provider comes next ------------------------------------------------------------

  /** Key `b` has at least as much left as key `i`, and more when `i` comes first. */
  predicate Beats<T(!new)>(keys: seq<string>, key: T -> string, rest: seq<T>, b: nat, i: nat)
    requires b < |keys| && i < |keys|
  {
    var its, mine := |Keep(OfKey(key, keys[b]), rest)|, |Keep(OfKey(key, keys[i]), rest)|;
    mine <= its && (i < b ==> mine < its)
  }

  lemma PickBeats<T(!new)>(lanes: seq<seq<T>>, keys: seq<string>, key: T -> string, last: Option<string>, i: nat)
    requires Keyed(lanes, keys, key) && Spreadable(lanes, keys, last) && !AllEmpty(lanes)
    requires i < |keys| && last != Some(keys[i])
    ensures var b := Pick(lanes, keys, last);
            Beats(keys, key, Spread(lanes, keys, last), b, i) && Spread(lanes, keys, last) != []
            && keys[b] == key(Spread(lanes, keys, last)[0])
  {
    var b := Pick(lanes, keys, last);
    AnotherKeyIsLeft(lanes, keys, last);
    LongestIsTheFirst(lanes, keys, last, |lanes|);
    SpreadUnfolds(lanes, keys, last);
    SpreadKeepsLanes(lanes, keys, key, last, keys[i]);
    SpreadKeepsLanes(lanes, keys, key, last, keys[b]);
    LaneOfIs(lanes, keys, keys[i]);
    LaneOfIs(lanes, keys, keys[b]);
    assert key(lanes[b][0]) == keys[b];
  }

  /** The key served before place `p`. */
  function Before<T(!new)>(key: T -> string, last: Option<string>, out: seq<T>, p: nat): Option<string>
    requires p <= |out|
  {
    if p == 0 then last else Some(key(out[p - 1]))
  }

  lemma OnePlaceOn<T(!new)>(key: T -> string, last: Option<string>, x: T, rest: seq<T>, out: seq<T>, p: nat)
    requires out == [x] + rest && 0 < p < |out|
    ensures out[p..] == rest[p - 1..] && out[p] == rest[p - 1]
    ensures Before(key, Some(key(x)), rest, p - 1) == Before(key, last, out, p)
  {
  }

  lemma {:induction false} SpreadIsGreedy<T(!new)>(
    lanes: seq<seq<T>>, keys: seq<string>, key: T -> string, last: Option<string>, p: nat, i: nat) returns (b: nat)
    requires Keyed(lanes, keys, key) && Spreadable(lanes, keys, last) && p < |Spread(lanes, keys, last)|
    requires i < |keys| && Before(key, last, Spread(lanes, keys, last), p) != Some(keys[i])
    ensures b < |keys| && keys[b] == key(Spread(lanes, keys, last)[p])
    ensures Beats(keys, key, Spread(lanes, keys, last)[p..], b, i)
    decreases p, 1
  {
    if p == 0 {
      PickBeats(lanes, keys, key, last, i);
      b := Pick(lanes, keys, last);
      assert Spread(lanes, keys, last)[0..] == Spread(lanes, keys, last);
    } else {
      b := GreedyLater(lanes, keys, key, last, p, i);
    }
  }

  lemma GreedyLater<T(!new)>(
    lanes: seq<seq<T>>, keys: seq<string>, key: T -> string, last: Option<string>, p: nat, i: nat) returns (b: nat)
    requires Keyed(lanes, keys, key) && Spreadable(lanes, keys, last) && 0 < p < |Spread(lanes, keys, last)|
    requires i < |keys| && Before(key, last, Spread(lanes, keys, last), p) != Some(keys[i])
    ensures b < |keys| && keys[b] == key(Spread(lanes, keys, last)[p])
    ensures Beats(keys, key, Spread(lanes, keys, last)[p..], b, i)
    decreases p, 0
  {
    var first := Pick(lanes, keys, last);
    var lanes' := AfterServing(lanes, first);
    var x, rest := lanes[first][0], Spread(AfterServing(lanes, first), keys, Some(keys[first]));
    SpreadUnfolds(lanes, keys, last);
    ServedStaysKeyed(lanes, keys, key, first);
    ServingKeepsSpreadable(lanes, keys, last);
    assert key(x) == keys[first];
    OnePlaceOn(key, last, x, rest, Spread(lanes, keys, last), p);
    b := SpreadIsGreedy(lanes', keys, key, Some(keys[first]), p - 1, i);
  }

  // ---- no order at all can do better -------------------------------------------------------------------

  /** In a list whose neighbours differ a key has at most every other place. */
  lemma {:induction false} AtMostEveryOther<T(!new)>(key: T -> string, s: seq<T>, k: string)
    requires Differ(key, None, s)
    ensures 2 * |Keep(OfKey(key, k), s)| <= |s| + if s != [] && key(s[|s| - 1]) == k then 1 else 0
    decreases |s|
  {
    if s != [] {
      var front, last := s[..|s| - 1], s[|s| - 1];
      assert forall i :: 0 <= i < |front| ==> front[i] == s[i];
      AtMostEveryOther(key, front, k);
      assert s == front + [last];
      KeepOneMore(OfKey(key, k), front, last);
      assert OfKey(key, k)(last) <==> key(last) == k;
      if front != [] { assert front[|front| - 1] == s[|s| - 2]; }
    }
  }

  // ---- the cells of a lane --------------------------------------------------------------------------------

  function ProviderOf(c: Cell): string { Provider(c.model) }

  function ProvidersOf(cells: seq<Cell>): seq<string> { FirstKeys(ProviderOf, cells) }

  function ByProvider(cells: seq<Cell>): seq<seq<Cell>> {
    seq(|ProvidersOf(cells)|, i requires 0 <= i < |ProvidersOf(cells)| => Keep(OfKey(ProviderOf, ProvidersOf(cells)[i]), cells))
  }

  /** The check before anything is moved. */
  predicate Feasible(cells: seq<Cell>) {
    forall c :: c in cells ==> 2 * |Keep(OfKey(ProviderOf, ProviderOf(c)), cells)| <= |cells| + 1
  }

  /** `reinterleave_cells`, which raises when it is not feasible. */
  function Reordered(cells: seq<Cell>): seq<Cell>
    requires Feasible(cells)
  {
    Spread(ByProvider(cells), ProvidersOf(cells), None)
  }

  /** The lane afterwards: where it raises nothing is written. */
  function Reinterleaved(cells: seq<Cell>): seq<Cell> { if Feasible(cells) then Reordered(cells) else cells }

  lemma ProvidersDeal(cells: seq<Cell>)
    ensures Keyed(ByProvider(cells), ProvidersOf(cells), ProviderOf)
    ensures forall k :: LaneOf(ByProvider(cells), ProvidersOf(cells), k) == Keep(OfKey(ProviderOf, k), cells)
  {
    var keys, lanes := ProvidersOf(cells), ByProvider(cells);
    FirstKeysAreTheKeys(ProviderOf, cells);
    forall i | 0 <= i < |lanes| ensures forall j :: 0 <= j < |lanes[i]| ==> ProviderOf(lanes[i][j]) == keys[i] {
      KeepMembers(OfKey(ProviderOf, keys[i]), cells);
      forall j | 0 <= j < |lanes[i]| ensures ProviderOf(lanes[i][j]) == keys[i] { assert lanes[i][j] in lanes[i]; }
    }
    forall k ensures LaneOf(lanes, keys, k) == Keep(OfKey(ProviderOf, k), cells) {
      LaneOfIs(lanes, keys, k);
      if k in keys {
        var i :| 0 <= i < |keys| && keys[i] == k;
      } else {
        forall c | c in cells ensures ProviderOf(c) != k {
          var i :| 0 <= i < |cells| && cells[i] == c;
        }
        KeepMembers(OfKey(ProviderOf, k), cells);
        EmptyOrInhabited(Keep(OfKey(ProviderOf, k), cells));
      }
    }
  }

  /** Each provider's cells keep their order. */
  lemma ReorderKeepsEachProvidersOrder(cells: seq<Cell>, provider: string)
    requires Feasible(cells)
    ensures Keep(OfKey(ProviderOf, provider), Reordered(cells)) == Keep(OfKey(ProviderOf, provider), cells)
  {
    ProvidersDeal(cells);
    SpreadKeepsLanes(ByProvider(cells), ProvidersOf(cells), ProviderOf, None, provider);
  }

  /** No cell is lost, invented or repeated. */
  lemma ReorderPermutes(cells: seq<Cell>)
    requires Feasible(cells)
    ensures multiset(Reordered(cells)) == multiset(cells)
  {
    forall c ensures multiset(Reordered(cells))[c] == multiset(cells)[c] {
      var p := OfKey(ProviderOf, ProviderOf(c));
      ReorderKeepsEachProvidersOrder(cells, ProviderOf(c));
      KeepCounts(p, Reordered(cells), c);
      KeepCounts(p, cells, c);
    }
  }

  lemma ReinterleavingPermutes(cells: seq<Cell>)
    ensures multiset(Reinterleaved(cells)) == multiset(cells)
  {
    if Feasible(cells) { ReorderPermutes(cells); }
  }

  lemma ProviderHasALane(cells: seq<Cell>, c: Cell) returns (i: nat)
    requires c in cells
    ensures i < |ProvidersOf(cells)| && ProvidersOf(cells)[i] == ProviderOf(c)
  {
    FirstKeysAreTheKeys(ProviderOf, cells);
    var n :| 0 <= n < |cells| && cells[n] == c;
    assert ProviderOf(cells[n]) in ProvidersOf(cells);
    i :| 0 <= i < |ProvidersOf(cells)| && ProvidersOf(cells)[i] == ProviderOf(c);
  }

  lemma FeasibleByLanes(cells: seq<Cell>)
    ensures Feasible(cells) <==> forall i :: 0 <= i < |ProvidersOf(cells)| ==> 2 * |ByProvider(cells)[i]| <= |cells| + 1
  {
    FirstKeysAreTheKeys(ProviderOf, cells);
    if Feasible(cells) {
      forall i | 0 <= i < |ProvidersOf(cells)| ensures 2 * |ByProvider(cells)[i]| <= |cells| + 1 {
        assert ProvidersOf(cells)[i] in ProvidersOf(cells);
        var n :| 0 <= n < |cells| && ProviderOf(cells[n]) == ProvidersOf(cells)[i];
        assert cells[n] in cells;
      }
    }
    if forall i :: 0 <= i < |ProvidersOf(cells)| ==> 2 * |ByProvider(cells)[i]| <= |cells| + 1 {
      forall c | c in cells ensures 2 * |Keep(OfKey(ProviderOf, ProviderOf(c)), cells)| <= |cells| + 1 {
        var i := ProviderHasALane(cells, c);
        assert ByProvider(cells)[i] == Keep(OfKey(ProviderOf, ProviderOf(c)), cells);
      }
    }
  }

  lemma LanesHoldTheCells(cells: seq<Cell>)
    ensures Total(ByProvider(cells)) == |cells|
  {
    ProvidersDeal(cells);
    FirstKeysAreTheKeys(ProviderOf, cells);
    var out := Spread(ByProvider(cells), ProvidersOf(cells), None);
    forall c ensures multiset(out)[c] == multiset(cells)[c] {
      var p := OfKey(ProviderOf, ProviderOf(c));
      SpreadKeepsLanes(ByProvider(cells), ProvidersOf(cells), ProviderOf, None, ProviderOf(c));
      KeepCounts(p, out, c);
      KeepCounts(p, cells, c);
    }
    SpreadIsAsLong(ByProvider(cells), ProvidersOf(cells), None);
    assert multiset(out) == multiset(cells);
    assert |multiset(out)| == |out| && |multiset(cells)| == |cells|;
  }

  lemma SpreadableExactlyWhen(cells: seq<Cell>)
    ensures Feasible(cells) <==> Spreadable(ByProvider(cells), ProvidersOf(cells), None)
  {
    LanesHoldTheCells(cells);
    FeasibleByLanes(cells);
  }

  lemma {:induction false} SpreadIsAsLong<T>(lanes: seq<seq<T>>, keys: seq<string>, last: Option<string>)
    requires |lanes| == |keys|
    ensures |Spread(lanes, keys, last)| == Total(lanes)
    decreases Total(lanes)
  {
    NothingTotalsNothing(lanes);
    if !AllEmpty(lanes) {
      var b := Pick(lanes, keys, last);
      SpreadUnfolds(lanes, keys, last);
      ServingShortens(lanes, b);
      SpreadIsAsLong(AfterServing(lanes, b), keys, Some(keys[b]));
    }
  }

  lemma AnyOrderNeedsRoom(cells: seq<Cell>, order: seq<Cell>)
    requires multiset(order) == multiset(cells) && Differ(ProviderOf, None, order)
    ensures Feasible(cells)
  {
    assert |multiset(order)| == |order| && |multiset(cells)| == |cells|;
    forall c | c in cells ensures 2 * |Keep(OfKey(ProviderOf, ProviderOf(c)), cells)| <= |cells| + 1 {
      var p := OfKey(ProviderOf, ProviderOf(c));
      AtMostEveryOther(ProviderOf, order, ProviderOf(c));
      forall d ensures multiset(Keep(p, order))[d] == multiset(Keep(p, cells))[d] {
        KeepCounts(p, order, d);
        KeepCounts(p, cells, d);
      }
      assert multiset(Keep(p, order)) == multiset(Keep(p, cells));
      assert |multiset(Keep(p, order))| == |Keep(p, order)| && |multiset(Keep(p, cells))| == |Keep(p, cells)|;
    }
  }

  /** Re-interleaving is refused exactly when no order of the cells at all keeps neighbours apart; when it
      is not refused, its order does. */
  lemma RefusedExactlyWhenNoOrderSpreads(cells: seq<Cell>)
    ensures Feasible(cells) <==> exists order :: multiset(order) == multiset(cells) && Differ(ProviderOf, None, order)
    ensures Feasible(cells) ==> Differ(ProviderOf, None, Reordered(cells))
  {
    if Feasible(cells) {
      ProvidersDeal(cells);
      SpreadableExactlyWhen(cells);
      SpreadDiffers(ByProvider(cells), ProvidersOf(cells), ProviderOf, None);
      ReorderPermutes(cells);
    }
    if order :| multiset(order) == multiset(cells) && Differ(ProviderOf, None, order) { AnyOrderNeedsRoom(cells, order); }
  }

  /** At every place of a re-interleaved lane stands a cell of a provider that has at least as many cells left as
      any other one but the provider before it, and more than those that appeared earlier in the lane. */
  lemma TheFullestProviderIsNext(cells: seq<Cell>, p: nat, i: nat) returns (b: nat)
    requires Feasible(cells) && p < |Reordered(cells)| && i < |ProvidersOf(cells)|
    requires p > 0 ==> ProviderOf(Reordered(cells)[p - 1]) != ProvidersOf(cells)[i]
    ensures b < |ProvidersOf(cells)| && ProvidersOf(cells)[b] == ProviderOf(Reordered(cells)[p])
    ensures var rest := Reordered(cells)[p..];
            var its, mine := |Keep(OfKey(ProviderOf, ProvidersOf(cells)[b]), rest)|, |Keep(OfKey(ProviderOf, ProvidersOf(cells)[i]), rest)|;
            mine <= its && (i < b ==> mine < its)
  {
    ProvidersDeal(cells);
    SpreadableExactlyWhen(cells);
    b := SpreadIsGreedy(ByProvider(cells), ProvidersOf(cells), ProviderOf, None, p, i);
  }

  /** The cells' models are the names `ps[i]/rs[i]`. */
  predicate Named(cells: seq<Cell>, ps: seq<string>, rs: seq<string>) {
    |cells| == |ps| == |rs| && forall i :: 0 <= i < |cells| ==> NamedAs(cells[i].model, ps[i], rs[i])
  }

  lemma CountOneMore(front: seq<Cell>, c: Cell, p: string, q: string, r: string)
    requires NamedAs(c.model, q, r)
    ensures |Keep(OfKey(ProviderOf, p), front + [c])| == |Keep(OfKey(ProviderOf, p), front)| + if q == p then 1 else 0
  {
    ProviderIsBeforeTheSlash(q, r);
    KeepOneMore(OfKey(ProviderOf, p), front, c);
    assert OfKey(ProviderOf, p)(c) <==> ProviderOf(c) == p;
  }

  lemma {:induction false} CountsByName(cells: seq<Cell>, ps: seq<string>, rs: seq<string>, p: string)
    requires Named(cells, ps, rs)
    ensures |Keep(OfKey(ProviderOf, p), cells)| == multiset(ps)[p]
    decreases |cells|
  {
    if cells != [] {
      var n := |cells| - 1;
      CountsByName(cells[..n], ps[..n], rs[..n], p);
      CountOneMore(cells[..n], cells[n], p, ps[n], rs[n]);
      assert cells == cells[..n] + [cells[n]] && ps == ps[..n] + [ps[n]];
    }
  }

  /** On names: cells of models `provider/model` are refused exactly when some provider has more than half of
      them, rounded up. */
  lemma RefusedExactlyWhenAProviderHoldsMost(cells: seq<Cell>, ps: seq<string>, rs: seq<string>)
    requires Named(cells, ps, rs)
    ensures Feasible(cells) <==> forall i :: 0 <= i < |ps| ==> 2 * multiset(ps)[ps[i]] <= |ps| + 1
  {
    forall i | 0 <= i < |cells| ensures ProviderOf(cells[i]) == ps[i] && |Keep(OfKey(ProviderOf, ps[i]), cells)| == multiset(ps)[ps[i]] {
      ProviderIsBeforeTheSlash(ps[i], rs[i]);
      CountsByName(cells, ps, rs, ps[i]);
    }
    if Feasible(cells) {
      forall i | 0 <= i < |ps| ensures 2 * multiset(ps)[ps[i]] <= |ps| + 1 { assert cells[i] in cells; }
    }
    if forall i :: 0 <= i < |ps| ==> 2 * multiset(ps)[ps[i]] <= |ps| + 1 {
      forall c | c in cells ensures 2 * |Keep(OfKey(ProviderOf, ProviderOf(c)), cells)| <= |cells| + 1 {
        var i :| 0 <= i < |cells| && cells[i] == c;
        assert ProviderOf(cells[i]) == ps[i];
      }
    }
  }

  /** On names: two neighbours of a re-interleaved lane are of two providers. */
  lemma ReorderedNeighboursAreOfTwoProviders(cells: seq<Cell>, i: nat, p: string, r: string, q: string, t: string)
    requires Feasible(cells) && i + 1 < |Reordered(cells)|
    requires NamedAs(Reordered(cells)[i].model, p, r) && NamedAs(Reordered(cells)[i + 1].model, q, t)
    ensures p != q
  {
    ProviderIsBeforeTheSlash(p, r);
    ProviderIsBeforeTheSlash(q, t);
    RefusedExactlyWhenNoOrderSpreads(cells);
    assert ProviderOf(Reordered(cells)[i]) != ProviderOf(Reordered(cells)[i + 1]);
  }

  // ---- the loops --------------------------------------------------------------------------------------------

  /** `remaining` holds how many cells each group still has. */
  ghost predicate Counts(groups: map<string, seq<Cell>>, remaining: map<string, nat>, order: seq<string>) {
    && (forall p :: p in order ==> p in groups && p in remaining)
    && forall p :: p in order ==> remaining[p] == |groups[p]|
  }

  /** One more provider for the longest of the first `i`. */
  lemma LongestOneMore(groups: map<string, seq<Cell>>, remaining: map<string, nat>, order: seq<string>, last: Option<string>, i: nat)
    requires Counts(groups, remaining, order) && i < |order|
    ensures var lanes := GroupsOf(groups, order);
            var b := Longest(lanes, order, last, i);
            && order[i] in remaining && (b.Some? ==> order[b.value] in remaining)
            && Longest(lanes, order, last, i + 1) ==
               if last != Some(order[i]) && remaining[order[i]] > 0
                  && (b == None || remaining[order[i]] > remaining[order[b.value]]) then Some(i) else b
  {
    var lanes := GroupsOf(groups, order);
    var b := Longest(lanes, order, last, i);
    assert order[i] in order && |lanes[i]| == remaining[order[i]];
    if b.Some? { assert order[b.value] in order && |lanes[b.value]| == remaining[order[b.value]]; }
  }

  /** `max(candidates, key=...)`, where the candidates have cells left and are not the provider served last. */
  method LongestGroup(ghost groups: map<string, seq<Cell>>, remaining: map<string, nat>, order: seq<string>, last: Option<string>)
    returns (b: Option<nat>)
    requires Counts(groups, remaining, order)
    ensures b == Longest(GroupsOf(groups, order), order, last, |order|)
  {
    b := None;
    for i := 0 to |order|
      invariant b == Longest(GroupsOf(groups, order), order, last, i)
    {
      LongestOneMore(groups, remaining, order, last, i);
      if last != Some(order[i]) && remaining[order[i]] > 0
         && (b == None || remaining[order[i]] > remaining[order[b.value]])
      {
        b := Some(i);
      }
    }
  }

  predicate AnyLeft(remaining: map<string, nat>, order: seq<string>)
    requires forall p :: p in order ==> p in remaining
  {
    exists p | p in order :: remaining[p] > 0
  }

  lemma LeftExactlyWhen(groups: map<string, seq<Cell>>, remaining: map<string, nat>, order: seq<string>)
    requires Counts(groups, remaining, order)
    ensures AnyLeft(remaining, order) <==> !AllEmpty(GroupsOf(groups, order))
  {
    if AnyLeft(remaining, order) {
      var p :| p in order && remaining[p] > 0;
      var i :| 0 <= i < |order| && order[i] == p;
      assert |GroupsOf(groups, order)[i]| > 0;
    }
    if i :| 0 <= i < |order| && |GroupsOf(groups, order)[i]| != 0 { assert order[i] in order; }
  }

  lemma TakingFromAGroup(groups: map<string, seq<Cell>>, order: seq<string>, b: nat)
    requires Distinct(order) && b < |order| && order[b] in groups && |groups[order[b]]| > 0
    ensures GroupsOf(groups[order[b] := groups[order[b]][1..]], order) == AfterServing(GroupsOf(groups, order), b)
  {
  }

  /** The provider served next. */
  method NextProvider(ghost groups: map<string, seq<Cell>>, remaining: map<string, nat>, order: seq<string>, last: Option<string>)
    returns (b: nat)
    requires Counts(groups, remaining, order) && !AllEmpty(GroupsOf(groups, order))
    ensures b == Pick(GroupsOf(groups, order), order, last)
  {
    var other := LongestGroup(groups, remaining, order, last);
    if other == None { other := LongestGroup(groups, remaining, order, None); }
    b := other.value;
  }

  lemma CountsAfterTaking(groups: map<string, seq<Cell>>, remaining: map<string, nat>, order: seq<string>, p: string)
    requires Counts(groups, remaining, order) && p in order && remaining[p] > 0
    ensures Counts(groups[p := groups[p][1..]], remaining[p := remaining[p] - 1], order)
  {
  }

  /** The `while sum(remaining.values()) > 0` loop. */
  method SpreadGroups(groups: map<string, seq<Cell>>, order: seq<string>) returns (out: seq<Cell>)
    requires Distinct(order) && forall p :: p in order ==> p in groups
    ensures out == Spread(GroupsOf(groups, order), order, None)
  {
    var left := groups;
    var remaining: map<string, nat> := map p | p in groups :: |groups[p]|;
    var last: Option<string> := None;
    out := [];
    while AnyLeft(remaining, order)
      invariant Counts(left, remaining, order)
      invariant out + Spread(GroupsOf(left, order), order, last) == Spread(GroupsOf(groups, order), order, None)
      decreases Total(GroupsOf(left, order))
    {
      ghost var lanes := GroupsOf(left, order);
      LeftExactlyWhen(left, remaining, order);
      SpreadUnfolds(lanes, order, last);
      var b := NextProvider(left, remaining, order, last);
      var p := order[b];
      assert p in order && lanes[b] == left[p];
      TakingFromAGroup(left, order, b);
      CountsAfterTaking(left, remaining, order, p);
      ConcatAssociates(out, [left[p][0]], Spread(AfterServing(lanes, b), order, Some(p)));
      out := out + [left[p][0]];
      left := left[p := left[p][1..]];
      remaining := remaining[p := remaining[p] - 1];
      last := Some(p);
    }
    LeftExactlyWhen(left, remaining, order);
    assert out + [] == out;
  }

  lemma GroupsAreByProvider(cells: seq<Cell>, order: seq<string>, groups: map<string, seq<Cell>>)
    requires Grouped(ProviderOf, cells, order, groups)
    ensures Distinct(order) && GroupsOf(groups, order) == ByProvider(cells)
    ensures forall i :: 0 <= i < |order| ==> order[i] in groups && groups[order[i]] == ByProvider(cells)[i]
  {
    FirstKeysAreTheKeys(ProviderOf, cells);
    forall i | 0 <= i < |order| ensures order[i] in groups && groups[order[i]] == ByProvider(cells)[i] {
      assert order[i] in order;
      assert Group(groups, order[i]) == Keep(OfKey(ProviderOf, order[i]), cells);
    }
  }

  /** No provider holds more than half of the cells, rounded up. */
  method CheckFeasible(cells: seq<Cell>, order: seq<string>, groups: map<string, seq<Cell>>) returns (ok: bool)
    requires order == ProvidersOf(cells)
    requires forall i :: 0 <= i < |order| ==> order[i] in groups && groups[order[i]] == ByProvider(cells)[i]
    ensures ok == Feasible(cells)
  {
    FeasibleByLanes(cells);
    for i := 0 to |order|
      invariant forall j :: 0 <= j < i ==> 2 * |ByProvider(cells)[j]| <= |cells| + 1
    {
      if 2 * |groups[order[i]]| > |cells| + 1 { return false; }
    }
    return true;
  }

  /** `reinterleave_cells`; None is its ValueError. */
  method ReinterleaveCells(cells: seq<Cell>) returns (r: Option<seq<Cell>>)
    ensures r == if Feasible(cells) then Some(Reordered(cells)) else None
  {
    var order, groups := GroupByKey(ProviderOf, cells);
    GroupsAreByProvider(cells, order, groups);
    var ok := CheckFeasible(cells, order, groups);
    if !ok { return None; }
    assert forall p :: p in order ==> p in groups;
    var out := SpreadGroups(groups, order);
    r := Some(out);
  }
}

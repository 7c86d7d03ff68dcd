/** Round robin over lanes: one element of each non-empty lane per round, in lane order. */
module RoundRobin {
  import opened Lists

  /** What one round takes from a lane. */
  function HeadOf<T>(lane: seq<T>): seq<T> { if |lane| == 0 then [] else [lane[0]] }

  function Heads<T>(lanes: seq<seq<T>>): seq<T>
    decreases |lanes|
  {
    if |lanes| == 0 then []
    else
      var n := |lanes| - 1;
      Heads(lanes[..n]) + HeadOf(lanes[n])
  }

  lemma HeadsOneMore<T>(lanes: seq<seq<T>>, i: nat)
    requires i < |lanes|
    ensures Heads(lanes[..i + 1]) == Heads(lanes[..i]) + HeadOf(lanes[i])
  {
    assert lanes[..i + 1][..i] == lanes[..i];
  }

  function Tail<T>(lane: seq<T>): seq<T> { if |lane| == 0 then [] else lane[1..] }

  function Tails<T>(lanes: seq<seq<T>>): seq<seq<T>> {
    seq(|lanes|, i requires 0 <= i < |lanes| => Tail(lanes[i]))
  }

  function Total<T>(lanes: seq<seq<T>>): nat
    decreases |lanes|
  {
    if |lanes| == 0 then 0 else Total(lanes[..|lanes| - 1]) + |lanes[|lanes| - 1]|
  }

  predicate AllEmpty<T>(lanes: seq<seq<T>>) { forall i :: 0 <= i < |lanes| ==> |lanes[i]| == 0 }

  lemma {:induction false} TailsAreShorter<T>(lanes: seq<seq<T>>)
    ensures Total(Tails(lanes)) + |Heads(lanes)| == Total(lanes)
    ensures Heads(lanes) == [] <==> AllEmpty(lanes)
    decreases |lanes|
  {
    if lanes != [] {
      var n := |lanes| - 1;
      TailsAreShorter(lanes[..n]);
      assert Tails(lanes)[..n] == Tails(lanes[..n]);
      assert lanes == lanes[..n] + [lanes[n]];
    }
  }

  function Rounds<T>(lanes: seq<seq<T>>): seq<T>
    decreases Total(lanes)
  {
    TailsAreShorter(lanes);
    if AllEmpty(lanes) then [] else Heads(lanes) + Rounds(Tails(lanes))
  }

  // ---- lanes told apart by a key ------------------------------------------------------------

  /** Lane i holds the elements whose key is `keys[i]`. */
  ghost predicate Keyed<T>(lanes: seq<seq<T>>, keys: seq<string>, key: T -> string) {
    && |lanes| == |keys| && Distinct(keys)
    && forall i, j :: 0 <= i < |lanes| && 0 <= j < |lanes[i]| ==> key(lanes[i][j]) == keys[i]
  }

  lemma KeepHeadOf<T(!new)>(p: T -> bool, lane: seq<T>, mine: bool)
    requires forall x :: x in lane ==> p(x) == mine
    ensures Keep(p, HeadOf(lane)) == if mine then HeadOf(lane) else []
  {
    if |lane| > 0 { KeepOneMore(p, [], lane[0]); assert [] + [lane[0]] == [lane[0]]; }
  }

  /** What the last lane adds to the heads with key `k`. */
  lemma KeepLastHead<T(!new)>(lanes: seq<seq<T>>, keys: seq<string>, key: T -> string, k: string)
    requires Keyed(lanes, keys, key) && lanes != []
    ensures var n := |lanes| - 1;
            && Keyed(lanes[..n], keys[..n], key)
            && Keep(OfKey(key, k), Heads(lanes)) ==
               Keep(OfKey(key, k), Heads(lanes[..n])) + if keys[n] == k then HeadOf(lanes[n]) else []
  {
    var n := |lanes| - 1;
    KeepConcat(OfKey(key, k), Heads(lanes[..n]), HeadOf(lanes[n]));
    KeepHeadOf(OfKey(key, k), lanes[n], keys[n] == k);
  }

  lemma {:induction false} KeepNoHeads<T(!new)>(lanes: seq<seq<T>>, keys: seq<string>, key: T -> string, k: string)
    requires Keyed(lanes, keys, key) && k !in keys
    ensures Keep(OfKey(key, k), Heads(lanes)) == []
    decreases |lanes|
  {
    if lanes != [] {
      KeepLastHead(lanes, keys, key, k);
      KeepNoHeads(lanes[..|lanes| - 1], keys[..|lanes| - 1], key, k);
    }
  }

  lemma {:induction false} KeepHeads<T(!new)>(lanes: seq<seq<T>>, keys: seq<string>, key: T -> string, i: nat)
    requires Keyed(lanes, keys, key) && i < |lanes|
    ensures Keep(OfKey(key, keys[i]), Heads(lanes)) == HeadOf(lanes[i])
    decreases |lanes|
  {
    var n := |lanes| - 1;
    KeepLastHead(lanes, keys, key, keys[i]);
    if i < n {
      KeepHeads(lanes[..n], keys[..n], key, i);
    } else {
      KeepNoHeads(lanes[..n], keys[..n], key, keys[i]);
    }
  }

  lemma RoundsUnfold<T>(lanes: seq<seq<T>>)
    ensures Rounds(lanes) == if AllEmpty(lanes) then [] else Heads(lanes) + Rounds(Tails(lanes))
    ensures !AllEmpty(lanes) ==> Total(Tails(lanes)) < Total(lanes)
    ensures AllEmpty(lanes) ==> Heads(lanes) == []
  {
    TailsAreShorter(lanes);
  }

  lemma LaneIsHeadAndTail<T>(lane: seq<T>)
    ensures HeadOf(lane) + Tail(lane) == lane
  {
  }

  lemma TailsStayKeyed<T>(lanes: seq<seq<T>>, keys: seq<string>, key: T -> string)
    requires Keyed(lanes, keys, key)
    ensures Keyed(Tails(lanes), keys, key)
  {
  }

  /** The elements of one lane keep their own order, and none is lost. */
  lemma {:induction false} EachLaneKeepsItsOrder<T(!new)>(lanes: seq<seq<T>>, keys: seq<string>, key: T -> string, i: nat)
    requires Keyed(lanes, keys, key) && i < |lanes|
    ensures Keep(OfKey(key, keys[i]), Rounds(lanes)) == lanes[i]
    decreases Total(lanes)
  {
    RoundsUnfold(lanes);
    if AllEmpty(lanes) {
      assert |lanes[i]| == 0;
    } else {
      TailsStayKeyed(lanes, keys, key);
      calc {
        Keep(OfKey(key, keys[i]), Heads(lanes) + Rounds(Tails(lanes)));
        { KeepConcat(OfKey(key, keys[i]), Heads(lanes), Rounds(Tails(lanes))); }
        Keep(OfKey(key, keys[i]), Heads(lanes)) + Keep(OfKey(key, keys[i]), Rounds(Tails(lanes)));
        { KeepHeads(lanes, keys, key, i); EachLaneKeepsItsOrder(Tails(lanes), keys, key, i); }
        HeadOf(lanes[i]) + Tail(lanes[i]);
        { LaneIsHeadAndTail(lanes[i]); }
        lanes[i];
      }
    }
  }

  /** Nothing else is scheduled. */
  lemma {:induction false} OnlyLaneElements<T(!new)>(lanes: seq<seq<T>>, keys: seq<string>, key: T -> string, k: string)
    requires Keyed(lanes, keys, key) && k !in keys
    ensures Keep(OfKey(key, k), Rounds(lanes)) == []
    decreases Total(lanes)
  {
    if !AllEmpty(lanes) {
      TailsAreShorter(lanes);
      OnlyLaneElements(Tails(lanes), keys, key, k);
      KeepNoHeads(lanes, keys, key, k);
      KeepConcat(OfKey(key, k), Heads(lanes), Rounds(Tails(lanes)));
    }
  }

  function Served<T(!new)>(key: T -> string, k: string, out: seq<T>): nat { |Keep(OfKey(key, k), out)| }

  lemma KeepPrefixIsShorter<T(!new)>(p: T -> bool, s: seq<T>, n: nat)
    requires n <= |s|
    ensures |Keep(p, s[..n])| <= |Keep(p, s)|
  {
    assert s == s[..n] + s[n..];
    KeepConcat(p, s[..n], s[n..]);
  }

  /** `ahead` has been served at most once more than `other`, or `other` is exhausted. */
  ghost predicate Fair<T(!new)>(key: T -> string, ahead: string, other: string, lane: seq<T>, served: seq<T>) {
    Served(key, ahead, served) <= Served(key, other, served) + 1 || Served(key, other, served) == |lane|
  }

  lemma FairWithinARound<T(!new)>(lanes: seq<seq<T>>, keys: seq<string>, key: T -> string, n: nat, i: nat, j: nat)
    requires Keyed(lanes, keys, key) && n <= |Heads(lanes)| && i < |lanes| && j < |lanes|
    ensures Fair(key, keys[i], keys[j], lanes[j], Heads(lanes)[..n])
  {
    KeepHeads(lanes, keys, key, i);
    KeepPrefixIsShorter(OfKey(key, keys[i]), Heads(lanes), n);
  }

  lemma FairAfterARound<T(!new)>(
    lanes: seq<seq<T>>, keys: seq<string>, key: T -> string, rest: seq<T>, i: nat, j: nat)
    requires Keyed(lanes, keys, key) && i < |lanes| && j < |lanes|
    requires Fair(key, keys[i], keys[j], Tail(lanes[j]), rest)
    requires Served(key, keys[i], rest) <= |Tail(lanes[i])|
    requires Served(key, keys[j], rest) <= |Tail(lanes[j])|
    ensures Fair(key, keys[i], keys[j], lanes[j], Heads(lanes) + rest)
  {
    KeepHeads(lanes, keys, key, i);
    KeepHeads(lanes, keys, key, j);
    KeepConcat(OfKey(key, keys[i]), Heads(lanes), rest);
    KeepConcat(OfKey(key, keys[j]), Heads(lanes), rest);
  }

  lemma PrefixOfConcat<T>(a: seq<T>, b: seq<T>, n: nat)
    requires n <= |a + b|
    ensures (a + b)[..n] == if n <= |a| then a[..n] else a + b[..n - |a|]
  {
  }

  /** In every prefix a lane is at most one ahead of any other lane that still has elements. */
  lemma {:induction false} EveryPrefixIsFair<T(!new)>(
    lanes: seq<seq<T>>, keys: seq<string>, key: T -> string, n: nat, i: nat, j: nat)
    requires Keyed(lanes, keys, key) && n <= |Rounds(lanes)| && i < |lanes| && j < |lanes|
    ensures Fair(key, keys[i], keys[j], lanes[j], Rounds(lanes)[..n])
    decreases Total(lanes)
  {
    RoundsUnfold(lanes);
    var h := Heads(lanes);
    if AllEmpty(lanes) {
      assert Rounds(lanes)[..n] == [];
    } else {
      PrefixOfConcat(h, Rounds(Tails(lanes)), n);
      if n <= |h| {
        FairWithinARound(lanes, keys, key, n, i, j);
      } else {
        TailsStayKeyed(lanes, keys, key);
        EveryPrefixIsFair(Tails(lanes), keys, key, n - |h|, i, j);
        FairInLaterRounds(lanes, keys, key, n - |h|, i, j);
      }
    }
  }

  lemma FairInLaterRounds<T(!new)>(lanes: seq<seq<T>>, keys: seq<string>, key: T -> string, m: nat, i: nat, j: nat)
    requires Keyed(lanes, keys, key) && m <= |Rounds(Tails(lanes))| && i < |lanes| && j < |lanes|
    requires Fair(key, keys[i], keys[j], Tail(lanes[j]), Rounds(Tails(lanes))[..m])
    ensures Fair(key, keys[i], keys[j], lanes[j], Heads(lanes) + Rounds(Tails(lanes))[..m])
  {
    ServedAtMostTheLane(lanes, keys, key, m, i);
    ServedAtMostTheLane(lanes, keys, key, m, j);
    FairAfterARound(lanes, keys, key, Rounds(Tails(lanes))[..m], i, j);
  }

  lemma ServedAtMostTheLane<T(!new)>(lanes: seq<seq<T>>, keys: seq<string>, key: T -> string, n: nat, i: nat)
    requires Keyed(lanes, keys, key) && i < |lanes| && n <= |Rounds(Tails(lanes))|
    ensures Served(key, keys[i], Rounds(Tails(lanes))[..n]) <= |Tail(lanes[i])|
  {
    TailsStayKeyed(lanes, keys, key);
    EachLaneKeepsItsOrder(Tails(lanes), keys, key, i);
    KeepPrefixIsShorter(OfKey(key, keys[i]), Rounds(Tails(lanes)), n);
  }

  // ---- neighbours ----------------------------------------------------------------------------

  lemma {:induction false} HeadsComeFromLanes<T(!new)>(lanes: seq<seq<T>>, keys: seq<string>, key: T -> string)
    requires Keyed(lanes, keys, key)
    ensures forall a, b :: 0 <= a < b < |Heads(lanes)| ==> key(Heads(lanes)[a]) != key(Heads(lanes)[b])
    ensures forall a :: 0 <= a < |Heads(lanes)| ==> key(Heads(lanes)[a]) in keys
    decreases |lanes|
  {
    if lanes != [] {
      var n := |lanes| - 1;
      HeadsComeFromLanes(lanes[..n], keys[..n], key);
      assert keys == keys[..n] + [keys[n]];
      assert keys[n] !in keys[..n];
    }
  }

  /** The last head is of a lane behind which all lanes are empty. */
  lemma {:induction false} LastHead<T(!new)>(lanes: seq<seq<T>>, keys: seq<string>, key: T -> string) returns (i: nat)
    requires Keyed(lanes, keys, key) && Heads(lanes) != []
    ensures i < |lanes| && lanes[i] != [] && key(Heads(lanes)[|Heads(lanes)| - 1]) == keys[i]
    ensures forall j :: i < j < |lanes| ==> lanes[j] == []
    decreases |lanes|
  {
    var n := |lanes| - 1;
    if lanes[n] == [] {
      assert Heads(lanes) == Heads(lanes[..n]);
      i := LastHead(lanes[..n], keys[..n], key);
    } else {
      i := n;
    }
  }

  /** The first head is of a lane before which all lanes are empty. */
  lemma {:induction false} FirstHead<T(!new)>(lanes: seq<seq<T>>, keys: seq<string>, key: T -> string) returns (i: nat)
    requires Keyed(lanes, keys, key) && Heads(lanes) != []
    ensures i < |lanes| && lanes[i] != [] && key(Heads(lanes)[0]) == keys[i]
    ensures forall j :: 0 <= j < i ==> lanes[j] == []
    decreases |lanes|
  {
    var n := |lanes| - 1;
    if Heads(lanes[..n]) == [] {
      TailsAreShorter(lanes[..n]);
      assert forall j :: 0 <= j < n ==> lanes[..n][j] == lanes[j];
      i := n;
    } else {
      i := FirstHead(lanes[..n], keys[..n], key);
      assert forall j :: 0 <= j < n ==> lanes[..n][j] == lanes[j];
    }
  }

  lemma {:induction false} OneLaneLeft<T(!new)>(lanes: seq<seq<T>>, keys: seq<string>, key: T -> string, i: nat)
    requires Keyed(lanes, keys, key) && i < |lanes|
    requires forall j :: 0 <= j < |lanes| && j != i ==> lanes[j] == []
    ensures forall k :: 0 <= k < |Rounds(lanes)| ==> key(Rounds(lanes)[k]) == keys[i]
    decreases Total(lanes)
  {
    if !AllEmpty(lanes) {
      TailsAreShorter(lanes);
      OneLaneLeft(Tails(lanes), keys, key, i);
      OnlyHead(lanes, keys, key, i);
    }
  }

  lemma {:induction false} OnlyHead<T(!new)>(lanes: seq<seq<T>>, keys: seq<string>, key: T -> string, i: nat)
    requires Keyed(lanes, keys, key) && i < |lanes|
    requires forall j :: 0 <= j < |lanes| && j != i ==> lanes[j] == []
    ensures forall k :: 0 <= k < |Heads(lanes)| ==> key(Heads(lanes)[k]) == keys[i]
    decreases |lanes|
  {
    var n := |lanes| - 1;
    assert forall j :: 0 <= j < n ==> lanes[..n][j] == lanes[j];
    if i < n {
      OnlyHead(lanes[..n], keys[..n], key, i);
    } else {
      TailsAreShorter(lanes[..n]);
    }
  }

  /** When one round ends and the next begins with the same key, only that key is left. */
  lemma SameKeyAcrossRounds<T(!new)>(lanes: seq<seq<T>>, keys: seq<string>, key: T -> string, b: nat)
    requires Keyed(lanes, keys, key) && Heads(lanes) != [] && b < |Rounds(Tails(lanes))|
    requires key(Heads(lanes)[|Heads(lanes)| - 1]) == key(Rounds(Tails(lanes))[0])
    ensures key(Rounds(Tails(lanes))[b]) == key(Rounds(Tails(lanes))[0])
  {
    RoundsUnfold(Tails(lanes));
    TailsAreShorter(Tails(lanes));
    TailsStayKeyed(lanes, keys, key);
    var i := LastHead(lanes, keys, key);
    var j := FirstHead(Tails(lanes), keys, key);
    assert Rounds(Tails(lanes))[0] == Heads(Tails(lanes))[0];
    assert keys[i] == keys[j] && i == j;
    OneLaneLeft(Tails(lanes), keys, key, i);
  }

  lemma RoundsAt<T>(lanes: seq<seq<T>>, a: nat)
    requires a < |Rounds(lanes)|
    ensures Total(Tails(lanes)) < Total(lanes)
    ensures |Rounds(lanes)| == |Heads(lanes)| + |Rounds(Tails(lanes))|
    ensures Rounds(lanes)[a] == if a < |Heads(lanes)| then Heads(lanes)[a] else Rounds(Tails(lanes))[a - |Heads(lanes)|]
  {
    RoundsUnfold(lanes);
    ConcatAt(Heads(lanes), Rounds(Tails(lanes)), a);
  }

  lemma ConcatAt<T>(a: seq<T>, b: seq<T>, i: nat)
    ensures |a + b| == |a| + |b|
    ensures i < |a| + |b| ==> (a + b)[i] == if i < |a| then a[i] else b[i - |a|]
  {
  }

  lemma HeadsDiffer<T(!new)>(lanes: seq<seq<T>>, keys: seq<string>, key: T -> string, a: nat)
    requires Keyed(lanes, keys, key) && a + 1 < |Heads(lanes)|
    ensures key(Heads(lanes)[a]) != key(Heads(lanes)[a + 1])
  {
    HeadsComeFromLanes(lanes, keys, key);
  }

  lemma LaterRoundsAt<T>(lanes: seq<seq<T>>, a: nat)
    requires |Heads(lanes)| <= a < |Rounds(lanes)|
    ensures Total(Tails(lanes)) < Total(lanes)
    ensures a - |Heads(lanes)| < |Rounds(Tails(lanes))|
    ensures Rounds(lanes)[a] == Rounds(Tails(lanes))[a - |Heads(lanes)|]
  {
    RoundsAt(lanes, a);
  }

  lemma FirstRoundAt<T>(lanes: seq<seq<T>>, a: nat)
    requires a < |Heads(lanes)|
    ensures a < |Rounds(lanes)| && Rounds(lanes)[a] == Heads(lanes)[a]
  {
    RoundsUnfold(lanes);
  }

  /** Two neighbours share a key only when nothing of any other key comes later. */
  lemma {:induction false} NeighboursDiffer<T(!new)>(lanes: seq<seq<T>>, keys: seq<string>, key: T -> string, a: nat, b: nat)
    requires Keyed(lanes, keys, key) && a + 1 < b < |Rounds(lanes)|
    requires key(Rounds(lanes)[a]) == key(Rounds(lanes)[a + 1])
    ensures key(Rounds(lanes)[b]) == key(Rounds(lanes)[a])
    decreases Total(lanes)
  {
    var n := |Heads(lanes)|;
    if a + 1 < n {
      FirstRoundAt(lanes, a);
      FirstRoundAt(lanes, a + 1);
      HeadsDiffer(lanes, keys, key, a);
    } else if a + 1 == n {
      FirstRoundAt(lanes, a);
      LaterRoundsAt(lanes, a + 1);
      LaterRoundsAt(lanes, b);
      SameKeyAcrossRounds(lanes, keys, key, b - n);
    } else {
      LaterRoundsAt(lanes, a);
      LaterRoundsAt(lanes, a + 1);
      LaterRoundsAt(lanes, b);
      TailsStayKeyed(lanes, keys, key);
      NeighboursDiffer(Tails(lanes), keys, key, a - n, b - n);
    }
  }

  // ---- which keys, and how many of each ---------------------------------------------------------

  /** With no empty lane the first round meets the lanes in order, so the keys first appear in order. */
  lemma {:induction false} HeadsMeetTheKeysInOrder<T(!new)>(lanes: seq<seq<T>>, keys: seq<string>, key: T -> string)
    requires Keyed(lanes, keys, key) && forall i :: 0 <= i < |lanes| ==> |lanes[i]| > 0
    ensures FirstKeys(key, Heads(lanes)) == keys
    decreases |lanes|
  {
    if lanes != [] {
      var n := |lanes| - 1;
      HeadsMeetTheKeysInOrder(lanes[..n], keys[..n], key);
      FirstKeysOneMore(key, Heads(lanes[..n]), lanes[n][0]);
      assert keys == keys[..n] + [keys[n]];
      assert keys[n] !in keys[..n];
    }
  }

  lemma {:induction false} RoundsServeTheKeys<T(!new)>(lanes: seq<seq<T>>, keys: seq<string>, key: T -> string)
    requires Keyed(lanes, keys, key)
    ensures forall a :: 0 <= a < |Rounds(lanes)| ==> key(Rounds(lanes)[a]) in keys
    decreases Total(lanes)
  {
    if !AllEmpty(lanes) {
      TailsAreShorter(lanes);
      HeadsComeFromLanes(lanes, keys, key);
      RoundsServeTheKeys(Tails(lanes), keys, key);
    }
  }

  lemma RoundsMeetTheKeysInOrder<T(!new)>(lanes: seq<seq<T>>, keys: seq<string>, key: T -> string)
    requires Keyed(lanes, keys, key) && forall i :: 0 <= i < |lanes| ==> |lanes[i]| > 0
    ensures FirstKeys(key, Rounds(lanes)) == keys
  {
    HeadsMeetTheKeysInOrder(lanes, keys, key);
    if !AllEmpty(lanes) {
      RoundsServeTheKeys(Tails(lanes), keys, key);
      FirstKeysOfAKnownTail(key, Heads(lanes), Rounds(Tails(lanes)));
    } else {
      assert lanes == [];
    }
  }

  /** Lane i is a rearrangement of the elements of `s` whose key is `keys[i]`, and every key of `s` has a lane. */
  ghost predicate Deals<T(!new)>(lanes: seq<seq<T>>, keys: seq<string>, key: T -> string, s: seq<T>) {
    && Keyed(lanes, keys, key)
    && (forall x :: x in s ==> key(x) in keys)
    && forall i :: 0 <= i < |keys| ==> multiset(lanes[i]) == multiset(Keep(OfKey(key, keys[i]), s))
  }

  /** Whatever is dealt comes out again, each element as often as it went in. */
  lemma RoundsPermute<T(!new)>(lanes: seq<seq<T>>, keys: seq<string>, key: T -> string, s: seq<T>)
    requires Deals(lanes, keys, key, s)
    ensures multiset(Rounds(lanes)) == multiset(s)
  {
    forall x ensures multiset(Rounds(lanes))[x] == multiset(s)[x] {
      var p := OfKey(key, key(x));
      KeepCounts(p, Rounds(lanes), x);
      KeepCounts(p, s, x);
      if key(x) in keys {
        var i :| 0 <= i < |keys| && keys[i] == key(x);
        EachLaneKeepsItsOrder(lanes, keys, key, i);
      } else {
        OnlyLaneElements(lanes, keys, key, key(x));
        assert x !in s;
      }
    }
  }
}

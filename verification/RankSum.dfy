/** The rank-sum AUC of the confidence retrospective: ranks by a stable sort, tie groups averaged
    in place, and what the statistic counts pair by pair. */
module RankSum {
  import opened Text
  import opened Sums

  function Val(conf: seq<real>, i: int): real { if 0 <= i < |conf| then conf[i] else 0.0 }

  /** What `i` is credited for its meeting with `j`: a win for the higher confidence; among equals
      half a point when the value's ranks were averaged, else the later position wins. */
  function Credit(conf: seq<real>, averaged: set<real>, j: int, i: int): real {
    if Val(conf, j) < Val(conf, i) then 1.0
    else if Val(conf, j) > Val(conf, i) then 0.0
    else if Val(conf, i) in averaged then 0.5
    else if j < i then 1.0
    else 0.0
  }

  function Credits(conf: seq<real>, averaged: set<real>): Points {
    (j, i) => Credit(conf, averaged, j, i)
  }

  lemma CreditsAreATournament(conf: seq<real>, averaged: set<real>)
    ensures Tournament(|conf|, Credits(conf, averaged))
  {
  }

  /** The ranks once the groups in `averaged` share their mean. */
  ghost predicate RanksAre(ranks: seq<real>, conf: seq<real>, averaged: set<real>) {
    |ranks| == |conf| && forall i :: 0 <= i < |conf| ==> ranks[i] == RankOf(|conf|, Credits(conf, averaged), i)
  }

  function Positive(y: seq<bool>): int -> bool { i => 0 <= i < |y| && y[i] }

  /** Credit summed over all (positive, negative) pairs. */
  function PairCredit(conf: seq<real>, averaged: set<real>, y: seq<bool>): real {
    Taken(|conf|, Credits(conf, averaged), Positive(y))
  }

  // ---- the stable argsort ---------------------------------------------------------------

  predicate Before(conf: seq<real>, j: int, i: int) {
    Val(conf, j) < Val(conf, i) || (Val(conf, j) == Val(conf, i) && j < i)
  }

  /** `i` goes in front of the first index with a larger confidence. */
  function Place(conf: seq<real>, i: nat, s: seq<nat>): seq<nat> {
    if s == [] then [i]
    else if Val(conf, s[0]) > Val(conf, i) then [i] + s
    else [s[0]] + Place(conf, i, s[1..])
  }

  /** `np.argsort(conf, kind="mergesort")` of the first n entries. */
  function Argsort(conf: seq<real>, n: nat): seq<nat> {
    if n == 0 then [] else Place(conf, n - 1, Argsort(conf, n - 1))
  }

  function SumOver(s: seq<nat>, f: int -> real): real {
    if s == [] then 0.0 else f(s[0]) + SumOver(s[1..], f)
  }

  lemma {:induction false} PlaceFacts(conf: seq<real>, i: nat, s: seq<nat>, f: int -> real)
    requires forall a, b :: 0 <= a < b < |s| ==> Before(conf, s[a], s[b])
    requires forall a :: 0 <= a < |s| ==> s[a] < i
    ensures var r := Place(conf, i, s);
            && |r| == |s| + 1
            && (forall x :: x in r <==> x in s || x == i)
            && (forall a, b :: 0 <= a < b < |r| ==> Before(conf, r[a], r[b]))
            && SumOver(r, f) == SumOver(s, f) + f(i)
  {
    if s != [] {
      if Val(conf, s[0]) > Val(conf, i) {
        assert ([i] + s)[1..] == s;
      } else {
        PlaceFacts(conf, i, s[1..], f);
        var rest := Place(conf, i, s[1..]);
        assert ([s[0]] + rest)[1..] == rest;
        forall b | 0 <= b < |rest| ensures Before(conf, s[0], rest[b]) {
          assert rest[b] in s[1..] || rest[b] == i;
        }
      }
    }
  }

  lemma {:induction false} ArgsortFacts(conf: seq<real>, n: nat, f: int -> real)
    ensures var r := Argsort(conf, n);
            && |r| == n
            && (forall x :: x in r <==> 0 <= x < n)
            && (forall a, b :: 0 <= a < b < |r| ==> Before(conf, r[a], r[b]))
            && SumOver(r, f) == Sum(n, f)
  {
    if n > 0 {
      ArgsortFacts(conf, n - 1, f);
      var s := Argsort(conf, n - 1);
      forall a | 0 <= a < |s| ensures s[a] < n - 1 { assert s[a] in s; }
      PlaceFacts(conf, n - 1, Argsort(conf, n - 1), f);
    }
  }

  lemma {:induction false} SumOverPrefix(s: seq<nat>, f: int -> real, p: nat)
    requires p <= |s|
    requires forall a :: 0 <= a < |s| ==> f(s[a]) == if a < p then 1.0 else 0.0
    ensures SumOver(s, f) == p as real
  {
    if s != [] { SumOverPrefix(s[1..], f, if p == 0 then 0 else p - 1); }
  }

  /** The element at place p of the sort has rank p + 1. */
  lemma PlaceIsRank(conf: seq<real>, p: nat)
    requires p < |conf|
    ensures |Argsort(conf, |conf|)| == |conf| && Argsort(conf, |conf|)[p] < |conf|
    ensures RankOf(|conf|, Credits(conf, {}), Argsort(conf, |conf|)[p]) == (p + 1) as real
  {
    var n := |conf|;
    var order := Argsort(conf, n);
    ArgsortFacts(conf, n, (j: int) => 0.0);
    var i := order[p];
    assert i in order;
    var w := Credits(conf, {});
    var f := (j: int) => if j == i then 0.0 else w(j, i);
    ArgsortFacts(conf, n, f);
    SumOverPrefix(order, f, p);
    SumEq(n, f, j => if j == i then 0.0 else w(j, i));
  }

  // ---- averaging one tie group ------------------------------------------------------------

  function HasValue(conf: seq<real>, v: real): int -> bool { i => Val(conf, i) == v }

  function Below(conf: seq<real>, v: real): real { Sum(|conf|, j => Ind(Val(conf, j) < v)) }

  /** Whatever was averaged before, the group's ranks sum to c(c+1)/2 + c times the number below. */
  lemma GroupTotal(conf: seq<real>, averaged: set<real>, v: real)
    ensures var c := Size(|conf|, HasValue(conf, v));
            GroupRanks(|conf|, Credits(conf, averaged), HasValue(conf, v))
            == c * (c + 1.0) / 2.0 + c * Below(conf, v)
  {
    var n, w, g := |conf|, Credits(conf, averaged), HasValue(conf, v);
    CreditsAreATournament(conf, averaged);
    GroupRanksAddUp(n, w, g);
    forall i | 0 <= i < n && g(i) ensures TakenBy(n, w, g, i) == Below(conf, v) {
      SumEq(n, j => if g(j) then 0.0 else w(j, i), j => Ind(Val(conf, j) < v));
    }
    SumScale(n, Below(conf, v), i => Ind(g(i)), i => if g(i) then TakenBy(n, w, g, i) else 0.0);
  }

  /** The mean of a group is the rank each member has once the group is averaged. */
  lemma MidRank(conf: seq<real>, averaged: set<real>, i: nat)
    requires i < |conf| && conf[i] in averaged
    ensures RankOf(|conf|, Credits(conf, averaged), i)
         == Below(conf, conf[i]) + (Size(|conf|, HasValue(conf, conf[i])) + 1.0) / 2.0
  {
    var n, w, v := |conf|, Credits(conf, averaged), conf[i];
    var below := (j: int) => Ind(Val(conf, j) < v);
    var same := (j: int) => Ind(Val(conf, j) == v);
    var self := (j: int) => if j == i then 0.5 else 0.0;
    var half := (j: int) => 0.5 * same(j);
    var rank := (j: int) => if j == i then 0.0 else w(j, i);
    var both := (j: int) => rank(j) + self(j);
    SumSingle(n, self, i);
    SumScale(n, 0.5, same, half);
    SumAdd(n, rank, self, both);
    SumAdd(n, below, half, both);
    SumEq(n, below, j => Ind(Val(conf, j) < v));
    SumEq(n, rank, j => if j == i then 0.0 else w(j, i));
    var g := HasValue(conf, v);
    SumEq(n, same, k => Ind(g(k)));
  }

  lemma {:induction false} SizeIsPositive(n: nat, g: int -> bool, i: nat)
    requires i < n && g(i)
    ensures Size(n, g) >= 1.0
  {
    if i == n - 1 { SizeNotNegative(n - 1, g); } else { SizeIsPositive(n - 1, g, i); }
    assert Size(n, g) == Size(n - 1, g) + Ind(g(n - 1));
  }

  lemma {:induction false} SizeNotNegative(n: nat, g: int -> bool)
    ensures Size(n, g) >= 0.0
  {
    if n > 0 {
      SizeNotNegative(n - 1, g);
      assert Size(n, g) == Size(n - 1, g) + Ind(g(n - 1));
    }
  }

  /** Other groups do not notice. */
  lemma OtherRanksStay(conf: seq<real>, averaged: set<real>, v: real, i: nat)
    requires i < |conf| && conf[i] != v
    ensures RankOf(|conf|, Credits(conf, averaged + {v}), i) == RankOf(|conf|, Credits(conf, averaged), i)
  {
    var w, w' := Credits(conf, averaged), Credits(conf, averaged + {v});
    SumEq(|conf|, j => if j == i then 0.0 else w(j, i), j => if j == i then 0.0 else w'(j, i));
  }

  /** Replacing a group's ranks by their mean is crediting its ties half a point each. */
  lemma AveragingIsSharing(conf: seq<real>, averaged: set<real>, v: real, i: nat)
    requires i < |conf| && conf[i] == v
    ensures Size(|conf|, HasValue(conf, v)) != 0.0
    ensures RankOf(|conf|, Credits(conf, averaged + {v}), i)
         == GroupRanks(|conf|, Credits(conf, averaged), HasValue(conf, v)) / Size(|conf|, HasValue(conf, v))
  {
    var c := Size(|conf|, HasValue(conf, v));
    SizeIsPositive(|conf|, HasValue(conf, v), i);
    GroupTotal(conf, averaged, v);
    MidRank(conf, averaged + {v}, i);
    assert c * (c + 1.0) / 2.0 + c * Below(conf, v) == c * (Below(conf, v) + (c + 1.0) / 2.0);
  }

  // ---- np.unique ----------------------------------------------------------------------------

  /** The sorted distinct values. */
  function AddValue(v: real, s: seq<real>): seq<real> {
    if s == [] || v < s[0] then [v] + s
    else if v == s[0] then s
    else [s[0]] + AddValue(v, s[1..])
  }

  function Unique(conf: seq<real>): seq<real> {
    if conf == [] then [] else AddValue(conf[0], Unique(conf[1..]))
  }

  function IndexIn(s: seq<real>, v: real): nat {
    if s == [] || s[0] == v then 0 else 1 + IndexIn(s[1..], v)
  }

  function Inverse(conf: seq<real>): seq<nat> {
    seq(|conf|, i requires 0 <= i < |conf| => IndexIn(Unique(conf), conf[i]))
  }

  function CountValue(conf: seq<real>, v: real): nat {
    if conf == [] then 0 else (if conf[0] == v then 1 else 0) + CountValue(conf[1..], v)
  }

  function Counts(conf: seq<real>): seq<nat> {
    var u := Unique(conf);
    seq(|u|, g requires 0 <= g < |u| => CountValue(conf, u[g]))
  }

  ghost predicate StrictlyIncreasing(s: seq<real>) { forall i, j :: 0 <= i < j < |s| ==> s[i] < s[j] }

  lemma {:induction false} AddValueFacts(v: real, s: seq<real>)
    requires StrictlyIncreasing(s)
    ensures StrictlyIncreasing(AddValue(v, s))
    ensures forall x :: x in AddValue(v, s) <==> x in s || x == v
    ensures |AddValue(v, s)| <= |s| + 1
  {
    if s != [] && v > s[0] {
      AddValueFacts(v, s[1..]);
      var rest := AddValue(v, s[1..]);
      assert s == [s[0]] + s[1..];
      forall j | 0 <= j < |rest| ensures s[0] < rest[j] { assert rest[j] in s[1..] || rest[j] == v; }
    }
  }

  lemma {:induction false} UniqueFacts(conf: seq<real>)
    ensures StrictlyIncreasing(Unique(conf))
    ensures forall x :: x in Unique(conf) <==> x in conf
    ensures |Unique(conf)| <= |conf|
  {
    if conf != [] {
      UniqueFacts(conf[1..]);
      AddValueFacts(conf[0], Unique(conf[1..]));
      assert conf == [conf[0]] + conf[1..];
    }
  }

  lemma {:induction false} IndexInFacts(s: seq<real>, v: real)
    requires v in s
    ensures IndexIn(s, v) < |s| && s[IndexIn(s, v)] == v
  {
    if s[0] != v {
      assert v in s[1..];
      IndexInFacts(s[1..], v);
    }
  }

  /** Two entries share a group id exactly when they share a value. */
  lemma InverseSeparates(conf: seq<real>, i: nat, j: nat)
    requires i < |conf| && j < |conf|
    ensures Inverse(conf)[i] == Inverse(conf)[j] <==> conf[i] == conf[j]
  {
    UniqueFacts(conf);
    IndexInFacts(Unique(conf), conf[i]);
    IndexInFacts(Unique(conf), conf[j]);
  }

  lemma {:induction false} IncreasingListsAgree(a: seq<real>, b: seq<real>)
    requires StrictlyIncreasing(a) && StrictlyIncreasing(b) && forall x :: x in a <==> x in b
    ensures a == b
  {
    BothEmptyOrNone(a, b);
    if a != [] {
      assert a[0] in b && b[0] in a;
      var i :| 0 <= i < |b| && b[i] == a[0];
      var j :| 0 <= j < |a| && a[j] == b[0];
      assert a[0] == b[0];
      assert a == [a[0]] + a[1..] && b == [b[0]] + b[1..];
      forall x ensures x in a[1..] <==> x in b[1..] { NotTheFirst(a, x); NotTheFirst(b, x); }
      IncreasingListsAgree(a[1..], b[1..]);
    }
  }

  lemma NothingInTheEmpty(a: seq<real>, b: seq<real>)
    requires forall x :: x in a ==> x in b
    ensures b == [] ==> a == []
  {
    if a != [] {
      var x := a[0];
      assert x in a && x in b;
    }
  }

  lemma BothEmptyOrNone(a: seq<real>, b: seq<real>)
    requires forall x :: x in a <==> x in b
    ensures a == [] <==> b == []
  {
    NothingInTheEmpty(a, b);
    NothingInTheEmpty(b, a);
  }

  lemma NotTheFirst(s: seq<real>, x: real)
    requires s != [] && StrictlyIncreasing(s)
    ensures x in s[1..] <==> x in s && x != s[0]
  {
    assert s == [s[0]] + s[1..];
    if x in s[1..] {
      var i :| 0 <= i < |s[1..]| && s[1..][i] == x;
      assert s[0] < s[i + 1];
    }
  }

  lemma {:induction false} CountValueCounts(conf: seq<real>, v: real)
    ensures CountValue(conf, v) == multiset(conf)[v]
  {
    if conf != [] {
      CountValueCounts(conf[1..], v);
      assert conf == [conf[0]] + conf[1..];
    }
  }

  /** The values whose ranks the loop averages: it pairs the group id of entry k with the size of
      group k, so entry k's group is averaged when group k is larger than one. */
  function AveragedBelow(conf: seq<real>, n: nat): set<real>
    requires n <= |Unique(conf)| <= |conf|
  {
    set k | 0 <= k < n && Counts(conf)[k] > 1 :: conf[k]
  }

  function Averaged(conf: seq<real>): set<real> {
    UniqueFacts(conf);
    AveragedBelow(conf, |Unique(conf)|)
  }

  /** `values` are the distinct confidences in increasing order: a value is averaged exactly when it is that of
      some entry `k` while the k-th of them occurs more than once. */
  lemma AveragedExactlyWhen(conf: seq<real>, values: seq<real>, v: real)
    requires StrictlyIncreasing(values) && forall x :: x in values <==> x in conf
    ensures v in Averaged(conf) <==>
            exists k :: 0 <= k < |conf| && k < |values| && conf[k] == v && multiset(conf)[values[k]] > 1
  {
    UniqueFacts(conf);
    IncreasingListsAgree(Unique(conf), values);
    forall k | 0 <= k < |values| ensures Counts(conf)[k] == multiset(conf)[values[k]] { CountValueCounts(conf, values[k]); }
  }

  // ---- the statistic --------------------------------------------------------------------------

  function Ones(y: seq<bool>): (n: nat)
    ensures n <= |y|
  {
    if y == [] then 0 else Ones(y[..|y| - 1]) + if y[|y| - 1] then 1 else 0
  }

  /** The credit as a share of all (positive, negative) pairs. */
  function Share(credit: real, nPos: nat, nNeg: nat): real
    requires nPos > 0 && nNeg > 0
  {
    credit / ((nPos * nNeg) as real)
  }

  /** `_auc`, as a pair count over the ties the loop really averages. */
  function Auc(conf: seq<real>, y: seq<bool>): Option<real>
    requires |y| == |conf|
  {
    var nPos: nat, nNeg: nat := Ones(y), |y| - Ones(y);
    if nPos == 0 || nNeg == 0 then None
    else Some(Share(PairCredit(conf, Averaged(conf), y), nPos, nNeg))
  }

  lemma {:induction false} OnesAreCounted(y: seq<bool>)
    ensures Ones(y) == multiset(y)[true] && |y| - Ones(y) == multiset(y)[false]
    decreases |y|
  {
    if y != [] {
      OnesAreCounted(y[..|y| - 1]);
      assert y == y[..|y| - 1] + [y[|y| - 1]];
    }
  }

  /** There is no statistic exactly when all entries are of one class; otherwise it is the credit the positive
      entries take from the others, over the number of such pairs. */
  lemma AucExactlyWhen(conf: seq<real>, y: seq<bool>)
    requires |y| == |conf|
    ensures Auc(conf, y) == None <==> true !in y || false !in y
    ensures Auc(conf, y).Some? ==>
              Auc(conf, y).value == PairCredit(conf, Averaged(conf), y) / ((multiset(y)[true] * multiset(y)[false]) as real)
  {
    OnesAreCounted(y);
    assert true in y <==> multiset(y)[true] > 0;
    assert false in y <==> multiset(y)[false] > 0;
  }
}

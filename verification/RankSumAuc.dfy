/** `_auc` on its array, and what its value means. */
module RankSumAuc {
  import opened Text
  import opened Sums
  import opened RankSum

  /** `ranks[mask] = ranks[mask].mean()` for the mask `inv == idx`. */
  method ShareMean(ranks: array<real>, inv: seq<nat>, idx: nat,
                   ghost conf: seq<real>, ghost averaged: set<real>, ghost k: nat)
    requires RanksAre(ranks[..], conf, averaged) && inv == Inverse(conf)
    requires k < |conf| && idx == inv[k]
    modifies ranks
    ensures RanksAre(ranks[..], conf, averaged + {conf[k]})
  {
    var n := ranks.Length;
    ghost var v, was := conf[k], ranks[..];
    ghost var g, w := HasValue(conf, v), Credits(conf, averaged);
    forall i: nat | i < n ensures inv[i] == idx <==> g(i) { InverseSeparates(conf, i, k); }
    var total, size := 0.0, 0.0;
    for i := 0 to n
      invariant ranks[..] == was
      invariant total == Sum(i, i => if g(i) then RankOf(n, w, i) else 0.0)
      invariant size == Sum(i, i => Ind(g(i)))
    {
      if inv[i] == idx {
        assert was[i] == RankOf(n, w, i);
        total, size := total + ranks[i], size + 1.0;
      }
    }
    assert total == GroupRanks(n, w, g) && size == Size(n, g);
    AveragingIsSharing(conf, averaged, v, k);
    var mean := total / size;
    for i := 0 to n
      invariant forall j :: i <= j < n ==> ranks[j] == was[j]
      invariant forall j :: 0 <= j < i ==> ranks[j] == if g(j) then mean else was[j]
    {
      if inv[i] == idx { ranks[i] := mean; }
    }
    forall i: nat | i < n ensures ranks[i] == RankOf(n, Credits(conf, averaged + {v}), i) {
      if conf[i] == v { AveragingIsSharing(conf, averaged, v, i); } else { OtherRanksStay(conf, averaged, v, i); }
    }
  }

  /** `ranks[order] = arange(1, n + 1)` */
  method ScatterRanks(conf: seq<real>) returns (ranks: array<real>)
    ensures fresh(ranks) && RanksAre(ranks[..], conf, {})
  {
    var n := |conf|;
    var order := Argsort(conf, n);
    ArgsortFacts(conf, n, (j: int) => 0.0);
    forall p | 0 <= p < n ensures order[p] < n { assert order[p] in order; }
    ranks := new real[n];
    for p := 0 to n
      invariant forall q :: 0 <= q < p ==> ranks[order[q]] == (q + 1) as real
    {
      ranks[order[p]] := (p + 1) as real;
    }
    forall i: nat | i < n ensures ranks[i] == RankOf(n, Credits(conf, {}), i) {
      assert i in order;
      var p :| 0 <= p < n && order[p] == i;
      PlaceIsRank(conf, p);
    }
  }

  /** The tie loop: it pairs the group id of entry k with the size of group k. */
  method AverageTies(ranks: array<real>, conf: seq<real>)
    requires RanksAre(ranks[..], conf, {})
    modifies ranks
    ensures RanksAre(ranks[..], conf, Averaged(conf))
  {
    UniqueFacts(conf);
    var inv, counts := Inverse(conf), Counts(conf);
    assert AveragedBelow(conf, 0) == {};
    for k := 0 to |counts|
      invariant RanksAre(ranks[..], conf, AveragedBelow(conf, k))
    {
      assert AveragedBelow(conf, k + 1)
          == AveragedBelow(conf, k) + if counts[k] > 1 then {conf[k]} else {};
      if counts[k] > 1 {
        ShareMean(ranks, inv, inv[k], conf, AveragedBelow(conf, k), k);
      } else {
        assert AveragedBelow(conf, k) + {} == AveragedBelow(conf, k);
      }
    }
  }

  /** `ranks[y == 1].sum()` */
  method PositiveRankSum(ranks: array<real>, conf: seq<real>, ghost averaged: set<real>, y: seq<bool>)
    returns (total: real)
    requires RanksAre(ranks[..], conf, averaged) && |y| == |conf|
    ensures total == GroupRanks(|conf|, Credits(conf, averaged), Positive(y))
  {
    ghost var w, pos := Credits(conf, averaged), Positive(y);
    total := 0.0;
    for i := 0 to |conf|
      invariant total == Sum(i, i => if pos(i) then RankOf(|conf|, w, i) else 0.0)
    {
      assert ranks[..][i] == RankOf(|conf|, w, i);
      if y[i] { total := total + ranks[i]; }
    }
  }

  method RankAuc(conf: seq<real>, y: seq<bool>) returns (auc: Option<real>)
    requires |y| == |conf|
    ensures auc == Auc(conf, y)
  {
    var nPos := Ones(y);
    var nNeg: nat := |y| - nPos;
    if nPos == 0 || nNeg == 0 { return None; }
    var ranks := ScatterRanks(conf);
    AverageTies(ranks, conf);
    var total := PositiveRankSum(ranks, conf, Averaged(conf), y);
    RankSumIsPairCredit(conf, Averaged(conf), y);
    var credit := total - (nPos as real) * ((nPos + 1) as real) / 2.0;
    assert credit == PairCredit(conf, Averaged(conf), y);
    auc := Some(Share(credit, nPos, nNeg));
  }

  lemma {:induction false} OnesIsSize(y: seq<bool>, n: nat)
    requires n <= |y|
    ensures Size(n, Positive(y)) == Ones(y[..n]) as real
    decreases n
  {
    if n > 0 {
      OnesIsSize(y, n - 1);
      assert y[..n][..n - 1] == y[..n - 1];
      assert Size(n, Positive(y)) == Size(n - 1, Positive(y)) + Ind(y[n - 1]);
    }
  }

  lemma Triangle(s: real, k: nat)
    requires s == k as real
    ensures s * (s + 1.0) / 2.0 == (k as real) * ((k + 1) as real) / 2.0
  {
  }

  /** Mann-Whitney: the positives' rank sum less its least possible value is the credit over
      (positive, negative) pairs, whichever tie groups were averaged. */
  lemma RankSumIsPairCredit(conf: seq<real>, averaged: set<real>, y: seq<bool>)
    requires |y| == |conf|
    ensures GroupRanks(|conf|, Credits(conf, averaged), Positive(y))
            - (Ones(y) as real) * ((Ones(y) + 1) as real) / 2.0
         == PairCredit(conf, averaged, y)
  {
    CreditsAreATournament(conf, averaged);
    GroupRanksAddUp(|conf|, Credits(conf, averaged), Positive(y));
    OnesIsSize(y, |y|);
    assert y[..|y|] == y;
    Triangle(Size(|conf|, Positive(y)), Ones(y));
  }

  // ---- what the statistic means ---------------------------------------------------------------

  /** Averaging any set of groups leaves the total of all ranks at n(n+1)/2. */
  lemma TotalRankIsFixed(ranks: seq<real>, conf: seq<real>, averaged: set<real>)
    requires RanksAre(ranks, conf, averaged)
    ensures Sum(|ranks|, i => if 0 <= i < |ranks| then ranks[i] else 0.0)
         == (|conf| as real) * ((|conf| + 1) as real) / 2.0
  {
    CreditsAreATournament(conf, averaged);
    AllRanksAddUp(|conf|, Credits(conf, averaged));
    SumEq(|conf|, i => if 0 <= i < |ranks| then ranks[i] else 0.0, i => RankOf(|conf|, Credits(conf, averaged), i));
  }

  /** A pair function summed over all (positive, negative) pairs. */
  function OverPairs(n: nat, y: seq<bool>, f: (int, int) -> real): real {
    Sum(n, i => if Positive(y)(i) then OverNegatives(n, y, f, i) else 0.0)
  }

  function OverNegatives(n: nat, y: seq<bool>, f: (int, int) -> real, i: int): real {
    Sum(n, j => if Positive(y)(j) then 0.0 else f(j, i))
  }

  lemma PairsEq(n: nat, y: seq<bool>, f: (int, int) -> real, g: (int, int) -> real)
    requires forall i, j :: 0 <= i < n && 0 <= j < n && Positive(y)(i) && !Positive(y)(j) ==> f(j, i) == g(j, i)
    ensures OverPairs(n, y, f) == OverPairs(n, y, g)
  {
    forall i | 0 <= i < n && Positive(y)(i) ensures OverNegatives(n, y, f, i) == OverNegatives(n, y, g, i) {
      SumEq(n, j => if Positive(y)(j) then 0.0 else f(j, i), j => if Positive(y)(j) then 0.0 else g(j, i));
    }
    SumEq(n, i => if Positive(y)(i) then OverNegatives(n, y, f, i) else 0.0,
          i => if Positive(y)(i) then OverNegatives(n, y, g, i) else 0.0);
  }

  lemma CreditIsOverPairs(conf: seq<real>, averaged: set<real>, y: seq<bool>)
    ensures PairCredit(conf, averaged, y) == OverPairs(|conf|, y, Credits(conf, averaged))
  {
    var n, w := |conf|, Credits(conf, averaged);
    forall i ensures TakenBy(n, w, Positive(y), i) == OverNegatives(n, y, w, i) {
      SumEq(n, j => if Positive(y)(j) then 0.0 else w(j, i), j => if Positive(y)(j) then 0.0 else w(j, i));
    }
    SumEq(n, i => if Positive(y)(i) then TakenBy(n, w, Positive(y), i) else 0.0,
          i => if Positive(y)(i) then OverNegatives(n, y, w, i) else 0.0);
  }

  /** One for each pair whose positive has the higher confidence. */
  function Win(conf: seq<real>): Points { (j, i) => Ind(Val(conf, j) < Val(conf, i)) }

  /** One for a win, one half for a tie. */
  function WinOrHalf(conf: seq<real>): Points {
    (j, i) => if Val(conf, j) < Val(conf, i) then 1.0 else if Val(conf, j) == Val(conf, i) then 0.5 else 0.0
  }

  ghost predicate TieFree(conf: seq<real>) {
    forall i, j :: 0 <= i < j < |conf| ==> conf[i] != conf[j]
  }

  lemma TieFreeCreditIsWins(conf: seq<real>, averaged: set<real>, y: seq<bool>)
    requires TieFree(conf)
    ensures PairCredit(conf, averaged, y) == OverPairs(|conf|, y, Win(conf))
  {
    CreditIsOverPairs(conf, averaged, y);
    forall i, j | 0 <= i < |conf| && 0 <= j < |conf| && Positive(y)(i) && !Positive(y)(j)
      ensures Credits(conf, averaged)(j, i) == Win(conf)(j, i)
    {
      assert i != j;
    }
    PairsEq(|conf|, y, Credits(conf, averaged), Win(conf));
  }

  /** Without ties the statistic counts the pairs in which the positive is the more confident. */
  lemma TieFreeCountsWins(conf: seq<real>, y: seq<bool>)
    requires |y| == |conf| && TieFree(conf)
    ensures Auc(conf, y).Some? ==>
              Auc(conf, y).value * ((Ones(y) * (|y| - Ones(y))) as real) == OverPairs(|conf|, y, Win(conf))
  {
    TieFreeCreditIsWins(conf, Averaged(conf), y);
    PairsArePositive(Ones(y), |y| - Ones(y));
  }

  lemma PairsArePositive(nPos: nat, nNeg: nat)
    ensures nPos > 0 && nNeg > 0 ==> nPos * nNeg > 0
    ensures (nPos * nNeg) as real == (nPos as real) * (nNeg as real)
  {
  }

  ghost predicate Tied(conf: seq<real>, i: nat, j: nat) {
    i < |conf| && j < |conf| && i != j && conf[i] == conf[j]
  }

  /** Every tie group is averaged. */
  ghost predicate AllTiesAveraged(conf: seq<real>, averaged: set<real>) {
    forall i: nat, j: nat :: Tied(conf, i, j) ==> conf[i] in averaged
  }

  /** Averaging every tie group gives exactly half credit per tied pair. */
  lemma AllTiesGiveHalfCredit(conf: seq<real>, averaged: set<real>, y: seq<bool>)
    requires AllTiesAveraged(conf, averaged)
    ensures PairCredit(conf, averaged, y) == OverPairs(|conf|, y, WinOrHalf(conf))
  {
    CreditIsOverPairs(conf, averaged, y);
    forall i, j | 0 <= i < |conf| && 0 <= j < |conf| && Positive(y)(i) && !Positive(y)(j)
      ensures Credits(conf, averaged)(j, i) == WinOrHalf(conf)(j, i)
    {
      if conf[i] == conf[j] { assert Tied(conf, i, j); }
    }
    PairsEq(|conf|, y, Credits(conf, averaged), WinOrHalf(conf));
  }

  /** All but one positive, the one being the first of a tie group. */
  function AllBut(n: nat, a: nat): seq<bool> { seq(n, i => i != a) }

  lemma {:induction false} FirstOfValue(conf: seq<real>, i: nat) returns (a: nat)
    requires i < |conf|
    ensures a <= i && conf[a] == conf[i] && forall j :: 0 <= j < a ==> conf[j] != conf[i]
    decreases i
  {
    if exists j :: 0 <= j < i && conf[j] == conf[i] {
      var j :| 0 <= j < i && conf[j] == conf[i];
      a := FirstOfValue(conf, j);
    } else {
      a := i;
    }
  }

  /** With only `a` negative, the pair sum is a single column. */
  lemma OneNegative(conf: seq<real>, a: nat, f: Points)
    requires a < |conf|
    ensures OverPairs(|conf|, AllBut(|conf|, a), f) == Sum(|conf|, i => if i == a then 0.0 else f(a, i))
  {
    var n, y := |conf|, AllBut(|conf|, a);
    forall i | 0 <= i < n ensures OverNegatives(n, y, f, i) == f(a, i) {
      var row := (j: int) => if Positive(y)(j) then 0.0 else f(j, i);
      forall j | 0 <= j < n && j != a ensures row(j) == 0.0 { assert y[j] && Positive(y)(j); }
      assert !y[a] && !Positive(y)(a);
      SumSingle(n, row, a);
      SumEq(n, row, j => if Positive(y)(j) then 0.0 else f(j, i));
    }
    SumEq(n, i => if Positive(y)(i) then OverNegatives(n, y, f, i) else 0.0, i => if i == a then 0.0 else f(a, i));
  }

  /** A tie group that is left out over-credits everyone behind its first member. */
  lemma LeftOutTieIsOverCredited(conf: seq<real>, averaged: set<real>, a: nat, b: nat)
    requires a < b < |conf| && conf[a] == conf[b] && conf[a] !in averaged
    requires forall j :: 0 <= j < a ==> conf[j] != conf[a]
    ensures var y := AllBut(|conf|, a);
            PairCredit(conf, averaged, y) > OverPairs(|conf|, y, WinOrHalf(conf))
  {
    var n, y := |conf|, AllBut(|conf|, a);
    var w, h := Credits(conf, averaged), WinOrHalf(conf);
    CreditIsOverPairs(conf, averaged, y);
    OneNegative(conf, a, w);
    OneNegative(conf, a, h);
    var f, g := (i: int) => if i == a then 0.0 else w(a, i), (i: int) => if i == a then 0.0 else h(a, i);
    SumEq(n, f, i => if i == a then 0.0 else w(a, i));
    SumEq(n, g, i => if i == a then 0.0 else h(a, i));
    var bump := (i: int) => if i == b then 0.5 else 0.0;
    var lifted := (i: int) => g(i) + bump(i);
    SumSingle(n, bump, b);
    SumAdd(n, g, bump, lifted);
    SumMonotone(n, lifted, f);
  }

  /** The averaged groups give the textbook statistic, for every labelling, exactly when they
      include every tie group. */
  lemma HalfCreditExactlyWhen(conf: seq<real>, averaged: set<real>)
    ensures AllTiesAveraged(conf, averaged) <==>
            forall y: seq<bool> :: |y| == |conf| ==>
              PairCredit(conf, averaged, y) == OverPairs(|conf|, y, WinOrHalf(conf))
  {
    if AllTiesAveraged(conf, averaged) {
      forall y: seq<bool> | |y| == |conf|
        ensures PairCredit(conf, averaged, y) == OverPairs(|conf|, y, WinOrHalf(conf))
      {
        AllTiesGiveHalfCredit(conf, averaged, y);
      }
    } else {
      var i: nat, j: nat :| Tied(conf, i, j) && conf[i] !in averaged;
      var a := FirstOfValue(conf, i);
      var b := if i == a then j else i;
      LeftOutTieIsOverCredited(conf, averaged, a, b);
      assert |AllBut(|conf|, a)| == |conf|;
    }
  }

  /** Credit per pair is between nothing and one, so the AUC is between 0 and 1. */
  lemma AucIsAProportion(conf: seq<real>, y: seq<bool>)
    requires |y| == |conf| && Auc(conf, y).Some?
    ensures 0.0 <= Auc(conf, y).value <= 1.0
  {
    CreditIsOverPairs(conf, Averaged(conf), y);
    PairsBounded(|conf|, y, Credits(conf, Averaged(conf)));
    OnesIsSize(y, |y|);
    assert y[..|y|] == y;
    PairTotal(Ones(y), |y| - Ones(y), Size(|y|, Positive(y)));
    Proportion(PairCredit(conf, Averaged(conf), y), (Ones(y) * (|y| - Ones(y))) as real);
  }

  lemma PairTotal(nPos: nat, nNeg: nat, s: real)
    requires s == nPos as real && nPos > 0 && nNeg > 0
    ensures (nNeg as real) * s == (nPos * nNeg) as real > 0.0
  {
    assert nPos * nNeg > 0;
    assert (nPos * nNeg) as real == (nPos as real) * (nNeg as real);
  }

  lemma Proportion(c: real, d: real)
    requires 0.0 <= c <= d && d > 0.0
    ensures 0.0 <= c / d <= 1.0
  {
  }

  ghost predicate InUnit(f: Points) { forall i, j :: 0.0 <= f(j, i) <= 1.0 }

  lemma ColumnBounded(n: nat, y: seq<bool>, f: Points, i: int)
    requires |y| == n && InUnit(f)
    ensures 0.0 <= OverNegatives(n, y, f, i) <= (n - Ones(y)) as real
  {
    var p := Positive(y);
    var zero := (i: int) => 0.0;
    var col, cap := (j: int) => if p(j) then 0.0 else f(j, i), (j: int) => 1.0 - Ind(p(j));
    SumEq(n, col, j => if Positive(y)(j) then 0.0 else f(j, i));
    SumZero(n, zero);
    forall j | 0 <= j < n ensures 0.0 <= col(j) <= cap(j) { assert 0.0 <= f(j, i) <= 1.0; }
    SumMonotone(n, zero, col);
    SumMonotone(n, col, cap);
    SumOfOnes(n, y, cap);
    OnesIsSize(y, n);
    assert y[..n] == y;
  }

  lemma {:induction false} RowsBounded(n: nat, rows: int -> real, p: int -> bool, cap: real)
    requires forall i :: 0 <= i < n ==> 0.0 <= rows(i) <= if p(i) then cap else 0.0
    ensures 0.0 <= Sum(n, rows) <= cap * Size(n, p)
  {
    if n > 0 {
      RowsBounded(n - 1, rows, p, cap);
      var s := Size(n - 1, p);
      assert Size(n, p) == s + Ind(p(n - 1));
      assert cap * (s + 1.0) == cap * s + cap;
    }
  }

  lemma PairsBounded(n: nat, y: seq<bool>, f: Points)
    requires |y| == n && InUnit(f)
    ensures 0.0 <= OverPairs(n, y, f) <= ((n - Ones(y)) as real) * Size(n, Positive(y))
  {
    var p := Positive(y);
    var rows := (i: int) => if p(i) then OverNegatives(n, y, f, i) else 0.0;
    SumEq(n, rows, i => if Positive(y)(i) then OverNegatives(n, y, f, i) else 0.0);
    var cap := (n - Ones(y)) as real;
    forall i | 0 <= i < n ensures 0.0 <= rows(i) <= if p(i) then cap else 0.0 { ColumnBounded(n, y, f, i); }
    RowsBounded(n, rows, p, cap);
    assert OverPairs(n, y, f) == Sum(n, rows);
  }

  lemma {:induction false} SumOfOnes(n: nat, y: seq<bool>, cap: int -> real)
    requires forall j :: 0 <= j < n ==> cap(j) == 1.0 - Ind(Positive(y)(j))
    ensures Sum(n, cap) == n as real - Size(n, Positive(y))
  {
    if n > 0 {
      SumOfOnes(n - 1, y, cap);
      assert Size(n, Positive(y)) == Size(n - 1, Positive(y)) + Ind(Positive(y)(n - 1));
    }
  }

  /** With only `b` positive, the pair sum is a single row. */
  lemma OnePositive(conf: seq<real>, y: seq<bool>, b: nat, f: Points)
    requires |y| == |conf| && b < |conf| && forall i :: 0 <= i < |y| ==> (y[i] <==> i == b)
    ensures OverPairs(|conf|, y, f) == Sum(|conf|, j => if j == b then 0.0 else f(j, b))
  {
    var n, pos := |conf|, Positive(y);
    var rows := (i: int) => if pos(i) then OverNegatives(n, y, f, i) else 0.0;
    forall i | 0 <= i < n ensures pos(i) <==> i == b {}
    SumSingle(n, rows, b);
    SumEq(n, rows, i => if Positive(y)(i) then OverNegatives(n, y, f, i) else 0.0);
    var row := (j: int) => if pos(j) then 0.0 else f(j, b);
    SumEq(n, row, j => if Positive(y)(j) then 0.0 else f(j, b));
    SumEq(n, row, j => if j == b then 0.0 else f(j, b));
  }

  /** The loop pairs entry k with group k, so a tie group whose members sit at the end can be
      missed: confidences 1, 0, 0 with
      only the middle one positive get no credit where half a point is due. */
  lemma TheLoopMissesATie()
    ensures var conf, y := [1.0, 0.0, 0.0], [false, true, false];
            && Averaged(conf) == {1.0}
            && PairCredit(conf, Averaged(conf), y) == 0.0
            && OverPairs(3, y, WinOrHalf(conf)) == 0.5
  {
    var conf, y := [1.0, 0.0, 0.0], [false, true, false];
    UniqueFacts(conf);
    assert conf[1..] == [0.0, 0.0] && [0.0, 0.0][1..] == [0.0] && [0.0][1..] == [];
    assert Unique([0.0]) == [0.0];
    assert Unique([0.0, 0.0]) == [0.0];
    assert AddValue(1.0, []) == [1.0];
    assert Unique(conf) == AddValue(1.0, [0.0]) == [0.0, 1.0];
    assert CountValue([0.0], 0.0) == 1 && CountValue([0.0, 0.0], 0.0) == 2 && CountValue(conf, 0.0) == 2;
    assert CountValue([0.0], 1.0) == 0 && CountValue([0.0, 0.0], 1.0) == 0 && CountValue(conf, 1.0) == 1;
    assert Counts(conf) == [2, 1];
    assert Averaged(conf) == {1.0};
    var w, h := Credits(conf, {1.0}), WinOrHalf(conf);
    CreditIsOverPairs(conf, {1.0}, y);
    OnePositive(conf, y, 1, w);
    OnePositive(conf, y, 1, h);
    var f, g := (j: int) => if j == 1 then 0.0 else w(j, 1), (j: int) => if j == 1 then 0.0 else h(j, 1);
    SumZero(3, f);
    SumEq(3, f, j => if j == 1 then 0.0 else w(j, 1));
    SumSingle(3, g, 2);
    SumEq(3, g, j => if j == 1 then 0.0 else h(j, 1));
  }
}

/** Finite sums of reals, and the one fact behind every rank sum: in a tournament in which each
    pair shares one point, the ranks of any group add up to a triangle number plus the points the
    group takes from outside. */
module Sums {

  function Sum(n: nat, f: int -> real): real {
    if n == 0 then 0.0 else Sum(n - 1, f) + f(n - 1)
  }

  lemma {:induction false} SumEq(n: nat, f: int -> real, g: int -> real)
    requires forall i :: 0 <= i < n ==> f(i) == g(i)
    ensures Sum(n, f) == Sum(n, g)
  {
    if n > 0 { SumEq(n - 1, f, g); }
  }

  lemma {:induction false} SumAdd(n: nat, f: int -> real, g: int -> real, h: int -> real)
    requires forall i :: 0 <= i < n ==> h(i) == f(i) + g(i)
    ensures Sum(n, h) == Sum(n, f) + Sum(n, g)
  {
    if n > 0 { SumAdd(n - 1, f, g, h); }
  }

  lemma {:induction false} SumScale(n: nat, c: real, f: int -> real, h: int -> real)
    requires forall i :: 0 <= i < n ==> h(i) == c * f(i)
    ensures Sum(n, h) == c * Sum(n, f)
  {
    if n > 0 { SumScale(n - 1, c, f, h); }
  }

  lemma {:induction false} SumMonotone(n: nat, f: int -> real, g: int -> real)
    requires forall i :: 0 <= i < n ==> f(i) <= g(i)
    ensures Sum(n, f) <= Sum(n, g)
  {
    if n > 0 { SumMonotone(n - 1, f, g); }
  }

  lemma {:induction false} SumZero(n: nat, f: int -> real)
    requires forall i :: 0 <= i < n ==> f(i) == 0.0
    ensures Sum(n, f) == 0.0
  {
    if n > 0 { SumZero(n - 1, f); }
  }

  lemma {:induction false} SumSingle(n: nat, f: int -> real, k: nat)
    requires k < n && forall i :: 0 <= i < n && i != k ==> f(i) == 0.0
    ensures Sum(n, f) == f(k)
  {
    if k == n - 1 { SumZero(n - 1, f); } else { SumSingle(n - 1, f, k); }
  }

  function Ind(b: bool): real { if b then 1.0 else 0.0 }

  // ---- tournaments ---------------------------------------------------------------------

  /** `w(j, i)` is what `i` takes from its meeting with `j`. */
  type Points = (int, int) -> real

  ghost predicate Tournament(n: nat, w: Points) {
    forall i, j :: 0 <= i < n && 0 <= j < n && i != j ==> w(j, i) + w(i, j) == 1.0
  }

  /** One more than the points `i` takes from all others. */
  function RankOf(n: nat, w: Points, i: int): real {
    1.0 + Sum(n, j => if j == i then 0.0 else w(j, i))
  }

  /** The points a group takes from everyone outside it. */
  function Taken(n: nat, w: Points, inGroup: int -> bool): real {
    Sum(n, i => if inGroup(i) then TakenBy(n, w, inGroup, i) else 0.0)
  }

  function TakenBy(n: nat, w: Points, inGroup: int -> bool, i: int): real {
    Sum(n, j => if inGroup(j) then 0.0 else w(j, i))
  }

  function Size(n: nat, inGroup: int -> bool): real { Sum(n, i => Ind(inGroup(i))) }

  function GroupRanks(n: nat, w: Points, inGroup: int -> bool): real {
    Sum(n, i => if inGroup(i) then RankOf(n, w, i) else 0.0)
  }

  /** What the group members get from player `n`. */
  function FromNewcomer(n: nat, w: Points, inGroup: int -> bool): real {
    Sum(n, i => if inGroup(i) then w(n, i) else 0.0)
  }

  lemma RankGrows(n: nat, w: Points, i: int)
    requires 0 <= i < n
    ensures RankOf(n + 1, w, i) == RankOf(n, w, i) + w(n, i)
  {
  }

  lemma GroupRanksGrow(n: nat, w: Points, inGroup: int -> bool)
    ensures GroupRanks(n + 1, w, inGroup)
         == GroupRanks(n, w, inGroup) + FromNewcomer(n, w, inGroup)
            + if inGroup(n) then RankOf(n + 1, w, n) else 0.0
  {
    var g := i => if inGroup(i) then RankOf(n + 1, w, i) else 0.0;
    forall i | 0 <= i < n ensures RankOf(n + 1, w, i) == RankOf(n, w, i) + w(n, i) { RankGrows(n, w, i); }
    SumAdd(n, i => if inGroup(i) then RankOf(n, w, i) else 0.0, i => if inGroup(i) then w(n, i) else 0.0, g);
    assert GroupRanks(n + 1, w, inGroup) == Sum(n + 1, g) by {
      SumEq(n + 1, g, i => if inGroup(i) then RankOf(n + 1, w, i) else 0.0);
    }
  }

  lemma TakenByGrows(n: nat, w: Points, inGroup: int -> bool, i: int)
    ensures TakenBy(n + 1, w, inGroup, i) == TakenBy(n, w, inGroup, i) + if inGroup(n) then 0.0 else w(n, i)
  {
  }

  lemma TakenGrows(n: nat, w: Points, inGroup: int -> bool)
    ensures Taken(n + 1, w, inGroup)
         == Taken(n, w, inGroup)
            + if inGroup(n) then TakenBy(n, w, inGroup, n) else FromNewcomer(n, w, inGroup)
  {
    var g := i => if inGroup(i) then TakenBy(n + 1, w, inGroup, i) else 0.0;
    SumEq(n + 1, g, i => if inGroup(i) then TakenBy(n + 1, w, inGroup, i) else 0.0);
    forall i: int { TakenByGrows(n, w, inGroup, i); }
    var old' := i => if inGroup(i) then TakenBy(n, w, inGroup, i) else 0.0;
    if inGroup(n) {
      SumEq(n, g, old');
    } else {
      SumAdd(n, old', i => if inGroup(i) then w(n, i) else 0.0, g);
    }
  }

  /** A member that joins last: what it takes and what the others take from it add up to one point
      for each of them. */
  lemma JoiningMember(n: nat, w: Points, inGroup: int -> bool)
    requires Tournament(n + 1, w) && inGroup(n)
    ensures RankOf(n + 1, w, n) + FromNewcomer(n, w, inGroup)
         == 1.0 + Size(n, inGroup) + TakenBy(n, w, inGroup, n)
  {
    var fromAll := (j: int) => if j == n then 0.0 else w(j, n);
    var fromGroup := (j: int) => if inGroup(j) then w(j, n) else 0.0;
    var fromRest := (j: int) => if inGroup(j) then 0.0 else w(j, n);
    var toGroup := (j: int) => if inGroup(j) then w(n, j) else 0.0;
    SumAdd(n, fromGroup, fromRest, fromAll);
    SumAdd(n, fromGroup, toGroup, (j: int) => Ind(inGroup(j)));
    SumEq(n, fromRest, j => if inGroup(j) then 0.0 else w(j, n));
    SumEq(n, toGroup, i => if inGroup(i) then w(n, i) else 0.0);
    SumEq(n + 1, fromAll, j => if j == n then 0.0 else w(j, n));
    SumEq(n, (j: int) => Ind(inGroup(j)), i => Ind(inGroup(i)));
  }

  /** The ranks of a group of m add up to m(m+1)/2 plus the points it takes from outside. */
  lemma {:induction false} GroupRanksAddUp(n: nat, w: Points, inGroup: int -> bool)
    requires Tournament(n, w)
    ensures GroupRanks(n, w, inGroup)
         == Size(n, inGroup) * (Size(n, inGroup) + 1.0) / 2.0 + Taken(n, w, inGroup)
  {
    if n > 0 {
      var m := n - 1;
      GroupRanksAddUp(m, w, inGroup);
      GroupRanksGrow(m, w, inGroup);
      TakenGrows(m, w, inGroup);
      var s := Size(m, inGroup);
      if inGroup(m) {
        JoiningMember(m, w, inGroup);
        assert Size(n, inGroup) == s + 1.0;
        assert (s + 1.0) * (s + 2.0) / 2.0 == s * (s + 1.0) / 2.0 + s + 1.0;
      } else {
        assert Size(n, inGroup) == s;
      }
    }
  }

  /** All ranks together are those of n distinct places. */
  lemma AllRanksAddUp(n: nat, w: Points)
    requires Tournament(n, w)
    ensures Sum(n, i => RankOf(n, w, i)) == (n as real) * ((n + 1) as real) / 2.0
  {
    var everyone := (i: int) => true;
    GroupRanksAddUp(n, w, everyone);
    SumEq(n, i => RankOf(n, w, i), i => if everyone(i) then RankOf(n, w, i) else 0.0);
    SizeOfAll(n, everyone);
    forall i | 0 <= i < n ensures TakenBy(n, w, everyone, i) == 0.0 {
      SumZero(n, j => if everyone(j) then 0.0 else w(j, i));
    }
    SumZero(n, i => if everyone(i) then TakenBy(n, w, everyone, i) else 0.0);
  }

  lemma {:induction false} SizeOfAll(n: nat, everyone: int -> bool)
    requires forall i :: everyone(i)
    ensures Size(n, everyone) == n as real
  {
    if n > 0 {
      SizeOfAll(n - 1, everyone);
      assert Size(n, everyone) == Size(n - 1, everyone) + 1.0;
    }
  }
}

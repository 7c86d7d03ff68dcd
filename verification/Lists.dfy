/** List comprehensions. */
module Lists {
  import opened Text

  /** `[x for x in s if p(x)]` */
  function Keep<T(!new)>(p: T -> bool, s: seq<T>): (r: seq<T>)
    ensures |r| <= |s|
  {
    if s == [] then []
    else
      assert s == s[..|s| - 1] + [s[|s| - 1]];
      Keep(p, s[..|s| - 1]) + if p(s[|s| - 1]) then [s[|s| - 1]] else []
  }

  lemma {:induction false} KeepMembers<T(!new)>(p: T -> bool, s: seq<T>)
    ensures forall x :: x in Keep(p, s) <==> x in s && p(x)
    decreases |s|
  {
    if s != [] {
      KeepMembers(p, s[..|s| - 1]);
      assert s == s[..|s| - 1] + [s[|s| - 1]];
    }
  }

  lemma KeepOneMore<T(!new)>(p: T -> bool, s: seq<T>, x: T)
    ensures Keep(p, s + [x]) == Keep(p, s) + if p(x) then [x] else []
  {
    assert (s + [x])[..|s + [x]| - 1] == s;
  }

  lemma {:induction false} KeepConcat<T(!new)>(p: T -> bool, a: seq<T>, b: seq<T>)
    ensures Keep(p, a + b) == Keep(p, a) + Keep(p, b)
    decreases |b|
  {
    if b == [] {
      assert a + b == a;
    } else {
      var front, last := b[..|b| - 1], b[|b| - 1];
      KeepConcat(p, a, front);
      assert front + [last] == b;
      KeepConcatStep(p, a, front, last);
    }
  }

  lemma KeepFirst<T(!new)>(p: T -> bool, x: T, rest: seq<T>)
    ensures Keep(p, [x] + rest) == (if p(x) then [x] else []) + Keep(p, rest)
  {
    KeepConcat(p, [x], rest);
    KeepOneMore(p, [], x);
    assert [] + [x] == [x];
  }

  lemma KeepConcatStep<T(!new)>(p: T -> bool, a: seq<T>, front: seq<T>, last: T)
    requires Keep(p, a + front) == Keep(p, a) + Keep(p, front)
    ensures Keep(p, a + (front + [last])) == Keep(p, a) + Keep(p, front + [last])
  {
    var more := if p(last) then [last] else [];
    calc {
      Keep(p, a + (front + [last]));
      { ConcatAssociates(a, front, [last]); }
      Keep(p, (a + front) + [last]);
      { KeepOneMore(p, a + front, last); }
      (Keep(p, a) + Keep(p, front)) + more;
      { ConcatAssociates(Keep(p, a), Keep(p, front), more); }
      Keep(p, a) + (Keep(p, front) + more);
      { KeepOneMore(p, front, last); }
      Keep(p, a) + Keep(p, front + [last]);
    }
  }

  lemma ConcatAssociates<T>(a: seq<T>, b: seq<T>, c: seq<T>)
    ensures (a + b) + c == a + (b + c)
  {
  }

  lemma {:induction false} KeepCounts<T(!new)>(p: T -> bool, s: seq<T>, x: T)
    ensures multiset(Keep(p, s))[x] == if p(x) then multiset(s)[x] else 0
    decreases |s|
  {
    if s != [] {
      var n := |s| - 1;
      KeepCounts(p, s[..n], x);
      assert s == s[..n] + [s[n]];
    }
  }

  lemma TakeOneMore<T>(s: seq<T>, i: nat)
    requires i < |s|
    ensures s[..i + 1] == s[..i] + [s[i]]
  {
  }

  ghost predicate Distinct<T(!new)>(s: seq<T>) {
    forall i, j :: 0 <= i < j < |s| ==> s[i] != s[j]
  }

  lemma EmptyOrInhabited<T(!new)>(s: seq<T>)
    ensures s == [] || exists x :: x in s
  {
    if s != [] { assert s[0] in s; }
  }

  lemma DistinctTogether<T(!new)>(a: seq<T>, b: seq<T>)
    requires Distinct(a) && Distinct(b) && forall x :: x in a ==> x !in b
    ensures Distinct(a + b)
  {
    forall i, j | 0 <= i < j < |a + b| ensures (a + b)[i] != (a + b)[j] {
      if i < |a| && |a| <= j { assert a[i] in a && b[j - |a|] in b; }
    }
  }

  /** No duplicates: the list is as long as its set of members. */
  lemma {:induction false} DistinctLength<T(!new)>(s: seq<T>)
    ensures Distinct(s) ==> |set x | x in s| == |s|
    decreases |s|
  {
    if s != [] && Distinct(s) {
      var n := |s| - 1;
      DistinctLength(s[..n]);
      assert s == s[..n] + [s[n]];
      assert (set x | x in s) == (set x | x in s[..n]) + {s[n]};
      assert s[n] !in s[..n];
    }
  }

  lemma {:induction false} DistinctCounts<T(!new)>(s: seq<T>, x: T)
    requires Distinct(s)
    ensures multiset(s)[x] == if x in s then 1 else 0
    decreases |s|
  {
    if s != [] {
      var n := |s| - 1;
      DistinctCounts(s[..n], x);
      assert s == s[..n] + [s[n]];
      assert s[n] !in s[..n];
    }
  }

  lemma {:induction false} CountsMakeDistinct<T(!new)>(s: seq<T>)
    requires forall x :: multiset(s)[x] <= 1
    ensures Distinct(s)
    decreases |s|
  {
    if s != [] {
      var n := |s| - 1;
      assert s == s[..n] + [s[n]];
      assert multiset(s) == multiset(s[..n]) + multiset{s[n]};
      forall x ensures multiset(s[..n])[x] <= 1 { assert multiset(s)[x] <= 1; }
      assert s[n] !in s[..n] by { assert multiset(s)[s[n]] <= 1; }
      CountsMakeDistinct(s[..n]);
    }
  }

  lemma SortingKeepsMembers<T(!new)>(s: seq<T>, key: T -> string)
    ensures forall x :: x in StableSort(key, s) <==> x in s
    ensures Distinct(s) ==> Distinct(StableSort(key, s))
  {
    StableSortPermutes(key, s);
    forall x ensures x in StableSort(key, s) <==> x in s {
      assert x in multiset(StableSort(key, s)) <==> x in multiset(s);
    }
    if Distinct(s) {
      forall x ensures multiset(StableSort(key, s))[x] <= 1 { DistinctCounts(s, x); }
      CountsMakeDistinct(StableSort(key, s));
    }
  }

  lemma LeastGoesFirst<T(!new)>(key: T -> string, p: T -> bool, x: T, s: seq<T>)
    requires SortedBy(key, s) && s != [] && StrLe(key(x), key(s[0]))
    ensures Insert(key, x, Keep(p, s)) == [x] + Keep(p, s)
  {
    KeepMembers(p, s);
    if Keep(p, s) != [] {
      var first := Keep(p, s)[0];
      assert first in s;
      var i :| 0 <= i < |s| && s[i] == first;
      if i > 0 { StrLeTransitive(key(x), key(s[0]), key(s[i])); }
    }
  }

  lemma InsertBehind<T>(key: T -> string, x: T, y: T, s: seq<T>)
    requires !StrLe(key(x), key(y))
    ensures Insert(key, x, [y] + s) == [y] + Insert(key, x, s)
  {
    assert ([y] + s)[1..] == s;
  }

  lemma TailIsSorted<T>(key: T -> string, s: seq<T>)
    requires SortedBy(key, s) && s != []
    ensures SortedBy(key, s[1..])
  {
  }

  lemma InsertingBehindAndKeeping<T(!new)>(key: T -> string, p: T -> bool, x: T, y: T, rest: seq<T>)
    requires !StrLe(key(x), key(y))
    requires Keep(p, Insert(key, x, rest)) == if p(x) then Insert(key, x, Keep(p, rest)) else Keep(p, rest)
    ensures var kept := Keep(p, [y] + rest);
            Keep(p, Insert(key, x, [y] + rest)) == if p(x) then Insert(key, x, kept) else kept
  {
    InsertBehind(key, x, y, rest);
    KeepFirst(p, y, rest);
    KeepFirst(p, y, Insert(key, x, rest));
    if p(y) { InsertBehind(key, x, y, Keep(p, rest)); } else { NothingBefore(Keep(p, rest)); NothingBefore(Keep(p, Insert(key, x, rest))); }
  }

  lemma NothingBefore<T>(s: seq<T>)
    ensures [] + s == s
  {
  }

  lemma {:induction false} InsertingAndKeeping<T(!new)>(key: T -> string, p: T -> bool, x: T, s: seq<T>)
    requires SortedBy(key, s)
    ensures Keep(p, Insert(key, x, s)) == if p(x) then Insert(key, x, Keep(p, s)) else Keep(p, s)
    decreases |s|
  {
    if s == [] {
      KeepFirst(p, x, []);
      assert [x] + [] == [x];
    } else if StrLe(key(x), key(s[0])) {
      KeepFirst(p, x, s);
      LeastGoesFirst(key, p, x, s);
    } else {
      TailIsSorted(key, s);
      InsertingAndKeeping(key, p, x, s[1..]);
      InsertingBehindAndKeeping(key, p, x, s[0], s[1..]);
      assert s == [s[0]] + s[1..];
    }
  }

  lemma SortOneMore<T>(key: T -> string, x: T, s: seq<T>)
    ensures StableSort(key, [x] + s) == Insert(key, x, StableSort(key, s))
  {
    assert ([x] + s)[1..] == s;
  }

  /** Sorting what is kept is keeping from what is sorted. */
  lemma {:induction false} SortingAndKeeping<T(!new)>(key: T -> string, p: T -> bool, s: seq<T>)
    ensures Keep(p, StableSort(key, s)) == StableSort(key, Keep(p, s))
    decreases |s|
  {
    if s != [] {
      var x, rest := s[0], s[1..];
      assert s == [x] + rest;
      SortingAndKeeping(key, p, rest);
      StableSortSorts(key, rest);
      SortOneMore(key, x, rest);
      InsertingAndKeeping(key, p, x, StableSort(key, rest));
      KeepFirst(p, x, rest);
      SortOneMore(key, x, Keep(p, rest));
      assert [] + Keep(p, rest) == Keep(p, rest);
    }
  }

  // ---- grouping by a key ---------------------------------------------------------------------

  function OfKey<T(!new)>(key: T -> string, k: string): T -> bool { x => key(x) == k }

  /** The keys in the order they first appear: the order a Python dict keeps them. */
  function FirstKeys<T>(key: T -> string, s: seq<T>): seq<string>
    decreases |s|
  {
    if |s| == 0 then []
    else
      var keys, k := FirstKeys(key, s[..|s| - 1]), key(s[|s| - 1]);
      if k in keys then keys else keys + [k]
  }

  lemma FirstKeysOneMore<T>(key: T -> string, s: seq<T>, x: T)
    ensures FirstKeys(key, s + [x]) ==
            if key(x) in FirstKeys(key, s) then FirstKeys(key, s) else FirstKeys(key, s) + [key(x)]
  {
    assert (s + [x])[..|s + [x]| - 1] == s;
  }

  lemma {:induction false} FirstKeysAreTheKeys<T>(key: T -> string, s: seq<T>)
    ensures Distinct(FirstKeys(key, s))
    ensures forall k :: k in FirstKeys(key, s) <==> exists i :: 0 <= i < |s| && key(s[i]) == k
    decreases |s|
  {
    if |s| != 0 {
      var n := |s| - 1;
      FirstKeysAreTheKeys(key, s[..n]);
      assert s == s[..n] + [s[n]];
      FirstKeysOneMore(key, s[..n], s[n]);
      assert key(s[n]) in FirstKeys(key, s);
    }
  }

  /** A tail without a new key adds none. */
  lemma {:induction false} FirstKeysOfAKnownTail<T>(key: T -> string, a: seq<T>, b: seq<T>)
    requires forall i :: 0 <= i < |b| ==> key(b[i]) in FirstKeys(key, a)
    ensures FirstKeys(key, a + b) == FirstKeys(key, a)
    decreases |b|
  {
    if |b| == 0 {
      assert a + b == a;
    } else {
      var n := |b| - 1;
      FirstKeysOfAKnownTail(key, a, b[..n]);
      FirstKeysOneMore(key, a + b[..n], b[n]);
      assert b == b[..n] + [b[n]];
      ConcatAssociates(a, b[..n], [b[n]]);
    }
  }

  // ---- what holds all through a run -------------------------------------------------------------

  /** `p` holds of every prefix of a run, the empty and the whole one included. */
  ghost predicate Throughout<T>(p: seq<T> -> bool, run: seq<T>) { forall n: nat :: n <= |run| ==> p(run[..n]) }

  lemma ThroughoutOneMore<T>(p: seq<T> -> bool, run: seq<T>)
    requires run != []
    ensures Throughout(p, run) <==> Throughout(p, run[..|run| - 1]) && p(run)
  {
    var front := run[..|run| - 1];
    assert run[..|run|] == run;
    if Throughout(p, run) {
      forall n: nat | n <= |front| ensures p(front[..n]) { assert front[..n] == run[..n]; }
    }
    if Throughout(p, front) && p(run) {
      forall n: nat | n <= |run| ensures p(run[..n]) {
        if n < |run| { assert front[..n] == run[..n]; }
      }
    }
  }

  lemma ThroughoutOfNone<T>(p: seq<T> -> bool, run: seq<T>)
    requires run == []
    ensures Throughout(p, run) <==> p(run)
  {
    assert forall n: nat :: n <= |run| ==> run[..n] == run;
    if Throughout(p, run) { assert p(run[..0]); }
  }

  lemma ThroughoutAtTheEnd<T>(p: seq<T> -> bool, run: seq<T>)
    requires Throughout(p, run)
    ensures p(run)
  {
    assert run[..|run|] == run;
  }
}

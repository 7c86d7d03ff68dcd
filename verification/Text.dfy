/** Strings as the scripts compare, sort, join and print them. */
module Text {

  datatype Option<+T> = None | Some(value: T)

  /** Code-point order, the order Python's `<=` and `sorted` use on strings. */
  predicate StrLe(a: string, b: string) {
    a == "" || (b != "" && (a[0] < b[0] || (a[0] == b[0] && StrLe(a[1..], b[1..]))))
  }

  lemma {:induction false} StrLeTotal(a: string, b: string)
    ensures StrLe(a, b) || StrLe(b, a)
  {
    if a != "" && b != "" { StrLeTotal(a[1..], b[1..]); }
  }

  lemma {:induction false} StrLeTransitive(a: string, b: string, c: string)
    requires StrLe(a, b) && StrLe(b, c)
    ensures StrLe(a, c)
  {
    if a != "" && a[0] == b[0] && b[0] == c[0] { StrLeTransitive(a[1..], b[1..], c[1..]); }
  }

  lemma {:induction false} StrLeAntisymmetric(a: string, b: string)
    requires StrLe(a, b) && StrLe(b, a)
    ensures a == b
  {
    if a != "" {
      StrLeAntisymmetric(a[1..], b[1..]);
      assert a == [a[0]] + a[1..];
      assert b == [b[0]] + b[1..];
    }
  }

  /** Strings compare by their first difference; a prefix comes first. */
  lemma {:induction false} StrLeByTheFirstDifference(a: string, b: string)
    ensures StrLe(a, b) <==> a <= b || exists i :: 0 <= i < |a| && i < |b| && a[..i] == b[..i] && a[i] < b[i]
  {
    if a != "" && b != "" {
      StrLeByTheFirstDifference(a[1..], b[1..]);
      assert a == [a[0]] + a[1..] && b == [b[0]] + b[1..];
      if a[0] < b[0] { assert a[..0] == b[..0]; }
      if i :| 0 <= i < |a[1..]| && i < |b[1..]| && a[1..][..i] == b[1..][..i] && a[1..][i] < b[1..][i] && a[0] == b[0] {
        assert a[..i + 1] == [a[0]] + a[1..][..i] && b[..i + 1] == [b[0]] + b[1..][..i];
      }
      if i :| 0 <= i < |a| && i < |b| && a[..i] == b[..i] && a[i] < b[i] {
        if i > 0 {
          assert a[..i][0] == b[..i][0];
          assert a[1..][..i - 1] == a[..i][1..] && b[1..][..i - 1] == b[..i][1..];
          assert a[1..][i - 1] == a[i] && b[1..][i - 1] == b[i];
        }
      }
    }
  }

  // ---- stable sorting by a string key -------------------------------------------------

  ghost predicate SortedBy<T>(key: T -> string, s: seq<T>) {
    forall i, j :: 0 <= i < j < |s| ==> StrLe(key(s[i]), key(s[j]))
  }

  /** `x` goes in front of the first element whose key is not smaller. */
  function Insert<T>(key: T -> string, x: T, s: seq<T>): seq<T> {
    if s == [] then [x]
    else if StrLe(key(x), key(s[0])) then [x] + s
    else [s[0]] + Insert(key, x, s[1..])
  }

  lemma {:induction false} InsertAdds<T>(key: T -> string, x: T, s: seq<T>)
    ensures multiset(Insert(key, x, s)) == multiset(s) + multiset{x}
  {
    if s != [] && !StrLe(key(x), key(s[0])) {
      InsertAdds(key, x, s[1..]);
      assert s == [s[0]] + s[1..];
    }
  }

  /** A stable sort: equal keys keep the order they came in. */
  function StableSort<T>(key: T -> string, s: seq<T>): seq<T> {
    if s == [] then [] else Insert(key, s[0], StableSort(key, s[1..]))
  }

  lemma {:induction false} StableSortPermutes<T>(key: T -> string, s: seq<T>)
    ensures multiset(StableSort(key, s)) == multiset(s)
    ensures |StableSort(key, s)| == |s|
  {
    if s != [] {
      StableSortPermutes(key, s[1..]);
      InsertAdds(key, s[0], StableSort(key, s[1..]));
      assert s == [s[0]] + s[1..];
    }
    assert |multiset(StableSort(key, s))| == |multiset(s)|;
  }

  lemma {:induction false} InsertKeepsSorted<T>(key: T -> string, x: T, s: seq<T>)
    requires SortedBy(key, s)
    ensures SortedBy(key, Insert(key, x, s))
  {
    if s == [] {
    } else if StrLe(key(x), key(s[0])) {
      forall j | 0 <= j < |s| ensures StrLe(key(x), key(s[j])) {
        if 0 < j { StrLeTransitive(key(x), key(s[0]), key(s[j])); }
      }
    } else {
      InsertKeepsSorted(key, x, s[1..]);
      var rest := Insert(key, x, s[1..]);
      StrLeTotal(key(x), key(s[0]));
      InsertAdds(key, x, s[1..]);
      forall j | 0 <= j < |rest| ensures StrLe(key(s[0]), key(rest[j])) {
        assert rest[j] in multiset(rest);
        assert rest[j] in s[1..] || rest[j] == x;
      }
    }
  }

  lemma {:induction false} StableSortSorts<T>(key: T -> string, s: seq<T>)
    ensures SortedBy(key, StableSort(key, s))
  {
    if s != [] {
      StableSortSorts(key, s[1..]);
      InsertKeepsSorted(key, s[0], StableSort(key, s[1..]));
    }
  }

  lemma {:induction false} SortingTheSorted<T>(key: T -> string, s: seq<T>)
    requires SortedBy(key, s)
    ensures StableSort(key, s) == s
  {
    if s != [] {
      SortingTheSorted(key, s[1..]);
      assert s == [s[0]] + s[1..];
    }
  }

  function Itself(s: string): string { s }

  /** Python's `sorted` on a list of strings. */
  function Sorted(s: seq<string>): seq<string> { StableSort(Itself, s) }

  lemma HeadIsLeast(s: seq<string>, x: string)
    requires SortedBy(Itself, s) && x in s
    ensures StrLe(s[0], x)
  {
    var i :| 0 <= i < |s| && s[i] == x;
    if i == 0 { StrLeTotal(x, x); } else { assert StrLe(Itself(s[0]), Itself(s[i])); }
  }

  lemma RestOfMultiset(s: seq<string>)
    requires s != []
    ensures multiset(s[1..]) == multiset(s) - multiset{s[0]}
  {
    assert s == [s[0]] + s[1..];
  }

  lemma HeadAndTailAgree<T>(a: seq<T>, b: seq<T>)
    requires a != [] && b != [] && a[0] == b[0] && a[1..] == b[1..]
    ensures a == b
  {
    assert a == [a[0]] + a[1..] && b == [b[0]] + b[1..];
  }

  lemma {:induction false} SortedListsAgree(a: seq<string>, b: seq<string>)
    requires SortedBy(Itself, a) && SortedBy(Itself, b)
    requires multiset(a) == multiset(b)
    ensures a == b
  {
    assert |multiset(a)| == |a| && |multiset(b)| == |b|;
    if a != [] {
      assert a[0] in multiset(b) && b[0] in multiset(a);
      HeadIsLeast(a, b[0]);
      HeadIsLeast(b, a[0]);
      StrLeAntisymmetric(a[0], b[0]);
      RestOfMultiset(a);
      RestOfMultiset(b);
      SortedListsAgree(a[1..], b[1..]);
      HeadAndTailAgree(a, b);
    }
  }

  /** Sorting forgets order and nothing else. */
  lemma SortedIsTheMultiset(a: seq<string>, b: seq<string>)
    ensures Sorted(a) == Sorted(b) <==> multiset(a) == multiset(b)
  {
    StableSortSorts(Itself, a);
    StableSortSorts(Itself, b);
    StableSortPermutes(Itself, a);
    StableSortPermutes(Itself, b);
    if multiset(a) == multiset(b) { SortedListsAgree(Sorted(a), Sorted(b)); }
  }

  // ---- newline joins ------------------------------------------------------------------

  predicate OneLine(s: string) { '\n' !in s }

  predicate AllOneLine(ss: seq<string>) { forall i :: 0 <= i < |ss| ==> OneLine(ss[i]) }

  /** `"\n".join(ss)` */
  function JoinLines(ss: seq<string>): string {
    if ss == [] then "" else if |ss| == 1 then ss[0] else ss[0] + "\n" + JoinLines(ss[1..])
  }

  /** `s.split("\n")` */
  function SplitLines(s: string): (r: seq<string>)
    ensures r != []
    decreases |s|
  {
    var n := Newline(s);
    if n == |s| then [s] else [s[..n]] + SplitLines(s[n + 1..])
  }

  /** The index of the first newline, or the length. */
  function Newline(s: string): (n: nat)
    ensures n <= |s|
    ensures '\n' !in s[..n]
    ensures n < |s| ==> s[n] == '\n'
  {
    if s == "" || s[0] == '\n' then 0
    else
      var m := Newline(s[1..]);
      assert s[..1 + m] == [s[0]] + s[1..][..m];
      1 + m
  }

  lemma {:induction false} NewlineAfter(a: string, rest: string)
    requires OneLine(a)
    ensures Newline(a + "\n" + rest) == |a|
  {
    var s := a + "\n" + rest;
    assert s[|a|] == '\n';
    assert s[..|a|] == a;
  }

  lemma {:induction false} SplitUndoesJoin(ss: seq<string>)
    requires ss != [] && AllOneLine(ss)
    ensures SplitLines(JoinLines(ss)) == ss
  {
    var s := JoinLines(ss);
    if |ss| > 1 {
      var rest := JoinLines(ss[1..]);
      NewlineAfter(ss[0], rest);
      assert s[..|ss[0]|] == ss[0];
      assert s[|ss[0]| + 1..] == rest;
      SplitUndoesJoin(ss[1..]);
    }
  }

  // ---- paths ---------------------------------------------------------------------------

  /** Paths compare part by part, so the separator comes before every other character. */
  function PathOrder(path: string): string {
    if path == "" then "" else [if path[0] == '/' then '\0' else path[0]] + PathOrder(path[1..])
  }

  lemma {:induction false} PathOrderIsInjective(a: string, b: string)
    requires '\0' !in a && '\0' !in b && PathOrder(a) == PathOrder(b)
    ensures a == b
  {
    if a != "" && b != "" {
      assert PathOrder(a)[1..] == PathOrder(a[1..]) && PathOrder(b)[1..] == PathOrder(b[1..]);
      assert PathOrder(a)[0] == PathOrder(b)[0];
      assert a == [a[0]] + a[1..] && b == [b[0]] + b[1..];
      PathOrderIsInjective(a[1..], b[1..]);
    }
  }

  /** The components of a path. */
  function Parts(path: string): (r: seq<string>)
    ensures r != []
  {
    if path == "" then [""]
    else if path[0] == '/' then [""] + Parts(path[1..])
    else [[path[0]] + Parts(path[1..])[0]] + Parts(path[1..])[1..]
  }

  /** Lists of texts compare by their first different entry; a shorter list comes before its continuations. */
  predicate ListLe(a: seq<string>, b: seq<string>) {
    a == [] || (b != [] && (if a[0] == b[0] then ListLe(a[1..], b[1..]) else StrLe(a[0], b[0])))
  }

  lemma ListLeOfHeads(p: string, ps: seq<string>, q: string, qs: seq<string>)
    ensures ListLe([p] + ps, [q] + qs) <==> if p == q then ListLe(ps, qs) else StrLe(p, q)
  {
    assert ([p] + ps)[1..] == ps && ([q] + qs)[1..] == qs;
  }

  lemma SameFirstCharacter(c: char, p: string, q: string)
    ensures [c] + p == [c] + q <==> p == q
    ensures StrLe([c] + p, [c] + q) <==> StrLe(p, q)
  {
    assert ([c] + p)[1..] == p && ([c] + q)[1..] == q;
  }

  lemma OtherFirstCharacter(c: char, p: string, d: char, q: string)
    requires c != d
    ensures [c] + p != [d] + q
    ensures StrLe([c] + p, [d] + q) <==> c < d
  {
    assert ([c] + p)[0] == c && ([d] + q)[0] == d;
  }

  /** Paths are put in the order of their components, as Python orders `Path` objects. */
  lemma {:induction false} PathOrderIsByParts(a: string, b: string)
    requires '\0' !in a && '\0' !in b
    ensures StrLe(PathOrder(a), PathOrder(b)) <==> ListLe(Parts(a), Parts(b))
    decreases |a|
  {
    if a == "" {
      ListLeOfHeads("", [], Parts(b)[0], Parts(b)[1..]);
      assert [""] + [] == [""] && [Parts(b)[0]] + Parts(b)[1..] == Parts(b);
    } else if b == "" {
      ListLeOfHeads(Parts(a)[0], Parts(a)[1..], "", []);
      assert [""] + [] == [""] && [Parts(a)[0]] + Parts(a)[1..] == Parts(a);
    } else {
      assert a[0] in a && b[0] in b && forall c :: c in a[1..] ==> c in a;
      assert forall c :: c in b[1..] ==> c in b;
      PathOrderIsByParts(a[1..], b[1..]);
      FirstOfPathOrder(a, b);
      var p, q := Parts(a[1..]), Parts(b[1..]);
      assert [p[0]] + p[1..] == p && [q[0]] + q[1..] == q;
      ListLeOfHeads(p[0], p[1..], q[0], q[1..]);
      ListLeOfHeads("", p, "", q);
      ListLeOfHeads("", p, [b[0]] + q[0], q[1..]);
      ListLeOfHeads([a[0]] + p[0], p[1..], "", q);
      ListLeOfHeads([a[0]] + p[0], p[1..], [b[0]] + q[0], q[1..]);
      if a[0] == b[0] { SameFirstCharacter(a[0], p[0], q[0]); } else { OtherFirstCharacter(a[0], p[0], b[0], q[0]); }
    }
  }

  lemma FirstOfPathOrder(a: string, b: string)
    requires a != "" && b != "" && a[0] != '\0' && b[0] != '\0'
    ensures StrLe(PathOrder(a), PathOrder(b)) <==>
            if a[0] == b[0] then StrLe(PathOrder(a[1..]), PathOrder(b[1..]))
            else a[0] == '/' || (b[0] != '/' && a[0] < b[0])
  {
    assert PathOrder(a)[1..] == PathOrder(a[1..]) && PathOrder(b)[1..] == PathOrder(b[1..]);
  }
}

/** The files a program is built from: what its entry imports, directly or not. */
module Closure {
  import opened Lists
  import opened Text

  /** The resolved imports of each file that parses; any other file is a leaf. */
  type Imports = map<string, seq<string>>

  predicate Edge(g: Imports, a: string, b: string) { a in g && b in g[a] }

  ghost predicate Chain(g: Imports, files: seq<string>) {
    files != [] && forall i :: 0 <= i < |files| - 1 ==> Edge(g, files[i], files[i + 1])
  }

  ghost predicate Reaches(g: Imports, a: string, b: string) {
    exists files :: Chain(g, files) && files[0] == a && files[|files| - 1] == b
  }

  lemma ReachesItself(g: Imports, a: string)
    ensures Reaches(g, a, a)
  {
    assert Chain(g, [a]);
  }

  lemma ReachesFurther(g: Imports, a: string, b: string, c: string)
    requires Reaches(g, a, b) && Edge(g, b, c)
    ensures Reaches(g, a, c)
  {
    var files :| Chain(g, files) && files[0] == a && files[|files| - 1] == b;
    assert Chain(g, files + [c]);
  }

  lemma {:induction false} ChainStaysIn(g: Imports, files: seq<string>, s: seq<string>)
    requires Chain(g, files) && files[0] in s
    requires forall a, b :: a in s && Edge(g, a, b) ==> b in s
    ensures files[|files| - 1] in s
    decreases |files|
  {
    if |files| > 1 {
      assert Edge(g, files[0], files[1]);
      assert Chain(g, files[1..]) by {
        forall i | 0 <= i < |files[1..]| - 1 ensures Edge(g, files[1..][i], files[1..][i + 1]) {
          assert Edge(g, files[i + 1], files[i + 2]);
        }
      }
      ChainStaysIn(g, files[1..], s);
    }
  }

  lemma {:induction false} ReachesOnward(g: Imports, a: string, files: seq<string>)
    requires Chain(g, files) && Reaches(g, a, files[0])
    ensures Reaches(g, a, files[|files| - 1])
    decreases |files|
  {
    if |files| > 1 {
      var front := files[..|files| - 1];
      assert Chain(g, front);
      ReachesOnward(g, a, front);
      assert Edge(g, files[|files| - 2], files[|files| - 1]);
      ReachesFurther(g, a, files[|files| - 2], files[|files| - 1]);
    }
  }

  // ---- the result ----------------------------------------------------------------------------

  /** The files reached from the entry, each once, in path order. */
  ghost predicate IsClosure(g: Imports, entry: string, files: seq<string>) {
    && SortedBy(PathOrder, files)
    && Distinct(files)
    && forall f :: f in files <==> Reaches(g, entry, f)
  }

  lemma {:induction false} SortedSetsAgree(a: seq<string>, b: seq<string>)
    requires SortedBy(PathOrder, a) && SortedBy(PathOrder, b) && Distinct(a) && Distinct(b)
    requires forall f :: f in a <==> f in b
    requires forall f :: f in a ==> '\0' !in f
    ensures a == b
  {
    if a == [] {
      EmptyOrInhabited(b);
    } else {
      assert a[0] in b;
      assert b[0] in a;
      FirstIsLeast(a, b[0]);
      FirstIsLeast(b, a[0]);
      StrLeAntisymmetric(PathOrder(a[0]), PathOrder(b[0]));
      PathOrderIsInjective(a[0], b[0]);
      forall f ensures f in a[1..] <==> f in b[1..] {
        RestOfDistinct(a, f);
        RestOfDistinct(b, f);
      }
      SortedSetsAgree(a[1..], b[1..]);
    }
  }

  lemma FirstIsLeast(s: seq<string>, f: string)
    requires SortedBy(PathOrder, s) && f in s
    ensures StrLe(PathOrder(s[0]), PathOrder(f))
  {
    StrLeTotal(PathOrder(f), PathOrder(f));
  }

  lemma RestOfDistinct(s: seq<string>, f: string)
    requires Distinct(s) && s != []
    ensures f in s[1..] <==> f in s && f != s[0]
  {
    if f in s && f != s[0] {
      var i :| 0 <= i < |s| && s[i] == f;
      assert s[1..][i - 1] == f;
    }
  }

  /** The closure depends on which files import which, not on the order or number of the import lines. */
  lemma OnlyTheEdgesMatter(g: Imports, h: Imports, entry: string, a: seq<string>, b: seq<string>)
    requires IsClosure(g, entry, a) && IsClosure(h, entry, b)
    requires forall x, y :: Edge(g, x, y) <==> Edge(h, x, y)
    requires forall f :: f in a ==> '\0' !in f
    ensures a == b
  {
    forall f ensures f in a <==> f in b {
      if f in a {
        var files :| Chain(g, files) && files[0] == entry && files[|files| - 1] == f;
        assert Chain(h, files);
      }
      if f in b {
        var files :| Chain(h, files) && files[0] == entry && files[|files| - 1] == f;
        assert Chain(g, files);
      }
    }
    SortedSetsAgree(a, b);
  }

  /** What a file of the closure is built from is in the closure, so files that import each other have the same one. */
  lemma ClosureOfAMember(g: Imports, entry: string, member: string, a: seq<string>, b: seq<string>)
    requires IsClosure(g, entry, a) && IsClosure(g, member, b) && member in a
    ensures forall f :: f in b ==> f in a
    ensures entry in b ==> forall f :: f in a <==> f in b
  {
    forall f | f in b ensures f in a {
      var files :| Chain(g, files) && files[0] == member && files[|files| - 1] == f;
      ReachesOnward(g, entry, files);
    }
    if entry in b {
      forall f | f in a ensures f in b {
        var files :| Chain(g, files) && files[0] == entry && files[|files| - 1] == f;
        ReachesOnward(g, member, files);
      }
    }
  }

  // ---- the walk ------------------------------------------------------------------------------

  class Walk {
    const imports: Imports
    /** The keys of the `seen` dict, in insertion order. */
    var seen: seq<string>

    constructor (imports: Imports)
      ensures this.imports == imports && seen == []
    {
      this.imports := imports;
      seen := [];
    }

    ghost function Unvisited(): set<string>
      reads this
    {
      set f | f in imports && f !in seen
    }

    /** What one `visit` adds: files reached from `path`, and with each of them all it imports. */
    twostate predicate Grew(path: string)
      reads this
    {
      && Distinct(seen)
      && (forall f :: f in old(seen) ==> f in seen)
      && (forall f :: f in seen && f !in old(seen) ==> Reaches(imports, path, f))
      && forall f, t :: f in seen && f !in old(seen) && Edge(imports, f, t) ==> t in seen
    }

    /** `visit` */
    method Visit(path: string)
      requires Distinct(seen)
      modifies this
      ensures Grew(path) && path in seen
      decreases Unvisited()
    {
      if path in seen { return; }
      seen := seen + [path];
      ReachesItself(imports, path);
      if path !in imports { return; }
      var targets := imports[path];
      for i := 0 to |targets|
        invariant Distinct(seen) && path in seen
        invariant forall f :: f in old(seen) ==> f in seen
        invariant forall f :: f in seen && f !in old(seen) ==> Reaches(imports, path, f)
        invariant forall f, t :: f in seen && f !in old(seen) && f != path && Edge(imports, f, t) ==> t in seen
        invariant forall j :: 0 <= j < i ==> targets[j] in seen
      {
        ghost var before := seen;
        assert path in old(Unvisited()) && path !in Unvisited();
        assert Unvisited() < old(Unvisited());
        Visit(targets[i]);
        forall f | f in seen && f !in before ensures Reaches(imports, path, f) {
          assert Edge(imports, path, targets[i]);
          ReachesFurther(imports, path, path, targets[i]);
          var files :| Chain(imports, files) && files[0] == targets[i] && files[|files| - 1] == f;
          ReachesOnward(imports, path, files);
        }
      }
    }
  }

  /** `_source_closure` */
  method SourceClosure(imports: Imports, entry: string) returns (files: seq<string>)
    ensures IsClosure(imports, entry, files)
  {
    var walk := new Walk(imports);
    walk.Visit(entry);
    files := StableSort(PathOrder, walk.seen);
    StableSortSorts(PathOrder, walk.seen);
    SortingKeepsMembers(walk.seen, PathOrder);
    forall f | Reaches(imports, entry, f) ensures f in walk.seen {
      var chain :| Chain(imports, chain) && chain[0] == entry && chain[|chain| - 1] == f;
      ChainStaysIn(imports, chain, walk.seen);
    }
  }
}

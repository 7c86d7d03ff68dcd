/** The rendered instruction files on disk: writing, pruning and the drift check. */
module Surfaces {
  import opened Lists
  import opened Text

  /** Path to bytes, and path to rendered text. */
  type Tree = map<string, string>

  const GENERATED_TREES: seq<string> := [
    ".opencode/instructions", ".opencode/skills", ".opencode/agents", ".opencode/commands",
    ".claude/rules", ".claude/skills", ".claude/agents", ".claude/commands"]

  predicate Under(tree: string, path: string) { tree + "/" <= path }

  predicate Generated(path: string) { exists i | 0 <= i < |GENERATED_TREES| :: Under(GENERATED_TREES[i], path) }

  /** The eight trees whose files the generator owns; root documents and everything else are not among them. */
  lemma GeneratedExactlyWhen(path: string)
    ensures Generated(path) <==>
            || ".opencode/instructions/" <= path || ".opencode/skills/" <= path
            || ".opencode/agents/" <= path || ".opencode/commands/" <= path
            || ".claude/rules/" <= path || ".claude/skills/" <= path
            || ".claude/agents/" <= path || ".claude/commands/" <= path
  {
    assert GENERATED_TREES[0] + "/" == ".opencode/instructions/" && GENERATED_TREES[1] + "/" == ".opencode/skills/";
    assert GENERATED_TREES[2] + "/" == ".opencode/agents/" && GENERATED_TREES[3] + "/" == ".opencode/commands/";
    assert GENERATED_TREES[4] + "/" == ".claude/rules/" && GENERATED_TREES[5] + "/" == ".claude/skills/";
    assert GENERATED_TREES[6] + "/" == ".claude/agents/" && GENERATED_TREES[7] + "/" == ".claude/commands/";
    assert Generated(path) <==> exists i | 0 <= i < 8 :: Under(GENERATED_TREES[i], path);
    assert (Under(GENERATED_TREES[0], path) || Under(GENERATED_TREES[1], path) || Under(GENERATED_TREES[2], path)
            || Under(GENERATED_TREES[3], path) || Under(GENERATED_TREES[4], path) || Under(GENERATED_TREES[5], path)
            || Under(GENERATED_TREES[6], path) || Under(GENERATED_TREES[7], path)) ==> Generated(path);
  }

  /** Reading in text mode turns `\r\n` and `\r` into `\n`; writing changes nothing. */
  function ReadText(bytes: string): string {
    if bytes == "" then ""
    else if bytes[0] != '\r' then [bytes[0]] + ReadText(bytes[1..])
    else if |bytes| > 1 && bytes[1] == '\n' then "\n" + ReadText(bytes[2..])
    else "\n" + ReadText(bytes[1..])
  }

  /** Text between carriage returns is read as it is; a carriage return, with or without a newline behind it, is
      read as one newline. */
  lemma {:induction false} ReadTextMeans(text: string, rest: string)
    requires '\r' !in text
    ensures ReadText(text + rest) == text + ReadText(rest)
    ensures ReadText("\r\n" + rest) == "\n" + ReadText(rest)
    ensures rest == "" || rest[0] != '\n' ==> ReadText("\r" + rest) == "\n" + ReadText(rest)
  {
    assert ("\r\n" + rest)[2..] == rest && ("\r" + rest)[1..] == rest;
    if rest != "" { assert ("\r" + rest)[1] == rest[0]; }
    if text == "" {
      assert text + rest == rest;
    } else {
      assert (text + rest)[0] == text[0] && text[0] in text && (text + rest)[1..] == text[1..] + rest;
      ReadTextMeans(text[1..], rest);
      assert text == [text[0]] + text[1..];
    }
  }

  lemma {:induction false} ReadTextKeepsExactly(s: string)
    ensures ReadText(s) == s <==> '\r' !in s
    ensures |ReadText(s)| <= |s|
  {
    if s != "" {
      assert s == [s[0]] + s[1..];
      ReadTextKeepsExactly(s[1..]);
      if s[0] != '\r' {
        assert ReadText(s)[1..] == ReadText(s[1..]);
      } else {
        assert ReadText(s)[0] == '\n';
        if |s| > 1 && s[1] == '\n' { ReadTextKeepsExactly(s[2..]); }
      }
    }
  }

  // ---- the check ---------------------------------------------------------------------------------

  predicate Missing(files: Tree, rendered: Tree, path: string) { path in rendered && path !in files }

  predicate Stale(files: Tree, rendered: Tree, path: string) {
    path in rendered && path in files && ReadText(files[path]) != rendered[path]
  }

  predicate Orphan(files: Tree, rendered: Tree, path: string) {
    path in files && Generated(path) && path !in rendered
  }

  /** The committed tree is exactly the rendering. */
  ghost predicate Matches(files: Tree, rendered: Tree) {
    && (forall p :: p in rendered ==> p in files && ReadText(files[p]) == rendered[p])
    && forall p :: p in files && Generated(p) ==> p in rendered
  }

  /** A line the check prints. */
  ghost predicate Reported(files: Tree, rendered: Tree, line: string) {
    || (exists p :: Missing(files, rendered, p) && line == "missing: " + p)
    || (exists p :: Stale(files, rendered, p) && line == "stale:   " + p)
    || (exists p :: Orphan(files, rendered, p) && line == "orphan:  " + p)
  }

  lemma NothingReportedExactlyWhen(files: Tree, rendered: Tree)
    ensures (forall line :: !Reported(files, rendered, line)) <==> Matches(files, rendered)
  {
    if forall line :: !Reported(files, rendered, line) {
      forall p | p in rendered ensures p in files && ReadText(files[p]) == rendered[p] {
        assert !Reported(files, rendered, "missing: " + p);
        assert !Reported(files, rendered, "stale:   " + p);
        assert !Missing(files, rendered, p) && !Stale(files, rendered, p);
      }
      forall p | p in files && Generated(p) ensures p in rendered {
        assert !Reported(files, rendered, "orphan:  " + p);
        assert !Orphan(files, rendered, p);
      }
    }
  }

  // ---- the writer --------------------------------------------------------------------------------

  /** The tree after `write_surfaces`. */
  function Written(files: Tree, rendered: Tree): Tree {
    map p | p in files.Keys + rendered.Keys && (p in rendered || !Generated(p)) ::
      if p in rendered then rendered[p] else files[p]
  }

  /** A write leaves no drift exactly when no rendered text holds a carriage return, which reading would change. */
  lemma WritingConvergesExactlyWhen(files: Tree, rendered: Tree)
    ensures Matches(Written(files, rendered), rendered) <==> forall p :: p in rendered ==> '\r' !in rendered[p]
  {
    var after := Written(files, rendered);
    forall p | p in rendered
      ensures p in after && after[p] == rendered[p] && (ReadText(after[p]) == rendered[p] <==> '\r' !in rendered[p])
    {
      ReadTextKeepsExactly(rendered[p]);
    }
  }

  /** A second write changes nothing and prunes nothing. */
  lemma WritingTwiceIsWritingOnce(files: Tree, rendered: Tree)
    ensures Written(Written(files, rendered), rendered) == Written(files, rendered)
    ensures forall p :: !Orphan(Written(files, rendered), rendered, p)
  {
  }

  /** Files that are neither rendered nor in a generated tree are as they were, the rest are what is rendered. */
  lemma OnlyTheSurfaceIsTouched(files: Tree, rendered: Tree, p: string)
    ensures p !in rendered && !Generated(p) ==>
              (p in Written(files, rendered) <==> p in files)
              && (p in files ==> Written(files, rendered)[p] == files[p])
    ensures p in rendered || Generated(p) ==>
              (p in Written(files, rendered) <==> p in rendered)
              && (p in rendered ==> Written(files, rendered)[p] == rendered[p])
  {
  }

  /** The root documents are not pruned: what is left of a dropped one is neither removed nor reported. */
  lemma ADroppedRootStaysUnreported(files: Tree, rendered: Tree, p: string)
    requires p in files && p !in rendered && !Generated(p)
    ensures p in Written(files, rendered)
    ensures Matches(files, rendered) <==> Matches(files - {p}, rendered)
  {
    var less := files - {p};
    assert forall q :: q != p ==> (q in less <==> q in files);
    assert forall q :: q in less ==> less[q] == files[q];
    if Matches(less, rendered) {
      forall q | q in rendered ensures q in files && ReadText(files[q]) == rendered[q] { assert q in less; }
      forall q | q in files && Generated(q) ensures q in rendered { assert q in less; }
    }
    if Matches(files, rendered) {
      forall q | q in rendered ensures q in less && ReadText(less[q]) == rendered[q] { assert q != p; }
    }
  }

  lemma WrittenThenPruned(before: Tree, rendered: Tree, after: Tree)
    requires forall p :: p in after <==> p in before + rendered && (p in rendered || !Generated(p))
    requires forall p :: p in after ==> after[p] == (before + rendered)[p]
    ensures after == Written(before, rendered)
    ensures forall p :: Orphan(before + rendered, rendered, p) <==> Orphan(before, rendered, p)
  {
    assert after.Keys == Written(before, rendered).Keys;
    assert forall p :: p in after ==> after[p] == Written(before, rendered)[p];
  }

  // ---- the files themselves -----------------------------------------------------------------------

  /** `sorted((ROOT / tree).rglob("*"))`: paths compare part by part. */
  method ListTree(files: Tree, tree: string) returns (paths: seq<string>)
    ensures forall p :: p in paths <==> p in files && Under(tree, p)
    ensures Distinct(paths)
  {
    var todo, found := files.Keys, [];
    while todo != {}
      invariant todo <= files.Keys
      invariant forall p :: p in found <==> p in files && p !in todo && Under(tree, p)
      invariant Distinct(found)
      decreases |todo|
    {
      var p :| p in todo;
      todo := todo - {p};
      if Under(tree, p) { found := found + [p]; }
    }
    paths := StableSort(PathOrder, found);
    SortingKeepsMembers(found, PathOrder);
  }

  class Checkout {
    var files: Tree

    constructor (files: Tree)
      ensures this.files == files
    {
      this.files := files;
    }

    /** `find_drift` */
    method FindDrift(rendered: Tree) returns (drift: seq<string>)
      ensures SortedBy(Itself, drift) && Distinct(drift)
      ensures forall line :: line in drift <==> Reported(files, rendered, line)
      ensures drift == [] <==> Matches(files, rendered)
    {
      var lines := RenderedDrift(rendered);
      for t := 0 to |GENERATED_TREES|
        invariant Distinct(lines)
        invariant forall line :: line in lines <==>
          RenderedReport(files, rendered, rendered.Keys, line) || OrphanReport(files, rendered, t, line)
      {
        var orphans := OrphansUnder(rendered, GENERATED_TREES[t]);
        forall line | line in lines ensures line !in orphans { OrphansAreNew(files, rendered, t, line); }
        DistinctTogether(lines, orphans);
        lines := lines + orphans;
      }
      drift := StableSort(Itself, lines);
      StableSortSorts(Itself, lines);
      SortingKeepsMembers(lines, Itself);
      forall line ensures line in drift <==> Reported(files, rendered, line) {
        ReportsTogether(files, rendered, line);
      }
      NothingReportedExactlyWhen(files, rendered);
      EmptyOrInhabited(drift);
    }

    /** The missing and stale lines. */
    method RenderedDrift(rendered: Tree) returns (lines: seq<string>)
      ensures Distinct(lines)
      ensures forall line :: line in lines <==> RenderedReport(files, rendered, rendered.Keys, line)
    {
      lines := [];
      var todo := rendered.Keys;
      while todo != {}
        invariant todo <= rendered.Keys && Distinct(lines)
        invariant forall line :: line in lines <==> RenderedReport(files, rendered, rendered.Keys - todo, line)
        decreases |todo|
      {
        var rel :| rel in todo;
        assert rendered.Keys - (todo - {rel}) == (rendered.Keys - todo) + {rel};
        forall line | line in lines ensures PathIn(line) != rel { ReportNamesItsPath(files, rendered, rendered.Keys - todo, line); }
        todo := todo - {rel};
        LinesNameTheirPaths(rel);
        if rel !in files {
          lines := lines + ["missing: " + rel];
        } else if ReadText(files[rel]) != rendered[rel] {
          lines := lines + ["stale:   " + rel];
        }
      }
    }

    method OrphansUnder(rendered: Tree, tree: string) returns (lines: seq<string>)
      ensures Distinct(lines)
      ensures forall line :: line in lines <==>
        exists p :: p in files && Under(tree, p) && p !in rendered && line == "orphan:  " + p
    {
      var paths := ListTree(files, tree);
      lines := [];
      for i := 0 to |paths|
        invariant Distinct(lines)
        invariant forall line :: line in lines <==>
          exists p :: p in paths[..i] && p !in rendered && line == "orphan:  " + p
      {
        TakeOneMore(paths, i);
        assert paths[i] !in paths[..i];
        forall line | line in lines ensures PathIn(line) != paths[i] {
          var p :| p in paths[..i] && line == "orphan:  " + p;
          LinesNameTheirPaths(p);
        }
        LinesNameTheirPaths(paths[i]);
        if paths[i] !in rendered { lines := lines + ["orphan:  " + paths[i]]; }
      }
      assert paths[..|paths|] == paths;
    }

    /** `write_surfaces` */
    method WriteSurfaces(rendered: Tree) returns (written: nat, pruned: seq<string>)
      modifies this
      ensures files == Written(old(files), rendered)
      ensures forall p :: p !in rendered && !Generated(p) ==>
                (p in files <==> p in old(files)) && (p in files ==> files[p] == old(files)[p])
      ensures forall p :: p in rendered ==> p in files && files[p] == rendered[p]
      ensures written == |rendered|
      ensures Distinct(pruned)
      ensures forall p :: p in pruned <==> Orphan(old(files), rendered, p)
    {
      WriteAll(rendered);
      pruned := PruneAll(rendered);
      WrittenThenPruned(old(files), rendered, files);
      forall p { OnlyTheSurfaceIsTouched(old(files), rendered, p); }
      written := |rendered|;
    }

    /** The pruning loop over the generated trees. */
    method PruneAll(rendered: Tree) returns (pruned: seq<string>)
      modifies this
      ensures forall p :: p in files <==> p in old(files) && (p in rendered || !Generated(p))
      ensures forall p :: p in files ==> files[p] == old(files)[p]
      ensures Distinct(pruned)
      ensures forall p :: p in pruned <==> Orphan(old(files), rendered, p)
    {
      pruned := [];
      for t := 0 to |GENERATED_TREES|
        invariant forall p :: p in files <==> p in old(files) && (p in rendered || !PrunedBy(t, p))
        invariant forall p :: p in files ==> files[p] == old(files)[p]
        invariant Distinct(pruned)
        invariant forall p :: p in pruned <==> p in old(files) && p !in rendered && PrunedBy(t, p)
      {
        var more := PruneUnder(rendered, GENERATED_TREES[t]);
        DistinctTogether(pruned, more);
        pruned := pruned + more;
        PrunedByOneMore(t);
      }
      assert forall p :: PrunedBy(|GENERATED_TREES|, p) <==> Generated(p);
    }

    method WriteAll(rendered: Tree)
      modifies this
      ensures files == old(files) + rendered
    {
      var todo := rendered.Keys;
      while todo != {}
        invariant todo <= rendered.Keys
        invariant files.Keys == old(files).Keys + (rendered.Keys - todo)
        invariant forall p :: p in files ==>
          files[p] == if p in rendered && p !in todo then rendered[p] else if p in old(files) then old(files)[p] else ""
        decreases |todo|
      {
        var rel :| rel in todo;
        todo := todo - {rel};
        files := files[rel := rendered[rel]];
      }
    }

    method PruneUnder(rendered: Tree, tree: string) returns (pruned: seq<string>)
      modifies this
      ensures forall p :: p in files <==> p in old(files) && (p in rendered || !Under(tree, p))
      ensures forall p :: p in files ==> files[p] == old(files)[p]
      ensures Distinct(pruned)
      ensures forall p :: p in pruned <==> p in old(files) && Under(tree, p) && p !in rendered
    {
      var paths := ListTree(files, tree);
      pruned := [];
      for i := 0 to |paths|
        invariant forall p :: p in files <==> p in old(files) && (p in rendered || p !in paths[..i])
        invariant forall p :: p in files ==> files[p] == old(files)[p]
        invariant Distinct(pruned)
        invariant forall p :: p in pruned <==> p in paths[..i] && p !in rendered
      {
        TakeOneMore(paths, i);
        if paths[i] !in rendered {
          files := files - {paths[i]};
          pruned := pruned + [paths[i]];
        }
      }
      assert paths[..|paths|] == paths;
    }
  }

  ghost predicate RenderedReport(files: Tree, rendered: Tree, paths: set<string>, line: string) {
    || (exists p :: p in paths && Missing(files, rendered, p) && line == "missing: " + p)
    || (exists p :: p in paths && Stale(files, rendered, p) && line == "stale:   " + p)
  }

  ghost predicate OrphanReport(files: Tree, rendered: Tree, trees: nat, line: string) {
    exists p :: p in files && PrunedBy(trees, p) && p !in rendered && line == "orphan:  " + p
  }

  /** Whether one of the first `n` generated trees holds the path. */
  predicate PrunedBy(n: nat, path: string) {
    exists i | 0 <= i < n && i < |GENERATED_TREES| :: Under(GENERATED_TREES[i], path)
  }

  // ---- one line for each path --------------------------------------------------------------------

  /** The path a report line names: the three kinds are equally long. */
  function PathIn(line: string): string { if |line| < 9 then "" else line[9..] }

  lemma LinesNameTheirPaths(p: string)
    ensures PathIn("missing: " + p) == p && PathIn("stale:   " + p) == p && PathIn("orphan:  " + p) == p
  {
  }

  lemma ReportNamesItsPath(files: Tree, rendered: Tree, paths: set<string>, line: string)
    requires RenderedReport(files, rendered, paths, line)
    ensures PathIn(line) in paths
  {
    if p :| p in paths && Missing(files, rendered, p) && line == "missing: " + p {
      LinesNameTheirPaths(p);
    } else {
      var p :| p in paths && Stale(files, rendered, p) && line == "stale:   " + p;
      LinesNameTheirPaths(p);
    }
  }

  /** The characters that tell the generated trees apart. */
  function Mark(path: string): (char, char)
    requires |path| > 10
  {
    (path[1], if path[1] == 'o' then path[10] else path[8])
  }

  function TreeMark(i: nat): (char, char)
    requires i < |GENERATED_TREES|
  {
    [('o', 'i'), ('o', 's'), ('o', 'a'), ('o', 'c'), ('c', 'r'), ('c', 's'), ('c', 'a'), ('c', 'c')][i]
  }

  lemma PathsCarryTheirTreesMark(i: nat, path: string)
    requires i < |GENERATED_TREES| && Under(GENERATED_TREES[i], path)
    ensures |path| > 10 && Mark(path) == TreeMark(i)
  {
    var tree := GENERATED_TREES[i] + "/";
    assert |tree| > 10 && path[1] == tree[1] && path[8] == tree[8] && path[10] == tree[10];
  }

  /** No path is under two generated trees. */
  lemma TreesAreDisjoint(i: nat, j: nat, path: string)
    requires i < |GENERATED_TREES| && j < |GENERATED_TREES|
    requires Under(GENERATED_TREES[i], path) && Under(GENERATED_TREES[j], path)
    ensures i == j
  {
    PathsCarryTheirTreesMark(i, path);
    PathsCarryTheirTreesMark(j, path);
  }

  /** What the check has said so far is not about a path of the next tree that nobody renders. */
  lemma OrphansAreNew(files: Tree, rendered: Tree, t: nat, line: string)
    requires t < |GENERATED_TREES|
    requires RenderedReport(files, rendered, rendered.Keys, line) || OrphanReport(files, rendered, t, line)
    ensures !exists p :: p in files && Under(GENERATED_TREES[t], p) && p !in rendered && line == "orphan:  " + p
  {
    forall p | p in files && Under(GENERATED_TREES[t], p) && p !in rendered ensures line != "orphan:  " + p {
      LinesNameTheirPaths(p);
      if RenderedReport(files, rendered, rendered.Keys, line) {
        ReportNamesItsPath(files, rendered, rendered.Keys, line);
      } else {
        var q :| q in files && PrunedBy(t, q) && q !in rendered && line == "orphan:  " + q;
        LinesNameTheirPaths(q);
        var i :| 0 <= i < t && i < |GENERATED_TREES| && Under(GENERATED_TREES[i], q);
        if p == q { TreesAreDisjoint(i, t, p); }
      }
    }
  }

  lemma PrunedByOneMore(n: nat)
    requires n < |GENERATED_TREES|
    ensures forall p :: PrunedBy(n + 1, p) <==> PrunedBy(n, p) || Under(GENERATED_TREES[n], p)
  {
  }

  lemma ReportsTogether(files: Tree, rendered: Tree, line: string)
    ensures Reported(files, rendered, line) <==>
            RenderedReport(files, rendered, rendered.Keys, line) || OrphanReport(files, rendered, |GENERATED_TREES|, line)
  {
    assert forall p :: PrunedBy(|GENERATED_TREES|, p) <==> Generated(p);
  }
}

/** The append-only registry index, and how the lines of one version fold into one row. */
module Merge {
  import opened Text
  import opened Lists

  /** A JSON value of a row: null or a text. */
  datatype Value = Null | Str(text: string)

  type Row = map<string, Value>

  /** A line of `registry_index.jsonl`; blank and broken lines are `Skipped`. */
  datatype Line = Skipped | Json(row: Row)

  /** `row.get(field)` */
  function Get(r: Row, field: string): Option<string> {
    if field in r && r[field].Str? then Some(r[field].text) else None
  }

  /** `row.get(field) or ""` */
  function GetOrBlank(r: Row, field: string): string {
    if Get(r, field).Some? then Get(r, field).value else ""
  }

  function Kid(r: Row): string { GetOrBlank(r, "knowledge_id") }

  function Eid(r: Row): string { GetOrBlank(r, "entity_id") }

  function Stamp(r: Row): string { GetOrBlank(r, "indexed_at") }

  predicate IsValid(l: Line) { l.Json? && Kid(l.row) != "" && Eid(l.row) != "" }

  /** The rows `_iter_registry_rows` yields. */
  function ValidRows(log: seq<Line>): seq<Row>
    decreases |log|
  {
    if log == [] then []
    else
      var last := log[|log| - 1];
      ValidRows(log[..|log| - 1]) + if IsValid(last) then [last.row] else []
  }

  // ---- merging the lines of one version ------------------------------------------------

  /** `{k: v for k, v in row.items() if v is not None}` */
  predicate NamedBy(r: Row, field: string) { field in r && r[field].Str? && r[field].text != "" }

  /** A line counts exactly when it is an object with a version id and an entity id that are non-empty texts;
      the rows stay in the order of the lines. */
  lemma ALineCountsExactlyWhen(log: seq<Line>, l: Line)
    ensures ValidRows(log + [l]) ==
            ValidRows(log) + if l.Json? && NamedBy(l.row, "knowledge_id") && NamedBy(l.row, "entity_id") then [l.row] else []
  {
    assert (log + [l])[..|log + [l]| - 1] == log;
  }

  function NonNull(r: Row): Row { map k | k in r && r[k].Str? :: r[k] }

  /** A line that is not older than what is known adds its non-null fields. */
  function MergeRow(known: Row, r: Row): Row {
    if StrLe(Stamp(known), Stamp(r)) then known + NonNull(r) else known
  }

  function MergeAll(rows: seq<Row>): Row
    requires rows != []
    decreases |rows|
  {
    var n := |rows| - 1;
    if n == 0 then rows[0] else MergeRow(MergeAll(rows[..n]), rows[n])
  }

  /** Line `i` is at least as late as every line before it. */
  ghost predicate RunningMax(rows: seq<Row>, i: nat)
    requires i < |rows|
  {
    forall j :: 0 <= j < i ==> StrLe(Stamp(rows[j]), Stamp(rows[i]))
  }

  /** `o` is the last non-null value of `field` over the running maxima, None when there is none. */
  ghost predicate LastSupplied(rows: seq<Row>, field: string, o: Option<string>) {
    if o.None? then
      forall i: nat :: i < |rows| && RunningMax(rows, i) ==> Get(rows[i], field).None?
    else
      exists i: nat :: i < |rows| && SuppliesLast(rows, field, i) && Get(rows[i], field) == o
  }

  /** The merged row carries the latest stamp. */
  lemma {:induction false} MergedStampIsTheLatest(rows: seq<Row>)
    requires rows != []
    ensures forall j :: 0 <= j < |rows| ==> StrLe(Stamp(rows[j]), Stamp(MergeAll(rows)))
    ensures exists j :: 0 <= j < |rows| && Stamp(rows[j]) == Stamp(MergeAll(rows))
    decreases |rows|
  {
    var n := |rows| - 1;
    if n == 0 {
      StrLeTotal(Stamp(rows[0]), Stamp(rows[0]));
    } else {
      var known := MergeAll(rows[..n]);
      MergedStampIsTheLatest(rows[..n]);
      var m := MergeAll(rows);
      if StrLe(Stamp(known), Stamp(rows[n])) {
        MergeTakesStamp(known, rows[n]);
        StrLeTotal(Stamp(m), Stamp(m));
        forall j | 0 <= j < n ensures StrLe(Stamp(rows[j]), Stamp(m)) {
          assert rows[j] == rows[..n][j];
          StrLeTransitive(Stamp(rows[j]), Stamp(known), Stamp(m));
        }
      } else {
        StrLeTotal(Stamp(known), Stamp(rows[n]));
        var j :| 0 <= j < n && Stamp(rows[..n][j]) == Stamp(known);
        assert Stamp(rows[j]) == Stamp(m);
        forall j | 0 <= j < n ensures StrLe(Stamp(rows[j]), Stamp(m)) { assert rows[j] == rows[..n][j]; }
      }
    }
  }

  lemma MergeTakesStamp(known: Row, r: Row)
    requires StrLe(Stamp(known), Stamp(r))
    ensures Stamp(known + NonNull(r)) == Stamp(r)
  {
    if Get(r, "indexed_at").None? { assert StrLe(Stamp(known), "") && Stamp(known) == ""; }
  }

  lemma MergeGet(known: Row, r: Row, field: string)
    ensures Get(known + NonNull(r), field) == if Get(r, field).Some? then Get(r, field) else Get(known, field)
  {
  }

  /** The next line is merged in exactly when it is a running maximum. */
  lemma MergesRunningMaxima(rows: seq<Row>)
    requires |rows| > 1
    ensures var n := |rows| - 1;
            StrLe(Stamp(MergeAll(rows[..n])), Stamp(rows[n])) <==> RunningMax(rows, n)
  {
    var n := |rows| - 1;
    var known := MergeAll(rows[..n]);
    MergedStampIsTheLatest(rows[..n]);
    if StrLe(Stamp(known), Stamp(rows[n])) {
      forall j | 0 <= j < n ensures StrLe(Stamp(rows[j]), Stamp(rows[n])) {
        assert rows[j] == rows[..n][j];
        StrLeTransitive(Stamp(rows[j]), Stamp(known), Stamp(rows[n]));
      }
    }
  }

  lemma FrontRunningMax(rows: seq<Row>, n: nat, i: nat)
    requires i < n <= |rows|
    ensures RunningMax(rows[..n], i) <==> RunningMax(rows, i)
  {
    assert forall j :: 0 <= j <= i ==> rows[..n][j] == rows[j];
  }

  /** Line `i` supplies the field and no running maximum after it does. */
  ghost predicate SuppliesLast(rows: seq<Row>, field: string, i: nat)
    requires i < |rows|
  {
    RunningMax(rows, i) && forall k :: i < k < |rows| && RunningMax(rows, k) ==> Get(rows[k], field).None?
  }

  lemma SuppliesLastSkips(rows: seq<Row>, field: string, i: nat)
    requires i < |rows| - 1 && SuppliesLast(rows[..|rows| - 1], field, i)
    requires RunningMax(rows, |rows| - 1) ==> Get(rows[|rows| - 1], field).None?
    ensures SuppliesLast(rows, field, i)
  {
    var n := |rows| - 1;
    FrontRunningMax(rows, n, i);
    forall k | i < k < |rows| && RunningMax(rows, k) ensures Get(rows[k], field).None? {
      if k < n {
        FrontRunningMax(rows, n, k);
        assert rows[..n][k] == rows[k];
      }
    }
  }

  lemma LastSuppliedSkips(rows: seq<Row>, field: string, o: Option<string>)
    requires rows != [] && LastSupplied(rows[..|rows| - 1], field, o)
    requires RunningMax(rows, |rows| - 1) ==> Get(rows[|rows| - 1], field).None?
    ensures LastSupplied(rows, field, o)
  {
    var n := |rows| - 1;
    var front := rows[..n];
    if o.None? {
      forall i: nat | i < |rows| && RunningMax(rows, i) ensures Get(rows[i], field).None? {
        if i < n {
          FrontRunningMax(rows, n, i);
          assert front[i] == rows[i];
        }
      }
    } else {
      var i: nat :| i < n && SuppliesLast(front, field, i) && Get(front[i], field) == o;
      SuppliesLastSkips(rows, field, i);
      assert front[i] == rows[i];
    }
  }

  /** Field by field, the merge is the last non-null value over the running maxima. */
  lemma {:induction false} MergeKeepsTheLastSupplied(rows: seq<Row>, field: string)
    requires rows != []
    ensures LastSupplied(rows, field, Get(MergeAll(rows), field))
    decreases |rows|
  {
    var n := |rows| - 1;
    assert RunningMax(rows, 0);
    if n > 0 {
      MergeKeepsTheLastSupplied(rows[..n], field);
      MergesRunningMaxima(rows);
      MergeGet(MergeAll(rows[..n]), rows[n], field);
      if RunningMax(rows, n) && Get(rows[n], field).Some? {
        assert SuppliesLast(rows, field, n);
      } else {
        LastSuppliedSkips(rows, field, Get(MergeAll(rows[..n]), field));
      }
    }
  }

  ghost predicate InTimeOrder(rows: seq<Row>) {
    forall i, j :: 0 <= i < j < |rows| ==> StrLe(Stamp(rows[i]), Stamp(rows[j]))
  }

  /** On lines in time order no supplied field is lost: the merge has the last value anyone gave. */
  lemma InOrderNothingIsLost(rows: seq<Row>, field: string, i: nat)
    requires InTimeOrder(rows) && i < |rows| && Get(rows[i], field).Some?
    ensures exists k: nat :: i <= k < |rows| && Get(rows[k], field) == Get(MergeAll(rows), field)
              && Get(rows[k], field).Some?
              && forall l :: k < l < |rows| ==> Get(rows[l], field).None?
  {
    MergeKeepsTheLastSupplied(rows, field);
    forall k: nat | k < |rows| ensures RunningMax(rows, k) {}
    var o := Get(MergeAll(rows), field);
    assert RunningMax(rows, i);
    assert o.Some?;
    var k: nat :| k < |rows| && RunningMax(rows, k) && Get(rows[k], field) == o &&
      forall l :: k < l < |rows| && RunningMax(rows, l) ==> Get(rows[l], field).None?;
    forall l | k < l < |rows| ensures Get(rows[l], field).None? { assert RunningMax(rows, l); }
    assert i <= k;
  }

  // ---- merging in halves ---------------------------------------------------------------

  /** The second half is not older than the first anywhere that counts: its first line is at
      least as late as everything in the first half, or everything in it is older than that. */
  ghost predicate HalvesFit(a: seq<Row>, b: seq<Row>)
    requires a != [] && b != []
  {
    var latest := Stamp(MergeAll(a));
    StrLe(latest, Stamp(b[0])) || !StrLe(latest, Stamp(MergeAll(b)))
  }

  lemma NonNullOver(x: Row, y: Row)
    ensures NonNull(x + NonNull(y)) == NonNull(x) + NonNull(y)
  {
  }

  lemma FittingStep(whole: Row, a: Row, b: Row, r: Row)
    requires whole == a + NonNull(b) && Stamp(whole) == Stamp(b)
    ensures MergeRow(whole, r) == a + NonNull(MergeRow(b, r))
    ensures Stamp(MergeRow(whole, r)) == Stamp(MergeRow(b, r))
  {
    if StrLe(Stamp(b), Stamp(r)) {
      NonNullOver(b, r);
      MergeTakesStamp(b, r);
      MergeTakesStamp(whole, r);
      assert (a + NonNull(b)) + NonNull(r) == a + (NonNull(b) + NonNull(r));
    }
  }

  lemma {:induction false} FittingHalvesMerge(a: seq<Row>, b: seq<Row>)
    requires a != [] && b != []
    requires StrLe(Stamp(MergeAll(a)), Stamp(b[0]))
    ensures MergeAll(a + b) == MergeAll(a) + NonNull(MergeAll(b))
    ensures Stamp(MergeAll(a + b)) == Stamp(MergeAll(b))
    decreases |b|
  {
    var n := |b| - 1;
    var whole := a + b;
    assert whole[..|whole| - 1] == a + b[..n];
    assert MergeAll(whole) == MergeRow(MergeAll(a + b[..n]), b[n]);
    if n == 0 {
      assert a + b[..n] == a;
      MergeTakesStamp(MergeAll(a), b[0]);
    } else {
      FittingHalvesMerge(a, b[..n]);
      FittingStep(MergeAll(a + b[..n]), MergeAll(a), MergeAll(b[..n]), b[n]);
    }
  }

  lemma MergeAllOneMore(rows: seq<Row>, r: Row)
    requires rows != []
    ensures MergeAll(rows + [r]) == MergeRow(MergeAll(rows), r)
  {
    assert (rows + [r])[..|rows + [r]| - 1] == rows;
  }

  lemma {:induction false} OlderLinesAreIgnored(a: seq<Row>, b: seq<Row>)
    requires a != [] && forall j :: 0 <= j < |b| ==> !StrLe(Stamp(MergeAll(a)), Stamp(b[j]))
    ensures MergeAll(a + b) == MergeAll(a)
    decreases |b|
  {
    if b == [] {
      assert a + b == a;
    } else {
      var front, last := b[..|b| - 1], b[|b| - 1];
      OlderLinesAreIgnored(a, front);
      MergeAllOneMore(a + front, last);
      assert (a + front) + [last] == a + b;
    }
  }

  lemma OlderHalfIsIgnored(a: seq<Row>, b: seq<Row>)
    requires a != [] && b != []
    requires !StrLe(Stamp(MergeAll(a)), Stamp(MergeAll(b)))
    ensures MergeAll(a + b) == MergeAll(a)
  {
    MergedStampIsTheLatest(b);
    forall j | 0 <= j < |b| ensures !StrLe(Stamp(MergeAll(a)), Stamp(b[j])) {
      if StrLe(Stamp(MergeAll(a)), Stamp(b[j])) {
        StrLeTransitive(Stamp(MergeAll(a)), Stamp(b[j]), Stamp(MergeAll(b)));
      }
    }
    OlderLinesAreIgnored(a, b);
  }

  /** Merging a concatenation is merging the two merged halves whenever the halves fit. */
  lemma HalvesThatFitMerge(a: seq<Row>, b: seq<Row>)
    requires a != [] && b != [] && HalvesFit(a, b)
    ensures MergeAll(a + b) == MergeRow(MergeAll(a), MergeAll(b))
  {
    MergedStampIsTheLatest(b);
    if StrLe(Stamp(MergeAll(a)), Stamp(b[0])) {
      FittingHalvesMerge(a, b);
      StrLeTransitive(Stamp(MergeAll(a)), Stamp(b[0]), Stamp(MergeAll(b)));
    } else {
      OlderHalfIsIgnored(a, b);
    }
  }

  ghost predicate SameStamps(a: seq<Row>, b: seq<Row>) {
    |a| == |b| && forall i :: 0 <= i < |a| ==> Stamp(a[i]) == Stamp(b[i])
  }

  function Bare(stamp: string): Row { map["indexed_at" := Str(stamp)] }

  function BareRows(rows: seq<Row>): seq<Row> { seq(|rows|, i requires 0 <= i < |rows| => Bare(Stamp(rows[i]))) }

  lemma {:induction false} MergedStampsAgree(a: seq<Row>, b: seq<Row>)
    requires a != [] && SameStamps(a, b)
    ensures Stamp(MergeAll(a)) == Stamp(MergeAll(b))
  {
    MergedStampIsTheLatest(a);
    MergedStampIsTheLatest(b);
    var i :| 0 <= i < |a| && Stamp(a[i]) == Stamp(MergeAll(a));
    var j :| 0 <= j < |b| && Stamp(b[j]) == Stamp(MergeAll(b));
    assert StrLe(Stamp(b[i]), Stamp(MergeAll(b))) && StrLe(Stamp(a[j]), Stamp(MergeAll(a)));
    StrLeAntisymmetric(Stamp(MergeAll(a)), Stamp(MergeAll(b)));
  }

  lemma {:induction false} MergeKeysAreSupplied(rows: seq<Row>, field: string)
    requires rows != [] && forall i :: 0 <= i < |rows| ==> field !in rows[i]
    ensures field !in MergeAll(rows)
    decreases |rows|
  {
    if |rows| > 1 { MergeKeysAreSupplied(rows[..|rows| - 1], field); }
  }

  lemma {:induction false} MergeKeepsFirstKeys(rows: seq<Row>, field: string)
    requires rows != [] && Get(rows[0], field).Some?
    ensures Get(MergeAll(rows), field).Some?
    decreases |rows|
  {
    var n := |rows| - 1;
    if n > 0 {
      MergeKeepsFirstKeys(rows[..n], field);
      MergeGet(MergeAll(rows[..n]), rows[n], field);
    }
  }

  /** When they do not fit, a field that only the second half's first line supplies is kept by
      one order and lost by the other. */
  lemma MisfitLosesAField(a: seq<Row>, b: seq<Row>) returns (a': seq<Row>, b': seq<Row>)
    requires a != [] && b != [] && !HalvesFit(a, b)
    ensures SameStamps(a, a') && SameStamps(b, b')
    ensures MergeAll(a' + b') != MergeRow(MergeAll(a'), MergeAll(b'))
  {
    var x := "x";
    a' := BareRows(a);
    b' := BareRows(b)[0 := Bare(Stamp(b[0]))[x := Str("lost")]];
    MergedStampsAgree(a, a');
    MergedStampsAgree(b, b');
    MergeKeysAreSupplied(a', x);
    MergeKeepsFirstKeys(b', x);
    assert x in NonNull(MergeAll(b'));
    MisfitDropsTheFirst(a', b', x);
  }

  lemma {:induction false} MisfitDropsTheFirst(a: seq<Row>, b: seq<Row>, x: string)
    requires a != [] && b != [] && x !in MergeAll(a)
    requires !StrLe(Stamp(MergeAll(a)), Stamp(b[0]))
    requires forall i :: 0 < i < |b| ==> x !in b[i]
    ensures x !in MergeAll(a + b)
    decreases |b|
  {
    var n := |b| - 1;
    var whole := a + b;
    assert whole[..|whole| - 1] == a + b[..n];
    if n == 0 { assert a + b[..n] == a; } else { MisfitDropsTheFirst(a, b[..n], x); }
  }

  /** Exactly when halves may be merged separately whatever the lines carry. */
  lemma MergingHalvesExactlyWhen(a: seq<Row>, b: seq<Row>)
    requires a != [] && b != []
    ensures HalvesFit(a, b) <==>
            forall a': seq<Row>, b': seq<Row> :: SameStamps(a, a') && SameStamps(b, b') ==>
              MergeAll(a' + b') == MergeRow(MergeAll(a'), MergeAll(b'))
  {
    if HalvesFit(a, b) {
      forall a': seq<Row>, b': seq<Row> | SameStamps(a, a') && SameStamps(b, b')
        ensures MergeAll(a' + b') == MergeRow(MergeAll(a'), MergeAll(b'))
      {
        MergedStampsAgree(a, a');
        MergedStampsAgree(b, b');
        HalvesThatFitMerge(a', b');
      }
    } else {
      var a', b' := MisfitLosesAField(a, b);
    }
  }
}

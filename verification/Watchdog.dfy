/** The docs-drift flag: raised and cleared on edges only, and never cleared by a scan that could not look. */
module Watchdog {
  import opened Text

  datatype State = Clear | Raised | Unmeasured

  datatype Report = Report(errors: set<string>, drift: nat)

  /** How far a pass gets before it is killed. */
  datatype Reached = Nothing | History | StateFile | Flags

  datatype Pass = Pass(at: string, report: Report, dryRun: bool, reached: Reached)

  datatype StateDoc = StateDoc(state: State, since: string, at: string, drift: nat, scanned: State)
  datatype Edge = Edge(at: string, raised: bool)
  datatype HistoryLine = HistoryLine(at: string, drift: nat, state: State, scanned: State, edge: Option<bool>)

  datatype Files = Files(doc: Option<StateDoc>, history: seq<HistoryLine>, flags: seq<Edge>)

  /** `decide_state` */
  function DecideState(r: Report): State {
    if r.errors != {} then Unmeasured else if r.drift > 0 then Raised else Clear
  }

  /** `resolve_transition`: the state to hold, and whether this pass raises or clears the flag. */
  function ResolveTransition(prior: State, scanned: State): (State, Option<bool>) {
    if scanned == Unmeasured then (prior, None)
    else if scanned == prior then (scanned, None)
    else (scanned, Some(scanned == Raised))
  }

  function Prior(f: Files): (State, string) {
    match f.doc
    case None => (Clear, "")
    case Some(doc) => (doc.state, doc.since)
  }

  /** `run_once` on the three files. */
  function RunPass(f: Files, p: Pass): Files {
    var (priorState, priorSince) := Prior(f);
    var scanned := DecideState(p.report);
    var (state, edge) := ResolveTransition(priorState, scanned);
    var since := if edge.Some? || priorSince == "" then p.at else priorSince;
    if p.dryRun || p.reached == Nothing then f
    else
      var logged := f.(history := f.history + [HistoryLine(p.at, p.report.drift, state, scanned, edge)]);
      if p.reached == History then logged
      else
        var stored := logged.(doc := Some(StateDoc(state, since, p.at, p.report.drift, scanned)));
        if p.reached == StateFile || edge.None? then stored
        else stored.(flags := f.flags + [Edge(p.at, edge.value)])
  }

  function Run(passes: seq<Pass>): Files
    decreases |passes|
  {
    if passes == [] then Files(None, [], []) else RunPass(Run(passes[..|passes| - 1]), passes[|passes| - 1])
  }

  // ---- what the passes say, read off the list of passes alone -------------------------------------

  /** A pass that stored its state. */
  predicate Took(p: Pass) { !p.dryRun && (p.reached == StateFile || p.reached == Flags) }

  /** The verdict of the last stored pass that measured anything; clear before the first. */
  function Verdict(passes: seq<Pass>): State
    decreases |passes|
  {
    if passes == [] then Clear
    else
      var last := passes[|passes| - 1];
      if !Took(last) || last.report.errors != {} then Verdict(passes[..|passes| - 1])
      else if last.report.drift > 0 then Raised
      else Clear
  }

  /** The stamps of the passes that change the verdict. */
  function ChangeStamps(passes: seq<Pass>): seq<string>
    decreases |passes|
  {
    if passes == [] then []
    else
      var n := |passes| - 1;
      ChangeStamps(passes[..n]) + if Verdict(passes) != Verdict(passes[..n]) then [passes[n].at] else []
  }

  /** The first stored pass's stamp, or nothing. */
  function FirstStamp(passes: seq<Pass>): string {
    if passes == [] then "" else if Took(passes[0]) then passes[0].at else FirstStamp(passes[1..])
  }

  /** Every pass that changes the verdict lives to append its flag line. */
  predicate NoEdgeIsLost(passes: seq<Pass>)
    decreases |passes|
  {
    passes == [] ||
    (var front, last := passes[..|passes| - 1], passes[|passes| - 1];
     NoEdgeIsLost(front) && (Verdict(passes) != Verdict(front) ==> last.reached == Flags))
  }

  ghost predicate Stamped(passes: seq<Pass>) { forall n :: 0 <= n < |passes| ==> passes[n].at != "" }

  /** The flag file alternates, raised first. */
  ghost predicate Alternates(flags: seq<Edge>) {
    forall i :: 0 <= i < |flags| ==> (flags[i].raised <==> i % 2 == 0)
  }

  // ---- one pass, by what its report says ------------------------------------------------------------

  /** The pass wrote its trend line. */
  predicate Logged(p: Pass) { !p.dryRun && p.reached != Nothing }

  /** A stored pass that measured every axis holds the flag raised exactly when it found drift. */
  lemma AStoredPassHoldsWhatItFound(f: Files, p: Pass)
    requires p.report.errors == {} && Took(p)
    ensures var doc := RunPass(f, p).doc;
            && doc.Some? && (doc.value.state == Raised <==> p.report.drift > 0)
            && (doc.value.state == Clear <==> p.report.drift == 0)
            && doc.value.at == p.at && doc.value.drift == p.report.drift && doc.value.scanned == doc.value.state
  {
  }

  /** Its flag line is written exactly when the verdict differs from the one held, and says which way. */
  lemma AStoredPassFlagsItsEdge(f: Files, p: Pass)
    requires p.report.errors == {} && Took(p) && (f.doc.Some? ==> f.doc.value.state != Unmeasured)
    ensures var wasRaised := f.doc.Some? && f.doc.value.state == Raised;
            RunPass(f, p).flags ==
            f.flags + if p.reached == Flags && (p.report.drift > 0) != wasRaised then [Edge(p.at, p.report.drift > 0)] else []
  {
  }

  /** A scan that could not look leaves state, `since` and flags as they were, whatever drift it counts. */
  lemma AScanThatCouldNotLookChangesNothing(f: Files, p: Pass)
    requires p.report.errors != {} && f.doc.Some? && f.doc.value.since != ""
    ensures var after := RunPass(f, p);
            && after.doc.Some? && after.doc.value.state == f.doc.value.state && after.doc.value.since == f.doc.value.since
            && after.flags == f.flags
            && (Took(p) ==> after.doc.value.at == p.at && after.doc.value.scanned == Unmeasured)
  {
  }

  /** Over any run of stamped passes: one more pass that could not look changes neither the verdict nor,
      once something is stored, its stamp, and writes no flag line. */
  lemma AFailedScanNeverClears(passes: seq<Pass>, p: Pass)
    requires Stamped(passes) && p.at != "" && p.report.errors != {} && Run(passes).doc.Some?
    ensures var was, now := Run(passes), Run(passes + [p]);
            && now.doc.Some? && now.doc.value.state == was.doc.value.state && now.doc.value.since == was.doc.value.since
            && now.flags == was.flags
  {
    assert (passes + [p])[..|passes + [p]| - 1] == passes;
    SinceIsTheLastChange(passes);
    AScanThatCouldNotLookChangesNothing(Run(passes), p);
  }

  /** The trend line of a pass. */
  predicate IsTrendLine(line: HistoryLine, held: State, p: Pass) {
    var found := if p.report.errors != {} then Unmeasured else if p.report.drift > 0 then Raised else Clear;
    && line.at == p.at && line.drift == p.report.drift && line.scanned == found
    && line.state == (if found == Unmeasured then held else found)
    && line.edge == if found == Unmeasured || found == held then None else Some(found == Raised)
  }

  /** The trend file gains one line for every pass that is no dry run and lives to write it, and no other. */
  lemma {:induction false} HistoryHoldsEveryPass(passes: seq<Pass>)
    ensures var n, history := |passes|, Run(passes).history;
            passes != [] ==>
              var before := Run(passes[..n - 1]);
              if Logged(passes[n - 1]) then
                && |history| == |before.history| + 1 && history[..|before.history|] == before.history
                && IsTrendLine(history[|before.history|], Verdict(passes[..n - 1]), passes[n - 1])
              else history == before.history
  {
    if passes != [] { StateIsTheLastVerdict(passes[..|passes| - 1]); }
  }

  lemma {:induction false} VerdictIsMeasured(passes: seq<Pass>)
    ensures Verdict(passes) != Unmeasured
    decreases |passes|
  {
    if passes != [] { VerdictIsMeasured(passes[..|passes| - 1]); }
  }

  /** After every run the stored state is the verdict of the last stored pass that measured: a failed scan neither raises nor clears. */
  lemma {:induction false} StateIsTheLastVerdict(passes: seq<Pass>)
    ensures Prior(Run(passes)).0 == Verdict(passes)
    ensures Run(passes).doc.None? <==> forall n :: 0 <= n < |passes| ==> !Took(passes[n])
    decreases |passes|
  {
    if passes != [] {
      var n := |passes| - 1;
      StateIsTheLastVerdict(passes[..n]);
      assert forall k :: 0 <= k < n ==> passes[..n][k] == passes[k];
    }
  }

  lemma {:induction false} FirstStampStays(passes: seq<Pass>, p: Pass)
    ensures FirstStamp(passes + [p]) == if exists n :: 0 <= n < |passes| && Took(passes[n]) then FirstStamp(passes)
                                        else if Took(p) then p.at else ""
  {
    if passes == [] {
      assert (passes + [p])[1..] == [];
    } else {
      assert (passes + [p])[1..] == passes[1..] + [p];
      FirstStampStays(passes[1..], p);
      if n :| 0 <= n < |passes| && Took(passes[n]) && n > 0 { assert Took(passes[1..][n - 1]); }
    }
  }

  lemma PassExactly(f: Files, p: Pass)
    ensures var edge := ResolveTransition(Prior(f).0, DecideState(p.report)).1;
            var after := RunPass(f, p);
            && after.doc == (if Took(p) then after.doc else f.doc)
            && Prior(after).1 == (if !Took(p) then Prior(f).1 else if edge.Some? || Prior(f).1 == "" then p.at else Prior(f).1)
            && after.flags == f.flags + (if Took(p) && p.reached == Flags && edge.Some? then [Edge(p.at, edge.value)] else [])
  {
  }

  lemma ChangeIsAnEdge(passes: seq<Pass>)
    requires passes != []
    ensures var before, last := passes[..|passes| - 1], passes[|passes| - 1];
            var edge := ResolveTransition(Prior(Run(before)).0, DecideState(last.report)).1;
            && (Verdict(passes) != Verdict(before) <==> Took(last) && edge.Some?)
            && (Took(last) && edge.Some? ==> edge.value == (Verdict(passes) == Raised))
  {
    StateIsTheLastVerdict(passes[..|passes| - 1]);
  }

  /** What the passes themselves say about `since`. */
  function LastStamp(passes: seq<Pass>): string {
    var stamps := ChangeStamps(passes);
    if stamps != [] then stamps[|stamps| - 1] else FirstStamp(passes)
  }

  lemma ChangesGrow(before: seq<Pass>, p: Pass)
    ensures ChangeStamps(before + [p]) == ChangeStamps(before) + if Verdict(before + [p]) != Verdict(before) then [p.at] else []
  {
    assert (before + [p])[..|before + [p]| - 1] == before;
  }

  predicate Stored(passes: seq<Pass>) { exists n :: 0 <= n < |passes| && Took(passes[n]) }

  lemma LastStampOnceStored(before: seq<Pass>, p: Pass)
    requires Stored(before)
    ensures LastStamp(before + [p]) == if Verdict(before + [p]) != Verdict(before) then p.at else LastStamp(before)
  {
    ChangesGrow(before, p);
    FirstStampStays(before, p);
  }

  lemma LastStampAtFirst(before: seq<Pass>, p: Pass)
    requires !Stored(before)
    ensures LastStamp(before + [p]) == if Took(p) then p.at else ""
  {
    ChangesGrow(before, p);
    FirstStampStays(before, p);
    NothingStoredNothingChanges(before);
    assert (before + [p])[..|before + [p]| - 1] == before;
    ChangeIsAnEdge(before + [p]);
  }

  /** `since` is the stamp of the last change of verdict, or of the first stored pass when there was none. */
  lemma {:induction false} SinceIsTheLastChange(passes: seq<Pass>)
    requires Stamped(passes)
    ensures Prior(Run(passes)).1 == LastStamp(passes)
    ensures Run(passes).doc.Some? ==> Prior(Run(passes)).1 != ""
    decreases |passes|
  {
    if passes != [] {
      var n := |passes| - 1;
      var before, last := passes[..n], passes[n];
      SinceIsTheLastChange(before);
      StateIsTheLastVerdict(before);
      ChangeIsAnEdge(passes);
      PassExactly(Run(before), last);
      assert passes == before + [last];
      if Stored(before) { LastStampOnceStored(before, last); } else { LastStampAtFirst(before, last); }
      assert last.at != "";
    }
  }

  lemma {:induction false} NothingStoredNothingChanges(passes: seq<Pass>)
    requires forall n :: 0 <= n < |passes| ==> !Took(passes[n])
    ensures ChangeStamps(passes) == []
    decreases |passes|
  {
    if passes != [] { NothingStoredNothingChanges(passes[..|passes| - 1]); }
  }

  function StampsOf(flags: seq<Edge>): seq<string> {
    seq(|flags|, i requires 0 <= i < |flags| => flags[i].at)
  }

  lemma {:induction false} FlagsNeverExceedChanges(passes: seq<Pass>)
    ensures |Run(passes).flags| <= |ChangeStamps(passes)|
    ensures |Run(passes).flags| == |ChangeStamps(passes)| <==> NoEdgeIsLost(passes)
    ensures NoEdgeIsLost(passes) ==> StampsOf(Run(passes).flags) == ChangeStamps(passes)
    decreases |passes|
  {
    if passes != [] {
      var before, last := passes[..|passes| - 1], passes[|passes| - 1];
      FlagsNeverExceedChanges(before);
      ChangeIsAnEdge(passes);
      PassExactly(Run(before), last);
      var now, was := Run(passes).flags, Run(before).flags;
      if |now| > |was| { assert StampsOf(now) == StampsOf(was) + [last.at]; }
    }
  }

  /** There is one flag line per change of verdict, with its stamp, exactly when no changing pass dies before its flag line. */
  lemma OneFlagPerChangeExactlyWhen(passes: seq<Pass>)
    ensures StampsOf(Run(passes).flags) == ChangeStamps(passes) <==> NoEdgeIsLost(passes)
  {
    FlagsNeverExceedChanges(passes);
  }

  /** While no edge is lost the flag lines alternate, raised first, and the last one is the state held. */
  lemma {:induction false} FlagsAlternate(passes: seq<Pass>)
    requires NoEdgeIsLost(passes)
    ensures Alternates(Run(passes).flags)
    ensures Verdict(passes) == Raised <==> |Run(passes).flags| % 2 == 1
    decreases |passes|
  {
    if passes != [] {
      var before, last := passes[..|passes| - 1], passes[|passes| - 1];
      FlagsAlternate(before);
      VerdictIsMeasured(before);
      VerdictIsMeasured(passes);
      ChangeIsAnEdge(passes);
      PassExactly(Run(before), last);
      assert Run(passes).flags == Run(before).flags
             || Run(passes).flags == Run(before).flags + [Edge(last.at, Verdict(passes) == Raised)];
    }
  }

  /** How many changing passes died before their flag line. */
  function Lost(passes: seq<Pass>): nat
    decreases |passes|
  {
    if passes == [] then 0
    else
      var front, last := passes[..|passes| - 1], passes[|passes| - 1];
      Lost(front) + if Verdict(passes) != Verdict(front) && last.reached != Flags then 1 else 0
  }

  /** Before every flag line that was written an even number of edges was lost. */
  predicate LostInPairs(passes: seq<Pass>)
    decreases |passes|
  {
    passes == [] ||
    (var front, last := passes[..|passes| - 1], passes[|passes| - 1];
     LostInPairs(front) && (Verdict(passes) != Verdict(front) && last.reached == Flags ==> Lost(front) % 2 == 0))
  }

  /** What one more pass adds to the flag file. */
  lemma PassFlags(passes: seq<Pass>)
    requires passes != []
    ensures var before, last := passes[..|passes| - 1], passes[|passes| - 1];
            Run(passes).flags == Run(before).flags
              + if Verdict(passes) != Verdict(before) && last.reached == Flags then [Edge(last.at, Verdict(passes) == Raised)] else []
  {
    ChangeIsAnEdge(passes);
    PassExactly(Run(passes[..|passes| - 1]), passes[|passes| - 1]);
  }

  /** Every change is a flag line or lost, and the verdict is raised after an odd number of changes. */
  lemma {:induction false} ChangesAreFlagsOrLost(passes: seq<Pass>)
    ensures Verdict(passes) == Raised <==> (|Run(passes).flags| + Lost(passes)) % 2 == 1
    decreases |passes|
  {
    if passes != [] {
      var before := passes[..|passes| - 1];
      ChangesAreFlagsOrLost(before);
      VerdictIsMeasured(before);
      VerdictIsMeasured(passes);
      PassFlags(passes);
    }
  }

  lemma OneFlagMore(flags: seq<Edge>, e: Edge)
    ensures Alternates(flags + [e]) <==> Alternates(flags) && (e.raised <==> |flags| % 2 == 0)
  {
    assert forall i :: 0 <= i < |flags| ==> (flags + [e])[i] == flags[i];
    assert (flags + [e])[|flags|] == e;
    if Alternates(flags + [e]) {
      forall i | 0 <= i < |flags| ensures flags[i].raised <==> i % 2 == 0 { assert (flags + [e])[i] == flags[i]; }
    }
  }

  /** The flag lines alternate, raised first, exactly when an even number of edges was lost before each. */
  lemma {:induction false} FlagsAlternateExactlyWhen(passes: seq<Pass>)
    ensures Alternates(Run(passes).flags) <==> LostInPairs(passes)
    decreases |passes|
  {
    if passes != [] {
      var before, last := passes[..|passes| - 1], passes[|passes| - 1];
      FlagsAlternateExactlyWhen(before);
      ChangesAreFlagsOrLost(before);
      VerdictIsMeasured(before);
      VerdictIsMeasured(passes);
      PassFlags(passes);
      OneFlagMore(Run(before).flags, Edge(last.at, Verdict(passes) == Raised));
      assert Run(before).flags + [] == Run(before).flags;
    }
  }

  /** A raise whose pass dies between the state file and the flag file is never recorded: the next line is a clear. */
  lemma ALostRaiseLeavesALoneClear(at1: string, at2: string)
    ensures var passes := [Pass(at1, Report({}, 1), false, StateFile), Pass(at2, Report({}, 0), false, Flags)];
            Run(passes).flags == [Edge(at2, false)]
  {
    var p, q := Pass(at1, Report({}, 1), false, StateFile), Pass(at2, Report({}, 0), false, Flags);
    assert [p, q][..1] == [p] && [p][..0] == [];
    assert Prior(Run([p])).0 == Raised;
  }

  // ---- the pass ------------------------------------------------------------------------------------

  class ResultsDir {
    var doc: Option<StateDoc>
    var history: seq<HistoryLine>
    var flags: seq<Edge>

    constructor ()
      ensures Snapshot() == Files(None, [], [])
    {
      doc, history, flags := None, [], [];
    }

    function Snapshot(): Files
      reads this
    {
      Files(doc, history, flags)
    }

    /** `run_once` */
    method RunOnce(p: Pass) returns (state: State, edge: Option<bool>)
      modifies this
      ensures Snapshot() == RunPass(old(Snapshot()), p)
      ensures (state, edge) == ResolveTransition(Prior(old(Snapshot())).0, DecideState(p.report))
    {
      var priorState, priorSince := Clear, "";
      if doc.Some? { priorState, priorSince := doc.value.state, doc.value.since; }
      var scanned := DecideState(p.report);
      var resolved := ResolveTransition(priorState, scanned);
      state, edge := resolved.0, resolved.1;
      var since := if edge.Some? then p.at else if priorSince != "" then priorSince else p.at;
      if p.dryRun || p.reached == Nothing { return; }
      history := history + [HistoryLine(p.at, p.report.drift, state, scanned, edge)];
      if p.reached == History { return; }
      doc := Some(StateDoc(state, since, p.at, p.report.drift, scanned));
      if p.reached == StateFile { return; }
      if edge.Some? { flags := flags + [Edge(p.at, edge.value)]; }
    }
  }
}

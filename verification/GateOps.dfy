/** The gate's operations run whole, one after another, and how they sit inside the
    interleavings. */
module GateOps {
  import opened Text
  import opened GateFiles
  import opened GateSteps
  import opened GateSafety

  datatype Outcome =
    | Unmeasured | SpecMissing | AlreadyInFlight | NothingWarranted | Withdrawn | Unchanged | NewlyWarranted
    | RefusedNoProposal | RefusedNoApproval | RefusedStaleApproval | RefusedBadWorkdir | RefusedBadMode
    | WouldDispatch | DispatchFailed | Dispatched | WouldApprove | SignedOnly
    | NotHeld | RefusedBadStatus | Retired

  datatype Decision = Decision(files: Files, outcome: Outcome, enqueued: bool)

  function ProposeOp(f: Files, a: ProposeArgs): Decision {
    if a.report.None? || !a.report.value.measured then Decision(f, Unmeasured, false)
    else if a.spec.None? then Decision(f, SpecMissing, false)
    else if f.lock.Held? && f.proposal.state.InFlight? then Decision(f, AlreadyInFlight, false)
    else
      var draft := Draft(a, f.approvals);
      Decision(
        if a.dryRun then f else f.(proposal := draft),
        if a.report.value.drift <= a.threshold then
          (if Standing(f.proposal.state) then Withdrawn else NothingWarranted)
        else if f.proposal.state.Warranted? && f.proposal.id == draft.id then Unchanged
        else NewlyWarranted,
        false)
  }

  /** `me` stands for the identity of the lock file this call creates. */
  function DispatchOp(me: nat, f: Files, a: DispatchArgs): Decision {
    var doc := f.proposal;
    if !Standing(doc.state) then
      Decision(f, if doc.state.InFlight? then AlreadyInFlight else RefusedNoProposal, false)
    else if f.approvals == [] then Decision(f, RefusedNoApproval, false)
    else if !NewestNames(f.approvals, doc.id) then Decision(f, RefusedStaleApproval, false)
    else if !a.workdirOk then Decision(f, RefusedBadWorkdir, false)
    else if a.mode.None? then Decision(f, RefusedBadMode, false)
    else if a.spec.None? then Decision(f, SpecMissing, false)
    else if a.dryRun then Decision(f, WouldDispatch, false)
    else if f.lock.Held? then Decision(f, AlreadyInFlight, false)
    else if a.mode == Some(Fleet) && a.submits.NotQueued? then Decision(f, DispatchFailed, false)
    else
      var sig := f.approvals[|f.approvals| - 1];
      var run := RunOf(a, doc, sig);
      if a.mode == Some(Fleet) && a.submits.QueuedThenRaised? then
        Decision(f.(events := f.events + [Enqueued(me, run, doc, sig, true)]), DispatchFailed, false)
      else
        Decision(
          Files(InFlightDoc(a, doc, sig), f.approvals, f.runs + [RunRow(Some(run), InFlight)],
                Held(me, Some(run)),
                if a.mode == Some(Fleet) then f.events + [Enqueued(me, run, doc, sig, false)] else f.events),
          Dispatched, a.mode == Some(Fleet))
  }

  function SignOp(f: Files, a: ApproveArgs): Files {
    f.(approvals := f.approvals + [Sign(a, f.proposal)], proposal := SignedDoc(a, f.proposal))
  }

  function ApproveOp(me: nat, f: Files, a: ApproveArgs): Decision {
    if f.proposal.state.InFlight? then Decision(f, AlreadyInFlight, false)
    else if !Standing(f.proposal.state) || f.proposal.id == "" then Decision(f, RefusedNoProposal, false)
    else if !Signable(a, f.proposal) then Decision(f, RefusedStaleApproval, false)
    else if a.dryRun then Decision(f, WouldApprove, false)
    else if a.dispatch.None? then Decision(SignOp(f, a), SignedOnly, false)
    else DispatchOp(me, SignOp(f, a), Inner(a.dispatch.value))
  }

  function ReleaseOp(f: Files, a: ReleaseArgs): Decision {
    if f.lock.Free? then Decision(f, NotHeld, false)
    else if !Terminal(a.status) then Decision(f, RefusedBadStatus, false)
    else
      Decision(
        Files(TerminalDoc(a, f.proposal, f.lock.claim), f.approvals,
              f.runs + [RunRow(f.lock.claim, a.status)], Free,
              f.events + [Released(f.lock.inode, f.lock.claim)]),
        Retired, false)
  }

  datatype Op = DoPropose(pa: ProposeArgs) | DoApprove(aa: ApproveArgs) | DoDispatch(da: DispatchArgs)
              | DoRelease(ra: ReleaseArgs)

  function Apply(me: nat, f: Files, op: Op): Decision {
    match op
    case DoPropose(a) => ProposeOp(f, a)
    case DoApprove(a) => ApproveOp(me, f, a)
    case DoDispatch(a) => DispatchOp(me, f, a)
    case DoRelease(a) => ReleaseOp(f, a)
  }

  /** The files after a list of whole operations; operation k is caller k. */
  function After(ops: seq<Op>): Files
    decreases |ops|
  {
    if ops == [] then EMPTY_FILES
    else Apply(|ops| - 1, After(ops[..|ops| - 1]), ops[|ops| - 1]).files
  }

  // ---- a whole operation is its own steps, run without interruption --------------------

  function StartOf(op: Op): Task {
    match op
    case DoPropose(a) => ProposeReadDoc(a)
    case DoApprove(a) => ApproveReadDoc(a)
    case DoDispatch(a) => DispatchReadDoc(a)
    case DoRelease(a) => ReleaseReadDoc(a)
  }

  function Rank(t: Task): nat {
    match t
    case Ended => 0
    case ProposeWrite(_) => 1 case ProposeReadSignature(_) => 2
    case ProposeReadClaim(_, _) => 3 case ProposeReadDoc(_) => 4
    case ReleaseWrite(_, _, _) => 1 case ReleaseLog(_, _, _) => 2 case ReleaseUnlink(_, _, _) => 3
    case ReleaseReadClaim(_, _) => 4 case ReleaseReadDoc(_) => 5
    case DispatchWrite(_, _, _) => 1 case DispatchLog(_, _, _) => 2 case DispatchRollback(_, _, _) => 2
    case DispatchSubmit(_, _, _) => 3 case DispatchStamp(_, _, _) => 4 case DispatchClaim(_, _, _) => 5
    case DispatchReadSignature(_, _) => 6 case DispatchReadDoc(_) => 7
    case ApproveWrite(_, _) => 8 case ApproveAppend(_, _) => 9 case ApproveReadDoc(_) => 10
  }

  function RunAlone(me: nat, t: Task, f: Files): Files
    decreases Rank(t)
  {
    if t.Ended? then f
    else
      var (f', t') := Advance(me, t, f);
      RunAlone(me, t', f')
  }

  lemma StepAlone(me: nat, t: Task, f: Files)
    requires !t.Ended?
    ensures RunAlone(me, t, f) == RunAlone(me, Advance(me, t, f).1, Advance(me, t, f).0)
  {
    AdvanceLowersRank(me, t, f);
  }

  lemma ProposeAlone(me: nat, f: Files, a: ProposeArgs)
    ensures RunAlone(me, ProposeReadDoc(a), f) == ProposeOp(f, a).files
  {
    StepAlone(me, ProposeReadDoc(a), f);
    if Decidable(a) {
      var t1 := ProposeReadClaim(a, f.proposal.state);
      StepAlone(me, t1, f);
      if (f.lock.Held? && f.proposal.state.InFlight?) || a.dryRun {
      } else if a.report.value.drift <= a.threshold {
        assert Draft(a, []) == Draft(a, f.approvals);
        StepAlone(me, ProposeWrite(Draft(a, [])), f);
      } else {
        StepAlone(me, ProposeReadSignature(a), f);
        StepAlone(me, ProposeWrite(Draft(a, f.approvals)), f);
      }
    }
  }

  lemma ReleaseTail(me: nat, f: Files, a: ReleaseArgs, doc: Proposal, claim: Option<Run>)
    ensures RunAlone(me, ReleaseLog(a, doc, claim), f)
         == f.(runs := f.runs + [RunRow(claim, a.status)], proposal := TerminalDoc(a, doc, claim))
  {
    var (f1, t1) := Advance(me, ReleaseLog(a, doc, claim), f);
    assert RunAlone(me, t1, f1) == Advance(me, t1, f1).0;
  }

  lemma ReleaseAlone(me: nat, f: Files, a: ReleaseArgs)
    ensures RunAlone(me, ReleaseReadDoc(a), f) == ReleaseOp(f, a).files
  {
    var t1 := ReleaseReadClaim(a, f.proposal);
    assert RunAlone(me, ReleaseReadDoc(a), f) == RunAlone(me, t1, f);
    if f.lock.Held? && Terminal(a.status) {
      var t2 := ReleaseUnlink(a, f.proposal, f.lock.claim);
      assert RunAlone(me, t1, f) == RunAlone(me, t2, f);
      var (f3, t3) := Advance(me, t2, f);
      assert RunAlone(me, t2, f) == RunAlone(me, t3, f3);
      ReleaseTail(me, f3, a, f.proposal, f.lock.claim);
    } else {
      assert RunAlone(me, t1, f) == RunAlone(me, Ended, f);
    }
  }

  lemma DispatchTail(me: nat, f: Files, a: DispatchArgs, doc: Proposal, sig: Signature)
    ensures RunAlone(me, DispatchLog(a, doc, sig), f)
         == f.(runs := f.runs + [RunRow(Some(RunOf(a, doc, sig)), InFlight)], proposal := InFlightDoc(a, doc, sig))
  {
    var (f1, t1) := Advance(me, DispatchLog(a, doc, sig), f);
    assert RunAlone(me, t1, f1) == Advance(me, t1, f1).0;
  }

  lemma SubmitAlone(me: nat, f: Files, a: DispatchArgs, doc: Proposal, sig: Signature)
    ensures var run := RunOf(a, doc, sig);
            RunAlone(me, DispatchSubmit(a, doc, sig), f) ==
            if a.mode == Some(Fleet) && a.submits.NotQueued? then f.(lock := Free)
            else if a.mode == Some(Fleet) && a.submits.QueuedThenRaised? then
              f.(lock := Free, events := f.events + [Enqueued(me, run, doc, sig, true)])
            else f.(runs := f.runs + [RunRow(Some(run), InFlight)], proposal := InFlightDoc(a, doc, sig),
                    events := if a.mode == Some(Fleet) then f.events + [Enqueued(me, run, doc, sig, false)] else f.events)
  {
    var (f1, t1) := Advance(me, DispatchSubmit(a, doc, sig), f);
    StepAlone(me, DispatchSubmit(a, doc, sig), f);
    if t1.DispatchLog? {
      DispatchTail(me, f1, a, doc, sig);
    } else {
      StepAlone(me, t1, f1);
    }
  }

  lemma ClaimAlone(me: nat, f: Files, a: DispatchArgs, doc: Proposal, sig: Signature)
    requires f.lock.Free?
    ensures RunAlone(me, DispatchClaim(a, doc, sig), f)
         == RunAlone(me, DispatchSubmit(a, doc, sig), f.(lock := Held(me, Some(RunOf(a, doc, sig)))))
  {
    var f1 := f.(lock := Held(me, None));
    StepAlone(me, DispatchClaim(a, doc, sig), f);
    StepAlone(me, DispatchStamp(a, doc, sig), f1);
  }

  /** A dispatch that reaches the claim: it stands behind another lock, or submits. */
  lemma LaunchAlone(me: nat, f: Files, a: DispatchArgs)
    requires Standing(f.proposal.state) && NewestNames(f.approvals, f.proposal.id) && Launchable(a) && !a.dryRun
    ensures RunAlone(me, DispatchClaim(a, f.proposal, f.approvals[|f.approvals| - 1]), f) == DispatchOp(me, f, a).files
  {
    var sig := f.approvals[|f.approvals| - 1];
    if f.lock.Held? {
      StepAlone(me, DispatchClaim(a, f.proposal, sig), f);
    } else {
      ClaimAlone(me, f, a, f.proposal, sig);
      SubmitAlone(me, f.(lock := Held(me, Some(RunOf(a, f.proposal, sig)))), a, f.proposal, sig);
      assert f.(lock := Held(me, Some(RunOf(a, f.proposal, sig)))).(lock := Free) == f;
    }
  }

  lemma DispatchAlone(me: nat, f: Files, a: DispatchArgs)
    ensures RunAlone(me, DispatchReadDoc(a), f) == DispatchOp(me, f, a).files
  {
    StepAlone(me, DispatchReadDoc(a), f);
    if Standing(f.proposal.state) {
      StepAlone(me, DispatchReadSignature(a, f.proposal), f);
      if NewestNames(f.approvals, f.proposal.id) && Launchable(a) && !a.dryRun {
        LaunchAlone(me, f, a);
      } else {
        assert DispatchOp(me, f, a).files == f;
      }
    } else {
      assert DispatchOp(me, f, a).files == f;
    }
  }

  lemma SignAlone(me: nat, f: Files, a: ApproveArgs)
    requires Signable(a, f.proposal) && !a.dryRun
    ensures var t := if a.dispatch.None? then Ended else DispatchReadDoc(Inner(a.dispatch.value));
            RunAlone(me, ApproveReadDoc(a), f) == RunAlone(me, t, SignOp(f, a))
  {
    var f2 := f.(approvals := f.approvals + [Sign(a, f.proposal)]);
    StepAlone(me, ApproveReadDoc(a), f);
    StepAlone(me, ApproveAppend(a, f.proposal), f);
    StepAlone(me, ApproveWrite(a, f.proposal), f2);
    assert f2.(proposal := SignedDoc(a, f.proposal)) == SignOp(f, a);
  }

  lemma ApproveAlone(me: nat, f: Files, a: ApproveArgs)
    ensures RunAlone(me, ApproveReadDoc(a), f) == ApproveOp(me, f, a).files
  {
    if Signable(a, f.proposal) && !a.dryRun {
      SignAlone(me, f, a);
      if a.dispatch.Some? { DispatchAlone(me, SignOp(f, a), Inner(a.dispatch.value)); }
    } else {
      StepAlone(me, ApproveReadDoc(a), f);
    }
  }

  /** Each operation's description agrees with its steps taken without interruption. */
  lemma WholeIsItsSteps(me: nat, f: Files, op: Op)
    ensures RunAlone(me, StartOf(op), f) == Apply(me, f, op).files
  {
    match op
    case DoPropose(a) => ProposeAlone(me, f, a);
    case DoApprove(a) => ApproveAlone(me, f, a);
    case DoDispatch(a) => DispatchAlone(me, f, a);
    case DoRelease(a) => ReleaseAlone(me, f, a);
  }

  // ---- a list of whole operations is an interleaving that keeps the release rule --------

  function Steps(id: nat, n: nat): seq<Action> {
    if n == 0 then [] else [Go(id)] + Steps(id, n - 1)
  }

  function Script(ops: seq<Op>): seq<Action>
    decreases |ops|
  {
    if ops == [] then []
    else
      var n, op := |ops| - 1, ops[|ops| - 1];
      Script(ops[..n]) + ([Arrive(n, StartOf(op))] + Steps(n, Rank(StartOf(op))))
  }

  predicate Releasing(t: Task) {
    t.ReleaseReadDoc? || t.ReleaseReadClaim? || t.ReleaseUnlink? || t.ReleaseLog? || t.ReleaseWrite?
  }

  lemma AdvanceLowersRank(me: nat, t: Task, f: Files)
    ensures var (f', t') := Advance(me, t, f);
            && (Rank(t') < Rank(t) || t.Ended?)
            && (Releasing(t') ==> Releasing(t))
            && (f'.lock.Held? && (!f.lock.Held? || f'.lock.inode != f.lock.inode) ==> f'.lock.inode == me)
            && (Releasing(t) && f'.lock.Held? ==> f'.lock == f.lock)
  {
  }

  /** The only call still running steps exactly as it would alone. */
  ghost predicate Lone(s: Sys, id: nat) {
    && id in s.tasks
    && (forall c :: c in s.tasks && c != id ==> s.tasks[c].Ended?)
    && (s.files.lock.Held? ==> s.files.lock.inode in s.tasks)
    && (s.files.lock.Held? && Releasing(s.tasks[id]) ==> s.files.lock.inode != id)
  }

  lemma LoneStep(s: Sys, id: nat, ruled: bool)
    requires Lone(s, id) && !s.tasks[id].Ended?
    ensures var (f', t') := Advance(id, s.tasks[id], s.files);
            && Next(s, Go(id), ruled) == Sys(f', s.tasks[id := t'])
            && Lone(Next(s, Go(id), ruled), id)
  {
    AdvanceLowersRank(id, s.tasks[id], s.files);
    assert Allowed(s, id);
  }

  lemma {:induction false} AloneInTheSystem(s: Sys, id: nat, n: nat, ruled: bool)
    requires Lone(s, id) && Rank(s.tasks[id]) <= n
    ensures ExecFrom(s, Steps(id, n), ruled)
         == Sys(RunAlone(id, s.tasks[id], s.files), s.tasks[id := Ended])
    decreases n
  {
    if n == 0 {
      assert s.tasks[id := Ended] == s.tasks;
    } else {
      var s' := Next(s, Go(id), ruled);
      var (f', t') := Advance(id, s.tasks[id], s.files);
      AdvanceLowersRank(id, s.tasks[id], s.files);
      if s.tasks[id].Ended? {
        assert s' == s by { assert s.tasks[id := Ended] == s.tasks; }
      } else {
        LoneStep(s, id, ruled);
        StepAlone(id, s.tasks[id], s.files);
      }
      AloneInTheSystem(s', id, n - 1, ruled);
      assert s'.tasks[id := Ended] == s.tasks[id := Ended];
      assert Steps(id, n)[1..] == Steps(id, n - 1);
    }
  }

  /** A whole operation after a system at rest. */
  lemma OneMoreWhole(pre: seq<Action>, n: nat, op: Op, ruled: bool)
    requires var s := Exec(pre, ruled);
             && n !in s.tasks && (forall c :: c in s.tasks ==> s.tasks[c].Ended?)
             && (s.files.lock.Held? ==> s.files.lock.inode in s.tasks)
    ensures var s := Exec(pre, ruled);
            Exec(pre + ([Arrive(n, StartOf(op))] + Steps(n, Rank(StartOf(op)))), ruled)
            == Sys(Apply(n, s.files, op).files, s.tasks[n := Ended])
  {
    var s, t := Exec(pre, ruled), StartOf(op);
    var s1 := Next(s, Arrive(n, t), ruled);
    assert s1 == s.(tasks := s.tasks[n := t]);
    var tail := [Arrive(n, t)] + Steps(n, Rank(t));
    assert tail[1..] == Steps(n, Rank(t));
    ExecSplits(pre, tail, ruled);
    AloneInTheSystem(s1, n, Rank(t), ruled);
    WholeIsItsSteps(n, s.files, op);
    assert s1.tasks[n := Ended] == s.tasks[n := Ended];
  }

  /** Whole operations one after another are one of the interleavings, and the release rule
      never stops them. */
  lemma {:induction false} WholeRunsAreInterleavings(ops: seq<Op>)
    ensures Exec(Script(ops), true).files == After(ops)
    ensures Exec(Script(ops), false) == Exec(Script(ops), true)
    ensures forall c :: c in Exec(Script(ops), true).tasks ==>
              c < |ops| && Exec(Script(ops), true).tasks[c].Ended?
    decreases |ops|
  {
    if ops != [] {
      var n, op := |ops| - 1, ops[|ops| - 1];
      var pre := Script(ops[..n]);
      WholeRunsAreInterleavings(ops[..n]);
      InvHolds(pre);
      OneMoreWhole(pre, n, op, true);
      OneMoreWhole(pre, n, op, false);
    }
  }

  // ---- what every run of whole operations keeps ----------------------------------------

  /** The rows of `runs.jsonl` that record a launch of proposal `id`. */
  predicate IsLaunchRow(r: RunRow, id: string) {
    r.status.InFlight? && r.run.Some? && r.run.value.mode.Fleet? && r.run.value.proposalId == id
  }

  function LaunchRows(runs: seq<RunRow>, id: string): nat {
    if runs == [] then 0
    else LaunchRows(runs[..|runs| - 1], id) + if IsLaunchRow(runs[|runs| - 1], id) then 1 else 0
  }

  /** What stands on disk between whole operations. */
  ghost predicate Settled(f: Files) {
    && (f.lock.Held? <==> f.proposal.state.InFlight?)
    && (f.lock.Held? ==> f.proposal.run == Some(RunRow(f.lock.claim, InFlight)))
    && (f.proposal.state.Approved? ==> NewestNames(f.approvals, f.proposal.id))
    && (f.proposal.state.Warranted? ==> !NewestNames(f.approvals, f.proposal.id))
    && (forall id :: RowsCount(f, id))
  }

  /** The runs log holds one row per launch whose submit did not raise. */
  predicate RowsCount(f: Files, id: string) {
    Launches(f.events, id) == LaunchRows(f.runs, id) + RaisedLaunches(f.events, id)
  }

  lemma RowsAppend(runs: seq<RunRow>, r: RunRow, id: string)
    ensures LaunchRows(runs + [r], id) == LaunchRows(runs, id) + if IsLaunchRow(r, id) then 1 else 0
  {
    assert (runs + [r])[..|runs + [r]| - 1] == runs;
  }

  lemma DispatchKeepsRows(me: nat, f: Files, a: DispatchArgs, id: string)
    requires RowsCount(f, id)
    ensures RowsCount(DispatchOp(me, f, a).files, id)
  {
    var d := DispatchOp(me, f, a);
    if d.files != f {
      var sig := f.approvals[|f.approvals| - 1];
      var run := RunOf(a, f.proposal, sig);
      RowsAppend(f.runs, RunRow(Some(run), InFlight), id);
      CountsAppend(f.events, Enqueued(me, run, f.proposal, sig, a.submits.QueuedThenRaised?), id);
    }
  }

  lemma ReleaseKeepsRows(f: Files, a: ReleaseArgs, id: string)
    requires RowsCount(f, id)
    ensures RowsCount(ReleaseOp(f, a).files, id)
  {
    if ReleaseOp(f, a).outcome.Retired? {
      RowsAppend(f.runs, RunRow(f.lock.claim, a.status), id);
      CountsAppend(f.events, Released(f.lock.inode, f.lock.claim), id);
    }
  }

  lemma ApplyKeepsRows(me: nat, f: Files, op: Op, id: string)
    requires RowsCount(f, id)
    ensures RowsCount(Apply(me, f, op).files, id)
  {
    match op
    case DoPropose(a) =>
    case DoApprove(a) =>
      if a.dispatch.Some? { DispatchKeepsRows(me, SignOp(f, a), Inner(a.dispatch.value), id); }
    case DoDispatch(a) => DispatchKeepsRows(me, f, a, id);
    case DoRelease(a) => ReleaseKeepsRows(f, a, id);
  }

  lemma ApplyKeepsSettled(me: nat, f: Files, op: Op)
    requires Settled(f)
    ensures Settled(Apply(me, f, op).files)
  {
    forall id ensures RowsCount(Apply(me, f, op).files, id) {
      assert RowsCount(f, id);
      ApplyKeepsRows(me, f, op, id);
    }
  }

  /** In every run of whole operations: the lock exists exactly while the state is in-flight, and
      then the proposal names its run; a standing proposal is `approved` exactly when the newest
      signature names it; the runs log counts the launches whose submit did not raise; and launches
      of a proposal never exceed one plus its releases and its raised submits. */
  lemma {:induction false} EveryWholeRunIsSettled(ops: seq<Op>)
    ensures Settled(After(ops))
    ensures forall id :: Launches(After(ops).events, id)
                      <= 1 + Releases(After(ops).events, id) + RaisedLaunches(After(ops).events, id)
    decreases |ops|
  {
    if ops != [] {
      EveryWholeRunIsSettled(ops[..|ops| - 1]);
      ApplyKeepsSettled(|ops| - 1, After(ops[..|ops| - 1]), ops[|ops| - 1]);
    }
    WholeRunsAreInterleavings(ops);
    forall id ensures Launches(After(ops).events, id)
                   <= 1 + Releases(After(ops).events, id) + RaisedLaunches(After(ops).events, id) {
      LaunchesNeverExceedReleasesByMoreThanOne(Script(ops), id);
    }
  }

  // ---- when "at most once, ever, per proposal" holds ------------------------------------

  /** The submit puts a job on the queue, whether or not it then raises. */
  predicate WillSubmit(a: DispatchArgs) {
    a.workdirOk && a.spec.Some? && !a.dryRun && a.mode == Some(Fleet) && a.submits != NotQueued
  }

  /** What a caller can see before the call: an approved proposal about to be dispatched, or a
      standing one about to be signed and dispatched. */
  predicate WillLaunch(f: Files, op: Op) {
    match op
    case DoDispatch(a) => f.proposal.state == Approved && WillSubmit(a)
    case DoApprove(a) =>
      && (f.proposal.state == Warranted || f.proposal.state == Approved) && f.proposal.id != ""
      && (a.echoedId == None || a.echoedId == Some(f.proposal.id)) && !a.dryRun
      && a.dispatch.Some? && WillSubmit(a.dispatch.value.(dryRun := false))
    case _ => false
  }

  function SubmitOf(op: Op): Submit {
    match op
    case DoDispatch(a) => a.submits
    case DoApprove(a) => if a.dispatch.Some? then a.dispatch.value.submits else NotQueued
    case _ => NotQueued
  }

  /** The one job a call logs: under the newest signature, which names the standing proposal. */
  predicate LaunchFor(e: Event, f: Files, approvals: seq<Signature>, raised: bool) {
    e.Enqueued? && e.run.proposalId == f.proposal.id == e.signature.proposalId
    && Newest(approvals) == Some(e.signature) && e.raised == raised
  }

  /** A job is queued exactly when `WillLaunch` says so, at most one, and always under the newest
      signature; the call reports it exactly when its submit did not raise. */
  lemma EnqueuesExactlyWhen(me: nat, f: Files, op: Op)
    requires Settled(f)
    ensures var d := Apply(me, f, op);
            && (WillLaunch(f, op) ==>
                  && |d.files.events| == |f.events| + 1
                  && d.files.events == f.events + [d.files.events[|f.events|]]
                  && LaunchFor(d.files.events[|f.events|], f, d.files.approvals, SubmitOf(op).QueuedThenRaised?))
            && (!WillLaunch(f, op) ==> d.files.events == f.events || op.DoRelease?)
            && (d.enqueued <==> WillLaunch(f, op) && SubmitOf(op).Queued?)
  {
    match op
    case DoPropose(_) =>
    case DoRelease(_) =>
    case DoDispatch(_) =>
    case DoApprove(a) => if a.dispatch.Some? { assert Inner(a.dispatch.value).submits == a.dispatch.value.submits; }
  }

  ghost predicate OncePerProposal(f: Files) { forall id :: Launches(f.events, id) <= 1 }

  /** The promise "at most once, ever, per proposal" survives a call exactly unless the call
      launches a proposal with a launch on the runs log, or with a job on the queue whose submit
      raised and that no row records. */
  lemma OncePerProposalExactlyWhen(ops: seq<Op>, op: Op)
    requires OncePerProposal(After(ops))
    ensures var f := After(ops);
            OncePerProposal(After(ops + [op])) <==>
            !(WillLaunch(f, op)
              && (LaunchRows(f.runs, f.proposal.id) > 0 || RaisedLaunches(f.events, f.proposal.id) > 0))
  {
    var f, all := After(ops), ops + [op];
    EveryWholeRunIsSettled(ops);
    assert all[..|all| - 1] == ops;
    var d := Apply(|ops|, f, op);
    assert After(all) == d.files;
    EnqueuesExactlyWhen(|ops|, f, op);
    assert RowsCount(f, f.proposal.id);
    if d.files.events != f.events {
      var e := d.files.events[|f.events|];
      assert d.files.events == f.events + [e];
      forall id ensures Launches(d.files.events, id)
                     == Launches(f.events, id) + if e.Enqueued? && e.run.proposalId == id then 1 else 0 {
        CountsAppend(f.events, e, id);
      }
    }
  }
}

/** The gate's operations cut at every file access and at submit, and any number of callers
    advancing them in any order over the same files. */
module GateSteps {
  import opened Text
  import opened GateFiles

  /** The watchdog's level report, as far as the gate acts on it. */
  datatype Report = Report(measured: bool, drift: int, checkIds: seq<string>)

  /** How a submit ends. The fleet submit pushes the job and then writes its board record, so it can
      raise with the job already on the queue. */
  datatype Submit = NotQueued | Queued | QueuedThenRaised

  // What a caller passes in, together with what the outside world answers during the call: the
  // report that is read, the spec that is found (None: the file is missing and the call raises),
  // the workdir check, and how submit ends.
  datatype ProposeArgs = ProposeArgs(
    report: Option<Report>, spec: Option<Remediation>, threshold: int, dryRun: bool, at: nat)
  datatype DispatchArgs = DispatchArgs(
    workdirOk: bool, mode: Option<Mode>, spec: Option<Remediation>, dryRun: bool, submits: Submit, at: nat)
  datatype ApproveArgs = ApproveArgs(
    signer: string, echoedId: Option<string>, dryRun: bool, dispatch: Option<DispatchArgs>, at: nat)
  datatype ReleaseArgs = ReleaseArgs(status: ProposalState, at: nat)

  /** The next file access of a call, with the values it has read so far. */
  datatype Task =
    | ProposeReadDoc(pa: ProposeArgs)
    | ProposeReadClaim(pa: ProposeArgs, prior: ProposalState)
    | ProposeReadSignature(pa: ProposeArgs)
    | ProposeWrite(draft: Proposal)
    | ApproveReadDoc(aa: ApproveArgs)
    | ApproveAppend(aa: ApproveArgs, doc: Proposal)
    | ApproveWrite(aa: ApproveArgs, doc: Proposal)
    | DispatchReadDoc(da: DispatchArgs)
    | DispatchReadSignature(da: DispatchArgs, doc: Proposal)
    | DispatchClaim(da: DispatchArgs, doc: Proposal, signature: Signature)
    | DispatchStamp(da: DispatchArgs, doc: Proposal, signature: Signature)
    | DispatchSubmit(da: DispatchArgs, doc: Proposal, signature: Signature)
    | DispatchRollback(da: DispatchArgs, doc: Proposal, signature: Signature)
    | DispatchLog(da: DispatchArgs, doc: Proposal, signature: Signature)
    | DispatchWrite(da: DispatchArgs, doc: Proposal, signature: Signature)
    | ReleaseReadDoc(ra: ReleaseArgs)
    | ReleaseReadClaim(ra: ReleaseArgs, doc: Proposal)
    | ReleaseUnlink(ra: ReleaseArgs, doc: Proposal, claim: Option<Run>)
    | ReleaseLog(ra: ReleaseArgs, doc: Proposal, claim: Option<Run>)
    | ReleaseWrite(ra: ReleaseArgs, doc: Proposal, claim: Option<Run>)
    | Ended

  predicate IsStart(t: Task) {
    t.ProposeReadDoc? || t.ApproveReadDoc? || t.DispatchReadDoc? || t.ReleaseReadDoc?
  }

  // ---- the documents each operation writes --------------------------------------------

  predicate Decidable(a: ProposeArgs) {
    a.report.Some? && a.report.value.measured && a.spec.Some?
  }

  /** The document `propose` writes: none at or below the threshold; above it the fingerprinted
      proposal, already approved when the newest signature names it. */
  function Draft(a: ProposeArgs, approvals: seq<Signature>): Proposal
    requires Decidable(a)
  {
    var r, spec := a.report.value, a.spec.value;
    if r.drift <= a.threshold then
      Proposal(NoProposal, "", spec, r.checkIds, r.drift, None, None, a.at)
    else
      var id := Fingerprint(spec.name, r.checkIds);
      if NewestNames(approvals, id) then
        Proposal(Approved, id, spec, r.checkIds, r.drift, Newest(approvals), None, a.at)
      else
        Proposal(Warranted, id, spec, r.checkIds, r.drift, None, None, a.at)
  }

  predicate Signable(a: ApproveArgs, doc: Proposal) {
    Standing(doc.state) && doc.id != "" && (a.echoedId.Some? ==> a.echoedId.value == doc.id)
  }

  function Sign(a: ApproveArgs, doc: Proposal): Signature {
    Signature(a.at, doc.id, a.signer, doc.action, doc.checkIds)
  }

  function SignedDoc(a: ApproveArgs, doc: Proposal): Proposal {
    doc.(state := Approved, signature := Some(Sign(a, doc)), at := a.at)
  }

  /** `approve` dispatches with its own arguments and never as a dry run. */
  function Inner(a: DispatchArgs): DispatchArgs { a.(dryRun := false) }

  predicate Launchable(a: DispatchArgs) { a.workdirOk && a.mode.Some? && a.spec.Some? }

  function RunOf(a: DispatchArgs, doc: Proposal, signature: Signature): Run {
    Run(doc.id, a.at, if a.spec.Some? then a.spec.value else NO_ACTION, if a.mode.Some? then a.mode.value else Fleet, signature.signer, signature.at)
  }

  function InFlightDoc(a: DispatchArgs, doc: Proposal, signature: Signature): Proposal {
    doc.(state := InFlight, run := Some(RunRow(Some(RunOf(a, doc, signature)), InFlight)), at := a.at)
  }

  predicate Terminal(status: ProposalState) { status.Completed? || status.Failed? }

  function TerminalDoc(a: ReleaseArgs, doc: Proposal, claim: Option<Run>): Proposal {
    doc.(state := a.status, run := Some(RunRow(claim, a.status)), at := a.at)
  }

  // ---- one step of one call -----------------------------------------------------------

  /** What call `me` does next to the files. */
  function Advance(me: nat, t: Task, f: Files): (Files, Task) {
    match t
    case ProposeReadDoc(a) =>
      (f, if !Decidable(a) then Ended else ProposeReadClaim(a, f.proposal.state))
    case ProposeReadClaim(a, prior) =>
      (f, if !Decidable(a) || (f.lock.Held? && prior.InFlight?) || a.dryRun then Ended
          else if a.report.value.drift <= a.threshold then ProposeWrite(Draft(a, []))
          else ProposeReadSignature(a))
    case ProposeReadSignature(a) =>
      (f, if !Decidable(a) then Ended else ProposeWrite(Draft(a, f.approvals)))
    case ProposeWrite(draft) => (f.(proposal := draft), Ended)

    case ApproveReadDoc(a) =>
      (f, if !Signable(a, f.proposal) || a.dryRun then Ended else ApproveAppend(a, f.proposal))
    case ApproveAppend(a, doc) =>
      (f.(approvals := f.approvals + [Sign(a, doc)]), ApproveWrite(a, doc))
    case ApproveWrite(a, doc) =>
      (f.(proposal := SignedDoc(a, doc)),
       if a.dispatch.None? then Ended else DispatchReadDoc(Inner(a.dispatch.value)))

    case DispatchReadDoc(a) =>
      (f, if Standing(f.proposal.state) then DispatchReadSignature(a, f.proposal) else Ended)
    case DispatchReadSignature(a, doc) =>
      (f, if !NewestNames(f.approvals, doc.id) || !Launchable(a) || a.dryRun then Ended
          else DispatchClaim(a, doc, f.approvals[|f.approvals| - 1]))
    case DispatchClaim(a, doc, sig) =>  // O_CREAT | O_EXCL
      if f.lock.Held? then (f, Ended) else (f.(lock := Held(me, None)), DispatchStamp(a, doc, sig))
    case DispatchStamp(a, doc, sig) =>  // written through the descriptor `open` returned
      (if f.lock.Held? && f.lock.inode == me then f.(lock := Held(me, Some(RunOf(a, doc, sig)))) else f,
       DispatchSubmit(a, doc, sig))
    case DispatchSubmit(a, doc, sig) =>
      if a.mode != Some(Fleet) then (f, DispatchLog(a, doc, sig))
      else if a.submits.NotQueued? then (f, DispatchRollback(a, doc, sig))
      else
        (f.(events := f.events + [Enqueued(me, RunOf(a, doc, sig), doc, sig, a.submits.QueuedThenRaised?)]),
         if a.submits.Queued? then DispatchLog(a, doc, sig) else DispatchRollback(a, doc, sig))
    case DispatchRollback(a, doc, sig) =>  // unlinks whatever lock is there
      (f.(lock := Free), Ended)
    case DispatchLog(a, doc, sig) =>
      (f.(runs := f.runs + [RunRow(Some(RunOf(a, doc, sig)), InFlight)]), DispatchWrite(a, doc, sig))
    case DispatchWrite(a, doc, sig) => (f.(proposal := InFlightDoc(a, doc, sig)), Ended)

    case ReleaseReadDoc(a) => (f, ReleaseReadClaim(a, f.proposal))
    case ReleaseReadClaim(a, doc) =>
      (f, if f.lock.Free? || !Terminal(a.status) then Ended else ReleaseUnlink(a, doc, f.lock.claim))
    case ReleaseUnlink(a, doc, claim) =>  // unlinks whatever lock is there
      (if f.lock.Held?
       then f.(lock := Free, events := f.events + [Released(f.lock.inode, f.lock.claim)]) else f,
       ReleaseLog(a, doc, claim))
    case ReleaseLog(a, doc, claim) =>
      (f.(runs := f.runs + [RunRow(claim, a.status)]), ReleaseWrite(a, doc, claim))
    case ReleaseWrite(a, doc, claim) => (f.(proposal := TerminalDoc(a, doc, claim)), Ended)

    case Ended => (f, Ended)
  }

  // ---- interleavings ------------------------------------------------------------------

  datatype Sys = Sys(files: Files, tasks: map<nat, Task>)

  const START := Sys(EMPTY_FILES, map[])

  /** A new call arrives, a call takes its next step, or a call dies where it stands. */
  datatype Action = Arrive(id: nat, task: Task) | Go(id: nat) | Die(id: nat)

  /** The call has taken the lock to launch on the fleet and is not past the point where it may
      still submit or roll back. */
  predicate Spending(t: Task) {
    t.DispatchRollback? || ((t.DispatchStamp? || t.DispatchSubmit?) && t.da.mode == Some(Fleet))
  }

  predicate HolderMaySpend(s: Sys) {
    s.files.lock.Held? && s.files.lock.inode in s.tasks && Spending(s.tasks[s.files.lock.inode])
  }

  /** The operators' rule: `release` does not drop the lock of a call that may still submit or roll back. */
  predicate Allowed(s: Sys, id: nat)
    requires id in s.tasks
  {
    s.tasks[id].ReleaseUnlink? ==> !HolderMaySpend(s)
  }

  /** Steps that cannot be taken leave the system as it is. */
  function Next(s: Sys, act: Action, ruled: bool): Sys {
    match act
    case Arrive(id, t) => if id !in s.tasks && IsStart(t) then s.(tasks := s.tasks[id := t]) else s
    case Go(id) =>
      if id in s.tasks && (ruled ==> Allowed(s, id)) then
        var (f, t) := Advance(id, s.tasks[id], s.files);
        Sys(f, s.tasks[id := t])
      else s
    case Die(id) => if id in s.tasks then s.(tasks := s.tasks[id := Ended]) else s
  }

  lemma GoAdvances(s: Sys, id: nat, ruled: bool)
    requires id in s.tasks && (ruled ==> Allowed(s, id))
    ensures var (f', t') := Advance(id, s.tasks[id], s.files);
            Next(s, Go(id), ruled) == Sys(f', s.tasks[id := t'])
  {
  }

  /** The state after a list of actions; every list is an interleaving. */
  function Exec(acts: seq<Action>, ruled: bool): Sys
    decreases |acts|
  {
    if acts == [] then START
    else Next(Exec(acts[..|acts| - 1], ruled), acts[|acts| - 1], ruled)
  }

  function ExecFrom(s: Sys, acts: seq<Action>, ruled: bool): Sys
    decreases |acts|
  {
    if acts == [] then s else ExecFrom(Next(s, acts[0], ruled), acts[1..], ruled)
  }

  lemma {:induction false} ExecSplits(pre: seq<Action>, acts: seq<Action>, ruled: bool)
    ensures Exec(pre + acts, ruled) == ExecFrom(Exec(pre, ruled), acts, ruled)
    decreases |acts|
  {
    if acts == [] {
      assert pre + acts == pre;
    } else {
      var longer := pre + [acts[0]];
      assert longer[..|longer| - 1] == pre;
      ExecSplits(longer, acts[1..], ruled);
      assert longer + acts[1..] == pre + acts;
    }
  }

  lemma ExecFromStart(acts: seq<Action>, ruled: bool)
    ensures ExecFrom(START, acts, ruled) == Exec(acts, ruled)
  {
    ExecSplits([], acts, ruled);
    assert [] + acts == acts;
  }

  lemma {:induction false} ExecFromSplits(s: Sys, a: seq<Action>, b: seq<Action>, ruled: bool)
    ensures ExecFrom(s, a + b, ruled) == ExecFrom(ExecFrom(s, a, ruled), b, ruled)
    decreases |a|
  {
    if a == [] {
      assert a + b == b;
    } else {
      assert (a + b)[1..] == a[1..] + b;
      ExecFromSplits(Next(s, a[0], ruled), a[1..], b, ruled);
    }
  }
}

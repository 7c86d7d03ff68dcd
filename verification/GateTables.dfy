/** What each verb does to the files, and when, in terms of the fields a caller can see before the call. */
module GateTables {
  import opened Text
  import opened GateFiles
  import opened GateSteps
  import opened GateSafety
  import opened GateOps

  // ---- approve ---------------------------------------------------------------------------

  /** What decides whether `approve` signs: a warranted or approved proposal stands, it has an id, no
      other id is echoed, and it is no dry run. */
  predicate Signs(f: Files, a: ApproveArgs) {
    && (f.proposal.state == Warranted || f.proposal.state == Approved) && f.proposal.id != ""
    && (a.echoedId == None || a.echoedId == Some(f.proposal.id)) && !a.dryRun
  }

  /** The signature of the standing proposal, in its signer's name. */
  predicate IsSignature(s: Signature, a: ApproveArgs, doc: Proposal) {
    && s.proposalId == doc.id && s.action == doc.action && s.checkIds == doc.checkIds
    && s.signer == a.signer && s.at == a.at
  }

  /** `approve` appends a signature exactly when it may sign, and otherwise leaves every file as it was. */
  lemma ApproveSignsExactlyWhen(me: nat, f: Files, a: ApproveArgs)
    ensures var d := ApproveOp(me, f, a);
            && (|d.files.approvals| > |f.approvals| <==> Signs(f, a))
            && (!Signs(f, a) ==> d.files == f && !d.enqueued)
            && (Signs(f, a) ==>
                  && |d.files.approvals| == |f.approvals| + 1 && d.files.approvals[..|f.approvals|] == f.approvals
                  && IsSignature(d.files.approvals[|f.approvals|], a, f.proposal)
                  && d.files.proposal.id == f.proposal.id
                  && d.files.proposal.signature == Some(d.files.approvals[|f.approvals|]))
            && (Signs(f, a) && a.dispatch == None ==>
                  && d.files.proposal.state == Approved && d.files.proposal.at == a.at
                  && d.files.lock == f.lock && d.files.runs == f.runs && d.files.events == f.events)
  {
  }

  /** An operator who echoes an id that no longer stands is refused, and nothing is signed. */
  lemma AStaleEchoIsRefused(me: nat, f: Files, a: ApproveArgs)
    requires f.proposal.state == Warranted || f.proposal.state == Approved
    requires f.proposal.id != "" && a.echoedId.Some? && a.echoedId.value != f.proposal.id
    ensures ApproveOp(me, f, a) == Decision(f, RefusedStaleApproval, false)
  {
  }

  /** What an approve that does not go on to dispatch answers. */
  lemma ApproveIsRefusedFor(me: nat, f: Files, a: ApproveArgs)
    ensures var outcome := ApproveOp(me, f, a).outcome;
            var standing := (f.proposal.state == Warranted || f.proposal.state == Approved) && f.proposal.id != "";
            var echoed := a.echoedId == None || a.echoedId == Some(f.proposal.id);
            && (f.proposal.state == InFlight ==> outcome == AlreadyInFlight)
            && (f.proposal.state != InFlight && !standing ==> outcome == RefusedNoProposal)
            && (standing && !echoed ==> outcome == RefusedStaleApproval)
            && (standing && echoed && a.dryRun ==> outcome == WouldApprove)
            && (Signs(f, a) && a.dispatch == None ==> outcome == SignedOnly)
  {
  }

  /** The task call `c` arrived with. */
  function ArrivedAs(acts: seq<Action>, ruled: bool, c: nat): Option<Task>
    decreases |acts|
  {
    if acts == [] then None
    else
      var front, last := acts[..|acts| - 1], acts[|acts| - 1];
      if last.Arrive? && last.id == c && c !in Exec(front, ruled).tasks && IsStart(last.task) then Some(last.task)
      else ArrivedAs(front, ruled, c)
  }

  /** An approve call past its read carries its own arguments, may sign, and read a proposal it may sign. */
  predicate ReadyToSign(t: Task, arrived: Option<Task>) {
    match t
    case ApproveReadDoc(a) => arrived == Some(ApproveReadDoc(a))
    case ApproveAppend(a, doc) =>
      && arrived == Some(ApproveReadDoc(a)) && !a.dryRun && doc.id != ""
      && (doc.state == Warranted || doc.state == Approved) && (a.echoedId == None || a.echoedId == Some(doc.id))
    case _ => true
  }

  ghost predicate EveryoneReady(acts: seq<Action>, ruled: bool) {
    forall c :: c in Exec(acts, ruled).tasks ==>
      ArrivedAs(acts, ruled, c).Some? && ReadyToSign(Exec(acts, ruled).tasks[c], ArrivedAs(acts, ruled, c))
  }

  lemma AdvanceIsReady(me: nat, t: Task, f: Files, arrived: Option<Task>)
    requires ReadyToSign(t, arrived)
    ensures ReadyToSign(Advance(me, t, f).1, arrived)
  {
  }

  lemma {:induction false} EveryoneIsReady(acts: seq<Action>, ruled: bool)
    ensures EveryoneReady(acts, ruled)
    decreases |acts|
  {
    if acts != [] {
      var front, act := acts[..|acts| - 1], acts[|acts| - 1];
      EveryoneIsReady(front, ruled);
      var s := Exec(front, ruled);
      if act.Go? && act.id in s.tasks {
        AdvanceIsReady(act.id, s.tasks[act.id], s.files, ArrivedAs(front, ruled, act.id));
      }
    }
  }

  /** What one step does to the signatures. */
  lemma AdvanceSigns(me: nat, t: Task, f: Files)
    ensures var f' := Advance(me, t, f).0;
            if t.ApproveAppend? then
              && |f'.approvals| == |f.approvals| + 1 && f'.approvals[..|f.approvals|] == f.approvals
              && IsSignature(f'.approvals[|f.approvals|], t.aa, t.doc)
            else f'.approvals == f.approvals
  {
  }

  /** In every interleaving: a step that changes the signatures on file is a step of a call that arrived
      as an approve, not as a dry run; it adds one signature in that call's name, for a proposal with an
      id; and if the call echoed an id, the signature names the id that was echoed. */
  lemma EverySignatureIsTheEchoedOne(acts: seq<Action>, act: Action, ruled: bool) returns (a: ApproveArgs)
    requires Exec(acts + [act], ruled).files.approvals != Exec(acts, ruled).files.approvals
    ensures var was, now := Exec(acts, ruled).files.approvals, Exec(acts + [act], ruled).files.approvals;
            && |now| == |was| + 1 && now[..|was|] == was
            && act.Go? && ArrivedAs(acts, ruled, act.id) == Some(ApproveReadDoc(a)) && !a.dryRun
            && now[|was|].signer == a.signer && now[|was|].at == a.at && now[|was|].proposalId != ""
            && (a.echoedId.Some? ==> now[|was|].proposalId == a.echoedId.value)
  {
    var s := Exec(acts, ruled);
    assert (acts + [act])[..|acts + [act]| - 1] == acts;
    EveryoneIsReady(acts, ruled);
    assert act.Go? && act.id in s.tasks;
    AdvanceSigns(act.id, s.tasks[act.id], s.files);
    a := s.tasks[act.id].aa;
  }

  // ---- dispatch --------------------------------------------------------------------------------

  /** The call gets as far as the claim and finds no lock. */
  predicate Claims(f: Files, a: DispatchArgs) {
    && (f.proposal.state == Warranted || f.proposal.state == Approved)
    && f.approvals != [] && f.approvals[|f.approvals| - 1].proposalId == f.proposal.id
    && a.workdirOk && a.mode != None && a.spec != None && !a.dryRun && f.lock == Free
  }

  predicate Launched(f: Files, a: DispatchArgs) { Claims(f, a) && (a.mode == Some(Command) || a.submits == Queued) }

  /** The run that is recorded: what the call was told, what it reloaded, and who signed. */
  predicate IsRun(run: Run, f: Files, a: DispatchArgs)
    requires f.approvals != []
  {
    var newest := f.approvals[|f.approvals| - 1];
    && run.proposalId == f.proposal.id && run.at == a.at && Some(run.action) == a.spec && Some(run.mode) == a.mode
    && run.approvedBy == newest.signer && run.approvedAt == newest.at
  }

  /** Everything but the fields a verb rewrites is as it was. */
  predicate SameInventory(p: Proposal, q: Proposal) {
    p.id == q.id && p.action == q.action && p.checkIds == q.checkIds && p.drift == q.drift && p.signature == q.signature
  }

  /** `dispatch` launches exactly when it claims and its submit does not raise: lock, runs log and proposal
      then name one run, under the newest signature. A submit that raised after queueing leaves its job
      alone behind; in every other case no file changes. */
  lemma DispatchLaunchesExactlyWhen(me: nat, f: Files, a: DispatchArgs)
    ensures DispatchOp(me, f, a).outcome == Dispatched <==> Launched(f, a)
    ensures DispatchOp(me, f, a).enqueued <==> Launched(f, a) && a.mode == Some(Fleet)
    ensures Launched(f, a) ==> LaunchWritten(me, f, a, DispatchOp(me, f, a).files)
    ensures RaisedSubmit(f, a) ==>
              DispatchOp(me, f, a).outcome == DispatchFailed && OnlyQueued(me, f, a, DispatchOp(me, f, a).files)
    ensures !Launched(f, a) && !RaisedSubmit(f, a) ==> DispatchOp(me, f, a).files == f
  {
    var now := DispatchOp(me, f, a).files;
    assert a.mode.Some? ==> a.mode.value.Fleet? || a.mode.value.Command?;
    assert f.events + [] == f.events;
    if RaisedSubmit(f, a) { assert now.events[..|f.events|] == f.events; }
  }

  /** The submit raises with its job on the queue. */
  predicate RaisedSubmit(f: Files, a: DispatchArgs) { Claims(f, a) && a.mode == Some(Fleet) && a.submits == QueuedThenRaised }

  /** A job is on the queue and nothing else is written. */
  predicate OnlyQueued(me: nat, f: Files, a: DispatchArgs, now: Files) {
    && now.(events := f.events) == f && f.approvals != [] && |now.events| == |f.events| + 1
    && now.events[..|f.events|] == f.events
    && var e := now.events[|f.events|];
       && e.Enqueued? && e.caller == me && e.raised && e.doc == f.proposal && e.signature == f.approvals[|f.approvals| - 1]
       && IsRun(e.run, f, a)
  }

  predicate LaunchWritten(me: nat, f: Files, a: DispatchArgs, now: Files) {
    && f.approvals != []
    && now.lock.Held? && now.lock.inode == me && now.lock.claim.Some? && IsRun(now.lock.claim.value, f, a)
    && now.runs == f.runs + [RunRow(now.lock.claim, InFlight)] && now.approvals == f.approvals
    && SameInventory(now.proposal, f.proposal) && now.proposal.state == InFlight && now.proposal.at == a.at
    && now.proposal.run == Some(RunRow(now.lock.claim, InFlight))
    && now.events == f.events + if a.mode == Some(Fleet)
         then [Enqueued(me, now.lock.claim.value, f.proposal, f.approvals[|f.approvals| - 1], false)] else []
  }

  /** Which refusal a dispatch meets first. */
  lemma DispatchIsRefusedFor(me: nat, f: Files, a: DispatchArgs)
    ensures var outcome := DispatchOp(me, f, a).outcome;
            var standing := f.proposal.state == Warranted || f.proposal.state == Approved;
            var named := f.approvals != [] && f.approvals[|f.approvals| - 1].proposalId == f.proposal.id;
            && (outcome == RefusedNoProposal <==> !standing && f.proposal.state != InFlight)
            && (f.proposal.state == InFlight ==> outcome == AlreadyInFlight)
            && (outcome == RefusedNoApproval <==> standing && f.approvals == [])
            && (outcome == RefusedStaleApproval <==> standing && f.approvals != [] && !named)
            && (outcome == RefusedBadWorkdir <==> standing && named && !a.workdirOk)
            && (outcome == RefusedBadMode <==> standing && named && a.workdirOk && a.mode == None)
            && (outcome == AlreadyInFlight && standing ==> f.lock != Free && !a.dryRun)
            && (outcome == WouldDispatch ==> a.dryRun)
  {
  }

  // ---- propose ---------------------------------------------------------------------------------

  predicate Writes(f: Files, a: ProposeArgs) {
    && a.report.Some? && a.report.value.measured && a.spec.Some? && !a.dryRun
    && !(f.lock != Free && f.proposal.state == InFlight)
  }

  /** `propose` rewrites the document exactly when it measured, found the spec, may write, and no run is in
      flight. Above the threshold the document carries the fingerprint, approved under the newest signature
      when that one names it; otherwise nothing is proposed. No other file changes. */
  lemma ProposeWritesExactlyWhen(f: Files, a: ProposeArgs)
    ensures var d := ProposeOp(f, a);
            && !d.enqueued && d.files.(proposal := f.proposal) == f
            && (!Writes(f, a) ==> d.files == f)
            && (Writes(f, a) ==> ProposalWritten(f, a, d.files.proposal))
  {
  }

  predicate ProposalWritten(f: Files, a: ProposeArgs, now: Proposal)
    requires a.report.Some? && a.spec.Some?
  {
    var r := a.report.value;
    var id := a.spec.value.name + "\n" + JoinLines(Sorted(r.checkIds));
    && Some(now.action) == a.spec && now.checkIds == r.checkIds && now.drift == r.drift && now.at == a.at && now.run == None
    && (r.drift <= a.threshold ==> now.state == NoProposal && now.id == "" && now.signature == None)
    && (r.drift > a.threshold ==>
          && now.id == id
          && if f.approvals != [] && f.approvals[|f.approvals| - 1].proposalId == id then
               now.state == Approved && now.signature == Some(f.approvals[|f.approvals| - 1])
             else now.state == Warranted && now.signature == None)
  }

  /** What a proposing call reports, a dry run included. */
  lemma ProposeReports(f: Files, a: ProposeArgs)
    ensures var outcome := ProposeOp(f, a).outcome;
            var standing := f.proposal.state == Warranted || f.proposal.state == Approved;
            if a.report == None || !a.report.value.measured then outcome == Unmeasured
            else if a.spec == None then outcome == SpecMissing
            else if f.lock != Free && f.proposal.state == InFlight then outcome == AlreadyInFlight
            else if a.report.value.drift <= a.threshold then outcome == if standing then Withdrawn else NothingWarranted
            else outcome == if f.proposal.state == Warranted && f.proposal.id == Fingerprint(a.spec.value.name, a.report.value.checkIds)
                            then Unchanged else NewlyWarranted
  {
  }

  // ---- release ---------------------------------------------------------------------------------

  /** `release` closes a run exactly when a lock is held and the status is a final one: the lock goes, and
      runs log and document close the run that the lock named with that status. */
  lemma ReleaseClosesExactlyWhen(f: Files, a: ReleaseArgs)
    ensures var d := ReleaseOp(f, a);
            var closes := f.lock != Free && (a.status == Completed || a.status == Failed);
            && (d.outcome == Retired <==> closes)
            && (d.outcome == NotHeld <==> f.lock == Free)
            && (!closes ==> d.files == f)
            && (closes ==>
                  && d.files.lock == Free && d.files.approvals == f.approvals
                  && d.files.runs == f.runs + [RunRow(f.lock.claim, a.status)]
                  && d.files.events == f.events + [Released(f.lock.inode, f.lock.claim)]
                  && SameInventory(d.files.proposal, f.proposal)
                  && d.files.proposal.state == a.status && d.files.proposal.at == a.at
                  && d.files.proposal.run == Some(RunRow(f.lock.claim, a.status)))
  {
  }

  // ---- what a launch on the queue was allowed by, in every interleaving --------------------------

  predicate Allows(doc: Proposal, s: Signature) {
    (doc.state == Warranted || doc.state == Approved) && s.proposalId == doc.id
  }

  /** A dispatch past its reads has read a standing proposal and a signature that names it. */
  predicate Reads(t: Task) {
    match t
    case DispatchReadSignature(_, doc) => doc.state == Warranted || doc.state == Approved
    case DispatchClaim(a, doc, s) => Allows(doc, s) && MayLaunch(a)
    case DispatchStamp(a, doc, s) => Allows(doc, s) && MayLaunch(a)
    case DispatchSubmit(a, doc, s) => Allows(doc, s) && MayLaunch(a)
    case _ => true
  }

  predicate MayLaunch(a: DispatchArgs) { a.workdirOk && a.mode != None && a.spec != None && !a.dryRun }

  predicate AllowedLaunch(e: Event) {
    e.Enqueued? ==>
      && Allows(e.doc, e.signature) && e.run.proposalId == e.doc.id && e.run.mode == Fleet
      && e.run.approvedBy == e.signature.signer && e.run.approvedAt == e.signature.at
  }

  lemma AdvanceReads(me: nat, t: Task, f: Files)
    requires Reads(t) && forall e :: e in f.events ==> AllowedLaunch(e)
    ensures Reads(Advance(me, t, f).1) && forall e :: e in Advance(me, t, f).0.events ==> AllowedLaunch(e)
  {
  }

  ghost predicate AllAllowed(s: Sys) {
    (forall c :: c in s.tasks ==> Reads(s.tasks[c])) && forall e :: e in s.files.events ==> AllowedLaunch(e)
  }

  lemma {:induction false} EveryLaunchWasAllowed(acts: seq<Action>, ruled: bool)
    ensures AllAllowed(Exec(acts, ruled))
    decreases |acts|
  {
    if acts != [] {
      var front, act := acts[..|acts| - 1], acts[|acts| - 1];
      EveryLaunchWasAllowed(front, ruled);
      var s := Exec(front, ruled);
      if act.Go? && act.id in s.tasks { AdvanceReads(act.id, s.tasks[act.id], s.files); }
    }
  }

  /** The brief of a dispatched run lists the first twenty-five findings of the proposal, in order. */
  lemma BriefIsTheFirst(p: Proposal)
    ensures Brief(p) <= p.checkIds
    ensures |Brief(p)| == if |p.checkIds| < 25 then |p.checkIds| else 25
  {
  }

  // ---- the files name each other, in every interleaving -------------------------------------------

  /** A job is on the queue for this run, and its submit did not raise. */
  ghost predicate IsQueued(events: seq<Event>, run: Run) {
    exists i :: 0 <= i < |events| && events[i].Enqueued? && events[i].run == run && !events[i].raised
  }

  ghost predicate DocAgrees(p: Proposal, f: Files) {
    (p.signature.Some? ==> p.signature.value in f.approvals) && (p.run.Some? ==> p.run.value in f.runs)
  }

  /** What the proposal shows is on file: its signature among the approvals, its run in the runs log; and a fleet
      run that the runs log records as launched was queued. */
  ghost predicate FilesAgree(f: Files) {
    && DocAgrees(f.proposal, f)
    && forall r :: r in f.runs && r.status == InFlight && r.run.Some? && r.run.value.mode == Fleet ==>
         IsQueued(f.events, r.run.value)
  }

  ghost predicate TaskAgrees(t: Task, f: Files) {
    match t
    case ProposeWrite(draft) => DocAgrees(draft, f)
    case ApproveAppend(_, doc) => DocAgrees(doc, f)
    case ApproveWrite(a, doc) => DocAgrees(doc, f) && Sign(a, doc) in f.approvals
    case DispatchReadSignature(_, doc) => DocAgrees(doc, f)
    case DispatchClaim(a, doc, _) => DocAgrees(doc, f) && a.mode.Some?
    case DispatchStamp(a, doc, _) => DocAgrees(doc, f) && a.mode.Some?
    case DispatchSubmit(a, doc, _) => DocAgrees(doc, f) && a.mode.Some?
    case DispatchLog(a, doc, s) =>
      DocAgrees(doc, f) && a.mode.Some? && (a.mode.value == Fleet ==> IsQueued(f.events, RunOf(a, doc, s)))
    case DispatchWrite(a, doc, s) => DocAgrees(doc, f) && RunRow(Some(RunOf(a, doc, s)), InFlight) in f.runs
    case ReleaseReadClaim(_, doc) => DocAgrees(doc, f)
    case ReleaseUnlink(a, doc, _) => DocAgrees(doc, f) && a.status != InFlight
    case ReleaseLog(a, doc, _) => DocAgrees(doc, f) && a.status != InFlight
    case ReleaseWrite(a, doc, claim) => DocAgrees(doc, f) && RunRow(claim, a.status) in f.runs
    case _ => true
  }

  /** The three logs only grow. */
  predicate Grows(f: Files, f': Files) { f.approvals <= f'.approvals && f.runs <= f'.runs && f.events <= f'.events }

  lemma AdvanceGrows(me: nat, t: Task, f: Files)
    ensures Grows(f, Advance(me, t, f).0)
  {
  }

  lemma StillQueued(events: seq<Event>, more: seq<Event>, run: Run)
    requires events <= more && IsQueued(events, run)
    ensures IsQueued(more, run)
  {
    var i :| 0 <= i < |events| && events[i].Enqueued? && events[i].run == run && !events[i].raised;
    assert more[i] == events[i];
  }

  lemma DocStillAgrees(p: Proposal, f: Files, f': Files)
    requires Grows(f, f') && DocAgrees(p, f)
    ensures DocAgrees(p, f')
  {
  }

  lemma TaskStillAgrees(t: Task, f: Files, f': Files)
    requires Grows(f, f') && TaskAgrees(t, f)
    ensures TaskAgrees(t, f')
  {
    if t.ProposeWrite? { DocStillAgrees(t.draft, f, f'); }
    if t.DispatchLog? && t.da.mode.Some? && t.da.mode.value == Fleet { StillQueued(f.events, f'.events, RunOf(t.da, t.doc, t.signature)); }
  }

  lemma SubmitAgrees(me: nat, t: Task, f: Files)
    requires t.DispatchSubmit? && TaskAgrees(t, f)
    ensures TaskAgrees(Advance(me, t, f).1, Advance(me, t, f).0)
  {
    var (f', t') := Advance(me, t, f);
    if t'.DispatchLog? && t.da.mode == Some(Fleet) { assert f'.events[|f.events|].run == RunOf(t.da, t.doc, t.signature); }
  }

  lemma AdvanceAgrees(me: nat, t: Task, f: Files)
    requires FilesAgree(f) && TaskAgrees(t, f)
    ensures TaskAgrees(Advance(me, t, f).1, Advance(me, t, f).0)
  {
    if t.DispatchSubmit? { SubmitAgrees(me, t, f); }
  }

  lemma AdvanceKeepsTheFiles(me: nat, t: Task, f: Files)
    requires FilesAgree(f) && TaskAgrees(t, f)
    ensures FilesAgree(Advance(me, t, f).0)
  {
    var f' := Advance(me, t, f).0;
    AdvanceGrows(me, t, f);
    forall r | r in f'.runs && r.status == InFlight && r.run.Some? && r.run.value.mode == Fleet
      ensures IsQueued(f'.events, r.run.value)
    {
      if r in f.runs { StillQueued(f.events, f'.events, r.run.value); }
    }
  }

  ghost predicate AllAgree(s: Sys) { FilesAgree(s.files) && forall c :: c in s.tasks ==> TaskAgrees(s.tasks[c], s.files) }

  /** In every interleaving, with or without the release rule, the files agree. */
  lemma {:induction false} TheFilesAgree(acts: seq<Action>, ruled: bool)
    ensures AllAgree(Exec(acts, ruled))
    decreases |acts|
  {
    if acts != [] {
      var front, act := acts[..|acts| - 1], acts[|acts| - 1];
      TheFilesAgree(front, ruled);
      NextAgrees(Exec(front, ruled), act, ruled);
    }
  }

  lemma NextAgrees(s: Sys, act: Action, ruled: bool)
    requires AllAgree(s)
    ensures AllAgree(Next(s, act, ruled))
  {
    if act.Go? && act.id in s.tasks {
      var t := s.tasks[act.id];
      var (f', t') := Advance(act.id, t, s.files);
      AdvanceAgrees(act.id, t, s.files);
      AdvanceKeepsTheFiles(act.id, t, s.files);
      AdvanceGrows(act.id, t, s.files);
      forall c | c in s.tasks ensures TaskAgrees(s.tasks[c], f') { TaskStillAgrees(s.tasks[c], s.files, f'); }
    }
  }
}

/** The gate as the script runs it: one object over the results directory, each verb rewriting
    the files in the order of its body. */
module GateClass {
  import opened Text
  import opened GateFiles
  import opened GateSteps
  import opened GateSafety
  import opened GateOps

  class Gate {
    var proposal: Proposal
    var approvals: seq<Signature>
    var runs: seq<RunRow>
    var lock: Lock
    var events: seq<Event>  // the fleet queue and the locks that were released

    ghost function Snapshot(): Files
      reads this
    {
      Files(proposal, approvals, runs, lock, events)
    }

    /** What whole operations keep. Calls that overlap can leave it, so no method asks for it. */
    ghost predicate Valid()
      reads this
    {
      Settled(Snapshot())
    }

    constructor ()
      ensures Snapshot() == EMPTY_FILES && Valid()
    {
      proposal, approvals, runs, lock, events := EMPTY_PROPOSAL, [], [], Free, [];
    }

    /** True for the one caller that creates the lock file. */
    method ClaimRun(me: nat, run: Run) returns (taken: bool)
      modifies this`lock
      ensures taken <==> old(lock).Free?
      ensures lock == if taken then Held(me, Some(run)) else old(lock)
    {
      if lock.Held? { return false; }
      lock := Held(me, None);
      lock := Held(me, Some(run));
      return true;
    }

    /** Drops whatever lock is there and returns what it held. */
    method ReleaseClaim() returns (held: Option<Run>)
      modifies this`lock
      ensures lock == Free
      ensures held == if old(lock).Held? then old(lock).claim else None
    {
      held := if lock.Held? then lock.claim else None;
      lock := Free;
    }

    method Propose(a: ProposeArgs) returns (outcome: Outcome, enqueued: bool)
      modifies this`proposal
      ensures Decision(Snapshot(), outcome, enqueued) == ProposeOp(old(Snapshot()), a)
      ensures !enqueued
      ensures old(Valid()) ==> Valid()
    {
      ghost var was := Snapshot();
      if Settled(was) { ApplyKeepsSettled(0, was, DoPropose(a)); }
      enqueued := false;
      if a.report.None? || !a.report.value.measured { return Unmeasured, false; }
      if a.spec.None? { return SpecMissing, false; }
      if lock.Held? && proposal.state.InFlight? { return AlreadyInFlight, false; }
      var report, spec := a.report.value, a.spec.value;
      if report.drift <= a.threshold {
        outcome := if Standing(proposal.state) then Withdrawn else NothingWarranted;
        if !a.dryRun {
          proposal := Proposal(NoProposal, "", spec, report.checkIds, report.drift, None, None, a.at);
        }
        return;
      }
      var id := Fingerprint(spec.name, report.checkIds);
      var draft := Proposal(Warranted, id, spec, report.checkIds, report.drift, None, None, a.at);
      outcome := if proposal.state.Warranted? && proposal.id == id then Unchanged else NewlyWarranted;
      if NewestNames(approvals, id) {
        draft := draft.(signature := Newest(approvals), state := Approved);
      }
      if !a.dryRun { proposal := draft; }
    }

    method Dispatch(me: nat, a: DispatchArgs) returns (outcome: Outcome, enqueued: bool)
      modifies this`proposal, this`runs, this`lock, this`events
      ensures Decision(Snapshot(), outcome, enqueued) == DispatchOp(me, old(Snapshot()), a)
      ensures old(Valid()) ==> Valid()
    {
      ghost var was := Snapshot();
      if Settled(was) { ApplyKeepsSettled(me, was, DoDispatch(a)); }
      enqueued := false;
      var doc := proposal;
      if !Standing(doc.state) {
        outcome := if doc.state.InFlight? then AlreadyInFlight else RefusedNoProposal;
        return;
      }
      if approvals == [] { return RefusedNoApproval, false; }
      var signature := approvals[|approvals| - 1];
      if signature.proposalId != doc.id { return RefusedStaleApproval, false; }
      if !a.workdirOk { return RefusedBadWorkdir, false; }
      if a.mode.None? { return RefusedBadMode, false; }
      if a.spec.None? { return SpecMissing, false; }
      var run := RunOf(a, doc, signature);
      if a.dryRun { return WouldDispatch, false; }
      var taken := ClaimRun(me, run);
      if !taken { return AlreadyInFlight, false; }
      if a.mode.value == Fleet {
        if !a.submits.NotQueued? {
          events := events + [Enqueued(me, run, doc, signature, a.submits.QueuedThenRaised?)];
        }
        if !a.submits.Queued? {
          var _ := ReleaseClaim();
          return DispatchFailed, false;
        }
        enqueued := true;
      }
      runs := runs + [RunRow(Some(run), InFlight)];
      proposal := doc.(state := InFlight, run := Some(RunRow(Some(run), InFlight)), at := a.at);
      outcome := Dispatched;
    }

    method Approve(me: nat, a: ApproveArgs) returns (outcome: Outcome, enqueued: bool)
      modifies this
      ensures Decision(Snapshot(), outcome, enqueued) == ApproveOp(me, old(Snapshot()), a)
      ensures old(Valid()) ==> Valid()
    {
      ghost var was := Snapshot();
      if Settled(was) { ApplyKeepsSettled(me, was, DoApprove(a)); }
      var doc := proposal;
      if doc.state.InFlight? { return AlreadyInFlight, false; }
      if !Standing(doc.state) || doc.id == "" { return RefusedNoProposal, false; }
      if a.echoedId.Some? && a.echoedId.value != doc.id { return RefusedStaleApproval, false; }
      if a.dryRun { return WouldApprove, false; }
      var signature := Signature(a.at, doc.id, a.signer, doc.action, doc.checkIds);
      approvals := approvals + [signature];
      proposal := doc.(state := Approved, signature := Some(signature), at := a.at);
      if a.dispatch.None? { return SignedOnly, false; }
      outcome, enqueued := Dispatch(me, a.dispatch.value.(dryRun := false));
    }

    method Release(a: ReleaseArgs) returns (outcome: Outcome)
      modifies this`proposal, this`runs, this`lock, this`events
      ensures Decision(Snapshot(), outcome, false) == ReleaseOp(old(Snapshot()), a)
      ensures old(Valid()) ==> Valid()
    {
      ghost var was := Snapshot();
      if Settled(was) { ApplyKeepsSettled(0, was, DoRelease(a)); }
      if lock.Free? { return NotHeld; }
      if !a.status.Completed? && !a.status.Failed? { return RefusedBadStatus; }
      events := events + [Released(lock.inode, lock.claim)];
      var held := ReleaseClaim();
      runs := runs + [RunRow(held, a.status)];
      proposal := proposal.(state := a.status, run := Some(RunRow(held, a.status)), at := a.at);
      outcome := Retired;
    }
  }
}

/** Traces that show where the gate's guarantees stop. */
module GateWitness {
  import opened Text
  import opened GateFiles
  import opened GateSteps
  import opened GateSafety
  import opened GateOps
  import opened GateRule

  const FAILING := DispatchArgs(true, Some(Fleet), Some(SPEC), false, NotQueued, 4)
  const RAISING := DispatchArgs(true, Some(Fleet), Some(SPEC), false, QueuedThenRaised, 4)
  const REWRITTEN := DispatchArgs(true, Some(Fleet), Some(Remediation("other", "m")), false, Queued, 4)
  const REMODELLED := Remediation("s", "other")

  lemma AfterOneMore(ops: seq<Op>, op: Op)
    ensures After(ops + [op]) == Apply(|ops|, After(ops), op).files
  {
    assert (ops + [op])[..|ops + [op]| - 1] == ops;
  }

  lemma ArriveAndStep(acts: seq<Action>, id: nat, t: Task, n: nat)
    requires IsStart(t) && id !in Exec(acts, false).tasks
    ensures var s := Exec(acts, false);
            Exec(acts + ([Arrive(id, t)] + Steps(id, n)), false)
            == ExecFrom(Sys(s.files, s.tasks[id := t]), Steps(id, n), false)
  {
    var s := Exec(acts, false);
    var tail := [Arrive(id, t)] + Steps(id, n);
    ExecSplits(acts, tail, false);
    assert tail[1..] == Steps(id, n);
  }

  /** One step of call `id`, with the state it leads to. */
  lemma Step(f: Files, tasks: map<nat, Task>, id: nat, t: Task, n: nat)
    requires n > 0
    ensures var (f', t') := Advance(id, t, f);
            ExecFrom(Sys(f, tasks[id := t]), Steps(id, n), false)
            == ExecFrom(Sys(f', tasks[id := t']), Steps(id, n - 1), false)
  {
    var (f', t') := Advance(id, t, f);
    GoAdvances(Sys(f, tasks[id := t]), id, false);
    assert tasks[id := t][id := t'] == tasks[id := t'];
    assert Steps(id, n)[1..] == Steps(id, n - 1);
  }

  /** A proposal stands, signed, and nothing runs. */
  ghost predicate ReadyToLaunch(f: Files) {
    f.lock.Free? && f.proposal.state.Approved? && NewestNames(f.approvals, f.proposal.id)
  }

  /** One signature for `id` on record and nothing else signed. */
  ghost predicate SignedOnce(f: Files, id: string) { |f.approvals| == 1 && NewestNames(f.approvals, id) }

  lemma SignedFiles(id: string)
    requires id == Fingerprint("s", ["c"])
    ensures var f := After([DoPropose(PROPOSING), DoApprove(SIGNING)]);
            ReadyToLaunch(f) && f.proposal.id == id && SignedOnce(f, id) && f.events == []
            && f.approvals[0].action == SPEC
  {
    assert id != "";
    AfterOneMore([], DoPropose(PROPOSING));
    AfterOneMore([DoPropose(PROPOSING)], DoApprove(SIGNING));
    assert [DoPropose(PROPOSING)] + [DoApprove(SIGNING)] == [DoPropose(PROPOSING), DoApprove(SIGNING)];
  }

  lemma FirstLaunch(id: string)
    requires id == Fingerprint("s", ["c"])
    ensures var f := After([DoPropose(PROPOSING), DoApprove(SIGNING), DoDispatch(LAUNCHING)]);
            && SignedOnce(f, id) && f.lock.Held? && Launches(f.events, id) == 1
  {
    var o2 := [DoPropose(PROPOSING), DoApprove(SIGNING)];
    SignedFiles(id);
    AfterOneMore(o2, DoDispatch(LAUNCHING));
    assert o2 + [DoDispatch(LAUNCHING)] == [DoPropose(PROPOSING), DoApprove(SIGNING), DoDispatch(LAUNCHING)];
    DispatchLaunches(2, After(o2), id);
  }

  lemma DispatchLaunches(me: nat, f: Files, id: string)
    requires ReadyToLaunch(f) && f.proposal.id == id
    ensures var f' := DispatchOp(me, f, LAUNCHING).files;
            f'.lock.Held? && f'.approvals == f.approvals && Launches(f'.events, id) == Launches(f.events, id) + 1
  {
    var ev := DispatchOp(me, f, LAUNCHING).files.events;
    assert ev == f.events + [ev[|f.events|]];
    CountsAppend(f.events, ev[|f.events|], id);
  }

  lemma LaunchAgain(f: Files, me: nat, id: string)
    requires id == Fingerprint("s", ["c"])
    requires SignedOnce(f, id) && f.lock.Held?
    ensures var f1 := ReleaseOp(f, ReleaseArgs(Completed, 5)).files;
            var f2 := ProposeOp(f1, PROPOSING).files;
            var f3 := DispatchOp(me, f2, LAUNCHING).files;
            SignedOnce(f3, id) && Launches(f3.events, id) == Launches(f.events, id) + 1
  {
    var f1 := ReleaseOp(f, ReleaseArgs(Completed, 5)).files;
    var f2 := ProposeOp(f1, PROPOSING).files;
    assert ReadyToLaunch(f2) && f2.proposal.id == id && f2.events == f1.events;
    CountsAppend(f.events, f1.events[|f.events|], id);
    DispatchLaunches(me, f2, id);
  }

  /** After a release, proposing the same findings again adopts the spent signature: one
      signature, two launches of one proposal, so "at most once, ever" fails. */
  lemma OneSignatureLaunchesTwice()
    ensures exists ops, id :: |After(ops).approvals| == 1 && Launches(After(ops).events, id) == 2
  {
    var id := Fingerprint("s", ["c"]);
    var o3 := [DoPropose(PROPOSING), DoApprove(SIGNING), DoDispatch(LAUNCHING)];
    FirstLaunch(id);
    AfterOneMore(o3, DoRelease(ReleaseArgs(Completed, 5)));
    var o4 := o3 + [DoRelease(ReleaseArgs(Completed, 5))];
    AfterOneMore(o4, DoPropose(PROPOSING));
    var o5 := o4 + [DoPropose(PROPOSING)];
    AfterOneMore(o5, DoDispatch(LAUNCHING));
    LaunchAgain(After(o3), 5, id);
    assert |After(o5 + [DoDispatch(LAUNCHING)]).approvals| == 1;
  }

  // ---- a submit that raises after queueing -------------------------------------------------

  /** After the raised submit: its job is queued, and the gate stands as before. */
  lemma RaisedOnce() returns (ops: seq<Op>, e: Event)
    ensures var f := After(ops);
            && (forall i :: 0 <= i < |ops| ==> !ops[i].DoRelease?)
            && e.Enqueued? && e.run.proposalId == f.proposal.id && f.events == [e]
            && ReadyToLaunch(f) && |f.approvals| == 1
  {
    var id := Fingerprint("s", ["c"]);
    var o2 := [DoPropose(PROPOSING), DoApprove(SIGNING)];
    SignedFiles(id);
    AfterOneMore(o2, DoDispatch(RAISING));
    ops := o2 + [DoDispatch(RAISING)];
    var f := After(ops);
    e := f.events[0];
    assert f == After(o2).(events := [e]);
  }

  lemma TwoLaunchesOfOne(ev: seq<Event>, id: string)
    requires |ev| == 2 && ev[0].Enqueued? && ev[1].Enqueued? && ev[0].run.proposalId == ev[1].run.proposalId == id
    ensures Launches(ev, id) == 2 && Releases(ev, id) == 0 && Unreleased(ev, 0) && Unreleased(ev, 1)
  {
    var e1, e2 := ev[0], ev[1];
    assert ev == ([] + [e1]) + [e2];
    CountsAppend([], e1, id);
    CountsAppend([] + [e1], e2, id);
  }

  /** A submit queues its job and raises, the claim is rolled back, and the next dispatch launches a
      second run: two runs of one proposal under one signature, nothing released, no rule broken. */
  lemma ARaisedSubmitLaunchesTwice()
    ensures exists ops: seq<Op>, id ::
              && (forall i :: 0 <= i < |ops| ==> !ops[i].DoRelease?)
              && |After(ops).approvals| == 1 && Launches(After(ops).events, id) == 2 && Releases(After(ops).events, id) == 0
              && !OneRunAndTheLockNamesIt(After(ops))
  {
    var o3, e1 := RaisedOnce();
    AfterOneMore(o3, DoDispatch(LAUNCHING));
    var o4 := o3 + [DoDispatch(LAUNCHING)];
    var f3, f4 := After(o3), After(o4);
    var e2: Event := f4.events[1];
    assert f4.events == [e1] + [e2] && e2.Enqueued? && e2.run.proposalId == f3.proposal.id;
    TwoLaunchesOfOne(f4.events, f3.proposal.id);
  }

  /** A spec rewritten between the signature and the dispatch is launched under that signature. */
  lemma ARewrittenSpecIsLaunched()
    ensures exists ops: seq<Op>, e: Event ::
              After(ops).events == [e] && e.Enqueued? && e.run.action != e.signature.action
  {
    var o2 := [DoPropose(PROPOSING), DoApprove(SIGNING)];
    SignedFiles(Fingerprint("s", ["c"]));
    AfterOneMore(o2, DoDispatch(REWRITTEN));
    var f := After(o2 + [DoDispatch(REWRITTEN)]);
    var e: Event := f.events[0];
    assert f.events == [e] && e.Enqueued? && e.run.action.name == "other" && e.signature.action == SPEC;
  }

  lemma ReproposedFiles(f: Files)
    requires f == After([DoPropose(PROPOSING), DoApprove(SIGNING)])
    ensures var f' := ProposeOp(f, ProposeArgs(PROPOSING.report, Some(REMODELLED), 0, false, 4)).files;
            ReadyToLaunch(f') && f'.events == [] && f'.approvals == f.approvals && f'.proposal.action == REMODELLED
  {
    SignedFiles(Fingerprint("s", ["c"]));
  }

  /** The id names the remediation and the findings, not the rest of the action: proposed again with another
      model the proposal keeps its id and its signature, and what it shows is launched, though the
      signature recorded something else. */
  lemma ARemodelledSpecKeepsItsSignature()
    ensures exists ops: seq<Op>, e: Event ::
              After(ops).events == [e] && e.Enqueued? && e.run.action == e.doc.action != e.signature.action
  {
    var o2 := [DoPropose(PROPOSING), DoApprove(SIGNING)];
    var again := DoPropose(ProposeArgs(PROPOSING.report, Some(REMODELLED), 0, false, 4));
    var launch := DoDispatch(DispatchArgs(true, Some(Fleet), Some(REMODELLED), false, Queued, 5));
    SignedFiles(Fingerprint("s", ["c"]));
    AfterOneMore(o2, again);
    ReproposedFiles(After(o2));
    AfterOneMore(o2 + [again], launch);
    var f := After((o2 + [again]) + [launch]);
    var e: Event := f.events[0];
    assert f.events == [e] && e.Enqueued? && e.run.action == e.doc.action == REMODELLED && e.signature.action == SPEC;
  }

  // ---- releasing under a dispatch that is still running ---------------------------------

  lemma ReadsOfALaunch(f: Files, id: nat, a: DispatchArgs, sig: Signature)
    requires ReadyToLaunch(f) && Launchable(a) && !a.dryRun && Newest(f.approvals) == Some(sig)
    ensures Advance(id, DispatchReadDoc(a), f) == (f, DispatchReadSignature(a, f.proposal))
    ensures Advance(id, DispatchReadSignature(a, f.proposal), f) == (f, DispatchClaim(a, f.proposal, sig))
  {
  }

  lemma DispatchReads(f: Files, tasks: map<nat, Task>, id: nat, a: DispatchArgs, sig: Signature)
    requires ReadyToLaunch(f) && Launchable(a) && !a.dryRun && Newest(f.approvals) == Some(sig)
    ensures ExecFrom(Sys(f, tasks[id := DispatchReadDoc(a)]), Steps(id, 4), false)
         == ExecFrom(Sys(f, tasks[id := DispatchClaim(a, f.proposal, sig)]), Steps(id, 2), false)
  {
    var t1, t2, t3 := DispatchReadDoc(a), DispatchReadSignature(a, f.proposal), DispatchClaim(a, f.proposal, sig);
    ReadsOfALaunch(f, id, a, sig);
    StepTo(f, tasks, id, t1, t2, 4);
    StepTo(f, tasks, id, t2, t3, 3);
  }

  lemma StepTo(f: Files, tasks: map<nat, Task>, id: nat, t: Task, t': Task, n: nat)
    requires n > 0 && Advance(id, t, f) == (f, t')
    ensures ExecFrom(Sys(f, tasks[id := t]), Steps(id, n), false)
         == ExecFrom(Sys(f, tasks[id := t']), Steps(id, n - 1), false)
  {
    Step(f, tasks, id, t, n);
  }

  lemma DispatchPath(f: Files, tasks: map<nat, Task>, id: nat, a: DispatchArgs, sig: Signature)
    requires ReadyToLaunch(f) && Launchable(a) && !a.dryRun && Newest(f.approvals) == Some(sig)
    ensures ExecFrom(Sys(f, tasks[id := DispatchReadDoc(a)]), Steps(id, 4), false)
         == Sys(f.(lock := Held(id, Some(RunOf(a, f.proposal, sig)))),
                tasks[id := DispatchSubmit(a, f.proposal, sig)])
  {
    DispatchReads(f, tasks, id, a, sig);
    Step(f, tasks, id, DispatchClaim(a, f.proposal, sig), 2);
    Step(f.(lock := Held(id, None)), tasks, id, DispatchStamp(a, f.proposal, sig), 1);
  }

  lemma ReleaseReads(f: Files, tasks: map<nat, Task>, r: nat, a: ReleaseArgs)
    requires f.lock.Held? && Terminal(a.status)
    ensures ExecFrom(Sys(f, tasks[r := ReleaseReadDoc(a)]), Steps(r, 3), false)
         == ExecFrom(Sys(f, tasks[r := ReleaseUnlink(a, f.proposal, f.lock.claim)]), Steps(r, 1), false)
  {
    StepTo(f, tasks, r, ReleaseReadDoc(a), ReleaseReadClaim(a, f.proposal), 3);
    StepTo(f, tasks, r, ReleaseReadClaim(a, f.proposal), ReleaseUnlink(a, f.proposal, f.lock.claim), 2);
  }

  lemma ReleasePath(f: Files, tasks: map<nat, Task>, r: nat, a: ReleaseArgs)
    requires f.lock.Held? && Terminal(a.status)
    ensures ExecFrom(Sys(f, tasks[r := ReleaseReadDoc(a)]), Steps(r, 3), false)
         == Sys(f.(lock := Free, events := f.events + [Released(f.lock.inode, f.lock.claim)]),
                tasks[r := ReleaseLog(a, f.proposal, f.lock.claim)])
  {
    ReleaseReads(f, tasks, r, a);
    Step(f, tasks, r, ReleaseUnlink(a, f.proposal, f.lock.claim), 1);
  }

  /** A fresh dispatch call brought to the point of submitting. */
  lemma BringToSubmit(acts: seq<Action>, s: Sys, id: nat, a: DispatchArgs, sig: Signature)
    returns (more: seq<Action>, s': Sys)
    requires s == Exec(acts, false) && id !in s.tasks
    requires ReadyToLaunch(s.files) && Launchable(a) && !a.dryRun && Newest(s.files.approvals) == Some(sig)
    ensures s' == Exec(more, false)
    ensures s' == Sys(s.files.(lock := Held(id, Some(RunOf(a, s.files.proposal, sig)))),
                      s.tasks[id := DispatchSubmit(a, s.files.proposal, sig)])
  {
    more := acts + ([Arrive(id, DispatchReadDoc(a))] + Steps(id, 4));
    s' := Exec(more, false);
    ArriveAndStep(acts, id, DispatchReadDoc(a), 4);
    DispatchPath(s.files, s.tasks, id, a, sig);
  }

  /** A release call brought past its unlink. */
  lemma UnlinkNow(acts: seq<Action>, s: Sys, r: nat) returns (more: seq<Action>, s': Sys)
    requires s == Exec(acts, false) && r !in s.tasks && s.files.lock.Held?
    ensures s' == Exec(more, false)
    ensures s' == Sys(s.files.(lock := Free,
                               events := s.files.events + [Released(s.files.lock.inode, s.files.lock.claim)]),
                      s.tasks[r := ReleaseLog(ReleaseArgs(Completed, 5), s.files.proposal, s.files.lock.claim)])
  {
    var a := ReleaseArgs(Completed, 5);
    more := acts + ([Arrive(r, ReleaseReadDoc(a))] + Steps(r, 3));
    s' := Exec(more, false);
    ArriveAndStep(acts, r, ReleaseReadDoc(a), 3);
    ReleasePath(s.files, s.tasks, r, a);
  }

  lemma GoOn(acts: seq<Action>, s: Sys, id: nat) returns (more: seq<Action>, s': Sys)
    requires s == Exec(acts, false) && id in s.tasks
    ensures s' == Exec(more, false)
    ensures s' == Sys(Advance(id, s.tasks[id], s.files).0, s.tasks[id := Advance(id, s.tasks[id], s.files).1])
  {
    more := acts + [Go(id)];
    s' := Exec(more, false);
    assert more[..|more| - 1] == acts;
    GoAdvances(s, id, false);
  }

  /** A signed proposal, reached by two whole calls. */
  lemma SignedStart() returns (acts: seq<Action>, s: Sys, sig: Signature)
    ensures s == Exec(acts, false)
    ensures ReadyToLaunch(s.files) && Newest(s.files.approvals) == Some(sig) && s.files.events == []
    ensures forall c :: c in s.tasks ==> c < 2
  {
    var ops := [DoPropose(PROPOSING), DoApprove(SIGNING)];
    acts := Script(ops);
    s := Exec(acts, false);
    WholeRunsAreInterleavings(ops);
    SignedFiles(Fingerprint("s", ["c"]));
    sig := s.files.approvals[|s.files.approvals| - 1];
  }

  lemma TwoUnreleasedRuns(f: Files)
    requires |f.events| == 3 && f.events[1].Enqueued? && f.events[2].Enqueued?
    ensures !OneRunAndTheLockNamesIt(f)
  {
    assert Unreleased(f.events, 1) && Unreleased(f.events, 2);
  }

  /** Two dispatches stand before their submit, the first one's lock dropped by a release. */
  lemma TwoAtSubmit() returns (acts: seq<Action>, s: Sys, sig: Signature, doc: Proposal)
    ensures s == Exec(acts, false) && |s.files.events| == 1
    ensures 2 in s.tasks && s.tasks[2] == DispatchSubmit(LAUNCHING, doc, sig)
    ensures 4 in s.tasks && s.tasks[4] == DispatchSubmit(LAUNCHING, doc, sig)
  {
    acts, s, sig := SignedStart();
    acts, s := BringToSubmit(acts, s, 2, LAUNCHING, sig);
    acts, s := UnlinkNow(acts, s, 3);
    acts, s := BringToSubmit(acts, s, 4, LAUNCHING, sig);
    doc := s.files.proposal;
  }

  /** The rule is needed: release under a dispatch that has not submitted yet, and two runs are
      on the queue with no release after either. */
  lemma EarlyReleaseLaunchesTwice()
    ensures exists acts :: !OneRunAndTheLockNamesIt(Exec(acts, false).files)
  {
    var acts, s, sig, doc := TwoAtSubmit();
    acts, s := GoOn(acts, s, 4);
    acts, s := GoOn(acts, s, 2);
    TwoUnreleasedRuns(s.files);
  }

  /** Calls 4 and 5 both launched, and nothing released either; the only release dropped call 2's
      lock. */
  ghost predicate DroppedByRollback(ev: seq<Event>) {
    && |ev| == 3 && ev[0].Released? && ev[0].inode == 2
    && Unreleased(ev, 1) && ev[1].caller == 4
    && Unreleased(ev, 2) && ev[2].caller == 5
  }

  /** The rollback unlink does not look whose claim it drops: after an early release a failing
      submit drops the next run's lock, and a third dispatch launches beside it. */
  lemma EarlyReleaseLetsARollbackDropAnotherClaim()
    ensures exists acts :: DroppedByRollback(Exec(acts, false).files.events)
  {
    var acts, s, sig := LockLostToARollback();
    acts, s := BringToSubmit(acts, s, 5, LAUNCHING, sig);
    acts, s := GoOn(acts, s, 5);
    assert DroppedByRollback(s.files.events);
  }

  lemma LockLostToARollback() returns (acts: seq<Action>, s: Sys, sig: Signature)
    ensures s == Exec(acts, false) && 5 !in s.tasks
    ensures ReadyToLaunch(s.files) && Newest(s.files.approvals) == Some(sig)
    ensures var ev := s.files.events;
            |ev| == 2 && ev[0].Released? && ev[0].inode == 2 && ev[1].Enqueued? && ev[1].caller == 4
  {
    var doc;
    acts, s, sig, doc := ClaimAfterEarlyRelease();
    acts, s := GoOn(acts, s, 4);
    acts, s := GoOn(acts, s, 2);
    acts, s := GoOn(acts, s, 2);
  }

  lemma ClaimAfterEarlyRelease() returns (acts: seq<Action>, s: Sys, sig: Signature, doc: Proposal)
    ensures s == Exec(acts, false) && doc == s.files.proposal && 5 !in s.tasks
    ensures ReadyToLaunch(s.files.(lock := Free)) && Newest(s.files.approvals) == Some(sig)
    ensures |s.files.events| == 1 && s.files.events[0].Released? && s.files.events[0].inode == 2
    ensures 2 in s.tasks && s.tasks[2] == DispatchSubmit(FAILING, doc, sig)
    ensures 4 in s.tasks && s.tasks[4] == DispatchSubmit(LAUNCHING, doc, sig)
  {
    acts, s, sig := SignedStart();
    acts, s := BringToSubmit(acts, s, 2, FAILING, sig);
    acts, s := UnlinkNow(acts, s, 3);
    acts, s := BringToSubmit(acts, s, 4, LAUNCHING, sig);
    doc := s.files.proposal;
  }
}

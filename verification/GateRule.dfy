/** The release rule is exactly what the claim needs. */
module GateRule {
  import opened Text
  import opened GateFiles
  import opened GateSteps
  import opened GateSafety
  import opened GateOps

  // ---- calls whose submit never raises after queueing -------------------------------------

  predicate NeverRaises(t: Task) {
    match t
    case ApproveReadDoc(a) => a.dispatch.Some? ==> !a.dispatch.value.submits.QueuedThenRaised?
    case ApproveAppend(a, _) => a.dispatch.Some? ==> !a.dispatch.value.submits.QueuedThenRaised?
    case ApproveWrite(a, _) => a.dispatch.Some? ==> !a.dispatch.value.submits.QueuedThenRaised?
    case DispatchReadDoc(a) => !a.submits.QueuedThenRaised?
    case DispatchReadSignature(a, _) => !a.submits.QueuedThenRaised?
    case DispatchClaim(a, _, _) => !a.submits.QueuedThenRaised?
    case DispatchStamp(a, _, _) => !a.submits.QueuedThenRaised?
    case DispatchSubmit(a, _, _) => !a.submits.QueuedThenRaised?
    case DispatchRollback(a, _, _) => !a.submits.QueuedThenRaised?
    case _ => true
  }

  lemma AdvanceNeverRaises(me: nat, t: Task, f: Files)
    requires NeverRaises(t)
    ensures NeverRaises(Advance(me, t, f).1)
  {
  }

  ghost predicate NoneRaises(s: Sys) { forall c :: c in s.tasks ==> NeverRaises(s.tasks[c]) }

  predicate ArrivesWithoutRaising(act: Action) { act.Arrive? ==> NeverRaises(act.task) }

  lemma {:induction false} CertainSubmitsDropNothing(s: Sys, acts: seq<Action>)
    requires NoneRaises(s) && forall i :: 0 <= i < |acts| ==> ArrivesWithoutRaising(acts[i])
    ensures NoQueuedRunIsDropped(s, acts)
    decreases |acts|
  {
    if acts != [] {
      var s' := Next(s, acts[0], true);
      if acts[0].Go? && acts[0].id in s.tasks { AdvanceNeverRaises(acts[0].id, s.tasks[acts[0].id], s.files); }
      assert ArrivesWithoutRaising(acts[0]);
      CertainSubmitsDropNothing(s', acts[1..]);
    }
  }

  /** Where a submit that raises has queued nothing, the claim is safe in every interleaving. */
  lemma CertainSubmitsKeepTheClaim(acts: seq<Action>)
    requires forall i :: 0 <= i < |acts| ==> ArrivesWithoutRaising(acts[i])
    ensures OneRunAndTheLockNamesIt(Exec(acts, true).files)
  {
    CertainSubmitsDropNothing(START, acts);
    AtMostOneRunInEveryInterleaving(acts);
  }

  // ---- a whole call amid others -------------------------------------------------------------

  lemma {:induction false} UndisturbedCall(s: Sys, id: nat, n: nat)
    requires id in s.tasks && Rank(s.tasks[id]) <= n && !Releasing(s.tasks[id]) && NeverRaises(s.tasks[id])
    ensures ExecFrom(s, Steps(id, n), true) == Sys(RunAlone(id, s.tasks[id], s.files), s.tasks[id := Ended])
    ensures NoQueuedRunIsDropped(s, Steps(id, n))
    decreases n
  {
    if n == 0 {
      assert s.tasks[id := Ended] == s.tasks;
    } else {
      var t := s.tasks[id];
      var (f', t') := Advance(id, t, s.files);
      var s' := Next(s, Go(id), true);
      assert s' == Sys(f', s.tasks[id := t']);
      AdvanceLowersRank(id, t, s.files);
      AdvanceNeverRaises(id, t, s.files);
      UndisturbedCall(s', id, n - 1);
      assert s'.tasks[id := Ended] == s.tasks[id := Ended];
      assert Steps(id, n)[1..] == Steps(id, n - 1);
      if !t.Ended? { StepAlone(id, t, s.files); }
    }
  }

  function Call(id: nat, op: Op): seq<Action> { [Arrive(id, StartOf(op))] + Steps(id, Rank(StartOf(op))) }

  lemma WholeCall(s: Sys, id: nat, op: Op)
    requires id !in s.tasks && !op.DoRelease? && NeverRaises(StartOf(op))
    ensures ExecFrom(s, Call(id, op), true) == Sys(Apply(id, s.files, op).files, s.tasks[id := Ended])
    ensures NoQueuedRunIsDropped(s, Call(id, op))
  {
    var t := StartOf(op);
    var s1 := Next(s, Arrive(id, t), true);
    assert s1 == s.(tasks := s.tasks[id := t]);
    assert Call(id, op)[1..] == Steps(id, Rank(t));
    UndisturbedCall(s1, id, Rank(t));
    WholeIsItsSteps(id, s.files, op);
    assert s1.tasks[id := Ended] == s.tasks[id := Ended];
  }

  // ---- why a spending holder must not be released ---------------------------------------------

  /** Actions after which two runs stand, or one stands without its lock, and no queued job was rolled back. */
  ghost predicate Breaks(s: Sys, acts: seq<Action>) {
    NoQueuedRunIsDropped(s, acts) && !OneRunAndTheLockNamesIt(ExecFrom(s, acts, true).files)
  }

  lemma BreaksLater(s: Sys, a: seq<Action>, b: seq<Action>)
    requires NoQueuedRunIsDropped(s, a) && Breaks(ExecFrom(s, a, true), b)
    ensures Breaks(s, a + b)
  {
    NoneDroppedSplits(s, a, b);
    ExecFromSplits(s, a, b, true);
  }

  lemma OneStep(s: Sys, id: nat)
    requires id in s.tasks && !s.tasks[id].ReleaseUnlink?
    ensures ExecFrom(s, [Go(id)], true) == Sys(Advance(id, s.tasks[id], s.files).0, s.tasks[id := Advance(id, s.tasks[id], s.files).1])
    ensures NoQueuedRunIsDropped(s, [Go(id)]) <==> !DropsAQueuedRun(s, Go(id))
  {
    GoAdvances(s, id, true);
    assert [Go(id)][1..] == [];
  }

  lemma StandsWithoutItsLock(f: Files)
    requires f.events != [] && f.events[|f.events| - 1].Enqueued? && f.lock.Free?
    ensures !OneRunAndTheLockNamesIt(f)
  {
    assert Unreleased(f.events, |f.events| - 1);
  }

  lemma FreshCall(tasks: map<nat, Task>) returns (id: nat)
    ensures id !in tasks
  {
    id := NewKey(tasks.Keys);
    assert id !in tasks.Keys;
  }

  lemma {:induction false} NewKey(ids: set<nat>) returns (id: nat)
    ensures forall i :: i in ids ==> i < id
    decreases |ids|
  {
    if ids == {} {
      id := 0;
    } else {
      var i :| i in ids;
      var j := NewKey(ids - {i});
      id := if i < j then j else i + 1;
      forall k | k in ids ensures k < id { assert k == i || k in ids - {i}; }
    }
  }

  const SPEC := Remediation("s", "m")
  const PROPOSING := ProposeArgs(Some(Report(true, 1, ["c"])), Some(SPEC), 0, false, 1)
  const SIGNING := ApproveArgs("alice", None, false, None, 2)
  const LAUNCHING := DispatchArgs(true, Some(Fleet), Some(SPEC), false, Queued, 3)

  /** With no lock in the way, three calls put a run on the queue. */
  lemma LaunchIntoFreeLock(s: Sys) returns (acts: seq<Action>)
    requires s.files.lock.Free?
    ensures NoQueuedRunIsDropped(s, acts)
    ensures var s' := ExecFrom(s, acts, true);
            && s'.files.events != [] && s'.files.events[|s'.files.events| - 1].Enqueued? && s'.files.lock.Held?
            && s'.files.lock.inode !in s.tasks
            && forall c :: c in s.tasks ==> c in s'.tasks && s'.tasks[c] == s.tasks[c]
  {
    var p := FreshCall(s.tasks);
    WholeCall(s, p, DoPropose(PROPOSING));
    var s1 := ExecFrom(s, Call(p, DoPropose(PROPOSING)), true);
    var a := FreshCall(s1.tasks);
    WholeCall(s1, a, DoApprove(SIGNING));
    var s2 := ExecFrom(s1, Call(a, DoApprove(SIGNING)), true);
    var d := FreshCall(s2.tasks);
    WholeCall(s2, d, DoDispatch(LAUNCHING));
    ThreeCallsLaunch(s.files, p, a, d);
    acts := (Call(p, DoPropose(PROPOSING)) + Call(a, DoApprove(SIGNING))) + Call(d, DoDispatch(LAUNCHING));
    var two := Call(p, DoPropose(PROPOSING)) + Call(a, DoApprove(SIGNING));
    ExecFromSplits(s, Call(p, DoPropose(PROPOSING)), Call(a, DoApprove(SIGNING)), true);
    ExecFromSplits(s, two, Call(d, DoDispatch(LAUNCHING)), true);
    NoneDroppedSplits(s, Call(p, DoPropose(PROPOSING)), Call(a, DoApprove(SIGNING)));
    NoneDroppedSplits(s, two, Call(d, DoDispatch(LAUNCHING)));
  }

  lemma ThreeCallsLaunch(f: Files, p: nat, a: nat, d: nat)
    requires f.lock.Free?
    ensures var f1 := Apply(p, f, DoPropose(PROPOSING)).files;
            var f2 := Apply(a, f1, DoApprove(SIGNING)).files;
            var f3 := Apply(d, f2, DoDispatch(LAUNCHING)).files;
            f3.events != [] && f3.events[|f3.events| - 1].Enqueued? && f3.lock.Held? && f3.lock.inode == d
  {
    var f1 := ProposeOp(f, PROPOSING).files;
    assert Standing(f1.proposal.state) && f1.proposal.id == Fingerprint("s", ["c"]) && f1.lock.Free?;
    assert f1.proposal.id != "";
    var f2 := ApproveOp(a, f1, SIGNING).files;
    assert f2.proposal.state.Approved? && NewestNames(f2.approvals, f2.proposal.id) && f2.lock.Free?;
  }

  /** A call that may still submit does so without a lock. */
  lemma SubmitWithoutLock(s: Sys, c: nat)
    requires s.files.lock.Free? && c in s.tasks && s.tasks[c].DispatchSubmit? && Spending(s.tasks[c])
    requires !s.tasks[c].da.submits.NotQueued?
    ensures Breaks(s, [Go(c)])
  {
    OneStep(s, c);
    StandsWithoutItsLock(ExecFrom(s, [Go(c)], true).files);
  }

  /** A call that may still roll back takes the next run's lock away. */
  lemma RollbackOfAnothersLock(s: Sys, c: nat) returns (acts: seq<Action>)
    requires s.files.lock.Free? && c in s.tasks && s.tasks[c].DispatchRollback?
    ensures Breaks(s, acts)
  {
    var launch := LaunchIntoFreeLock(s);
    var s' := ExecFrom(s, launch, true);
    OneStep(s', c);
    StandsWithoutItsLock(ExecFrom(s', [Go(c)], true).files);
    BreaksLater(s, launch, [Go(c)]);
    acts := launch + [Go(c)];
  }

  lemma SpendingWithoutLock(s: Sys, c: nat) returns (acts: seq<Action>)
    requires s.files.lock.Free? && c in s.tasks && Spending(s.tasks[c])
    ensures Breaks(s, acts)
    decreases Rank(s.tasks[c])
  {
    var t := s.tasks[c];
    if t.DispatchRollback? {
      acts := RollbackOfAnothersLock(s, c);
    } else if t.DispatchSubmit? && !t.da.submits.NotQueued? {
      SubmitWithoutLock(s, c);
      acts := [Go(c)];
    } else {
      OneStep(s, c);
      var rest := SpendingWithoutLock(ExecFrom(s, [Go(c)], true), c);
      BreaksLater(s, [Go(c)], rest);
      acts := [Go(c)] + rest;
    }
  }

  /** From a state in which every run is kept, dropping the lock can be followed by an unsafe state,
      without any queued job being rolled back, exactly when the holder is a fleet launch that may
      still submit or roll back. */
  lemma ReleaseIsUnsafeExactlyWhenTheHolderMaySpend(s: Sys, r: nat)
    requires Inv(s) && EveryRunKept(s.files)
    requires r in s.tasks && s.tasks[r].ReleaseUnlink? && s.files.lock.Held?
    ensures (exists acts :: Breaks(Next(s, Go(r), false), acts)) <==> HolderMaySpend(s)
  {
    var s' := Next(s, Go(r), false);
    if HolderMaySpend(s) {
      var acts := SpendingWithoutLock(s', s.files.lock.inode);
    } else {
      assert s' == Next(s, Go(r), true);
      NextKeepsInv(s, Go(r));
      NextKeepsEveryRun(s, Go(r));
      forall acts ensures !Breaks(s', acts) { SafeExactlyWhenNoQueuedRunIsDropped(s', acts); }
    }
  }
}

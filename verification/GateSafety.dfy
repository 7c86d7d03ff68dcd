/** What holds in every interleaving that respects the release rule: what a launch, a release and a
    rollback leave behind, and when at most one run is unreleased. */
module GateSafety {
  import opened Text
  import opened GateFiles
  import opened GateSteps

  // ---- launches and releases ----------------------------------------------------------

  /** Call `c`'s lock is dropped by `release` somewhere after position `i`. */
  ghost predicate ReleasedAfter(events: seq<Event>, i: nat, c: nat) {
    exists k :: i < k < |events| && events[k].Released? && events[k].inode == c
  }

  ghost predicate Unreleased(events: seq<Event>, i: nat) {
    i < |events| && events[i].Enqueued? && !ReleasedAfter(events, i, events[i].caller)
  }

  /** At most one enqueued run is unreleased, and the lock names that run. */
  ghost predicate OneRunAndTheLockNamesIt(f: Files) {
    && (forall i: nat, j: nat :: Unreleased(f.events, i) && Unreleased(f.events, j) ==> i == j)
    && (forall i: nat :: Unreleased(f.events, i) ==>
          f.lock == Held(f.events[i].caller, Some(f.events[i].run)))
  }

  /** Some lock of the first launch's call is released between the two. */
  ghost predicate ReleasedBetween(events: seq<Event>, i: nat, j: nat)
    requires i < j < |events| && events[i].Enqueued?
  {
    exists k :: i < k < j && events[k].Released? && events[k].inode == events[i].caller
  }

  /** Between two launches the first one's lock was released, or the first one's submit had raised. */
  ghost predicate ReleaseBetweenLaunches(events: seq<Event>) {
    forall i, j :: 0 <= i < j < |events| && events[i].Enqueued? && events[j].Enqueued? && !events[i].raised ==>
      ReleasedBetween(events, i, j)
  }

  function Launches(events: seq<Event>, id: string): nat {
    if events == [] then 0
    else
      var last := events[|events| - 1];
      Launches(events[..|events| - 1], id) + if last.Enqueued? && last.run.proposalId == id then 1 else 0
  }

  /** The launches whose submit raised after queueing. */
  function RaisedLaunches(events: seq<Event>, id: string): nat {
    if events == [] then 0
    else
      var last := events[|events| - 1];
      RaisedLaunches(events[..|events| - 1], id)
      + if last.Enqueued? && last.run.proposalId == id && last.raised then 1 else 0
  }

  function Releases(events: seq<Event>, id: string): nat {
    if events == [] then 0
    else
      var last := events[|events| - 1];
      Releases(events[..|events| - 1], id)
      + if last.Released? && last.claim.Some? && last.claim.value.proposalId == id then 1 else 0
  }

  // ---- the invariant ------------------------------------------------------------------

  predicate PastClaim(t: Task) {
    t.DispatchStamp? || t.DispatchSubmit? || t.DispatchRollback? || t.DispatchLog? || t.DispatchWrite? || t.Ended?
  }

  /** Where a call stands after its launch. */
  predicate PastLaunch(t: Task, raised: bool) {
    t.Ended? || if raised then t.DispatchRollback? && t.da.submits.QueuedThenRaised?
                else t.DispatchLog? || t.DispatchWrite?
  }

  /** The lock belongs to a known call, and a call that may still spend holds the lock. */
  ghost predicate LockOwned(s: Sys) {
    && (s.files.lock.Held? ==> s.files.lock.inode in s.tasks && PastClaim(s.tasks[s.files.lock.inode]))
    && (forall c :: c in s.tasks && Spending(s.tasks[c]) ==>
          var t := s.tasks[c];
          && s.files.lock.Held? && s.files.lock.inode == c
          && (!t.DispatchStamp? ==> s.files.lock.claim == Some(RunOf(t.da, t.doc, t.signature))))
  }

  ghost predicate LaunchedBy(events: seq<Event>, c: nat) {
    exists i :: 0 <= i < |events| && events[i].Enqueued? && events[i].caller == c
  }

  /** Every launching call is past its launch, a job whose submit did not raise is released or named
      by the lock, and a rollback after queueing has queued. */
  ghost predicate LaunchesAccounted(s: Sys) {
    && (forall i :: 0 <= i < |s.files.events| && s.files.events[i].Enqueued? ==>
          var e := s.files.events[i];
          && e.caller in s.tasks && PastLaunch(s.tasks[e.caller], e.raised)
          && (e.raised || ReleasedAfter(s.files.events, i, e.caller) || s.files.lock == Held(e.caller, Some(e.run))))
    && (forall c :: c in s.tasks && s.tasks[c].DispatchRollback? && s.tasks[c].da.submits.QueuedThenRaised? ==>
          LaunchedBy(s.files.events, c))
  }

  /** Released locks belong to calls that may no longer spend, and are gone. */
  ghost predicate ReleasesAccounted(s: Sys) {
    forall i :: 0 <= i < |s.files.events| && s.files.events[i].Released? ==>
      var c := s.files.events[i].inode;
      && c in s.tasks && PastClaim(s.tasks[c]) && !Spending(s.tasks[c])
      && (s.files.lock.Held? ==> s.files.lock.inode != c)
  }

  ghost predicate KeptBy(events: seq<Event>, c: nat) {
    exists i :: 0 <= i < |events| && events[i].Enqueued? && events[i].caller == c && !events[i].raised
  }

  /** A run standing in the lock accounts for the one launch that is not yet released. */
  ghost function StandingLaunch(f: Files, id: string): nat {
    if f.lock.Held? && f.lock.claim.Some? && f.lock.claim.value.proposalId == id
       && KeptBy(f.events, f.lock.inode) then 1 else 0
  }

  ghost predicate LaunchesBounded(f: Files) {
    forall id :: Launches(f.events, id) <= Releases(f.events, id) + RaisedLaunches(f.events, id) + StandingLaunch(f, id)
  }

  ghost predicate Inv(s: Sys) {
    && LockOwned(s)
    && LaunchesAccounted(s)
    && ReleasesAccounted(s)
    && ReleaseBetweenLaunches(s.files.events)
    && LaunchesBounded(s.files)
  }

  /** Every launch is released or named by the lock, and between two launches lies a release. */
  ghost predicate EveryRunKept(f: Files) {
    && (forall i :: 0 <= i < |f.events| && f.events[i].Enqueued? ==>
          ReleasedAfter(f.events, i, f.events[i].caller) || f.lock == Held(f.events[i].caller, Some(f.events[i].run)))
    && (forall i, j :: 0 <= i < j < |f.events| && f.events[i].Enqueued? && f.events[j].Enqueued? ==>
          ReleasedBetween(f.events, i, j))
  }

  // ---- one step keeps the invariant -----------------------------------------------------

  lemma GoKeepsLockOwned(s: Sys, id: nat)
    requires Inv(s) && id in s.tasks && Allowed(s, id)
    ensures LockOwned(Next(s, Go(id), true))
  {
    var (f', t') := Advance(id, s.tasks[id], s.files);
    assert Next(s, Go(id), true) == Sys(f', s.tasks[id := t']);
    assert f'.lock.Held? && f'.lock != s.files.lock ==> f'.lock.inode == id && PastClaim(t');
    assert Spending(t') ==> f'.lock.Held? && f'.lock.inode == id;
  }

  lemma NextKeepsLockOwned(s: Sys, act: Action)
    requires Inv(s)
    ensures LockOwned(Next(s, act, true))
  {
    if act.Go? && act.id in s.tasks && Allowed(s, act.id) { GoKeepsLockOwned(s, act.id); }
  }

  lemma AppendKeepsReleased(events: seq<Event>, e: Event, i: nat, c: nat)
    requires ReleasedAfter(events, i, c)
    ensures ReleasedAfter(events + [e], i, c)
  {
    var k :| i < k < |events| && events[k].Released? && events[k].inode == c;
    assert (events + [e])[k] == events[k];
  }

  /** The launch a call logs when it submits. */
  function LaunchOf(me: nat, t: Task): Event
    requires t.DispatchSubmit?
  {
    Enqueued(me, RunOf(t.da, t.doc, t.signature), t.doc, t.signature, t.da.submits.QueuedThenRaised?)
  }

  predicate Submits(s: Sys, act: Action) {
    && act.Go? && act.id in s.tasks && s.tasks[act.id].DispatchSubmit?
    && s.tasks[act.id].da.mode == Some(Fleet) && !s.tasks[act.id].da.submits.NotQueued?
  }

  predicate Unlinks(s: Sys, act: Action) {
    act.Go? && act.id in s.tasks && s.tasks[act.id].ReleaseUnlink? && s.files.lock.Held? && !HolderMaySpend(s)
  }

  /** Nothing is logged but the launch of a call that holds the lock and never launched before, or
      the release of a lock whose holder may no longer spend. */
  lemma WhatNextLogs(s: Sys, act: Action)
    requires Inv(s)
    ensures var (f, f') := (s.files, Next(s, act, true).files);
            && f'.events == (if Submits(s, act) then f.events + [LaunchOf(act.id, s.tasks[act.id])]
                             else if Unlinks(s, act) then f.events + [Released(f.lock.inode, f.lock.claim)]
                             else f.events)
            && (Submits(s, act) ==>
                  var t := s.tasks[act.id];
                  && f'.lock == f.lock == Held(act.id, Some(RunOf(t.da, t.doc, t.signature)))
                  && !LaunchedBy(f.events, act.id))
            && (Unlinks(s, act) ==> f'.lock == Free)
  {
  }

  /** A lock changes hands without a log line only by a claim, a stamp or a rollback of its own call. */
  lemma QuietLock(s: Sys, act: Action)
    requires Inv(s) && !Submits(s, act) && !Unlinks(s, act)
    ensures var (f, f') := (s.files, Next(s, act, true).files);
            f'.lock != f.lock ==>
              && act.Go? && act.id in s.tasks
              && (s.tasks[act.id].DispatchClaim? || s.tasks[act.id].DispatchStamp? || s.tasks[act.id].DispatchRollback?)
              && (f.lock.Held? ==> f.lock.inode == act.id)
              && (f'.lock.Held? ==> f'.lock.inode == act.id)
  {
  }

  /** A call past its launch stays there. */
  lemma PastLaunchStays(s: Sys, act: Action, c: nat, raised: bool)
    requires c in s.tasks && PastLaunch(s.tasks[c], raised)
    ensures var s' := Next(s, act, true); c in s'.tasks && PastLaunch(s'.tasks[c], raised)
  {
  }

  lemma NextKeepsLaunchesAccounted(s: Sys, act: Action)
    requires Inv(s)
    ensures LaunchesAccounted(Next(s, act, true))
  {
    var s' := Next(s, act, true);
    var ev, ev' := s.files.events, s'.files.events;
    WhatNextLogs(s, act);
    if !Submits(s, act) && !Unlinks(s, act) { QuietLock(s, act); }
    forall i | 0 <= i < |ev'| && ev'[i].Enqueued?
      ensures var e := ev'[i];
              && e.caller in s'.tasks && PastLaunch(s'.tasks[e.caller], e.raised)
              && (e.raised || ReleasedAfter(ev', i, e.caller) || s'.files.lock == Held(e.caller, Some(e.run)))
    {
      if i < |ev| {
        assert ev'[i] == ev[i];
        PastLaunchStays(s, act, ev[i].caller, ev[i].raised);
        if ReleasedAfter(ev, i, ev[i].caller) {
          if ev' != ev { AppendKeepsReleased(ev, ev'[|ev|], i, ev[i].caller); }
        } else if Unlinks(s, act) && !ev[i].raised {
          assert ev'[|ev|].inode == ev[i].caller;
        }
      }
    }
    forall c | c in s'.tasks && s'.tasks[c].DispatchRollback? && s'.tasks[c].da.submits.QueuedThenRaised?
      ensures LaunchedBy(ev', c)
    {
      if c in s.tasks && s'.tasks[c] == s.tasks[c] {
        LaunchedByGrows(ev, ev', c);
      } else {
        assert Submits(s, act) && c == act.id;
        assert ev'[|ev|].caller == c;
      }
    }
  }

  lemma LaunchedByGrows(ev: seq<Event>, ev': seq<Event>, c: nat)
    requires |ev| <= |ev'| && ev == ev'[..|ev|] && LaunchedBy(ev, c)
    ensures LaunchedBy(ev', c)
  {
    var i :| 0 <= i < |ev| && ev[i].Enqueued? && ev[i].caller == c;
    assert ev'[i] == ev[i];
  }

  lemma NextKeepsReleasesAccounted(s: Sys, act: Action)
    requires Inv(s)
    ensures ReleasesAccounted(Next(s, act, true))
  {
    WhatNextLogs(s, act);
  }

  lemma ReleasedBetweenStays(ev: seq<Event>, e: Event, i: nat, j: nat)
    requires i < j < |ev| && ev[i].Enqueued? && ReleasedBetween(ev, i, j)
    ensures ReleasedBetween(ev + [e], i, j)
  {
    var k :| i < k < j && ev[k].Released? && ev[k].inode == ev[i].caller;
    assert (ev + [e])[k] == ev[k] && (ev + [e])[i] == ev[i];
  }

  lemma ReleasedBeforeTheNext(ev: seq<Event>, e: Event, i: nat)
    requires i < |ev| && ev[i].Enqueued? && ReleasedAfter(ev, i, ev[i].caller)
    ensures ReleasedBetween(ev + [e], i, |ev|)
  {
    var k :| i < k < |ev| && ev[k].Released? && ev[k].inode == ev[i].caller;
    assert (ev + [e])[k] == ev[k] && (ev + [e])[i] == ev[i];
  }

  lemma NextKeepsReleaseBetween(s: Sys, act: Action)
    requires Inv(s)
    ensures ReleaseBetweenLaunches(Next(s, act, true).files.events)
  {
    var ev, ev' := s.files.events, Next(s, act, true).files.events;
    WhatNextLogs(s, act);
    if ev' != ev {
      forall i, j | 0 <= i < j < |ev'| && ev'[i].Enqueued? && ev'[j].Enqueued? && !ev'[i].raised
        ensures ReleasedBetween(ev', i, j)
      {
        assert ev'[i] == ev[i];
        if j < |ev| {
          assert ev'[j] == ev[j];
          ReleasedBetweenStays(ev, ev'[|ev|], i, j);
        } else {
          // The new launch holds the lock, so the earlier one no longer does.
          assert ev[i].caller != act.id;
          ReleasedBeforeTheNext(ev, ev'[|ev|], i);
        }
      }
    }
  }

  lemma CountsAppend(events: seq<Event>, e: Event, id: string)
    ensures Launches(events + [e], id)
         == Launches(events, id) + if e.Enqueued? && e.run.proposalId == id then 1 else 0
    ensures RaisedLaunches(events + [e], id)
         == RaisedLaunches(events, id) + if e.Enqueued? && e.run.proposalId == id && e.raised then 1 else 0
    ensures Releases(events + [e], id)
         == Releases(events, id)
            + if e.Released? && e.claim.Some? && e.claim.value.proposalId == id then 1 else 0
  {
    assert (events + [e])[..|events + [e]| - 1] == events;
  }

  lemma KeptByAppend(events: seq<Event>, e: Event, c: nat)
    ensures KeptBy(events + [e], c) <==> KeptBy(events, c) || (e.Enqueued? && e.caller == c && !e.raised)
  {
    var ev' := events + [e];
    if KeptBy(events, c) {
      var i :| 0 <= i < |events| && events[i].Enqueued? && events[i].caller == c && !events[i].raised;
      assert ev'[i] == events[i];
    }
    if e.Enqueued? && e.caller == c && !e.raised { assert ev'[|events|] == e; }
  }

  /** When nothing is logged, a lock that changes hands changes between calls that keep no launch. */
  lemma QuietStepKeepsStanding(s: Sys, act: Action, id: string)
    requires Inv(s) && !Submits(s, act) && !Unlinks(s, act)
    ensures StandingLaunch(Next(s, act, true).files, id) >= StandingLaunch(s.files, id)
  {
    WhatNextLogs(s, act);
    QuietLock(s, act);
    if Next(s, act, true).files.lock != s.files.lock && s.files.lock.Held? {
      assert !KeptBy(s.files.events, act.id);
    }
  }

  lemma NextKeepsLaunchesBounded(s: Sys, act: Action)
    requires Inv(s)
    ensures LaunchesBounded(Next(s, act, true).files)
  {
    var f, f' := s.files, Next(s, act, true).files;
    WhatNextLogs(s, act);
    forall id
      ensures Launches(f'.events, id) <= Releases(f'.events, id) + RaisedLaunches(f'.events, id) + StandingLaunch(f', id)
    {
      assert Launches(f.events, id) <= Releases(f.events, id) + RaisedLaunches(f.events, id) + StandingLaunch(f, id);
      if !Submits(s, act) && !Unlinks(s, act) {
        QuietStepKeepsStanding(s, act, id);
      } else {
        var e := f'.events[|f.events|];
        assert f'.events == f.events + [e];
        CountsAppend(f.events, e, id);
        if e.Enqueued? { KeptByAppend(f.events, e, e.caller); }
      }
    }
  }

  lemma NextKeepsInv(s: Sys, act: Action)
    requires Inv(s)
    ensures Inv(Next(s, act, true))
  {
    NextKeepsLockOwned(s, act);
    NextKeepsLaunchesAccounted(s, act);
    NextKeepsReleasesAccounted(s, act);
    NextKeepsReleaseBetween(s, act);
    NextKeepsLaunchesBounded(s, act);
  }

  lemma {:induction false} InvStays(s: Sys, acts: seq<Action>)
    requires Inv(s)
    ensures Inv(ExecFrom(s, acts, true))
    decreases |acts|
  {
    if acts != [] {
      NextKeepsInv(s, acts[0]);
      InvStays(Next(s, acts[0], true), acts[1..]);
    }
  }

  lemma InvHolds(acts: seq<Action>)
    ensures Inv(Exec(acts, true))
  {
    InvStays(START, acts);
    ExecFromStart(acts, true);
  }

  // ---- when the claim is safe -----------------------------------------------------------

  /** The step rolls back a job that its own submit had queued and that is still under its lock. */
  predicate DropsAQueuedRun(s: Sys, act: Action) {
    && act.Go? && act.id in s.tasks && s.tasks[act.id].DispatchRollback?
    && s.tasks[act.id].da.submits.QueuedThenRaised?
    && s.files.lock.Held? && s.files.lock.inode == act.id
  }

  /** No step from `s` on rolls back a job that its submit had queued. */
  predicate NoQueuedRunIsDropped(s: Sys, acts: seq<Action>)
    decreases |acts|
  {
    acts == [] || (!DropsAQueuedRun(s, acts[0]) && NoQueuedRunIsDropped(Next(s, acts[0], true), acts[1..]))
  }

  lemma {:induction false} NoneDroppedSplits(s: Sys, a: seq<Action>, b: seq<Action>)
    ensures NoQueuedRunIsDropped(s, a + b) <==>
            NoQueuedRunIsDropped(s, a) && NoQueuedRunIsDropped(ExecFrom(s, a, true), b)
    decreases |a|
  {
    if a == [] {
      assert a + b == b;
    } else {
      assert (a + b)[1..] == a[1..] + b;
      NoneDroppedSplits(Next(s, a[0], true), a[1..], b);
    }
  }

  lemma NextKeepsEveryRun(s: Sys, act: Action)
    requires Inv(s) && EveryRunKept(s.files) && !DropsAQueuedRun(s, act)
    ensures EveryRunKept(Next(s, act, true).files)
  {
    var s' := Next(s, act, true);
    var ev, ev' := s.files.events, s'.files.events;
    WhatNextLogs(s, act);
    if !Submits(s, act) && !Unlinks(s, act) { QuietLock(s, act); }
    forall i | 0 <= i < |ev'| && ev'[i].Enqueued?
      ensures ReleasedAfter(ev', i, ev'[i].caller) || s'.files.lock == Held(ev'[i].caller, Some(ev'[i].run))
    {
      if i < |ev| {
        assert ev'[i] == ev[i];
        if ReleasedAfter(ev, i, ev[i].caller) {
          if ev' != ev { AppendKeepsReleased(ev, ev'[|ev|], i, ev[i].caller); }
        } else if Unlinks(s, act) {
          assert ev'[|ev|].inode == ev[i].caller;
        }
      }
    }
    if ev' != ev {
      forall i, j | 0 <= i < j < |ev'| && ev'[i].Enqueued? && ev'[j].Enqueued? ensures ReleasedBetween(ev', i, j) {
        assert ev'[i] == ev[i];
        if j < |ev| {
          assert ev'[j] == ev[j];
          ReleasedBetweenStays(ev, ev'[|ev|], i, j);
        } else {
          assert ev[i].caller != act.id;
          ReleasedBeforeTheNext(ev, ev'[|ev|], i);
        }
      }
    }
  }

  lemma EveryRunKeptIsSafe(f: Files)
    requires EveryRunKept(f)
    ensures OneRunAndTheLockNamesIt(f)
  {
    forall i: nat, j: nat | i < j < |f.events| && f.events[i].Enqueued? && f.events[j].Enqueued?
      ensures ReleasedAfter(f.events, i, f.events[i].caller)
    {
      assert ReleasedBetween(f.events, i, j);
      var k :| i < k < j && f.events[k].Released? && f.events[k].inode == f.events[i].caller;
    }
  }

  /** A run that was queued, is over, and stands in no lock and under no release. */
  ghost predicate Dropped(s: Sys, i: nat) {
    && Unreleased(s.files.events, i)
    && var c := s.files.events[i].caller;
       c in s.tasks && s.tasks[c].Ended? && (s.files.lock.Held? ==> s.files.lock.inode != c)
  }

  lemma DroppedStays(s: Sys, act: Action, i: nat)
    requires Inv(s) && Dropped(s, i)
    ensures Dropped(Next(s, act, true), i)
  {
    var s' := Next(s, act, true);
    var ev, ev' := s.files.events, s'.files.events;
    var c := ev[i].caller;
    WhatNextLogs(s, act);
    if !Submits(s, act) && !Unlinks(s, act) { QuietLock(s, act); }
    assert ev'[i] == ev[i];
    forall k | i < k < |ev'| && ev'[k].Released? ensures ev'[k].inode != c {
      if k < |ev| { assert ev'[k] == ev[k]; }
    }
  }

  lemma DropLeavesADroppedRun(s: Sys, act: Action) returns (i: nat)
    requires Inv(s) && DropsAQueuedRun(s, act)
    ensures Dropped(Next(s, act, true), i)
  {
    i :| 0 <= i < |s.files.events| && s.files.events[i].Enqueued? && s.files.events[i].caller == act.id;
  }

  lemma {:induction false} DroppedForGood(s: Sys, acts: seq<Action>, i: nat)
    requires Inv(s) && Dropped(s, i)
    ensures !OneRunAndTheLockNamesIt(ExecFrom(s, acts, true).files)
    decreases |acts|
  {
    if acts != [] {
      NextKeepsInv(s, acts[0]);
      DroppedStays(s, acts[0], i);
      DroppedForGood(Next(s, acts[0], true), acts[1..], i);
    }
  }

  /** From a state in which every run is kept, the claim stays safe under the release rule exactly
      as long as no submit that queued its job and raised is rolled back. */
  lemma {:induction false} SafeExactlyWhenNoQueuedRunIsDropped(s: Sys, acts: seq<Action>)
    requires Inv(s) && EveryRunKept(s.files)
    ensures OneRunAndTheLockNamesIt(ExecFrom(s, acts, true).files) <==> NoQueuedRunIsDropped(s, acts)
    ensures NoQueuedRunIsDropped(s, acts) ==> EveryRunKept(ExecFrom(s, acts, true).files)
    decreases |acts|
  {
    if acts == [] {
      EveryRunKeptIsSafe(s.files);
    } else {
      NextKeepsInv(s, acts[0]);
      if DropsAQueuedRun(s, acts[0]) {
        var i := DropLeavesADroppedRun(s, acts[0]);
        DroppedForGood(Next(s, acts[0], true), acts[1..], i);
      } else {
        NextKeepsEveryRun(s, acts[0]);
        SafeExactlyWhenNoQueuedRunIsDropped(Next(s, acts[0], true), acts[1..]);
      }
    }
  }

  // ---- the theorems -------------------------------------------------------------------

  /** In every interleaving of any number of calls that respects the release rule: between two
      launches the first one's lock was released unless its submit had raised; and at most one
      enqueued run is unreleased, with the lock naming it, exactly when no job was rolled back
      after it was queued. */
  lemma AtMostOneRunInEveryInterleaving(acts: seq<Action>)
    ensures ReleaseBetweenLaunches(Exec(acts, true).files.events)
    ensures OneRunAndTheLockNamesIt(Exec(acts, true).files) <==> NoQueuedRunIsDropped(START, acts)
  {
    InvHolds(acts);
    SafeExactlyWhenNoQueuedRunIsDropped(START, acts);
    ExecFromStart(acts, true);
  }

  /** The true bound behind "at most once per proposal": one launch, plus one for every released
      run of that proposal, plus one for every submit that raised after queueing it. */
  lemma LaunchesNeverExceedReleasesByMoreThanOne(acts: seq<Action>, id: string)
    ensures var ev := Exec(acts, true).files.events;
            Launches(ev, id) <= 1 + Releases(ev, id) + RaisedLaunches(ev, id)
  {
    InvHolds(acts);
  }
}

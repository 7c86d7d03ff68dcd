/** Fills that overlap: when they queue a cell twice. */
module FillOverlap {
  import opened Lists
  import opened RoundRobin
  import opened Schedule
  import opened Reorder
  import opened FillQueue
  import opened FillSteps
  import opened FillNames

  // ---- one fill ends, then the other -----------------------------------------------------------------

  /** The fill is yet to queue the id; a rewrite queues again what it has read. */
  predicate IsToQueue(lanes: Waiting, t: Task, id: string) {
    match t
    case ReadFirst(cells, _, _) => id in IdsIn(cells, true) && id !in QueuedIds(lanes)
    case ReadSecond(cells, _, _, seen) => id in IdsIn(cells, true) && id !in seen + IdsIn(lanes.deferred, true)
    case ReadLane(more) => id in IdsIn(more, true)
    case DropLane(more, existing) => id in IdsIn(existing, true) + IdsIn(more, true)
    case Push(rest, _) => id in IdsIn(rest, true)
    case ReadToReorder => false
    case Replace(existing) => id in IdsIn(existing, true) && Feasible(existing)
    case Done => false
  }

  predicate OnDemandAfter(lanes: Waiting, t: Task, id: string) {
    (id in IdsIn(lanes.onDemand, true) && !Rewrites(t)) || (!Defers(t) && IsToQueue(lanes, t, id))
  }

  predicate DeferredAfter(lanes: Waiting, t: Task, id: string) {
    id in IdsIn(lanes.deferred, true) || (Defers(t) && IsToQueue(lanes, t, id))
  }

  /** The second fill queues the id although the first has left it waiting: it is past the read that
      would have shown it the cell, and does not drop the lane that holds it. */
  predicate Misses(lanes: Waiting, t: Task, u: Task, id: string) {
    match u
    case ReadFirst(_, _, _) => false
    case ReadSecond(cells, _, _, seen) => id in IdsIn(cells, true) && id !in seen && OnDemandAfter(lanes, t, id)
    case DropLane(more, existing) => id in IdsIn(existing, true) + IdsIn(more, true) && DeferredAfter(lanes, t, id)
    case Replace(existing) => id in IdsIn(existing, true) && Feasible(existing) && DeferredAfter(lanes, t, id)
    case _ => id in IdsIn(Pending(u), true) && (OnDemandAfter(lanes, t, id) || DeferredAfter(lanes, t, id))
  }

  lemma ToQueueInCopies(lanes: Waiting, t: Task, id: string)
    requires id != ""
    ensures IsToQueue(lanes, t, id) <==> Adds(lanes, t, id) > 0
  {
    match t
    case ReadFirst(cells, _, _) => InIdsExactlyWhen(cells, id);
    case ReadSecond(cells, _, _, _) => InIdsExactlyWhen(cells, id);
    case ReadLane(more) => InIdsExactlyWhen(more, id);
    case DropLane(more, existing) =>
      InIdsExactlyWhen(more, id);
      InIdsExactlyWhen(existing, id);
    case Push(rest, _) => InIdsExactlyWhen(rest, id);
    case ReadToReorder =>
    case Replace(existing) => InIdsExactlyWhen(existing, id);
    case Done =>
  }

  lemma AfterInCopies(lanes: Waiting, t: Task, id: string)
    requires id != ""
    ensures OnDemandAfter(lanes, t, id) <==> CopiesOf(Alone(lanes, t).onDemand, id) > 0
    ensures DeferredAfter(lanes, t, id) <==> CopiesOf(Alone(lanes, t).deferred, id) > 0
  {
    AloneEndsAsComputed(lanes, t, id);
    ToQueueInCopies(lanes, t, id);
    InIdsExactlyWhen(lanes.onDemand, id);
    InIdsExactlyWhen(lanes.deferred, id);
  }

  lemma MissesInCopies(lanes: Waiting, t: Task, u: Task, id: string)
    requires id != ""
    ensures var end := Alone(lanes, t);
            Misses(lanes, t, u, id) <==>
            match u
            case ReadFirst(_, _, _) => false
            case ReadSecond(cells, _, _, seen) => CopiesOf(cells, id) > 0 && id !in seen && CopiesOf(end.onDemand, id) > 0
            case DropLane(more, existing) => CopiesOf(existing, id) + CopiesOf(more, id) > 0 && CopiesOf(end.deferred, id) > 0
            case Replace(existing) => CopiesOf(existing, id) > 0 && Feasible(existing) && CopiesOf(end.deferred, id) > 0
            case _ => CopiesOf(Pending(u), id) > 0 && Waits(end, id) > 0
  {
    AfterInCopies(lanes, t, id);
    match u
    case ReadFirst(_, _, _) =>
    case ReadSecond(cells, _, _, _) => InIdsExactlyWhen(cells, id);
    case DropLane(more, existing) =>
      InIdsExactlyWhen(more, id);
      InIdsExactlyWhen(existing, id);
    case Replace(existing) => InIdsExactlyWhen(existing, id);
    case _ =>
      InIdsExactlyWhen(Pending(u), id);
      CopiesOfEmpty(id);
  }

  /** Two fills that overlap, wherever each of them stands, and each of which alone would leave the id
      waiting at most once: when the first takes its remaining steps and then the second, the id waits
      twice exactly when the second misses it. */
  lemma TwoFillsDoubleExactlyWhen(lanes: Waiting, t: Task, u: Task, id: string)
    requires id != "" && Tidy(u) && OnceFor(lanes, t, id) && OnceFor(lanes, u, id)
    ensures Waits(Alone(Alone(lanes, t), u), id) > 1 <==> Misses(lanes, t, u, id)
  {
    var end := Alone(lanes, t);
    MissesInCopies(lanes, t, u, id);
    WillWaitIsAlone(end, u, id);
    WillWaitIsAlone(lanes, u, id);
    SecondAdds(end, u, id);
  }

  lemma SecondAdds(end: Waiting, u: Task, id: string)
    requires id != "" && Tidy(u)
    ensures u.ReadFirst? ==> Adds(end, u, id) <= 1 && (Adds(end, u, id) > 0 ==> Waits(end, id) == 0)
    ensures u.ReadSecond? ==>
              Adds(end, u, id) == if id in u.seen || CopiesOf(end.deferred, id) > 0 then 0 else CopiesOf(u.cells, id)
  {
    InIdsExactlyWhen(end.onDemand, id);
    InIdsExactlyWhen(end.deferred, id);
  }

  // ---- any number of fills, in any order -----------------------------------------------------------------

  function QueuedBy(fills: seq<Task>, id: string): nat
    decreases |fills|
  {
    if fills == [] then 0 else QueuedBy(fills[..|fills| - 1], id) + CopiesOf(Pending(fills[|fills| - 1]), id)
  }

  /** How often an id waits or is about to be queued. */
  function Committed(s: Sys, id: string): nat { Waits(s.lanes, id) + QueuedBy(s.fills, id) }

  lemma QueuedByOneMore(fills: seq<Task>, t: Task, id: string)
    ensures QueuedBy(fills + [t], id) == QueuedBy(fills, id) + CopiesOf(Pending(t), id)
  {
    assert (fills + [t])[..|fills + [t]| - 1] == fills;
  }

  lemma {:induction false} QueuedByOne(fills: seq<Task>, i: nat, t: Task, id: string)
    requires i < |fills|
    ensures QueuedBy(fills[i := t], id) + CopiesOf(Pending(fills[i]), id) == QueuedBy(fills, id) + CopiesOf(Pending(t), id)
    decreases |fills|
  {
    var front, last := fills[..|fills| - 1], fills[|fills| - 1];
    assert fills == front + [last];
    if i < |front| {
      QueuedByOne(front, i, t, id);
      assert fills[i := t] == front[i := t] + [last];
      QueuedByOneMore(front[i := t], last, id);
      QueuedByOneMore(front, last, id);
    } else {
      assert fills[i := t] == front + [t];
      QueuedByOneMore(front, last, id);
      QueuedByOneMore(front, t, id);
    }
  }

  /** The id waits, or some fill is about to queue it. */
  ghost predicate Engaged(s: Sys, id: string) {
    id in QueuedIds(s.lanes) || exists i :: 0 <= i < |s.fills| && id in IdsIn(Pending(s.fills[i]), true)
  }

  lemma {:induction false} QueuedByAtLeast(fills: seq<Task>, i: nat, id: string)
    requires i < |fills|
    ensures QueuedBy(fills, id) >= CopiesOf(Pending(fills[i]), id)
    decreases |fills|
  {
    if i < |fills| - 1 { QueuedByAtLeast(fills[..|fills| - 1], i, id); }
  }

  lemma {:induction false} QueuedBySome(fills: seq<Task>, id: string) returns (i: nat)
    requires QueuedBy(fills, id) > 0
    ensures i < |fills| && CopiesOf(Pending(fills[i]), id) > 0
    decreases |fills|
  {
    i := |fills| - 1;
    if CopiesOf(Pending(fills[i]), id) == 0 { i := QueuedBySome(fills[..i], id); }
  }

  lemma QueuedByNoneExactlyWhen(fills: seq<Task>, id: string)
    requires id != ""
    ensures QueuedBy(fills, id) > 0 <==> exists i :: 0 <= i < |fills| && id in IdsIn(Pending(fills[i]), true)
  {
    if QueuedBy(fills, id) > 0 {
      var i := QueuedBySome(fills, id);
      InIdsExactlyWhen(Pending(fills[i]), id);
    }
    if i :| 0 <= i < |fills| && id in IdsIn(Pending(fills[i]), true) {
      InIdsExactlyWhen(Pending(fills[i]), id);
      QueuedByAtLeast(fills, i, id);
    }
  }

  lemma EngagedInCopies(s: Sys, id: string)
    requires id != ""
    ensures Engaged(s, id) <==> Committed(s, id) > 0
  {
    QueuedExactlyWhen(s.lanes, id);
    QueuedByNoneExactlyWhen(s.fills, id);
  }

  /** The step commits an id once more that is engaged already: a fill selects it unseen, a rewrite has
      read it in the lane and no longer finds it there, or a worker puts it back. */
  ghost predicate CommitsAgain(s: Sys, a: Action, id: string) {
    Engaged(s, id) && id != "" &&
    match a
    case Go(i, ok) =>
      i < |s.fills| &&
      (var t := s.fills[i];
       || (t.ReadSecond? && id in IdsIn(t.cells, true) && id !in t.seen + IdsIn(s.lanes.deferred, ok))
       || (Rewrites(t) && id in IdsIn(t.existing, true) && id !in IdsIn(s.lanes.onDemand, true)))
    case Requeue(k, _, _) => k < |s.popped| && s.popped[k].id == id
    case _ => false
  }

  /** Fills are handed no name twice, and what a rewrite has read holds none twice. */
  ghost predicate Orderly(t: Task) { Tidy(t) && (t.DropLane? || t.Replace? ==> NamedOnce(t.existing)) }

  ghost predicate OrderlyFills(fills: seq<Task>) { forall i :: 0 <= i < |fills| ==> Orderly(fills[i]) }

  ghost predicate AllOrderly(s: Sys) { OrderlyFills(s.fills) }

  lemma GoCommits(s: Sys, i: nat, ok: bool, id: string)
    requires i < |s.fills|
    ensures var t := s.fills[i];
            var (lanes', t') := Advance(s.lanes, t, ok);
            Committed(GoOn(s, i, ok), id) - Committed(s, id)
            == Waits(lanes', id) - Waits(s.lanes, id) + CopiesOf(Pending(t'), id) - CopiesOf(Pending(t), id)
  {
    var (lanes', t') := Advance(s.lanes, s.fills[i], ok);
    QueuedByOne(s.fills, i, t', id);
  }

  /** What one call adds to an id's commitments. */
  function Extra(lanes: Waiting, t: Task, ok: bool, id: string): int {
    if t.ReadSecond? then if id in t.seen + IdsIn(lanes.deferred, ok) then 0 else CopiesOf(t.cells, id)
    else if Rewrites(t) then CopiesOf(t.existing, id) - CopiesOf(lanes.onDemand, id)
    else 0
  }

  lemma RebuildCommits(lanes: Waiting, t: Task, ok: bool, id: string)
    requires t.DropLane?
    ensures var (lanes', t') := Advance(lanes, t, ok);
            Waits(lanes', id) + CopiesOf(Pending(t'), id) == Waits(lanes, id) + CopiesOf(Pending(t), id) + Extra(lanes, t, ok, id)
  {
    CopiesOfEmpty(id);
    RebuiltCopies(t.existing, t.more, id);
  }

  lemma ReplaceCommits(lanes: Waiting, t: Task, ok: bool, id: string)
    requires t.Replace? && Rewrites(t)
    ensures var (lanes', t') := Advance(lanes, t, ok);
            Waits(lanes', id) + CopiesOf(Pending(t'), id) == Waits(lanes, id) + CopiesOf(Pending(t), id) + Extra(lanes, t, ok, id)
  {
    ReorderedCopies(t.existing, id);
  }

  lemma ChoosingCommits(lanes: Waiting, t: Task, ok: bool, id: string)
    requires t.ReadSecond?
    ensures var (lanes', t') := Advance(lanes, t, ok);
            Waits(lanes', id) + CopiesOf(Pending(t'), id) == Waits(lanes, id) + CopiesOf(Pending(t), id) + Extra(lanes, t, ok, id)
  {
    CopiesOfEmpty(id);
    UnseenCopies(t.seen + IdsIn(lanes.deferred, ok), t.cells, id);
  }

  lemma PushCommits(lanes: Waiting, t: Task, ok: bool, id: string)
    requires t.Push?
    ensures var (lanes', t') := Advance(lanes, t, ok);
            Waits(lanes', id) + CopiesOf(Pending(t'), id) == Waits(lanes, id) + CopiesOf(Pending(t), id) + Extra(lanes, t, ok, id)
  {
    if t.rest == [] {
      CopiesOfEmpty(id);
    } else {
      PushMovesCopies(if t.batch then lanes.deferred else lanes.onDemand, t.rest, id);
    }
  }

  lemma OtherCallsCommit(lanes: Waiting, t: Task, ok: bool, id: string)
    requires !t.ReadSecond? && !t.Push? && !Rewrites(t)
    ensures var (lanes', t') := Advance(lanes, t, ok);
            Waits(lanes', id) + CopiesOf(Pending(t'), id) == Waits(lanes, id) + CopiesOf(Pending(t), id) + Extra(lanes, t, ok, id)
  {
    CopiesOfEmpty(id);
  }

  lemma AdvanceCommits(lanes: Waiting, t: Task, ok: bool, id: string)
    ensures var (lanes', t') := Advance(lanes, t, ok);
            Waits(lanes', id) + CopiesOf(Pending(t'), id) == Waits(lanes, id) + CopiesOf(Pending(t), id) + Extra(lanes, t, ok, id)
  {
    if t.ReadSecond? { ChoosingCommits(lanes, t, ok, id); }
    else if t.DropLane? { RebuildCommits(lanes, t, ok, id); }
    else if t.Push? { PushCommits(lanes, t, ok, id); }
    else if Rewrites(t) { ReplaceCommits(lanes, t, ok, id); }
    else { OtherCallsCommit(lanes, t, ok, id); }
  }

  lemma GoCommitsAgainExactlyWhen(s: Sys, i: nat, ok: bool, id: string)
    requires id != "" && i < |s.fills| && Orderly(s.fills[i]) && Committed(s, id) <= 1
    ensures Committed(GoOn(s, i, ok), id) > 1 <==> CommitsAgain(s, Go(i, ok), id)
  {
    var t := s.fills[i];
    GoCommits(s, i, ok, id);
    AdvanceCommits(s.lanes, t, ok, id);
    EngagedInCopies(s, id);
    InIdsExactlyWhen(s.lanes.onDemand, id);
    if t.ReadSecond? { InIdsExactlyWhen(t.cells, id); }
    if Rewrites(t) { InIdsExactlyWhen(t.existing, id); }
  }

  lemma StartCommitsNothing(s: Sys, a: Action, id: string)
    requires a.Start? && a.missingOnly
    ensures Committed(Next(s, a), id) == Committed(s, id)
  {
    QueuedByOneMore(s.fills, ReadFirst(a.cells, a.interleaved, a.batch), id);
    CopiesOfEmpty(id);
  }

  lemma PopCommitsNothing(s: Sys, fromDeferred: bool, id: string)
    ensures Committed(Next(s, Pop(fromDeferred)), id) <= Committed(s, id)
  {
    TakingRemovesCopies(s.lanes.onDemand, id);
    TakingRemovesCopies(s.lanes.deferred, id);
  }

  lemma RereadCommitsNothing(s: Sys, id: string)
    ensures Committed(Next(s, Reread), id) == Committed(s, id)
  {
    QueuedByOneMore(s.fills, ReadToReorder, id);
    CopiesOfEmpty(id);
  }

  lemma WipeCommitsNothing(s: Sys, deferred: bool, id: string)
    ensures Committed(Next(s, Wipe(deferred)), id) <= Committed(s, id)
  {
    CopiesOfEmpty(id);
  }

  lemma DieCommitsNothing(s: Sys, i: nat, id: string)
    ensures Committed(Next(s, Die(i)), id) <= Committed(s, id)
  {
    if i < |s.fills| {
      QueuedByOne(s.fills, i, Done, id);
      CopiesOfEmpty(id);
    }
  }

  lemma RequeueCommits(s: Sys, k: nat, deferred: bool, front: bool, id: string)
    ensures Committed(Next(s, Requeue(k, deferred, front)), id)
            == Committed(s, id) + if k < |s.popped| && s.popped[k].id == id then 1 else 0
  {
    if k < |s.popped| { PuttingBackAddsToItsLane(s.lanes, s.popped[k], deferred, front, id); }
  }

  lemma StepCommitsAgainExactlyWhen(s: Sys, a: Action, id: string)
    requires id != "" && AllOrderly(s) && Committed(s, id) <= 1 && (a.Start? ==> a.missingOnly)
    ensures Committed(Next(s, a), id) > 1 <==> CommitsAgain(s, a, id)
  {
    match a
    case Start(_, _, _, _) => StartCommitsNothing(s, a, id);
    case Go(i, ok) => if i < |s.fills| { GoCommitsAgainExactlyWhen(s, i, ok, id); }
    case Pop(fromDeferred) => PopCommitsNothing(s, fromDeferred, id);
    case Requeue(k, deferred, front) =>
      RequeueCommits(s, k, deferred, front, id);
      EngagedInCopies(s, id);
    case Reread => RereadCommitsNothing(s, id);
    case Wipe(deferred) => WipeCommitsNothing(s, deferred, id);
    case Die(i) => DieCommitsNothing(s, i, id);
  }

  ghost predicate CommittedOnce(s: Sys) { forall id :: id != "" ==> Committed(s, id) <= 1 }

  lemma WaitingOnce(s: Sys)
    requires CommittedOnce(s)
    ensures NamedOnce(s.lanes.onDemand) && NamedOnce(AllWaiting(s.lanes))
  {
    forall id | id != "" ensures CopiesOf(AllWaiting(s.lanes), id) <= 1 && CopiesOf(s.lanes.onDemand, id) <= 1 {
      assert Committed(s, id) <= 1;
      WaitsIsAllWaiting(s.lanes, id);
    }
  }

  lemma AdvanceIsOrderly(lanes: Waiting, t: Task, ok: bool)
    requires Orderly(t) && NamedOnce(lanes.onDemand)
    ensures Orderly(Advance(lanes, t, ok).1)
  {
  }

  lemma OneIsOrderly(fills: seq<Task>, i: nat, t: Task)
    requires i < |fills| && Orderly(t) && OrderlyFills(fills)
    ensures OrderlyFills(fills[i := t])
  {
  }

  lemma OneMoreIsOrderly(fills: seq<Task>, t: Task)
    requires Orderly(t) && OrderlyFills(fills)
    ensures OrderlyFills(fills + [t])
  {
  }

  lemma NextIsOrderly(s: Sys, a: Action)
    requires AllOrderly(s) && CommittedOnce(s) && (a.Start? ==> a.missingOnly && NamedOnce(a.cells))
    ensures AllOrderly(Next(s, a))
  {
    match a
    case Start(cells, _, interleaved, batch) => OneMoreIsOrderly(s.fills, ReadFirst(cells, interleaved, batch));
    case Go(i, ok) =>
      if i < |s.fills| {
        WaitingOnce(s);
        AdvanceIsOrderly(s.lanes, s.fills[i], ok);
        OneIsOrderly(s.fills, i, Advance(s.lanes, s.fills[i], ok).1);
      }
    case Pop(_) =>
    case Requeue(_, _, _) =>
    case Reread => OneMoreIsOrderly(s.fills, ReadToReorder);
    case Wipe(_) =>
    case Die(i) => if i < |s.fills| { OneIsOrderly(s.fills, i, Done); }
  }

  ghost predicate NothingCommitsAgain(actions: seq<Action>)
    decreases |actions|
  {
    actions == [] ||
    (var front, last := actions[..|actions| - 1], actions[|actions| - 1];
     NothingCommitsAgain(front) && forall id :: !CommitsAgain(Exec(front), last, id))
  }

  /** Every fill skips what is queued and is handed no name twice. */
  ghost predicate MissingOnlyFills(actions: seq<Action>) {
    forall i :: 0 <= i < |actions| && actions[i].Start? ==> actions[i].missingOnly && NamedOnce(actions[i].cells)
  }

  /** However many missing-only fills and re-interleavings overlap, whichever of their reads fail, and
      whatever the workers do:
      all through a run each id waits or is about to be queued at most once exactly as long as no step
      commits an engaged id again. */
  lemma {:induction false} OverlappingFillsQueueNothingTwice(actions: seq<Action>)
    requires MissingOnlyFills(actions)
    ensures Throughout(run => CommittedOnce(Exec(run)), actions) <==> NothingCommitsAgain(actions)
    ensures NothingCommitsAgain(actions) ==> AllOrderly(Exec(actions)) && NamedOnce(AllWaiting(Exec(actions).lanes))
    decreases |actions|
  {
    var p := (run: seq<Action>) => CommittedOnce(Exec(run));
    if actions == [] {
      ThroughoutOfNone(p, actions);
      forall id ensures Committed(EMPTY, id) == 0 { CopiesOfEmpty(id); }
      WaitingOnce(EMPTY);
    } else {
      var front, last := actions[..|actions| - 1], actions[|actions| - 1];
      assert forall i :: 0 <= i < |front| ==> front[i] == actions[i];
      OverlappingFillsQueueNothingTwice(front);
      ThroughoutOneMore(p, actions);
      if Throughout(p, front) {
        ThroughoutAtTheEnd(p, front);
        NextCommitsOnceExactlyWhen(Exec(front), last);
      }
    }
  }

  lemma NextCommitsOnceExactlyWhen(s: Sys, a: Action)
    requires AllOrderly(s) && CommittedOnce(s) && (a.Start? ==> a.missingOnly && NamedOnce(a.cells))
    ensures CommittedOnce(Next(s, a)) <==> forall id :: !CommitsAgain(s, a, id)
    ensures AllOrderly(Next(s, a))
    ensures CommittedOnce(Next(s, a)) ==> NamedOnce(AllWaiting(Next(s, a).lanes))
  {
    forall id | id != "" ensures Committed(Next(s, a), id) > 1 <==> CommitsAgain(s, a, id) {
      StepCommitsAgainExactlyWhen(s, a, id);
    }
    NextIsOrderly(s, a);
    if CommittedOnce(Next(s, a)) { WaitingOnce(Next(s, a)); }
  }

  /** The lanes when every fill has taken its remaining steps, one after the other. */
  function AllAlone(lanes: Waiting, fills: seq<Task>): Waiting
    decreases |fills|
  {
    if fills == [] then lanes else Alone(AllAlone(lanes, fills[..|fills| - 1]), fills[|fills| - 1])
  }

  /** Once every fill has chosen its cells and none has read a lane it has not deleted yet, what is committed
      is what comes to wait. */
  lemma {:induction false} CommittedComesToWait(lanes: Waiting, fills: seq<Task>, id: string)
    requires forall i :: 0 <= i < |fills| ==> fills[i].ReadLane? || fills[i].Push? || fills[i].Done?
    ensures Waits(AllAlone(lanes, fills), id) == Waits(lanes, id) + QueuedBy(fills, id)
    decreases |fills|
  {
    if fills != [] {
      var front, last := fills[..|fills| - 1], fills[|fills| - 1];
      CommittedComesToWait(lanes, front, id);
      WillWaitIsAlone(AllAlone(lanes, front), last, id);
      CopiesOfEmpty(id);
    }
  }
}

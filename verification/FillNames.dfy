/** How often a cell id waits, or is about to be queued, while fills and workers take their steps. */
module FillNames {
  import opened Lists
  import opened RoundRobin
  import opened Schedule
  import opened Reorder
  import opened FillQueue
  import opened FillSteps

  function Waits(lanes: Waiting, id: string): nat { CopiesOf(lanes.onDemand, id) + CopiesOf(lanes.deferred, id) }

  lemma WaitsIsAllWaiting(lanes: Waiting, id: string)
    ensures CopiesOf(AllWaiting(lanes), id) == Waits(lanes, id)
  {
    CopiesAdd(lanes.onDemand, lanes.deferred, id);
  }

  lemma InIdsExactlyWhen(lane: seq<Cell>, id: string)
    requires id != ""
    ensures id in IdsIn(lane, true) <==> CopiesOf(lane, id) > 0
  {
    NoCopiesExactlyWhen(lane, id);
  }

  lemma {:induction false} UnseenCopies(seen: set<string>, cells: seq<Cell>, id: string)
    ensures CopiesOf(Keep(Unseen(seen), cells), id) == if id in seen then 0 else CopiesOf(cells, id)
    decreases |cells|
  {
    var f := Unseen(seen);
    if id in seen {
      KeepMembers(f, cells);
      NoCopies(Keep(f, cells), id);
    } else if cells != [] {
      var n := |cells| - 1;
      UnseenCopies(seen, cells[..n], id);
      assert cells == cells[..n] + [cells[n]];
      KeepOneMore(f, cells[..n], cells[n]);
      CopiesAdd(cells[..n], [cells[n]], id);
      OneCopy(cells[n], id);
      if f(cells[n]) {
        CopiesAdd(Keep(f, cells[..n]), [cells[n]], id);
        assert Keep(f, cells) == Keep(f, cells[..n]) + [cells[n]];
      } else {
        assert Keep(f, cells) == Keep(f, cells[..n]);
      }
    }
  }

  lemma RebuiltCopies(existing: seq<Cell>, more: seq<Cell>, id: string)
    ensures CopiesOf(Interleave(existing + more), id) == CopiesOf(existing, id) + CopiesOf(more, id)
  {
    InterleavePermutes(existing + more);
    CopiesIgnoreOrder(Interleave(existing + more), existing + more, id);
    CopiesAdd(existing, more, id);
  }

  // ---- what a fill will leave waiting -----------------------------------------------------------

  /** The task queues into the deferred lane. */
  predicate Defers(t: Task) {
    match t
    case ReadFirst(_, interleaved, batch) => batch && !interleaved
    case ReadSecond(_, interleaved, batch, _) => batch && !interleaved
    case Push(_, batch) => batch
    case _ => false
  }

  /** How often the fill is yet to queue an id; a rewrite queues again what it has read. */
  function Adds(lanes: Waiting, t: Task, id: string): nat {
    match t
    case ReadFirst(cells, _, _) =>
      if id in IdsIn(lanes.onDemand, true) + IdsIn(lanes.deferred, true) then 0 else CopiesOf(cells, id)
    case ReadSecond(cells, _, _, seen) => if id in seen + IdsIn(lanes.deferred, true) then 0 else CopiesOf(cells, id)
    case ReadLane(more) => CopiesOf(more, id)
    case DropLane(more, existing) => CopiesOf(existing, id) + CopiesOf(more, id)
    case Push(rest, _) => CopiesOf(rest, id)
    case ReadToReorder => 0
    case Replace(existing) => if Feasible(existing) then CopiesOf(existing, id) else 0
    case Done => 0
  }

  /** How often an id waits on demand once the fill has dropped what it will drop. */
  function Stays(lanes: Waiting, t: Task, id: string): nat { if Rewrites(t) then 0 else CopiesOf(lanes.onDemand, id) }

  /** How often the id will wait on demand, and deferred, once the fill's remaining steps are taken alone. */
  function OnDemandEnd(lanes: Waiting, t: Task, id: string): nat {
    Stays(lanes, t, id) + if Defers(t) then 0 else Adds(lanes, t, id)
  }

  function DeferredEnd(lanes: Waiting, t: Task, id: string): nat {
    CopiesOf(lanes.deferred, id) + if Defers(t) then Adds(lanes, t, id) else 0
  }

  ghost predicate SameEnds(lanes: Waiting, t: Task, lanes': Waiting, t': Task, id: string) {
    OnDemandEnd(lanes', t', id) == OnDemandEnd(lanes, t, id) && DeferredEnd(lanes', t', id) == DeferredEnd(lanes, t, id)
  }

  lemma PushMovesCopies(lane: seq<Cell>, rest: seq<Cell>, id: string)
    requires rest != []
    ensures CopiesOf(lane + [rest[0]], id) + CopiesOf(rest[1..], id) == CopiesOf(lane, id) + CopiesOf(rest, id)
  {
    assert rest == [rest[0]] + rest[1..];
    CopiesAdd([rest[0]], rest[1..], id);
    CopiesAdd(lane, [rest[0]], id);
  }

  lemma ReadingKeepsEnds(lanes: Waiting, t: Task, id: string)
    requires t.ReadFirst? || t.ReadLane? || t.ReadToReorder? || t.Done?
    ensures var (lanes', t') := Advance(lanes, t, true); SameEnds(lanes, t, lanes', t', id)
  {
  }

  lemma ChoosingKeepsEnds(lanes: Waiting, t: Task, id: string)
    requires t.ReadSecond?
    ensures var (lanes', t') := Advance(lanes, t, true); SameEnds(lanes, t, lanes', t', id)
  {
    UnseenCopies(t.seen + IdsIn(lanes.deferred, true), t.cells, id);
  }

  lemma PushEnds(lanes: Waiting, rest: seq<Cell>, id: string)
    ensures OnDemandEnd(lanes, Push(rest, false), id) == CopiesOf(lanes.onDemand, id) + CopiesOf(rest, id)
    ensures DeferredEnd(lanes, Push(rest, false), id) == CopiesOf(lanes.deferred, id)
  {
  }

  lemma DroppingKeepsEnds(lanes: Waiting, t: Task, id: string)
    requires t.DropLane?
    ensures var (lanes', t') := Advance(lanes, t, true); SameEnds(lanes, t, lanes', t', id)
  {
    RebuiltCopies(t.existing, t.more, id);
    CopiesOfEmpty(id);
    PushEnds(lanes.(onDemand := []), Advance(lanes, t, true).1.rest, id);
  }

  lemma ReplacingKeepsEnds(lanes: Waiting, t: Task, id: string)
    requires t.Replace?
    ensures var (lanes', t') := Advance(lanes, t, true); SameEnds(lanes, t, lanes', t', id)
  {
    ReorderedCopies(t.existing, id);
  }

  lemma PushingKeepsEnds(lanes: Waiting, t: Task, id: string)
    requires t.Push?
    ensures var (lanes', t') := Advance(lanes, t, true); SameEnds(lanes, t, lanes', t', id)
  {
    if t.rest == [] {
      CopiesOfEmpty(id);
    } else {
      PushMovesCopies(if t.batch then lanes.deferred else lanes.onDemand, t.rest, id);
    }
  }

  /** No step of a fill changes what the fill will leave. */
  lemma StepKeepsEnds(lanes: Waiting, t: Task, id: string)
    ensures var (lanes', t') := Advance(lanes, t, true); SameEnds(lanes, t, lanes', t', id)
  {
    if t.ReadSecond? { ChoosingKeepsEnds(lanes, t, id); }
    else if t.DropLane? { DroppingKeepsEnds(lanes, t, id); }
    else if t.Replace? { ReplacingKeepsEnds(lanes, t, id); }
    else if t.Push? { PushingKeepsEnds(lanes, t, id); }
    else { ReadingKeepsEnds(lanes, t, id); }
  }

  /** What the lanes hold of an id when a fill's remaining steps have been taken alone. */
  lemma {:induction false} AloneEndsAsComputed(lanes: Waiting, t: Task, id: string)
    ensures CopiesOf(Alone(lanes, t).onDemand, id) == OnDemandEnd(lanes, t, id)
    ensures CopiesOf(Alone(lanes, t).deferred, id) == DeferredEnd(lanes, t, id)
    decreases Stage(t), Left(t)
  {
    if !t.Done? {
      AdvanceLowers(lanes, t);
      var (lanes', t') := Advance(lanes, t, true);
      AloneStep(lanes, t);
      AloneEndsAsComputed(lanes', t', id);
      StepKeepsEnds(lanes, t, id);
    }
  }

  function WillWait(lanes: Waiting, t: Task, id: string): nat {
    Stays(lanes, t, id) + CopiesOf(lanes.deferred, id) + Adds(lanes, t, id)
  }

  lemma WillWaitIsAlone(lanes: Waiting, t: Task, id: string)
    ensures Waits(Alone(lanes, t), id) == WillWait(lanes, t, id)
  {
    AloneEndsAsComputed(lanes, t, id);
  }

  // ---- one fill at a time, workers whenever they like ---------------------------------------------

  /** Waits at most once now, and when the fill has taken its remaining steps alone. */
  ghost predicate OnceFor(lanes: Waiting, t: Task, id: string) {
    id != "" ==> Waits(lanes, id) <= 1 && Waits(Alone(lanes, t), id) <= 1
  }

  ghost predicate Tidy(t: Task) { t.ReadFirst? || t.ReadSecond? ==> NamedOnce(t.cells) }

  ghost predicate Unique(lanes: Waiting, t: Task) { Tidy(t) && forall id :: OnceFor(lanes, t, id) }

  lemma AdvanceKeepsOnce(lanes: Waiting, t: Task, id: string)
    requires OnceFor(lanes, t, id)
    ensures var (lanes', t') := Advance(lanes, t, true); OnceFor(lanes', t', id)
  {
    var (lanes', t') := Advance(lanes, t, true);
    if !t.Done? {
      AloneStep(lanes, t);
      WillWaitIsAlone(lanes', t', id);
      AdvanceWaits(lanes, t, id);
    }
  }

  /** What waits after a call waited before it, or is among what the fill will leave. */
  lemma AdvanceWaits(lanes: Waiting, t: Task, id: string)
    ensures var (lanes', t') := Advance(lanes, t, true);
            Waits(lanes', id) <= Waits(lanes, id) || Waits(lanes', id) <= WillWait(lanes', t', id)
  {
    CopiesOfEmpty(id);
  }

  /** Cells that leave the lanes make no name wait twice. */
  lemma FewerKeepOnce(lanes: Waiting, lanes': Waiting, t: Task, id: string)
    requires OnceFor(lanes, t, id) && Tidy(t)
    requires CopiesOf(lanes'.onDemand, id) <= CopiesOf(lanes.onDemand, id)
    requires CopiesOf(lanes'.deferred, id) <= CopiesOf(lanes.deferred, id)
    ensures OnceFor(lanes', t, id)
  {
    WillWaitIsAlone(lanes, t, id);
    WillWaitIsAlone(lanes', t, id);
    if id != "" {
      InIdsExactlyWhen(lanes'.onDemand, id);
      InIdsExactlyWhen(lanes'.deferred, id);
      InIdsExactlyWhen(lanes.deferred, id);
    }
  }

  lemma PopKeepsOnce(lanes: Waiting, t: Task, fromDeferred: bool, id: string)
    requires OnceFor(lanes, t, id) && Tidy(t)
    ensures OnceFor(AfterTake(lanes, fromDeferred), t, id)
  {
    TakingRemovesCopies(lanes.onDemand, id);
    TakingRemovesCopies(lanes.deferred, id);
    FewerKeepOnce(lanes, AfterTake(lanes, fromDeferred), t, id);
  }

  lemma WipeKeepsOnce(lanes: Waiting, t: Task, deferred: bool, id: string)
    requires OnceFor(lanes, t, id) && Tidy(t)
    ensures OnceFor(AfterClear(lanes, deferred), t, id)
  {
    CopiesOfEmpty(id);
    FewerKeepOnce(lanes, AfterClear(lanes, deferred), t, id);
  }

  lemma StartIsOnce(lanes: Waiting, cells: seq<Cell>, interleaved: bool, batch: bool, id: string)
    requires OnceFor(lanes, Done, id) && NamedOnce(cells)
    ensures OnceFor(lanes, ReadFirst(cells, interleaved, batch), id)
  {
    WillWaitIsAlone(lanes, ReadFirst(cells, interleaved, batch), id);
    if id != "" {
      InIdsExactlyWhen(lanes.onDemand, id);
      InIdsExactlyWhen(lanes.deferred, id);
    }
  }

  // ---- putting a cell back --------------------------------------------------------------------------

  /** A cell of this id put back now comes to wait twice: the id waits, or the running fill is past the
      read that would have shown it the cell and is to queue the id. */
  predicate Collides(lanes: Waiting, t: Task, id: string, deferred: bool) {
    id != "" &&
    (|| id in QueuedIds(lanes)
     || match t
        case ReadFirst(_, _, _) => false
        case ReadSecond(cells, _, _, seen) => !deferred && id in IdsIn(cells, true) && id !in seen
        case ReadLane(more) => id in IdsIn(more, true)
        case DropLane(more, existing) => deferred && id in IdsIn(existing, true) + IdsIn(more, true)
        case Push(rest, _) => id in IdsIn(rest, true)
        case ReadToReorder => false
        case Replace(existing) => deferred && id in IdsIn(existing, true) && Feasible(existing)
        case Done => false)
  }

  lemma QueuedExactlyWhen(lanes: Waiting, id: string)
    requires id != ""
    ensures id in QueuedIds(lanes) <==> Waits(lanes, id) > 0
  {
    WaitsIsAllWaiting(lanes, id);
    NoCopiesExactlyWhen(AllWaiting(lanes), id);
  }

  lemma PuttingBackAddsToItsLane(lanes: Waiting, c: Cell, deferred: bool, front: bool, id: string)
    ensures var lanes' := AfterPutBack(lanes, c, deferred, front);
            var n := if c.id == id then 1 else 0;
            && CopiesOf(lanes'.onDemand, id) == CopiesOf(lanes.onDemand, id) + (if deferred then 0 else n)
            && CopiesOf(lanes'.deferred, id) == CopiesOf(lanes.deferred, id) + (if deferred then n else 0)
  {
    var lane := if deferred then lanes.deferred else lanes.onDemand;
    OneCopy(c, id);
    CopiesAdd(lane, [c], id);
    CopiesAdd([c], lane, id);
  }

  lemma AddsBySight(lanes: Waiting, lanes': Waiting, t: Task, id: string)
    requires id != "" && (CopiesOf(lanes.onDemand, id) > 0 <==> CopiesOf(lanes'.onDemand, id) > 0)
    requires CopiesOf(lanes.deferred, id) > 0 <==> CopiesOf(lanes'.deferred, id) > 0
    ensures Adds(lanes, t, id) == Adds(lanes', t, id)
  {
    InIdsExactlyWhen(lanes.onDemand, id);
    InIdsExactlyWhen(lanes'.onDemand, id);
    InIdsExactlyWhen(lanes.deferred, id);
    InIdsExactlyWhen(lanes'.deferred, id);
  }

  lemma OthersAreNotAffected(lanes: Waiting, t: Task, c: Cell, deferred: bool, front: bool, id: string)
    requires OnceFor(lanes, t, id) && id != c.id
    ensures OnceFor(AfterPutBack(lanes, c, deferred, front), t, id)
  {
    var lanes' := AfterPutBack(lanes, c, deferred, front);
    PuttingBackAddsToItsLane(lanes, c, deferred, front, id);
    WillWaitIsAlone(lanes, t, id);
    WillWaitIsAlone(lanes', t, id);
    if id != "" { AddsBySight(lanes, lanes', t, id); }
  }

  lemma CollidesInCopies(lanes: Waiting, t: Task, id: string, deferred: bool)
    requires id != ""
    ensures Collides(lanes, t, id, deferred) <==>
            || Waits(lanes, id) > 0
            || (t.ReadSecond? && !deferred && CopiesOf(t.cells, id) > 0 && id !in t.seen)
            || (t.ReadLane? && CopiesOf(t.more, id) > 0)
            || (t.DropLane? && deferred && CopiesOf(t.existing, id) + CopiesOf(t.more, id) > 0)
            || (t.Push? && CopiesOf(t.rest, id) > 0)
            || (t.Replace? && deferred && CopiesOf(t.existing, id) > 0 && Feasible(t.existing))
  {
    QueuedExactlyWhen(lanes, id);
    match t
    case ReadFirst(_, _, _) =>
    case ReadSecond(cells, _, _, _) => InIdsExactlyWhen(cells, id);
    case ReadLane(more) => InIdsExactlyWhen(more, id);
    case DropLane(more, existing) =>
      InIdsExactlyWhen(more, id);
      InIdsExactlyWhen(existing, id);
    case Push(rest, _) => InIdsExactlyWhen(rest, id);
    case ReadToReorder =>
    case Replace(existing) => InIdsExactlyWhen(existing, id);
    case Done =>
  }

  /** Where names are unique, they stay so when a cell is put back, now and when the running fill has
      ended, exactly when the cell does not collide. */
  lemma PutBackStaysUniqueExactlyWhen(lanes: Waiting, t: Task, c: Cell, deferred: bool, front: bool)
    requires Unique(lanes, t)
    ensures Unique(AfterPutBack(lanes, c, deferred, front), t) <==> !Collides(lanes, t, c.id, deferred)
  {
    var lanes' := AfterPutBack(lanes, c, deferred, front);
    forall id | id != c.id ensures OnceFor(lanes', t, id) { OthersAreNotAffected(lanes, t, c, deferred, front, id); }
    OnceAfterPutBack(lanes, t, c, deferred, front);
  }

  lemma OnceAfterPutBack(lanes: Waiting, t: Task, c: Cell, deferred: bool, front: bool)
    requires OnceFor(lanes, t, c.id) && Tidy(t)
    ensures OnceFor(AfterPutBack(lanes, c, deferred, front), t, c.id) <==> !Collides(lanes, t, c.id, deferred)
  {
    var id := c.id;
    var lanes' := AfterPutBack(lanes, c, deferred, front);
    if id != "" {
      CollidesInCopies(lanes, t, id, deferred);
      PuttingBackAddsToItsLane(lanes, c, deferred, front, id);
      WillWaitIsAlone(lanes, t, id);
      WillWaitIsAlone(lanes', t, id);
      InIdsExactlyWhen(lanes.onDemand, id);
      InIdsExactlyWhen(lanes'.onDemand, id);
      InIdsExactlyWhen(lanes.deferred, id);
      InIdsExactlyWhen(lanes'.deferred, id);
    }
  }

  // ---- runs -----------------------------------------------------------------------------------------

  /** Fills that skip queued cells and whose reads work, and re-interleavings, each started only when the
      ones before it are over. */
  predicate OneAtATime(actions: seq<Action>)
    decreases |actions|
  {
    actions == [] ||
    (var front, last := actions[..|actions| - 1], actions[|actions| - 1];
     OneAtATime(front) && InTurn(Exec(front), last))
  }

  predicate InTurn(s: Sys, a: Action) {
    match a
    case Start(_, missingOnly, _, _) => missingOnly && forall i :: 0 <= i < |s.fills| ==> s.fills[i].Done?
    case Reread => forall i :: 0 <= i < |s.fills| ==> s.fills[i].Done?
    case Go(_, ok) => ok
    case _ => true
  }

  /** No fill is handed a name twice. */
  ghost predicate NamesOnce(actions: seq<Action>) {
    forall i :: 0 <= i < |actions| && actions[i].Start? ==> NamedOnce(actions[i].cells)
  }

  function Running(s: Sys): Task { if s.fills == [] then Done else s.fills[|s.fills| - 1] }

  /** The action puts back a cell that then comes to wait twice. */
  predicate Collision(s: Sys, a: Action) {
    a.Requeue? && a.taken < |s.popped| && Collides(s.lanes, Running(s), s.popped[a.taken].id, a.deferred)
  }

  predicate NothingCollides(actions: seq<Action>)
    decreases |actions|
  {
    actions == [] ||
    (var front, last := actions[..|actions| - 1], actions[|actions| - 1];
     NothingCollides(front) && !Collision(Exec(front), last))
  }

  ghost predicate OneRuns(s: Sys) { Tidy(Running(s)) && forall i :: 0 <= i < |s.fills| - 1 ==> s.fills[i].Done? }

  /** No id waits twice, now or when the running fill has taken its remaining steps. */
  ghost predicate EachWaitsOnce(s: Sys) { forall id :: OnceFor(s.lanes, Running(s), id) }

  lemma AddedRunsAlone(s: Sys, t: Task, s': Sys)
    requires forall i :: 0 <= i < |s.fills| ==> s.fills[i].Done?
    requires Tidy(t) && s'.fills == s.fills + [t]
    ensures OneRuns(s')
  {
  }

  lemma AdvanceIsTidy(lanes: Waiting, t: Task, ok: bool)
    requires Tidy(t)
    ensures Tidy(Advance(lanes, t, ok).1)
    ensures t.Done? ==> Advance(lanes, t, ok) == (lanes, Done)
  {
  }

  lemma GoKeepsOneRunning(s: Sys, i: nat, ok: bool)
    requires OneRuns(s) && i < |s.fills|
    ensures OneRuns(GoOn(s, i, ok))
  {
    var t' := Advance(s.lanes, s.fills[i], ok).1;
    var s' := GoOn(s, i, ok);
    assert s'.fills == s.fills[i := t'];
    if i == |s.fills| - 1 { AdvanceIsTidy(s.lanes, s.fills[i], ok); } else { assert t'.Done?; }
    assert Tidy(Running(s')) && forall k :: 0 <= k < |s'.fills| - 1 ==> s'.fills[k].Done?;
  }

  lemma NextKeepsOneRunning(s: Sys, a: Action)
    requires OneRuns(s) && InTurn(s, a) && (a.Start? ==> NamedOnce(a.cells))
    ensures OneRuns(Next(s, a))
  {
    match a
    case Start(cells, _, interleaved, batch) =>
      if Accepted(interleaved, batch) { AddedRunsAlone(s, ReadFirst(cells, interleaved, batch), Next(s, a)); }
    case Go(i, ok) => if i < |s.fills| { GoKeepsOneRunning(s, i, ok); }
    case Reread => AddedRunsAlone(s, ReadToReorder, Next(s, a));
    case _ =>
  }

  lemma StartKeepsOnce(s: Sys, a: Action)
    requires OneRuns(s) && EachWaitsOnce(s) && a.Start? && InTurn(s, a) && NamedOnce(a.cells)
    ensures EachWaitsOnce(Next(s, a))
  {
    if Accepted(a.interleaved, a.batch) {
      var s' := Next(s, a);
      assert Running(s).Done?;
      forall id ensures OnceFor(s'.lanes, Running(s'), id) {
        assert OnceFor(s.lanes, Running(s), id);
        StartIsOnce(s.lanes, a.cells, a.interleaved, a.batch, id);
      }
    }
  }

  lemma RereadKeepsOnce(s: Sys)
    requires OneRuns(s) && EachWaitsOnce(s) && InTurn(s, Reread)
    ensures EachWaitsOnce(Next(s, Reread))
  {
    assert Running(s).Done?;
    forall id ensures OnceFor(s.lanes, ReadToReorder, id) {
      assert OnceFor(s.lanes, Running(s), id);
      WillWaitIsAlone(s.lanes, ReadToReorder, id);
    }
  }

  lemma WipeKeepsNames(s: Sys, deferred: bool)
    requires OneRuns(s) && EachWaitsOnce(s)
    ensures EachWaitsOnce(Next(s, Wipe(deferred)))
  {
    var lanes, t := s.lanes, Running(s);
    forall id ensures OnceFor(AfterClear(lanes, deferred), t, id) { WipeKeepsOnce(lanes, t, deferred, id); }
  }

  lemma GoMovesOne(s: Sys, i: nat, ok: bool)
    requires i < |s.fills|
    ensures var (lanes', t') := Advance(s.lanes, s.fills[i], ok);
            GoOn(s, i, ok).lanes == lanes' && GoOn(s, i, ok).fills == s.fills[i := t'] && GoOn(s, i, ok).popped == s.popped
  {
  }

  lemma GoMovesTheRunning(s: Sys, i: nat)
    requires OneRuns(s) && i < |s.fills|
    ensures var s' := GoOn(s, i, true);
            (s'.lanes, Running(s')) ==
            if i == |s.fills| - 1 then Advance(s.lanes, Running(s), true) else (s.lanes, Running(s))
  {
    GoMovesOne(s, i, true);
  }

  lemma GoKeepsOnce(s: Sys, i: nat)
    requires OneRuns(s) && EachWaitsOnce(s) && i < |s.fills|
    ensures EachWaitsOnce(GoOn(s, i, true))
  {
    var lanes', t' := GoOn(s, i, true).lanes, Running(GoOn(s, i, true));
    GoMovesTheRunning(s, i);
    forall id ensures OnceFor(lanes', t', id) {
      AdvanceKeepsOnce(s.lanes, Running(s), id);
    }
  }

  lemma PopKeepsNames(s: Sys, fromDeferred: bool)
    requires OneRuns(s) && EachWaitsOnce(s)
    ensures EachWaitsOnce(Next(s, Pop(fromDeferred)))
  {
    var lanes, t := s.lanes, Running(s);
    forall id ensures OnceFor(AfterTake(lanes, fromDeferred), t, id) { PopKeepsOnce(lanes, t, fromDeferred, id); }
  }

  lemma DeadIsOnce(lanes: Waiting, t: Task, id: string)
    requires OnceFor(lanes, t, id)
    ensures OnceFor(lanes, Done, id)
  {
  }

  lemma DieKeepsNames(s: Sys, i: nat)
    requires OneRuns(s) && EachWaitsOnce(s)
    ensures EachWaitsOnce(Next(s, Die(i)))
  {
    var lanes, t := s.lanes, Running(s);
    var t' := Running(Next(s, Die(i)));
    assert t' == t || t' == Done;
    forall id ensures OnceFor(lanes, t', id) { DeadIsOnce(lanes, t, id); }
  }

  /** From a state in which names are unique, putting a cell back makes its id wait twice, now or when the
      running fill has taken its remaining steps, exactly when it collides. */
  lemma RequeueKeepsOnceExactlyWhen(s: Sys, k: nat, deferred: bool, front: bool)
    requires OneRuns(s) && EachWaitsOnce(s)
    ensures EachWaitsOnce(Next(s, Requeue(k, deferred, front))) <==> !Collision(s, Requeue(k, deferred, front))
  {
    var lanes, t := s.lanes, Running(s);
    if k < |s.popped| {
      var s' := Next(s, Requeue(k, deferred, front));
      assert Unique(lanes, t);
      PutBackStaysUniqueExactlyWhen(lanes, t, s.popped[k], deferred, front);
      assert Running(s') == t && s'.lanes == AfterPutBack(lanes, s.popped[k], deferred, front);
      assert EachWaitsOnce(s') <==> Unique(s'.lanes, t);
    }
  }

  lemma NextKeepsOnceExactlyWhen(s: Sys, a: Action)
    requires OneRuns(s) && EachWaitsOnce(s) && InTurn(s, a) && (a.Start? ==> NamedOnce(a.cells))
    ensures EachWaitsOnce(Next(s, a)) <==> !Collision(s, a)
  {
    match a
    case Start(_, _, _, _) => StartKeepsOnce(s, a);
    case Go(i, ok) =>
      if i < |s.fills| {
        GoKeepsOnce(s, i);
        assert Next(s, a) == GoOn(s, i, true);
      } else {
        assert Next(s, a) == s;
      }
    case Pop(fromDeferred) => PopKeepsNames(s, fromDeferred);
    case Requeue(k, deferred, front) =>
      RequeueKeepsOnceExactlyWhen(s, k, deferred, front);
    case Reread => RereadKeepsOnce(s);
    case Wipe(deferred) => WipeKeepsNames(s, deferred);
    case Die(i) => DieKeepsNames(s, i);
  }

  lemma OneLessInTurn(actions: seq<Action>)
    requires OneAtATime(actions) && NamesOnce(actions) && actions != []
    ensures var front, last := actions[..|actions| - 1], actions[|actions| - 1];
            OneAtATime(front) && NamesOnce(front) && InTurn(Exec(front), last) && (last.Start? ==> NamedOnce(last.cells))
  {
    var front := actions[..|actions| - 1];
    assert forall i :: 0 <= i < |front| ==> front[i] == actions[i];
  }

  lemma {:induction false} OneRunsAlways(actions: seq<Action>)
    requires OneAtATime(actions) && NamesOnce(actions)
    ensures OneRuns(Exec(actions))
    decreases |actions|
  {
    if actions != [] {
      OneLessInTurn(actions);
      OneRunsAlways(actions[..|actions| - 1]);
      NextKeepsOneRunning(Exec(actions[..|actions| - 1]), actions[|actions| - 1]);
    }
  }

  lemma OnceIsNamedOnce(actions: seq<Action>)
    ensures Throughout(run => EachWaitsOnce(Exec(run)), actions) ==> NamedOnce(AllWaiting(Exec(actions).lanes))
  {
    var p := (run: seq<Action>) => EachWaitsOnce(Exec(run));
    var s := Exec(actions);
    if Throughout(p, actions) {
      ThroughoutAtTheEnd(p, actions);
      forall id | id != "" ensures CopiesOf(AllWaiting(s.lanes), id) <= 1 {
        assert OnceFor(s.lanes, Running(s), id);
        WaitsIsAllWaiting(s.lanes, id);
      }
    }
  }

  /** While fills run one at a time and skip what is queued, no id waits twice, at any time and with the
      running fill's remaining steps taken, exactly as long as no requeue collides: wherever between the
      fills' Redis calls the workers pop and put back, lanes are reset, and fills die. */
  lemma {:induction false} OneFillAtATimeQueuesNothingTwice(actions: seq<Action>)
    requires OneAtATime(actions) && NamesOnce(actions)
    ensures Throughout(run => EachWaitsOnce(Exec(run)), actions) <==> NothingCollides(actions)
    ensures NothingCollides(actions) ==> NamedOnce(AllWaiting(Exec(actions).lanes))
    decreases |actions|
  {
    var p := (run: seq<Action>) => EachWaitsOnce(Exec(run));
    OnceIsNamedOnce(actions);
    if actions == [] {
      ThroughoutOfNone(p, actions);
      forall id ensures OnceFor(EMPTY.lanes, Done, id) { CopiesOfEmpty(id); }
    } else {
      var front := actions[..|actions| - 1];
      OneLessInTurn(actions);
      OneFillAtATimeQueuesNothingTwice(front);
      ThroughoutOneMore(p, actions);
      if Throughout(p, front) {
        ThroughoutAtTheEnd(p, front);
        OneRunsAlways(front);
        NextKeepsOnceExactlyWhen(Exec(front), actions[|actions| - 1]);
      }
    }
  }
}

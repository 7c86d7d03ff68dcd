/** Runs of fills and workers in which a cell is queued twice or lost. */
module FillWitness {
  import opened Lists
  import opened RoundRobin
  import opened Schedule
  import opened Reorder
  import opened FillQueue
  import opened FillSteps
  import opened FillNames

  const CELL: Cell := Cell("a", "m", "")

  lemma Then(actions: seq<Action>, a: Action)
    ensures Exec(actions + [a]) == Next(Exec(actions), a)
  {
    assert (actions + [a])[..|actions + [a]| - 1] == actions;
  }

  /** Reached by these actions. */
  ghost predicate Reached(actions: seq<Action>, s: Sys) { Exec(actions) == s }

  lemma Do(actions: seq<Action>, s: Sys, a: Action) returns (more: seq<Action>, s': Sys)
    requires Reached(actions, s)
    ensures Reached(more, s') && s' == Next(s, a)
  {
    Then(actions, a);
    more, s' := actions + [a], Next(s, a);
  }

  /** One call of fill `i`, with what it leaves. */
  lemma DoGo(actions: seq<Action>, s: Sys, i: nat, lanes: Waiting, t: Task) returns (more: seq<Action>, s': Sys)
    requires Reached(actions, s) && i < |s.fills| && Advance(s.lanes, s.fills[i], true) == (lanes, t)
    requires !s.fills[i].ReadSecond? && !Rewrites(s.fills[i])
    ensures Reached(more, s') && s' == s.(lanes := lanes, fills := s.fills[i := t])
  {
    more, s' := Do(actions, s, Go(i, true));
  }

  /** A worker takes the only cell of the on-demand lane. */
  lemma DoPop(actions: seq<Action>, s: Sys) returns (more: seq<Action>, s': Sys)
    requires Reached(actions, s) && s.lanes == Waiting([CELL], []) && s.popped == []
    ensures Reached(more, s') && s' == s.(lanes := Waiting([], []), popped := [CELL])
  {
    more, s' := Do(actions, s, Pop(false));
    assert [] + [CELL] == [CELL] && [CELL][1..] == [];
  }

  lemma SelectsAll(seen: set<string>, c: Cell)
    requires seen == {}
    ensures Keep(Unseen(seen), [c]) == [c]
  {
    KeepOneMore(Unseen(seen), [], c);
    assert [] + [c] == [c];
  }

  lemma OneCellInterleaves(c: Cell)
    ensures Interleave([c]) == [c] && Interleave([]) == []
  {
    InterleavePermutes([c]);
    InterleavePermutes([]);
    NoMembersNoCells(Interleave([]));
    assert |multiset(Interleave([c]))| == |multiset([c])| == 1;
    assert Interleave([c])[0] in multiset(Interleave([c]));
  }

  /** A plain fill of one cell from its start to its push. */
  lemma PushOne(actions: seq<Action>, s: Sys, i: nat) returns (more: seq<Action>, s': Sys)
    requires Reached(actions, s) && i < |s.fills| && s.fills[i] == Push([CELL], false)
    ensures Reached(more, s')
    ensures s' == s.(lanes := s.lanes.(onDemand := s.lanes.onDemand + [CELL]), fills := s.fills[i := Push([], false)])
  {
    assert [CELL][1..] == [];
    more, s' := DoGo(actions, s, i, s.lanes.(onDemand := s.lanes.onDemand + [CELL]), Push([], false));
  }

  lemma BothStart() returns (actions: seq<Action>, s: Sys)
    ensures Reached(actions, s)
    ensures s == EMPTY.(fills := [ReadFirst([CELL], false, false), ReadFirst([CELL], false, false)])
  {
    actions, s := Do([], EMPTY, Start([CELL], true, false, false));
    assert s.fills == [ReadFirst([CELL], false, false)];
    actions, s := Do(actions, s, Start([CELL], true, false, false));
  }

  lemma ReadsNothing(actions: seq<Action>, s: Sys, i: nat) returns (more: seq<Action>, s': Sys)
    requires Reached(actions, s) && i < |s.fills| && s.fills[i] == ReadFirst([CELL], false, false) && s.lanes == Waiting([], [])
    ensures Reached(more, s') && s' == s.(fills := s.fills[i := ReadSecond([CELL], false, false, {})])
  {
    assert IdsIn([], true) == {};
    more, s' := DoGo(actions, s, i, s.lanes, ReadSecond([CELL], false, false, {}));
  }

  lemma BothRead() returns (actions: seq<Action>, s: Sys)
    ensures Reached(actions, s)
    ensures s == EMPTY.(fills := [ReadSecond([CELL], false, false, {}), ReadSecond([CELL], false, false, {})])
  {
    actions, s := BothStart();
    actions, s := ReadsNothing(actions, s, 0);
    actions, s := ReadsNothing(actions, s, 1);
  }

  lemma Chooses(actions: seq<Action>, s: Sys, i: nat) returns (more: seq<Action>, s': Sys)
    requires Reached(actions, s) && i < |s.fills| && s.fills[i] == ReadSecond([CELL], false, false, {}) && s.lanes == Waiting([], [])
    ensures Reached(more, s')
    ensures s' == s.(fills := s.fills[i := Push([CELL], false)], asked := s.asked + multiset([CELL]))
  {
    assert IdsIn([], true) == {};
    SelectsAll({} + IdsIn([], true), CELL);
    more, s' := Do(actions, s, Go(i, true));
  }

  lemma BothChoose() returns (actions: seq<Action>, s: Sys)
    ensures Reached(actions, s) && CleanBooks(s)
    ensures s.fills == [Push([CELL], false), Push([CELL], false)] && s.lanes.onDemand == []
  {
    actions, s := BothRead();
    actions, s := Chooses(actions, s, 0);
    actions, s := Chooses(actions, s, 1);
  }

  /** Two missing-only fills that both read before either pushes queue a cell twice, with clean books. */
  lemma OverlappingFillsQueueTwice()
    ensures exists actions :: Undisturbed(actions) && Exec(actions).lanes.onDemand == [CELL, CELL]
  {
    var actions, s := BothChoose();
    actions, s := PushOne(actions, s, 0);
    actions, s := PushOne(actions, s, 1);
    assert s.lanes.onDemand == [CELL, CELL];
    BooksAreCleanExactlyWhen(actions);
  }

  lemma StartFill(actions: seq<Action>, s: Sys, cells: seq<Cell>, interleaved: bool) returns (more: seq<Action>, s': Sys)
    requires Reached(actions, s)
    ensures Reached(more, s')
    ensures s' == s.(fills := s.fills + [Chosen(cells, interleaved, false)], asked := s.asked + multiset(cells))
  {
    more, s' := Do(actions, s, Start(cells, false, interleaved, false));
  }

  lemma ReadForRebuild(actions: seq<Action>, s: Sys, i: nat) returns (more: seq<Action>, s': Sys)
    requires Reached(actions, s) && i < |s.fills| && s.fills[i] == ReadLane([])
    ensures Reached(more, s') && s' == s.(fills := s.fills[i := DropLane([], s.lanes.onDemand)])
  {
    more, s' := DoGo(actions, s, i, s.lanes, DropLane([], s.lanes.onDemand));
  }

  lemma Drop(actions: seq<Action>, s: Sys, i: nat, all: seq<Cell>) returns (more: seq<Action>, s': Sys)
    requires Reached(actions, s) && i < |s.fills| && s.fills[i].DropLane? && all == s.fills[i].existing + s.fills[i].more
    ensures Reached(more, s')
    ensures var existing := s.fills[i].existing;
            s' == s.(lanes := s.lanes.(onDemand := []), fills := s.fills[i := Push(Interleave(all), false)],
                     doubled := s.doubled + (multiset(existing) - multiset(s.lanes.onDemand)),
                     lost := s.lost + (multiset(s.lanes.onDemand) - multiset(existing)))
  {
    more, s' := Do(actions, s, Go(i, true));
    assert Rewrites(s.fills[i]);
    assert Advance(s.lanes, s.fills[i], true) == (s.lanes.(onDemand := []), Push(Interleave(all), false));
  }

  /** A rebuild that has read one waiting cell. */
  lemma OneCellRead() returns (actions: seq<Action>, s: Sys)
    ensures Reached(actions, s) && s.fills == [Push([], false), DropLane([], [CELL])]
    ensures s.lanes == Waiting([CELL], []) && s.popped == [] && CleanBooks(s)
  {
    actions, s := StartFill([], EMPTY, [CELL], false);
    assert s.fills == [Push([CELL], false)];
    actions, s := PushOne(actions, s, 0);
    assert [] + [CELL] == [CELL];
    actions, s := StartFill(actions, s, [], true);
    assert s.fills == [Push([], false), ReadLane([])];
    actions, s := ReadForRebuild(actions, s, 1);
  }

  /** A cell taken between a rebuild's read and its delete is queued again. */
  lemma APopInsideARebuildIsQueuedAgain()
    ensures exists actions :: Exec(actions).popped == [CELL] && Exec(actions).doubled == multiset{CELL}
                              && Exec(actions).fills == [Push([], false), Push([CELL], false)]
  {
    var actions, s := OneCellRead();
    actions, s := DoPop(actions, s);
    assert [CELL] + [] == [CELL];
    actions, s := Drop(actions, s, 1, [CELL]);
    OneCellInterleaves(CELL);
    assert multiset([CELL]) - multiset([]) == multiset{CELL};
  }

  /** A rebuild that has read an empty lane into which another fill then pushes. */
  lemma OneCellUnread() returns (actions: seq<Action>, s: Sys)
    ensures Reached(actions, s) && s.fills == [DropLane([], []), Push([], false)]
    ensures s.lanes == Waiting([CELL], []) && s.popped == [] && CleanBooks(s)
  {
    actions, s := StartFill([], EMPTY, [], true);
    assert s.fills == [ReadLane([])];
    actions, s := ReadForRebuild(actions, s, 0);
    actions, s := StartFill(actions, s, [CELL], false);
    assert s.fills == [DropLane([], []), Push([CELL], false)];
    actions, s := PushOne(actions, s, 1);
    assert [] + [CELL] == [CELL];
  }

  lemma LosesTheCell()
    ensures multiset{} + (multiset([CELL]) - multiset([])) == multiset{CELL}
  {
  }

  /** The rebuild of `i` drops a lane that holds a cell it has not read. */
  lemma DropLoses(actions: seq<Action>, s: Sys, i: nat) returns (more: seq<Action>, s': Sys)
    requires Reached(actions, s) && i < |s.fills| && s.fills[i] == DropLane([], [])
    requires s.lanes == Waiting([CELL], []) && s.popped == [] && CleanBooks(s)
    ensures Reached(more, s') && s'.lost == multiset{CELL} && s'.popped == [] && s'.lanes == Waiting([], [])
    ensures s'.fills == s.fills[i := Push([], false)]
  {
    OneCellInterleaves(CELL);
    LosesTheCell();
    more, s' := Drop(actions, s, i, []);
  }

  /** A cell pushed between a rebuild's read and its delete is gone: not taken, not waiting, and in no fill. */
  lemma APushInsideARebuildIsLost()
    ensures exists actions :: Exec(actions).lost == multiset{CELL} && Exec(actions).popped == []
                              && Exec(actions).lanes == Waiting([], [])
                              && Exec(actions).fills == [Push([], false), Push([], false)]
  {
    var actions, s := OneCellUnread();
    actions, s := DropLoses(actions, s, 0);
    assert s.fills == [Push([], false), Push([], false)];
  }

  // ---- a requeue ---------------------------------------------------------------------------------

  /** Reached with fills strictly one at a time, whose reads work and which are handed no name twice. */
  ghost predicate Served(actions: seq<Action>, s: Sys) { Exec(actions) == s && OneAtATime(actions) && NamesOnce(actions) }

  lemma Serve(actions: seq<Action>, s: Sys, a: Action) returns (more: seq<Action>, s': Sys)
    requires Served(actions, s) && InTurn(s, a) && (a.Start? ==> NamedOnce(a.cells))
    ensures Served(more, s') && s' == Next(s, a)
  {
    Then(actions, a);
    more, s' := actions + [a], Next(s, a);
    assert more[..|more| - 1] == actions;
  }

  lemma CellIsNamedOnce()
    ensures NamedOnce([CELL])
  {
    forall id ensures CopiesOf([CELL], id) <= 1 { OneCopy(CELL, id); }
  }

  lemma ServeGo(actions: seq<Action>, s: Sys, i: nat, lanes: Waiting, t: Task) returns (more: seq<Action>, s': Sys)
    requires Served(actions, s) && i < |s.fills| && Advance(s.lanes, s.fills[i], true) == (lanes, t)
    ensures Served(more, s') && s'.lanes == lanes && s'.fills == s.fills[i := t] && s'.popped == s.popped
  {
    more, s' := Serve(actions, s, Go(i, true));
    GoMovesOne(s, i, true);
  }

  lemma ServeStart(actions: seq<Action>, s: Sys) returns (more: seq<Action>, s': Sys)
    requires Served(actions, s) && forall t :: t in s.fills ==> t.Done?
    ensures Served(more, s') && s'.lanes == s.lanes && s'.popped == s.popped
    ensures s'.fills == s.fills + [ReadFirst([CELL], false, false)]
  {
    CellIsNamedOnce();
    more, s' := Serve(actions, s, Start([CELL], true, false, false));
  }

  /** A missing-only fill that reads both lanes empty, up to its choice. */
  lemma ServeReads(actions: seq<Action>, s: Sys) returns (more: seq<Action>, s': Sys)
    requires Served(actions, s) && s.lanes == Waiting([], []) && forall t :: t in s.fills ==> t.Done?
    ensures Served(more, s') && s'.lanes == s.lanes && s'.popped == s.popped
    ensures s'.fills == s.fills + [ReadSecond([CELL], false, false, {})]
  {
    var i := |s.fills|;
    assert IdsIn([], true) == {};
    more, s' := ServeStart(actions, s);
    more, s' := ServeGo(more, s', i, s.lanes, ReadSecond([CELL], false, false, {}));
  }

  lemma ChoosesTheCell()
    ensures Advance(Waiting([], []), ReadSecond([CELL], false, false, {}), true) == (Waiting([], []), Push([CELL], false))
    ensures Advance(Waiting([], []), Push([CELL], false), true) == (Waiting([CELL], []), Push([], false))
  {
    assert IdsIn([], true) == {};
    SelectsAll({} + IdsIn([], true), CELL);
    assert [CELL][1..] == [] && [] + [CELL] == [CELL];
  }

  /** A missing-only fill of a cell that waits nowhere, from its start to its push. */
  lemma ServeOneFill(actions: seq<Action>, s: Sys) returns (more: seq<Action>, s': Sys)
    requires Served(actions, s) && s.lanes == Waiting([], []) && forall t :: t in s.fills ==> t.Done?
    ensures Served(more, s') && s'.lanes == Waiting([CELL], []) && s'.popped == s.popped
    ensures s'.fills == s.fills + [Push([], false)]
  {
    var i := |s.fills|;
    ChoosesTheCell();
    more, s' := ServeReads(actions, s);
    more, s' := ServeGo(more, s', i, s.lanes, Push([CELL], false));
    more, s' := ServeGo(more, s', i, Waiting([CELL], []), Push([], false));
  }

  lemma ServePop(actions: seq<Action>, s: Sys) returns (more: seq<Action>, s': Sys)
    requires Served(actions, s) && s.lanes == Waiting([CELL], []) && s.popped == []
    ensures Served(more, s') && s'.lanes == Waiting([], []) && s'.popped == [CELL] && s'.fills == s.fills
  {
    more, s' := Serve(actions, s, Pop(false));
    assert [] + [CELL] == [CELL] && [CELL][1..] == [];
  }

  lemma ServeAndTake() returns (actions: seq<Action>, s: Sys)
    ensures Served(actions, s) && s.lanes == Waiting([], []) && s.popped == [CELL] && s.fills == [Done]
  {
    assert NamesOnce([]);
    actions, s := ServeOneFill([], EMPTY);
    assert s.fills == [Push([], false)];
    actions, s := ServeGo(actions, s, 0, s.lanes, Done);
    actions, s := ServePop(actions, s);
  }

  /** A worker takes a cell, a fill that runs alone sees it neither waiting nor saved and queues it, and
      the worker, denied, puts its own back: the cell waits twice. */
  lemma ARequeueQueuesTwice()
    ensures exists actions :: OneAtATime(actions) && NamesOnce(actions) && Exec(actions).lanes == Waiting([CELL, CELL], [])
  {
    var actions, s := ServeAndTake();
    actions, s := ServeOneFill(actions, s);
    actions, s := Serve(actions, s, Requeue(0, false, false));
    assert [CELL] + [CELL] == [CELL, CELL];
  }

  /** A worker holds a cell, and a rebuild has read the lane it came from. */
  lemma OneCellInHand() returns (actions: seq<Action>, s: Sys)
    ensures Reached(actions, s) && s.fills == [Push([], false), DropLane([], [])]
    ensures s.lanes == Waiting([], []) && s.popped == [CELL] && CleanBooks(s)
  {
    actions, s := StartFill([], EMPTY, [CELL], false);
    assert s.fills == [Push([CELL], false)];
    actions, s := PushOne(actions, s, 0);
    assert [] + [CELL] == [CELL];
    actions, s := DoPop(actions, s);
    actions, s := StartFill(actions, s, [], true);
    assert s.fills == [Push([], false), ReadLane([])];
    actions, s := ReadForRebuild(actions, s, 1);
  }

  lemma OneCellPutBack() returns (actions: seq<Action>, s: Sys)
    ensures Reached(actions, s) && s.fills == [Push([], false), DropLane([], [])]
    ensures s.lanes == Waiting([CELL], []) && s.popped == [] && CleanBooks(s)
  {
    actions, s := OneCellInHand();
    actions, s := Do(actions, s, Requeue(0, false, false));
    assert [] + [CELL] == [CELL];
  }

  /** A cell put back between a rebuild's read and its delete is gone. */
  lemma ARequeueInsideARebuildIsLost()
    ensures exists actions :: Exec(actions).lost == multiset{CELL} && Exec(actions).popped == []
                              && Exec(actions).lanes == Waiting([], [])
                              && Exec(actions).fills == [Push([], false), Push([], false)]
  {
    var actions, s := OneCellPutBack();
    actions, s := DropLoses(actions, s, 1);
    assert s.fills == [Push([], false), Push([], false)];
  }

  // ---- a re-interleaving -----------------------------------------------------------------------

  lemma OneCellReorders(c: Cell)
    ensures Feasible([c]) && Reinterleaved([c]) == [c]
  {
    AnyOrderNeedsRoom([c], [c]);
    ReinterleavingPermutes([c]);
    assert |multiset(Reinterleaved([c]))| == |multiset([c])| == 1;
    assert Reinterleaved([c])[0] in multiset(Reinterleaved([c]));
  }

  lemma DoReread(actions: seq<Action>, s: Sys) returns (more: seq<Action>, s': Sys)
    requires Reached(actions, s)
    ensures Reached(more, s') && s' == s.(fills := s.fills + [ReadToReorder])
  {
    more, s' := Do(actions, s, Reread);
  }

  /** A re-interleaving has read one waiting cell, and a worker then takes it. */
  lemma OneCellTakenAfterReading() returns (actions: seq<Action>, s: Sys)
    ensures Reached(actions, s) && s.fills == [Push([], false), Replace([CELL])]
    ensures s.lanes == Waiting([], []) && s.popped == [CELL] && CleanBooks(s)
  {
    actions, s := StartFill([], EMPTY, [CELL], false);
    assert s.fills == [Push([CELL], false)];
    actions, s := PushOne(actions, s, 0);
    assert [] + [CELL] == [CELL];
    actions, s := DoReread(actions, s);
    assert s.fills == [Push([], false), ReadToReorder];
    actions, s := DoGo(actions, s, 1, s.lanes, Replace([CELL]));
    actions, s := DoPop(actions, s);
  }

  /** A cell taken between a re-interleaving's read and its transaction waits again. */
  lemma APopInsideAReinterleavingIsQueuedAgain()
    ensures exists actions :: Exec(actions).popped == [CELL] && Exec(actions).lanes == Waiting([CELL], [])
                              && Exec(actions).doubled == multiset{CELL}
  {
    var actions, s := OneCellTakenAfterReading();
    OneCellReorders(CELL);
    assert Rewrites(s.fills[1]) && Advance(s.lanes, s.fills[1], true) == (Waiting([CELL], []), Done);
    actions, s := Do(actions, s, Go(1, true));
    assert multiset([CELL]) - multiset([]) == multiset{CELL};
  }
}

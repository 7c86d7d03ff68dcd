/** Filling the two queue lanes, and what a worker pops from them. */
module FillQueue {
  import opened Lists
  import opened RoundRobin
  import opened Schedule
  import opened Enqueue
  import opened Reorder

  /** A Redis list is pushed on the left and popped on the right. */
  function PopOrder(list: seq<Cell>): (r: seq<Cell>)
    ensures |r| == |list| && multiset(r) == multiset(list)
    decreases |list|
  {
    if list == [] then []
    else
      assert list == [list[0]] + list[1..];
      PopOrder(list[1..]) + [list[0]]
  }

  lemma PushedLastIsPoppedLast(list: seq<Cell>, c: Cell)
    ensures PopOrder([c] + list) == PopOrder(list) + [c]
  {
    assert ([c] + list)[1..] == list;
  }

  lemma {:induction false} PushedRightIsPoppedFirst(list: seq<Cell>, c: Cell)
    ensures PopOrder(list + [c]) == [c] + PopOrder(list)
    decreases |list|
  {
    if list == [] {
      assert [] + [c] == [c] && [c][1..] == [];
      assert PopOrder([c]) == PopOrder([]) + [c];
    } else {
      var more := list + [c];
      PushedRightIsPoppedFirst(list[1..], c);
      assert more[0] == list[0] && more[1..] == list[1..] + [c];
      assert PopOrder(more) == PopOrder(more[1..]) + [list[0]];
      ConcatAssociates([c], PopOrder(list[1..]), [list[0]]);
    }
  }

  lemma FromOneEarlier(s: seq<Cell>, i: nat)
    requires i < |s|
    ensures [s[i]] + s[i + 1..] == s[i..]
  {
  }

  /** The two lanes, each in the order its cells are popped. */
  datatype Waiting = Waiting(onDemand: seq<Cell>, deferred: seq<Cell>)

  function AllWaiting(w: Waiting): seq<Cell> { w.onDemand + w.deferred }

  function QueuedIds(w: Waiting): set<string> { set c | c in AllWaiting(w) && c.id != "" :: c.id }

  function NotQueued(w: Waiting): Cell -> bool { (c: Cell) => c.id !in QueuedIds(w) }

  /** `select_new_cells` */
  function SelectNew(w: Waiting, cells: seq<Cell>): seq<Cell> { Keep(NotQueued(w), cells) }

  datatype Event =
    | Fill(cells: seq<Cell>, missingOnly: bool, interleaved: bool, batch: bool)
    | Take(fromDeferred: bool)
    | PutBack(cell: Cell, deferred: bool, front: bool)
    | Reinterleave
    | Clear(deferred: bool)

  /** The two lanes' ways of filling exclude each other. */
  predicate Accepted(interleaved: bool, batch: bool) { !(interleaved && batch) }

  /** An interleaved fill rebuilds the on-demand lane, a plain one appends to its lane, and a fill that
      asks for both is refused before anything is read. */
  function AfterFill(w: Waiting, cells: seq<Cell>, missingOnly: bool, interleaved: bool, batch: bool): Waiting {
    var more := if missingOnly then SelectNew(w, cells) else cells;
    if !Accepted(interleaved, batch) then w
    else if interleaved then w.(onDemand := Interleave(w.onDemand + more))
    else if batch then w.(deferred := w.deferred + more)
    else w.(onDemand := w.onDemand + more)
  }

  function AfterTake(w: Waiting, fromDeferred: bool): Waiting {
    if fromDeferred then w.(deferred := Tail(w.deferred)) else w.(onDemand := Tail(w.onDemand))
  }

  /** A worker that is denied admission puts its cell back behind the others, a dead letter that is
      re-driven goes before them; neither looks at what is queued. */
  function AfterPutBack(w: Waiting, c: Cell, deferred: bool, front: bool): Waiting {
    if deferred then w.(deferred := if front then [c] + w.deferred else w.deferred + [c])
    else w.(onDemand := if front then [c] + w.onDemand else w.onDemand + [c])
  }

  /** Re-interleaving replaces the on-demand lane, or leaves it when no order keeps providers apart. */
  function AfterReinterleave(w: Waiting): Waiting { w.(onDemand := Reinterleaved(w.onDemand)) }

  function AfterClear(w: Waiting, deferred: bool): Waiting {
    if deferred then w.(deferred := []) else w.(onDemand := [])
  }

  function AfterEvents(w: Waiting, events: seq<Event>): Waiting
    decreases |events|
  {
    if events == [] then w
    else
      var was := AfterEvents(w, events[..|events| - 1]);
      match events[|events| - 1]
      case Fill(cells, missingOnly, interleaved, batch) => AfterFill(was, cells, missingOnly, interleaved, batch)
      case Take(fromDeferred) => AfterTake(was, fromDeferred)
      case PutBack(c, deferred, front) => AfterPutBack(was, c, deferred, front)
      case Reinterleave => AfterReinterleave(was)
      case Clear(deferred) => AfterClear(was, deferred)
  }

  // ---- what each event does to the lanes -------------------------------------------------------

  /** A cell of this id waits in one of the lanes. */
  ghost predicate WaitsSomewhere(w: Waiting, id: string) {
    || (exists i :: 0 <= i < |w.onDemand| && w.onDemand[i].id == id)
    || (exists i :: 0 <= i < |w.deferred| && w.deferred[i].id == id)
  }

  lemma QueuedIdsExactly(w: Waiting, id: string)
    ensures id in QueuedIds(w) <==> id != "" && WaitsSomewhere(w, id)
  {
    if id in QueuedIds(w) {
      var c :| c in AllWaiting(w) && c.id == id;
      var i :| 0 <= i < |AllWaiting(w)| && AllWaiting(w)[i] == c;
      if i < |w.onDemand| { assert w.onDemand[i].id == id; } else { assert w.deferred[i - |w.onDemand|].id == id; }
    }
    if i :| 0 <= i < |w.onDemand| && w.onDemand[i].id == id { assert AllWaiting(w)[i] == w.onDemand[i]; }
    if i :| 0 <= i < |w.deferred| && w.deferred[i].id == id { assert AllWaiting(w)[|w.onDemand| + i] == w.deferred[i]; }
  }

  /** The skip keeps the cells in order, and drops exactly those whose id is not empty and waits in a lane. */
  lemma SelectedExactly(w: Waiting, cells: seq<Cell>, c: Cell)
    ensures SelectNew(w, cells + [c]) == SelectNew(w, cells) + if c.id != "" && WaitsSomewhere(w, c.id) then [] else [c]
  {
    KeepOneMore(NotQueued(w), cells, c);
    QueuedIdsExactly(w, c.id);
  }

  /** Which lane a fill changes, and what joins it. */
  lemma FillChanges(w: Waiting, cells: seq<Cell>, missingOnly: bool, interleaved: bool, batch: bool)
    ensures var now := AfterFill(w, cells, missingOnly, interleaved, batch);
            var more := if missingOnly then SelectNew(w, cells) else cells;
            && (interleaved && batch ==> now == w)
            && (interleaved && !batch ==> now.deferred == w.deferred && multiset(now.onDemand) == multiset(w.onDemand) + multiset(more))
            && (batch && !interleaved ==> now.onDemand == w.onDemand && now.deferred == w.deferred + more)
            && (!batch && !interleaved ==> now.deferred == w.deferred && now.onDemand == w.onDemand + more)
  {
    var more := if missingOnly then SelectNew(w, cells) else cells;
    InterleavePermutes(w.onDemand + more);
  }

  /** Cells leave a lane in the order they joined it; a denied worker's cell joins behind the others, a re-driven
      one before them; a reset empties one lane. */
  lemma LanesAreQueues(w: Waiting, c: Cell)
    ensures AfterTake(w, false).deferred == w.deferred && AfterTake(w, true).onDemand == w.onDemand
    ensures w.onDemand != [] ==> w.onDemand == [w.onDemand[0]] + AfterTake(w, false).onDemand
    ensures w.deferred != [] ==> w.deferred == [w.deferred[0]] + AfterTake(w, true).deferred
    ensures AfterPutBack(w, c, false, false) == Waiting(w.onDemand + [c], w.deferred)
    ensures AfterPutBack(w, c, true, false) == Waiting(w.onDemand, w.deferred + [c])
    ensures AfterPutBack(w, c, false, true) == Waiting([c] + w.onDemand, w.deferred)
    ensures AfterPutBack(w, c, true, true) == Waiting(w.onDemand, [c] + w.deferred)
    ensures AfterClear(w, false) == Waiting([], w.deferred) && AfterClear(w, true) == Waiting(w.onDemand, [])
  {
  }

  // ---- no cell waits twice -------------------------------------------------------------------

  function IdOf(c: Cell): string { c.id }

  /** How many waiting cells carry this id. */
  function CopiesOf(cells: seq<Cell>, id: string): nat { |Keep(OfKey(IdOf, id), cells)| }

  lemma {:induction false} CopiesIgnoreOrder(a: seq<Cell>, b: seq<Cell>, id: string)
    requires multiset(a) == multiset(b)
    ensures CopiesOf(a, id) == CopiesOf(b, id)
  {
    var p := OfKey(IdOf, id);
    forall x ensures multiset(Keep(p, a))[x] == multiset(Keep(p, b))[x] {
      KeepCounts(p, a, x);
      KeepCounts(p, b, x);
    }
    assert multiset(Keep(p, a)) == multiset(Keep(p, b));
    assert |multiset(Keep(p, a))| == |Keep(p, a)| && |multiset(Keep(p, b))| == |Keep(p, b)|;
  }

  lemma CopiesAdd(a: seq<Cell>, b: seq<Cell>, id: string)
    ensures CopiesOf(a + b, id) == CopiesOf(a, id) + CopiesOf(b, id)
  {
    KeepConcat(OfKey(IdOf, id), a, b);
  }

  lemma TakingRemovesCopies(s: seq<Cell>, id: string)
    ensures CopiesOf(Tail(s), id) <= CopiesOf(s, id)
  {
    if s != [] {
      assert s == [s[0]] + Tail(s);
      CopiesAdd([s[0]], Tail(s), id);
    }
  }

  lemma NoCopies(s: seq<Cell>, id: string)
    requires forall c :: c in s ==> c.id != id
    ensures CopiesOf(s, id) == 0
  {
    KeepMembers(OfKey(IdOf, id), s);
    EmptyOrInhabited(Keep(OfKey(IdOf, id), s));
  }

  lemma {:induction false} SelectingRemovesCopies(w: Waiting, cells: seq<Cell>, id: string)
    ensures CopiesOf(SelectNew(w, cells), id) <= CopiesOf(cells, id)
    ensures id in QueuedIds(w) ==> CopiesOf(SelectNew(w, cells), id) == 0
    decreases |cells|
  {
    var p := NotQueued(w);
    KeepMembers(p, cells);
    if id in QueuedIds(w) {
      NoCopies(SelectNew(w, cells), id);
    } else if cells != [] {
      var n := |cells| - 1;
      SelectingRemovesCopies(w, cells[..n], id);
      assert cells == cells[..n] + [cells[n]];
      KeepOneMore(p, cells[..n], cells[n]);
      CopiesAdd(cells[..n], [cells[n]], id);
      if p(cells[n]) {
        CopiesAdd(SelectNew(w, cells[..n]), [cells[n]], id);
        assert SelectNew(w, cells) == SelectNew(w, cells[..n]) + [cells[n]];
      } else {
        assert SelectNew(w, cells) == SelectNew(w, cells[..n]);
      }
    }
  }

  ghost predicate NamedOnce(cells: seq<Cell>) {
    forall id :: id != "" ==> CopiesOf(cells, id) <= 1
  }

  lemma FillAdds(w: Waiting, cells: seq<Cell>, missingOnly: bool, interleaved: bool, batch: bool, id: string)
    ensures CopiesOf(AllWaiting(AfterFill(w, cells, missingOnly, interleaved, batch)), id) ==
            CopiesOf(AllWaiting(w), id)
            + if Accepted(interleaved, batch) then CopiesOf(if missingOnly then SelectNew(w, cells) else cells, id) else 0
  {
    var more := if missingOnly then SelectNew(w, cells) else cells;
    var after := AfterFill(w, cells, missingOnly, interleaved, batch);
    CopiesAdd(w.onDemand, w.deferred, id);
    CopiesAdd(after.onDemand, after.deferred, id);
    CopiesAdd(w.onDemand, more, id);
    CopiesAdd(w.deferred, more, id);
    InterleavePermutes(w.onDemand + more);
    CopiesIgnoreOrder(Interleave(w.onDemand + more), w.onDemand + more, id);
  }

  lemma MissingOnlyFillKeepsNamesUnique(w: Waiting, cells: seq<Cell>, interleaved: bool, batch: bool)
    requires NamedOnce(AllWaiting(w)) && NamedOnce(cells)
    ensures NamedOnce(AllWaiting(AfterFill(w, cells, true, interleaved, batch)))
  {
    var after := AllWaiting(AfterFill(w, cells, true, interleaved, batch));
    forall id | id != "" ensures CopiesOf(after, id) <= 1 {
      FillAdds(w, cells, true, interleaved, batch, id);
      SelectingRemovesCopies(w, cells, id);
      if id !in QueuedIds(w) { NoCopies(AllWaiting(w), id); }
    }
  }

  /** Each fill skips what is queued, and is handed no name twice. */
  ghost predicate SkippingFills(events: seq<Event>) {
    forall i :: 0 <= i < |events| && events[i].Fill? ==> events[i].missingOnly && NamedOnce(events[i].cells)
  }

  lemma NoCopiesExactlyWhen(cells: seq<Cell>, id: string)
    ensures CopiesOf(cells, id) == 0 <==> forall c :: c in cells ==> c.id != id
  {
    if forall c :: c in cells ==> c.id != id {
      NoCopies(cells, id);
    } else {
      var c :| c in cells && c.id == id;
      var p := OfKey(IdOf, id);
      KeepMembers(p, cells);
      assert p(c) == (IdOf(c) == id);
      assert c in Keep(p, cells);
    }
  }

  lemma OneCopy(c: Cell, id: string)
    ensures CopiesOf([c], id) == if c.id == id then 1 else 0
  {
    KeepOneMore(OfKey(IdOf, id), [], c);
    assert [] + [c] == [c];
  }

  lemma PuttingBackAddsOne(w: Waiting, c: Cell, deferred: bool, front: bool, id: string)
    ensures CopiesOf(AllWaiting(AfterPutBack(w, c, deferred, front)), id)
            == CopiesOf(AllWaiting(w), id) + if c.id == id then 1 else 0
  {
    var after := AfterPutBack(w, c, deferred, front);
    var lane := if deferred then w.deferred else w.onDemand;
    OneCopy(c, id);
    CopiesAdd(w.onDemand, w.deferred, id);
    CopiesAdd(after.onDemand, after.deferred, id);
    CopiesAdd(lane, [c], id);
    CopiesAdd([c], lane, id);
  }

  /** The event puts back a cell whose id is waiting. */
  predicate Repeats(w: Waiting, e: Event) { e.PutBack? && e.cell.id in QueuedIds(w) }

  predicate NothingWaitingIsPutBack(w: Waiting, events: seq<Event>)
    decreases |events|
  {
    events == [] ||
    (var front, last := events[..|events| - 1], events[|events| - 1];
     NothingWaitingIsPutBack(w, front) && !Repeats(AfterEvents(w, front), last))
  }

  lemma PuttingBackKeepsNamesExactlyWhen(w: Waiting, c: Cell, deferred: bool, front: bool)
    requires NamedOnce(AllWaiting(w))
    ensures NamedOnce(AllWaiting(AfterPutBack(w, c, deferred, front))) <==> c.id !in QueuedIds(w)
  {
    var after := AllWaiting(AfterPutBack(w, c, deferred, front));
    forall id ensures CopiesOf(after, id) == CopiesOf(AllWaiting(w), id) + if c.id == id then 1 else 0 {
      PuttingBackAddsOne(w, c, deferred, front, id);
    }
    NoCopiesExactlyWhen(AllWaiting(w), c.id);
    if c.id in QueuedIds(w) {
      var d :| d in AllWaiting(w) && d.id == c.id;
      assert CopiesOf(after, c.id) == 2;
    }
  }

  lemma FewerKeepNames(w: Waiting, now: Waiting)
    requires NamedOnce(AllWaiting(w))
    requires forall id :: CopiesOf(now.onDemand, id) <= CopiesOf(w.onDemand, id) && CopiesOf(now.deferred, id) <= CopiesOf(w.deferred, id)
    ensures NamedOnce(AllWaiting(now))
  {
    forall id | id != "" ensures CopiesOf(AllWaiting(now), id) <= 1 {
      CopiesAdd(w.onDemand, w.deferred, id);
      CopiesAdd(now.onDemand, now.deferred, id);
      assert CopiesOf(AllWaiting(w), id) <= 1;
    }
  }

  lemma TakingKeepsNames(w: Waiting, fromDeferred: bool)
    requires NamedOnce(AllWaiting(w))
    ensures NamedOnce(AllWaiting(AfterTake(w, fromDeferred)))
  {
    var now := AfterTake(w, fromDeferred);
    forall id ensures CopiesOf(now.onDemand, id) <= CopiesOf(w.onDemand, id) && CopiesOf(now.deferred, id) <= CopiesOf(w.deferred, id) {
      TakingRemovesCopies(w.onDemand, id);
      TakingRemovesCopies(w.deferred, id);
    }
    FewerKeepNames(w, now);
  }

  lemma CopiesOfEmpty(id: string)
    ensures CopiesOf([], id) == 0
  {
  }

  lemma ClearingKeepsNames(w: Waiting, deferred: bool)
    requires NamedOnce(AllWaiting(w))
    ensures NamedOnce(AllWaiting(AfterClear(w, deferred)))
  {
    var now := AfterClear(w, deferred);
    forall id ensures CopiesOf(now.onDemand, id) <= CopiesOf(w.onDemand, id) && CopiesOf(now.deferred, id) <= CopiesOf(w.deferred, id) {
      CopiesOfEmpty(id);
    }
    FewerKeepNames(w, now);
  }

  lemma ReorderedCopies(lane: seq<Cell>, id: string)
    ensures CopiesOf(Reinterleaved(lane), id) == CopiesOf(lane, id)
  {
    ReinterleavingPermutes(lane);
    CopiesIgnoreOrder(Reinterleaved(lane), lane, id);
  }

  lemma ReinterleavingKeepsNames(w: Waiting)
    requires NamedOnce(AllWaiting(w))
    ensures NamedOnce(AllWaiting(AfterReinterleave(w)))
  {
    var now := AfterReinterleave(w);
    forall id ensures CopiesOf(now.onDemand, id) <= CopiesOf(w.onDemand, id) && CopiesOf(now.deferred, id) <= CopiesOf(w.deferred, id) {
      ReorderedCopies(w.onDemand, id);
    }
    FewerKeepNames(w, now);
  }

  /** While every fill skips queued cells, no cell ever waits twice, in one lane or across both, exactly
      as long as no cell is put back while one of its id waits. */
  lemma {:induction false} NoCellWaitsTwice(w: Waiting, events: seq<Event>)
    requires NamedOnce(AllWaiting(w)) && SkippingFills(events)
    ensures Throughout(first => NamedOnce(AllWaiting(AfterEvents(w, first))), events) <==> NothingWaitingIsPutBack(w, events)
    decreases |events|
  {
    var p := (first: seq<Event>) => NamedOnce(AllWaiting(AfterEvents(w, first)));
    if events == [] {
      ThroughoutOfNone(p, events);
    } else {
      var front := events[..|events| - 1];
      NoCellWaitsTwice(w, front);
      ThroughoutOneMore(p, events);
      if Throughout(p, front) {
        ThroughoutAtTheEnd(p, front);
        NamesAfterOneEvent(AfterEvents(w, front), events[|events| - 1], AfterEvents(w, events));
      }
    }
  }

  lemma NamesAfterOneEvent(was: Waiting, e: Event, now: Waiting)
    requires NamedOnce(AllWaiting(was)) && (e.Fill? ==> e.missingOnly && NamedOnce(e.cells))
    requires now == AfterEvents(was, [e])
    ensures NamedOnce(AllWaiting(now)) <==> !Repeats(was, e)
  {
    assert AfterEvents(was, [e][..0]) == was;
    match e
    case Fill(cells, _, interleaved, batch) => MissingOnlyFillKeepsNamesUnique(was, cells, interleaved, batch);
    case Take(fromDeferred) => TakingKeepsNames(was, fromDeferred);
    case PutBack(c, deferred, front) => PuttingBackKeepsNamesExactlyWhen(was, c, deferred, front);
    case Reinterleave => ReinterleavingKeepsNames(was);
    case Clear(deferred) => ClearingKeepsNames(was, deferred);
  }

  /** A missing-only fill run twice adds nothing the second time. */
  lemma FillingAgainAddsNothing(w: Waiting, cells: seq<Cell>, interleaved: bool, batch: bool)
    requires Accepted(interleaved, batch) && forall c :: c in cells ==> c.id != ""
    ensures SelectNew(AfterFill(w, cells, true, interleaved, batch), cells) == []
  {
    var after := AfterFill(w, cells, true, interleaved, batch);
    KeepMembers(NotQueued(after), cells);
    KeepMembers(NotQueued(w), cells);
    EmptyOrInhabited(SelectNew(after, cells));
    InterleavePermutes(w.onDemand + SelectNew(w, cells));
    var order := Interleave(w.onDemand + SelectNew(w, cells));
    forall c | c in cells ensures c.id in QueuedIds(after) {
      if c.id in QueuedIds(w) {
        var d :| d in AllWaiting(w) && d.id == c.id;
        assert d in AllWaiting(after) by { FillKeeps(w, cells, interleaved, batch, d); }
      } else {
        assert c in SelectNew(w, cells);
        assert c in AllWaiting(after) by { FillKeeps(w, cells, interleaved, batch, c); }
      }
    }
  }

  lemma FillKeeps(w: Waiting, cells: seq<Cell>, interleaved: bool, batch: bool, c: Cell)
    requires Accepted(interleaved, batch) && (c in AllWaiting(w) || c in SelectNew(w, cells))
    ensures c in AllWaiting(AfterFill(w, cells, true, interleaved, batch))
  {
    var all := w.onDemand + SelectNew(w, cells);
    InterleavePermutes(all);
    assert c in Interleave(all) <==> c in multiset(Interleave(all));
    assert c in all <==> c in multiset(all);
  }

  // ---- the lists themselves ------------------------------------------------------------------

  class Lanes {
    var onDemand: seq<Cell>
    var deferred: seq<Cell>

    constructor ()
      ensures Popped() == Waiting([], [])
    {
      onDemand, deferred := [], [];
    }

    function Popped(): Waiting
      reads this
    {
      Waiting(PopOrder(onDemand), PopOrder(deferred))
    }

    /** `push_cells` */
    method PushCells(cells: seq<Cell>, batch: bool)
      modifies this
      ensures Popped() == if batch then old(Popped()).(deferred := old(Popped()).deferred + cells)
                          else old(Popped()).(onDemand := old(Popped()).onDemand + cells)
    {
      for i := 0 to |cells|
        invariant batch ==> onDemand == old(onDemand) && PopOrder(deferred) == old(PopOrder(deferred)) + cells[..i]
        invariant !batch ==> deferred == old(deferred) && PopOrder(onDemand) == old(PopOrder(onDemand)) + cells[..i]
      {
        TakeOneMore(cells, i);
        if batch {
          PushedLastIsPoppedLast(deferred, cells[i]);
          deferred := [cells[i]] + deferred;
        } else {
          PushedLastIsPoppedLast(onDemand, cells[i]);
          onDemand := [cells[i]] + onDemand;
        }
      }
      assert cells[..|cells|] == cells;
    }

    /** `lrange`, interleave with the new cells, `delete`, and push everything back. */
    method Rebuild(cells: seq<Cell>)
      modifies this
      ensures Popped() == old(Popped()).(onDemand := Interleave(old(Popped()).onDemand + cells))
    {
      var existing := PopOrder(onDemand);
      var final := InterleaveCells(existing + cells);
      onDemand := [];
      assert Popped() == Waiting([], old(Popped()).deferred);
      PushCells(final, false);
      assert [] + final == final;
    }

    /** `write_queue`: the lane is deleted and pushed on the right, last first, in one transaction. */
    method WriteQueue(order: seq<Cell>)
      modifies this`onDemand
      ensures Popped() == old(Popped()).(onDemand := order)
    {
      onDemand := [];
      assert order[|order|..] == PopOrder([]);
      for i := |order| downto 0
        invariant deferred == old(deferred) && PopOrder(onDemand) == order[i..]
      {
        PushedRightIsPoppedFirst(onDemand, order[i]);
        FromOneEarlier(order, i);
        onDemand := onDemand + [order[i]];
      }
      assert order[0..] == order;
    }

    /** The `reinterleave` of the control room and the script; false where it raises. */
    method ReinterleaveQueue() returns (done: bool)
      modifies this`onDemand
      ensures done == Feasible(old(Popped()).onDemand)
      ensures Popped() == AfterReinterleave(old(Popped()))
    {
      var order := ReinterleaveCells(PopOrder(onDemand));
      done := order.Some?;
      if done { WriteQueue(order.value); }
    }

    /** The fill of `main`; false is its exit code 2. */
    method FillLanes(cells: seq<Cell>, missingOnly: bool, interleaved: bool, batch: bool) returns (accepted: bool)
      modifies this
      ensures accepted == Accepted(interleaved, batch)
      ensures Popped() == AfterFill(old(Popped()), cells, missingOnly, interleaved, batch)
    {
      if batch && interleaved { return false; }
      accepted := true;
      var more := cells;
      if missingOnly { more := SelectNew(Popped(), cells); }
      if interleaved { Rebuild(more); } else { PushCells(more, batch); }
    }
  }
}

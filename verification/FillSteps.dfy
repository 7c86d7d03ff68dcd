/** Fills and re-interleavings cut at every Redis call, with others, with workers that take cells and put
    them back, and with resets in between. */
module FillSteps {
  import opened Lists
  import opened RoundRobin
  import opened Schedule
  import opened Reorder
  import opened FillQueue

  /** The next Redis call of a fill or a re-interleaving, with what it has read so far. */
  datatype Task =
    | ReadFirst(cells: seq<Cell>, interleaved: bool, batch: bool)
    | ReadSecond(cells: seq<Cell>, interleaved: bool, batch: bool, seen: set<string>)
    | ReadLane(more: seq<Cell>)
    | DropLane(more: seq<Cell>, existing: seq<Cell>)
    | Push(rest: seq<Cell>, batch: bool)
    | ReadToReorder
    | Replace(existing: seq<Cell>)
    | Done

  /** The lanes, the cells workers have taken, the fills, and the books: what fills have set out to
      queue, what a rewrite queued although it was taken, and what a rewrite, a reset or a death left unqueued. */
  datatype Sys = Sys(
    lanes: Waiting, popped: seq<Cell>, fills: seq<Task>,
    asked: multiset<Cell>, doubled: multiset<Cell>, lost: multiset<Cell>)

  const EMPTY: Sys := Sys(Waiting([], []), [], [], multiset{}, multiset{}, multiset{})

  /** `Requeue` is a worker putting back a cell it took, or the re-drive of a dead letter; `Reread` starts a
      re-interleaving; `Wipe` is one delete of `--clear`; `Die` is the end of a process before its next call. */
  datatype Action =
    | Start(cells: seq<Cell>, missingOnly: bool, interleaved: bool, batch: bool)
    | Go(fill: nat, ok: bool)
    | Pop(fromDeferred: bool)
    | Requeue(taken: nat, deferred: bool, front: bool)
    | Reread
    | Wipe(deferred: bool)
    | Die(fill: nat)

  /** The ids `queued_cell_ids` takes from one lane; a lane that cannot be read counts as empty. */
  function IdsIn(lane: seq<Cell>, ok: bool): set<string> { if ok then set c | c in lane && c.id != "" :: c.id else {} }

  /** A lane that can be read yields the non-empty ids of its cells, one that cannot be read yields none. */
  lemma IdsReadExactlyWhen(lane: seq<Cell>, ok: bool, id: string)
    ensures id in IdsIn(lane, ok) <==> ok && id != "" && exists i :: 0 <= i < |lane| && lane[i].id == id
  {
    if id in IdsIn(lane, ok) {
      var c :| c in lane && c.id == id;
      var i :| 0 <= i < |lane| && lane[i] == c;
    }
    if i :| 0 <= i < |lane| && lane[i].id == id { assert lane[i] in lane; }
  }

  function Unseen(seen: set<string>): Cell -> bool { (c: Cell) => c.id !in seen }

  /** What a fill does once it knows its cells. */
  function Chosen(cells: seq<Cell>, interleaved: bool, batch: bool): Task {
    if interleaved then ReadLane(cells) else Push(cells, batch)
  }

  /** The cells a fill has chosen and not yet queued. */
  function Pending(t: Task): seq<Cell> {
    match t
    case ReadLane(more) => more
    case DropLane(more, _) => more
    case Push(rest, _) => rest
    case _ => []
  }

  function PendingAll(fills: seq<Task>): multiset<Cell>
    decreases |fills|
  {
    if fills == [] then multiset{} else PendingAll(fills[..|fills| - 1]) + multiset(Pending(fills[|fills| - 1]))
  }

  /** One call's step on the lanes. */
  function Advance(lanes: Waiting, t: Task, ok: bool): (Waiting, Task) {
    match t
    case ReadFirst(cells, interleaved, batch) => (lanes, ReadSecond(cells, interleaved, batch, IdsIn(lanes.onDemand, ok)))
    case ReadSecond(cells, interleaved, batch, seen) =>
      (lanes, Chosen(Keep(Unseen(seen + IdsIn(lanes.deferred, ok)), cells), interleaved, batch))
    case ReadLane(more) => (lanes, DropLane(more, lanes.onDemand))
    case DropLane(more, existing) => (lanes.(onDemand := []), Push(Interleave(existing + more), false))
    case Push(rest, batch) =>
      if rest == [] then (lanes, Done)
      else
        (if batch then lanes.(deferred := lanes.deferred + [rest[0]]) else lanes.(onDemand := lanes.onDemand + [rest[0]]),
         Push(rest[1..], batch))
    case ReadToReorder => (lanes, Replace(lanes.onDemand))
    case Replace(existing) => (Replaced(lanes, existing), Done)
    case Done => (lanes, Done)
  }

  /** One transaction; where no order keeps providers apart nothing is written. */
  function Replaced(lanes: Waiting, existing: seq<Cell>): Waiting {
    if Feasible(existing) then lanes.(onDemand := Reinterleaved(existing)) else lanes
  }

  function Next(s: Sys, a: Action): Sys {
    match a
    case Start(cells, missingOnly, interleaved, batch) =>
      if !Accepted(interleaved, batch) then s
      else if missingOnly then s.(fills := s.fills + [ReadFirst(cells, interleaved, batch)])
      else s.(fills := s.fills + [Chosen(cells, interleaved, batch)], asked := s.asked + multiset(cells))
    case Go(i, ok) => if i < |s.fills| then GoOn(s, i, ok) else s
    case Pop(fromDeferred) =>
      var lane := if fromDeferred then s.lanes.deferred else s.lanes.onDemand;
      s.(lanes := AfterTake(s.lanes, fromDeferred), popped := s.popped + HeadOf(lane))
    case Requeue(k, deferred, front) =>
      if k < |s.popped| then
        s.(lanes := AfterPutBack(s.lanes, s.popped[k], deferred, front), popped := Without(s.popped, k))
      else s
    case Reread => s.(fills := s.fills + [ReadToReorder])
    case Wipe(deferred) =>
      s.(lanes := AfterClear(s.lanes, deferred),
         lost := s.lost + multiset(if deferred then s.lanes.deferred else s.lanes.onDemand))
    case Die(i) =>
      if i < |s.fills| then s.(fills := s.fills[i := Done], lost := s.lost + multiset(Pending(s.fills[i]))) else s
  }

  /** The call drops the on-demand lane for what was read of it. */
  predicate Rewrites(t: Task) { t.DropLane? || (t.Replace? && Feasible(t.existing)) }

  function Without(cells: seq<Cell>, k: nat): seq<Cell>
    requires k < |cells|
  {
    cells[..k] + cells[k + 1..]
  }

  function GoOn(s: Sys, i: nat, ok: bool): Sys
    requires i < |s.fills|
  {
    var t := s.fills[i];
    var (lanes, t') := Advance(s.lanes, t, ok);
    var moved := s.(lanes := lanes, fills := s.fills[i := t']);
    if t.ReadSecond? then moved.(asked := s.asked + multiset(Pending(t')))
    else if Rewrites(t) then
      moved.(doubled := s.doubled + (multiset(t.existing) - multiset(s.lanes.onDemand)),
             lost := s.lost + (multiset(s.lanes.onDemand) - multiset(t.existing)))
    else moved
  }

  function Exec(actions: seq<Action>): Sys
    decreases |actions|
  {
    if actions == [] then EMPTY else Next(Exec(actions[..|actions| - 1]), actions[|actions| - 1])
  }

  // ---- the books balance -----------------------------------------------------------------------

  /** Every cell a fill set out to queue, and every cell queued a second time, is taken, waiting, about
      to be queued, or lost. */
  ghost predicate Balanced(s: Sys) {
    multiset(s.popped) + multiset(s.lanes.onDemand) + multiset(s.lanes.deferred) + PendingAll(s.fills) + s.lost
    == s.asked + s.doubled
  }

  lemma {:induction false} PendingConcat(a: seq<Task>, b: seq<Task>)
    ensures PendingAll(a + b) == PendingAll(a) + PendingAll(b)
    decreases |b|
  {
    if b == [] {
      assert a + b == a;
    } else {
      var front, last := b[..|b| - 1], b[|b| - 1];
      PendingConcat(a, front);
      ConcatAssociates(a, front, [last]);
      assert b == front + [last];
      PendingOneMore(a + front, last);
      PendingOneMore(front, last);
    }
  }

  /** What is pending around one fill, and in it. */
  lemma PendingAround(a: seq<Task>, t: Task, b: seq<Task>)
    ensures PendingAll((a + [t]) + b) == (PendingAll(a) + PendingAll(b)) + multiset(Pending(t))
  {
    PendingConcat(a + [t], b);
    PendingOneMore(a, t);
    SwapTwo(PendingAll(a), multiset(Pending(t)), PendingAll(b));
  }

  lemma PendingOfOne(fills: seq<Task>, i: nat, t: Task)
    requires i < |fills|
    ensures PendingAll(fills[i := t]) + multiset(Pending(fills[i])) == PendingAll(fills) + multiset(Pending(t))
  {
    var a, b := fills[..i], fills[i + 1..];
    assert fills == (a + [fills[i]]) + b && fills[i := t] == (a + [t]) + b;
    PendingAround(a, fills[i], b);
    PendingAround(a, t, b);
    SwapTwo(PendingAll(a) + PendingAll(b), multiset(Pending(t)), multiset(Pending(fills[i])));
  }

  lemma SwapTwo<T>(a: multiset<T>, x: multiset<T>, y: multiset<T>)
    ensures (a + x) + y == (a + y) + x
  {
  }

  lemma PendingOneMore(fills: seq<Task>, t: Task)
    ensures PendingAll(fills + [t]) == PendingAll(fills) + multiset(Pending(t))
  {
    assert (fills + [t])[..|fills + [t]| - 1] == fills;
  }

  lemma HeadAndTailMultiset(lane: seq<Cell>)
    ensures multiset(HeadOf(lane)) + multiset(Tail(lane)) == multiset(lane)
  {
    LaneIsHeadAndTail(lane);
    assert multiset(HeadOf(lane) + Tail(lane)) == multiset(lane);
  }

  lemma PushMoves(lanes: Waiting, t: Task, ok: bool)
    requires t.Push?
    ensures var (lanes', t') := Advance(lanes, t, ok);
            multiset(lanes'.onDemand) + multiset(lanes'.deferred) + multiset(Pending(t'))
            == multiset(lanes.onDemand) + multiset(lanes.deferred) + multiset(Pending(t))
  {
    if t.rest != [] {
      assert t.rest == [t.rest[0]] + t.rest[1..];
      assert multiset(t.rest) == multiset{t.rest[0]} + multiset(t.rest[1..]);
    }
  }

  /** What a step moves between the lanes and the fill. */
  lemma AdvanceMoves(lanes: Waiting, t: Task, ok: bool)
    requires !t.ReadSecond? && !Rewrites(t)
    ensures var (lanes', t') := Advance(lanes, t, ok);
            multiset(lanes'.onDemand) + multiset(lanes'.deferred) + multiset(Pending(t'))
            == multiset(lanes.onDemand) + multiset(lanes.deferred) + multiset(Pending(t))
  {
    if t.Push? { PushMoves(lanes, t, ok); }
  }

  lemma MaxOfTwo<T>(x: multiset<T>, y: multiset<T>)
    ensures x + (y - x) == y + (x - y)
  {
  }

  lemma RebuildMoves(lanes: Waiting, more: seq<Cell>, existing: seq<Cell>)
    ensures multiset(Interleave(existing + more)) == multiset(existing) + multiset(more)
    ensures multiset(existing) + (multiset(lanes.onDemand) - multiset(existing))
            == multiset(lanes.onDemand) + (multiset(existing) - multiset(lanes.onDemand))
  {
    InterleavePermutes(existing + more);
    MaxOfTwo(multiset(existing), multiset(lanes.onDemand));
  }

  /** Five amounts on one side and two on the other, in terms of one cell. */
  lemma BalancedAt(s: Sys, c: Cell)
    requires Balanced(s)
    ensures Held(s, c) == s.asked[c] + s.doubled[c]
  {
    var left := multiset(s.popped) + multiset(s.lanes.onDemand) + multiset(s.lanes.deferred) + PendingAll(s.fills) + s.lost;
    assert left[c] == (s.asked + s.doubled)[c];
  }

  ghost function Held(s: Sys, c: Cell): nat {
    multiset(s.popped)[c] + multiset(s.lanes.onDemand)[c] + multiset(s.lanes.deferred)[c] + PendingAll(s.fills)[c] + s.lost[c]
  }

  lemma BalancedFromCells(s: Sys)
    requires forall c :: Held(s, c) == s.asked[c] + s.doubled[c]
    ensures Balanced(s)
  {
    var left := multiset(s.popped) + multiset(s.lanes.onDemand) + multiset(s.lanes.deferred) + PendingAll(s.fills) + s.lost;
    forall c ensures left[c] == (s.asked + s.doubled)[c] { assert left[c] == Held(s, c); }
  }

  lemma GoKeepsBalance(s: Sys, i: nat, ok: bool)
    requires i < |s.fills| && Balanced(s)
    ensures Balanced(GoOn(s, i, ok))
  {
    var s' := GoOn(s, i, ok);
    PendingOfOne(s.fills, i, s'.fills[i]);
    forall c ensures Held(s', c) == s'.asked[c] + s'.doubled[c] {
      BalancedAt(s, c);
      GoBalanceAt(s, i, ok, c);
    }
    BalancedFromCells(s');
  }

  /** What a cell counts for outside the fills and the workers, against what was asked for. */
  ghost function Around(s: Sys, i: nat, c: Cell): int
    requires i < |s.fills|
  {
    var there: int := multiset(s.lanes.onDemand)[c] + multiset(s.lanes.deferred)[c] + multiset(Pending(s.fills[i]))[c] + s.lost[c];
    var owed: int := s.asked[c] + s.doubled[c];
    there - owed
  }

  lemma RewriteBalanceAt(s: Sys, i: nat, ok: bool, c: Cell)
    requires i < |s.fills| && Rewrites(s.fills[i])
    ensures Around(GoOn(s, i, ok), i, c) == Around(s, i, c)
  {
    if s.fills[i].DropLane? { RebuildBalanceAt(s, i, ok, c); } else { ReplaceBalanceAt(s, i, ok, c); }
  }

  lemma ReplaceMoves(lanes: Waiting, existing: seq<Cell>)
    requires Feasible(existing)
    ensures multiset(Replaced(lanes, existing).onDemand) == multiset(existing)
    ensures Replaced(lanes, existing).deferred == lanes.deferred
  {
    ReinterleavingPermutes(existing);
  }

  lemma BooksOfARewrite<T>(e: multiset<T>, l: multiset<T>, lost: multiset<T>, doubled: multiset<T>, c: T)
    ensures e[c] + (lost + (l - e))[c] + doubled[c] == l[c] + lost[c] + (doubled + (e - l))[c]
  {
    MaxOfTwo(e, l);
    assert (e + (l - e))[c] == (l + (e - l))[c];
  }

  lemma ReplaceStep(s: Sys, i: nat, ok: bool)
    requires i < |s.fills| && s.fills[i].Replace? && Feasible(s.fills[i].existing)
    ensures var existing := s.fills[i].existing;
            var s' := GoOn(s, i, ok);
            && s'.lanes == Replaced(s.lanes, existing) && s'.fills[i] == Done && s'.asked == s.asked
            && s'.lost == s.lost + (multiset(s.lanes.onDemand) - multiset(existing))
            && s'.doubled == s.doubled + (multiset(existing) - multiset(s.lanes.onDemand))
  {
  }

  lemma RewrittenBalance(s: Sys, s': Sys, i: nat, c: Cell, e: multiset<Cell>)
    requires i < |s.fills| && i < |s'.fills| && s.fills[i].Replace? && s'.fills[i].Done?
    requires multiset(s'.lanes.onDemand) == e && s'.lanes.deferred == s.lanes.deferred && s'.asked == s.asked
    requires s'.lost == s.lost + (multiset(s.lanes.onDemand) - e) && s'.doubled == s.doubled + (e - multiset(s.lanes.onDemand))
    ensures Around(s', i, c) == Around(s, i, c)
  {
    BooksOfARewrite(e, multiset(s.lanes.onDemand), s.lost, s.doubled, c);
  }

  lemma ReplaceBalanceAt(s: Sys, i: nat, ok: bool, c: Cell)
    requires i < |s.fills| && s.fills[i].Replace? && Feasible(s.fills[i].existing)
    ensures Around(GoOn(s, i, ok), i, c) == Around(s, i, c)
  {
    ReplaceStep(s, i, ok);
    ReplaceMoves(s.lanes, s.fills[i].existing);
    RewrittenBalance(s, GoOn(s, i, ok), i, c, multiset(s.fills[i].existing));
  }

  lemma RebuildBalanceAt(s: Sys, i: nat, ok: bool, c: Cell)
    requires i < |s.fills| && s.fills[i].DropLane?
    ensures Around(GoOn(s, i, ok), i, c) == Around(s, i, c)
  {
    var t := s.fills[i];
    RebuildMoves(s.lanes, t.more, t.existing);
    var e, l := multiset(t.existing), multiset(s.lanes.onDemand);
    assert (e + (l - e))[c] == (l + (e - l))[c];
    assert multiset(Interleave(t.existing + t.more))[c] == (e + multiset(t.more))[c];
  }

  lemma StepBalanceAt(s: Sys, i: nat, ok: bool, c: Cell)
    requires i < |s.fills| && !Rewrites(s.fills[i])
    ensures Around(GoOn(s, i, ok), i, c) == Around(s, i, c)
  {
    var t := s.fills[i];
    if !t.ReadSecond? {
      AdvanceMoves(s.lanes, t, ok);
      var (lanes', t') := Advance(s.lanes, t, ok);
      var before := multiset(s.lanes.onDemand) + multiset(s.lanes.deferred) + multiset(Pending(t));
      var after := multiset(lanes'.onDemand) + multiset(lanes'.deferred) + multiset(Pending(t'));
      assert after[c] == before[c];
    }
  }

  /** The change of each amount of one cell in a step. */
  lemma GoBalanceAt(s: Sys, i: nat, ok: bool, c: Cell)
    requires i < |s.fills|
    requires PendingAll(GoOn(s, i, ok).fills) + multiset(Pending(s.fills[i])) == PendingAll(s.fills) + multiset(Pending(GoOn(s, i, ok).fills[i]))
    ensures var s' := GoOn(s, i, ok);
            Held(s', c) + s.asked[c] + s.doubled[c] == Held(s, c) + s'.asked[c] + s'.doubled[c]
  {
    var s' := GoOn(s, i, ok);
    if Rewrites(s.fills[i]) { RewriteBalanceAt(s, i, ok, c); } else { StepBalanceAt(s, i, ok, c); }
    var p, p', q, q' := PendingAll(s.fills), PendingAll(s'.fills), multiset(Pending(s.fills[i])), multiset(Pending(s'.fills[i]));
    assert (p' + q)[c] == (p + q')[c];
    assert s'.popped == s.popped;
  }

  lemma PopKeepsBalance(s: Sys, fromDeferred: bool)
    requires Balanced(s)
    ensures Balanced(Next(s, Pop(fromDeferred)))
  {
    var s' := Next(s, Pop(fromDeferred));
    var lane := if fromDeferred then s.lanes.deferred else s.lanes.onDemand;
    HeadAndTailMultiset(lane);
    forall c ensures Held(s', c) == s'.asked[c] + s'.doubled[c] {
      BalancedAt(s, c);
      assert (multiset(HeadOf(lane)) + multiset(Tail(lane)))[c] == multiset(lane)[c];
      assert multiset(s.popped + HeadOf(lane)) == multiset(s.popped) + multiset(HeadOf(lane));
    }
    BalancedFromCells(s');
  }

  lemma OneLess(cells: seq<Cell>, k: nat)
    requires k < |cells|
    ensures multiset(Without(cells, k)) + multiset{cells[k]} == multiset(cells)
  {
    assert cells == cells[..k] + ([cells[k]] + cells[k + 1..]);
  }

  lemma PutBackMoves(lanes: Waiting, c: Cell, deferred: bool, front: bool)
    ensures var lanes' := AfterPutBack(lanes, c, deferred, front);
            multiset(lanes'.onDemand) + multiset(lanes'.deferred)
            == multiset(lanes.onDemand) + multiset(lanes.deferred) + multiset{c}
  {
  }

  lemma RequeueKeepsBalance(s: Sys, k: nat, deferred: bool, front: bool)
    requires Balanced(s)
    ensures Balanced(Next(s, Requeue(k, deferred, front)))
  {
    var s' := Next(s, Requeue(k, deferred, front));
    if k < |s.popped| {
      OneLess(s.popped, k);
      PutBackMoves(s.lanes, s.popped[k], deferred, front);
      forall c ensures Held(s', c) == s'.asked[c] + s'.doubled[c] {
        BalancedAt(s, c);
        assert (multiset(s'.popped) + multiset{s.popped[k]})[c] == multiset(s.popped)[c];
        assert (multiset(s'.lanes.onDemand) + multiset(s'.lanes.deferred))[c]
            == (multiset(s.lanes.onDemand) + multiset(s.lanes.deferred) + multiset{s.popped[k]})[c];
      }
      BalancedFromCells(s');
    }
  }

  lemma NewFillKeepsBalance(s: Sys, t: Task)
    requires Balanced(s)
    ensures Balanced(s.(fills := s.fills + [t], asked := s.asked + multiset(Pending(t))))
  {
    var s' := s.(fills := s.fills + [t], asked := s.asked + multiset(Pending(t)));
    PendingOneMore(s.fills, t);
    forall c ensures Held(s', c) == s'.asked[c] + s'.doubled[c] {
      BalancedAt(s, c);
      assert PendingAll(s'.fills)[c] == PendingAll(s.fills)[c] + multiset(Pending(t))[c];
    }
    BalancedFromCells(s');
  }

  /** A fill or a re-interleaving that has chosen nothing yet. */
  lemma EmptyFillKeepsBalance(s: Sys, t: Task)
    requires Balanced(s) && Pending(t) == []
    ensures Balanced(s.(fills := s.fills + [t]))
  {
    NewFillKeepsBalance(s, t);
    assert s.asked + multiset([]) == s.asked;
  }

  lemma StartKeepsBalance(s: Sys, cells: seq<Cell>, missingOnly: bool, interleaved: bool, batch: bool)
    requires Balanced(s)
    ensures Balanced(Next(s, Start(cells, missingOnly, interleaved, batch)))
  {
    if !Accepted(interleaved, batch) {
    } else if missingOnly {
      EmptyFillKeepsBalance(s, ReadFirst(cells, interleaved, batch));
    } else {
      assert Pending(Chosen(cells, interleaved, batch)) == cells;
      NewFillKeepsBalance(s, Chosen(cells, interleaved, batch));
    }
  }

  lemma RereadKeepsBalance(s: Sys)
    requires Balanced(s)
    ensures Balanced(Next(s, Reread))
  {
    EmptyFillKeepsBalance(s, ReadToReorder);
  }

  lemma WipeKeepsBalance(s: Sys, deferred: bool)
    requires Balanced(s)
    ensures Balanced(Next(s, Wipe(deferred)))
  {
    var s' := Next(s, Wipe(deferred));
    forall c ensures Held(s', c) == s'.asked[c] + s'.doubled[c] { BalancedAt(s, c); }
    BalancedFromCells(s');
  }

  lemma DieKeepsBalance(s: Sys, i: nat)
    requires Balanced(s)
    ensures Balanced(Next(s, Die(i)))
  {
    var s' := Next(s, Die(i));
    if i < |s.fills| {
      var q := multiset(Pending(s.fills[i]));
      PendingOfOne(s.fills, i, Done);
      assert PendingAll(s'.fills) + q == PendingAll(s.fills);
      forall c ensures Held(s', c) == s'.asked[c] + s'.doubled[c] {
        BalancedAt(s, c);
        assert (PendingAll(s'.fills) + q)[c] == PendingAll(s.fills)[c];
      }
      BalancedFromCells(s');
    }
  }

  /** In every interleaving of fills, re-interleavings, pops, requeues, resets and deaths the books balance. */
  lemma {:induction false} TheBooksBalance(actions: seq<Action>)
    ensures Balanced(Exec(actions))
    decreases |actions|
  {
    if actions != [] {
      var s := Exec(actions[..|actions| - 1]);
      TheBooksBalance(actions[..|actions| - 1]);
      match actions[|actions| - 1]
      case Start(cells, missingOnly, interleaved, batch) => StartKeepsBalance(s, cells, missingOnly, interleaved, batch);
      case Go(i, ok) => if i < |s.fills| { GoKeepsBalance(s, i, ok); }
      case Pop(fromDeferred) => PopKeepsBalance(s, fromDeferred);
      case Requeue(k, deferred, front) => RequeueKeepsBalance(s, k, deferred, front);
      case Reread => RereadKeepsBalance(s);
      case Wipe(deferred) => WipeKeepsBalance(s, deferred);
      case Die(i) => DieKeepsBalance(s, i);
    }
  }

  // ---- when nothing is lost or queued twice by a rebuild --------------------------------------------

  /** A rewrite that drops a lane holding other cells than it read, a reset of a lane that holds cells, or a
      fill that dies with cells to queue. */
  predicate Disturbs(s: Sys, a: Action) {
    match a
    case Go(i, _) => i < |s.fills| && Rewrites(s.fills[i]) && multiset(s.fills[i].existing) != multiset(s.lanes.onDemand)
    case Wipe(deferred) => (if deferred then s.lanes.deferred else s.lanes.onDemand) != []
    case Die(i) => i < |s.fills| && Pending(s.fills[i]) != []
    case _ => false
  }

  predicate Undisturbed(actions: seq<Action>)
    decreases |actions|
  {
    actions == [] ||
    (var front, last := actions[..|actions| - 1], actions[|actions| - 1];
     Undisturbed(front) && !Disturbs(Exec(front), last))
  }

  lemma RewriteIsBooked(s: Sys, i: nat, ok: bool)
    requires i < |s.fills|
    ensures var s' := GoOn(s, i, ok);
            && s.lost <= s'.lost && s.doubled <= s'.doubled
            && (Disturbs(s, Go(i, ok)) <==> s'.lost != s.lost || s'.doubled != s.doubled)
  {
    if Rewrites(s.fills[i]) {
      var e, l := multiset(s.fills[i].existing), multiset(s.lanes.onDemand);
      DifferInOneDirection(e, l);
      AddsNothingExactlyWhen(s.doubled, e - l);
      AddsNothingExactlyWhen(s.lost, l - e);
    }
  }

  lemma DisturbanceIsBooked(s: Sys, a: Action)
    ensures var s' := Next(s, a);
            && s.lost <= s'.lost && s.doubled <= s'.doubled
            && (Disturbs(s, a) <==> s'.lost != s.lost || s'.doubled != s.doubled)
  {
    if a.Go? && a.fill < |s.fills| { RewriteIsBooked(s, a.fill, a.ok); }
    if a.Die? && a.fill < |s.fills| {
      AddsNothingExactlyWhen(s.lost, multiset(Pending(s.fills[a.fill])));
      NoMembersNoCells(Pending(s.fills[a.fill]));
    }
    if a.Wipe? { WipingLosesNothingExactlyWhen(s, a.deferred); }
  }

  lemma WipingLosesNothingExactlyWhen(s: Sys, deferred: bool)
    ensures s.lost + multiset(if deferred then s.lanes.deferred else s.lanes.onDemand) == s.lost <==> !Disturbs(s, Wipe(deferred))
  {
    var lane := if deferred then s.lanes.deferred else s.lanes.onDemand;
    AddsNothingExactlyWhen(s.lost, multiset(lane));
    NoMembersNoCells(lane);
  }

  lemma DifferInOneDirection<T>(x: multiset<T>, y: multiset<T>)
    ensures x == y <==> x - y == multiset{} && y - x == multiset{}
  {
    if x - y == multiset{} && y - x == multiset{} {
      forall e ensures x[e] == y[e] { assert (x - y)[e] == 0 && (y - x)[e] == 0; }
    }
  }

  lemma AddsNothingExactlyWhen<T>(x: multiset<T>, y: multiset<T>)
    ensures x + y == x <==> y == multiset{}
  {
    if x + y == x { forall e ensures y[e] == 0 { assert (x + y)[e] == x[e]; } }
  }

  lemma NoMembersNoCells(s: seq<Cell>)
    ensures multiset(s) == multiset{} <==> s == []
  {
    if s != [] { assert s[0] in multiset(s); }
  }

  ghost predicate CleanBooks(s: Sys) { s.lost == multiset{} && s.doubled == multiset{} }

  lemma BooksStayCleanExactlyWhen(s: Sys, a: Action)
    ensures CleanBooks(Next(s, a)) <==> CleanBooks(s) && !Disturbs(s, a)
  {
    DisturbanceIsBooked(s, a);
  }

  lemma {:induction false} BooksAreCleanExactlyWhen(actions: seq<Action>)
    ensures Undisturbed(actions) <==> CleanBooks(Exec(actions))
    decreases |actions|
  {
    if actions != [] {
      BooksAreCleanExactlyWhen(actions[..|actions| - 1]);
      BooksStayCleanExactlyWhen(Exec(actions[..|actions| - 1]), actions[|actions| - 1]);
    }
  }

  /** What fills set out to queue is taken, waiting or about to be queued, each cell as often. */
  ghost predicate Conserved(s: Sys) {
    multiset(s.popped) + multiset(s.lanes.onDemand) + multiset(s.lanes.deferred) + PendingAll(s.fills) == s.asked
  }

  lemma Cancel<T>(a: multiset<T>, x: multiset<T>, b: multiset<T>, y: multiset<T>)
    requires a + x == b + y
    ensures a == b <==> x == y
  {
    if a == b { forall e ensures x[e] == y[e] { assert (a + x)[e] == (b + y)[e]; } }
    if x == y { forall e ensures a[e] == b[e] { assert (a + x)[e] == (b + y)[e]; } }
  }

  lemma ConservedExactlyWhenEven(s: Sys)
    requires Balanced(s)
    ensures Conserved(s) <==> s.lost == s.doubled
  {
    Cancel(multiset(s.popped) + multiset(s.lanes.onDemand) + multiset(s.lanes.deferred) + PendingAll(s.fills), s.lost, s.asked, s.doubled);
  }

  lemma UnevenAfterARebuild<T>(lost: multiset<T>, e: multiset<T>, l: multiset<T>)
    ensures lost + (l - e) == lost + (e - l) <==> e == l
  {
    if lost + (l - e) == lost + (e - l) {
      forall x ensures e[x] == l[x] { assert (lost + (l - e))[x] == (lost + (e - l))[x]; }
    }
  }

  /** From even books one step leaves them even exactly when it does not disturb. */
  lemma EvenAfterExactlyWhen(s: Sys, a: Action)
    requires s.lost == s.doubled
    ensures Next(s, a).lost == Next(s, a).doubled <==> !Disturbs(s, a)
  {
    if a.Go? && a.fill < |s.fills| && Rewrites(s.fills[a.fill]) {
      UnevenAfterARebuild(s.lost, multiset(s.fills[a.fill].existing), multiset(s.lanes.onDemand));
    }
    if a.Die? && a.fill < |s.fills| {
      AddsNothingExactlyWhen(s.lost, multiset(Pending(s.fills[a.fill])));
      NoMembersNoCells(Pending(s.fills[a.fill]));
    }
    if a.Wipe? { WipingLosesNothingExactlyWhen(s, a.deferred); }
  }

  /** All through a run, what fills set out to queue is taken, waiting or about to be queued exactly when
      every rewrite drops the cells it had read, no lane with cells is reset, and no fill dies with cells to
      queue. */
  lemma {:induction false} NothingLostExactlyWhenUndisturbed(actions: seq<Action>)
    ensures Throughout(run => Conserved(Exec(run)), actions) <==> Undisturbed(actions)
    decreases |actions|
  {
    var p := (run: seq<Action>) => Conserved(Exec(run));
    TheBooksBalance(actions);
    ConservedExactlyWhenEven(Exec(actions));
    if actions == [] {
      ThroughoutOfNone(p, actions);
    } else {
      var front := actions[..|actions| - 1];
      NothingLostExactlyWhenUndisturbed(front);
      ThroughoutOneMore(p, actions);
      if Throughout(p, front) {
        ThroughoutAtTheEnd(p, front);
        TheBooksBalance(front);
        ConservedExactlyWhenEven(Exec(front));
        EvenAfterExactlyWhen(Exec(front), actions[|actions| - 1]);
      }
    }
  }

  // ---- a fill that nothing interrupts is the fill of `FillQueue` ------------------------------------

  function Stage(t: Task): nat {
    match t
    case ReadFirst(_, _, _) => 4 case ReadSecond(_, _, _, _) => 3 case ReadLane(_) => 2 case DropLane(_, _) => 1
    case ReadToReorder => 2 case Replace(_) => 1 case Push(_, _) => 0 case Done => 0
  }

  function Left(t: Task): nat { if t.Push? then |t.rest| + 1 else 0 }

  lemma ChosenStage(cells: seq<Cell>, interleaved: bool, batch: bool)
    ensures Stage(Chosen(cells, interleaved, batch)) <= 2
  {
  }

  lemma AdvanceLowers(lanes: Waiting, t: Task)
    requires !t.Done?
    ensures var t' := Advance(lanes, t, true).1;
            Stage(t') < Stage(t) || (Stage(t') == Stage(t) && Left(t') < Left(t))
  {
    match t
    case ReadFirst(_, _, _) =>
    case ReadSecond(cells, interleaved, batch, seen) =>
      ChosenStage(Keep(Unseen(seen + IdsIn(lanes.deferred, true)), cells), interleaved, batch);
    case ReadLane(_) =>
    case DropLane(_, _) =>
    case Push(rest, _) => if rest != [] { assert |rest[1..]| == |rest| - 1; }
    case ReadToReorder =>
    case Replace(_) =>
  }

  /** The lanes when a fill takes all its steps with nothing in between. */
  function Alone(lanes: Waiting, t: Task): Waiting
    decreases Stage(t), Left(t)
  {
    if t.Done? then lanes
    else
      AdvanceLowers(lanes, t);
      Alone(Advance(lanes, t, true).0, Advance(lanes, t, true).1)
  }

  lemma AloneStep(lanes: Waiting, t: Task)
    requires !t.Done?
    ensures Alone(lanes, t) == Alone(Advance(lanes, t, true).0, Advance(lanes, t, true).1)
  {
  }

  lemma {:induction false} PushesAlone(lanes: Waiting, rest: seq<Cell>, batch: bool)
    ensures Alone(lanes, Push(rest, batch)) ==
            if batch then lanes.(deferred := lanes.deferred + rest) else lanes.(onDemand := lanes.onDemand + rest)
    decreases |rest|
  {
    if rest == [] {
      assert lanes.deferred + [] == lanes.deferred && lanes.onDemand + [] == lanes.onDemand;
      assert Alone(lanes, Done) == lanes;
    } else {
      PushesAlone(Advance(lanes, Push(rest, batch), true).0, rest[1..], batch);
      assert rest == [rest[0]] + rest[1..];
      ConcatAssociates(lanes.deferred, [rest[0]], rest[1..]);
      ConcatAssociates(lanes.onDemand, [rest[0]], rest[1..]);
    }
  }

  lemma {:induction false} KeepAgrees(f: Cell -> bool, g: Cell -> bool, s: seq<Cell>)
    requires forall c :: f(c) == g(c)
    ensures Keep(f, s) == Keep(g, s)
    decreases |s|
  {
    if s != [] { KeepAgrees(f, g, s[..|s| - 1]); }
  }

  lemma TwoReadsSelect(w: Waiting, cells: seq<Cell>)
    ensures Keep(Unseen(IdsIn(w.onDemand, true) + IdsIn(w.deferred, true)), cells) == SelectNew(w, cells)
  {
    assert IdsIn(w.onDemand, true) + IdsIn(w.deferred, true) == QueuedIds(w);
    KeepAgrees(Unseen(IdsIn(w.onDemand, true) + IdsIn(w.deferred, true)), NotQueued(w), cells);
  }

  lemma DropAlone(w: Waiting, more: seq<Cell>, existing: seq<Cell>, final: seq<Cell>)
    requires Advance(w, DropLane(more, existing), true) == (w.(onDemand := []), Push(final, false))
    ensures Alone(w, DropLane(more, existing)) == w.(onDemand := final)
  {
    AloneStep(w, DropLane(more, existing));
    PushesAlone(w.(onDemand := []), final, false);
    assert [] + final == final;
  }

  lemma ReadLaneStep(w: Waiting, more: seq<Cell>)
    ensures Alone(w, ReadLane(more)) == Alone(w, DropLane(more, w.onDemand))
  {
    AloneStep(w, ReadLane(more));
  }

  lemma DropLaneStep(w: Waiting, more: seq<Cell>, existing: seq<Cell>)
    ensures Advance(w, DropLane(more, existing), true) == (w.(onDemand := []), Push(Interleave(existing + more), false))
  {
  }

  lemma RebuildAlone(w: Waiting, more: seq<Cell>)
    ensures Alone(w, ReadLane(more)) == w.(onDemand := Interleave(w.onDemand + more))
  {
    ReadLaneStep(w, more);
    DropLaneStep(w, more, w.onDemand);
    DropAlone(w, more, w.onDemand, Interleave(w.onDemand + more));
  }

  lemma ChosenAlone(w: Waiting, more: seq<Cell>, interleaved: bool, batch: bool)
    requires Accepted(interleaved, batch)
    ensures Alone(w, Chosen(more, interleaved, batch)) ==
            if interleaved then w.(onDemand := Interleave(w.onDemand + more))
            else if batch then w.(deferred := w.deferred + more)
            else w.(onDemand := w.onDemand + more)
  {
    if interleaved { RebuildAlone(w, more); } else { PushesAlone(w, more, batch); }
  }

  /** Without interruption a fill's Redis calls do what `AfterFill` says. */
  lemma AloneIsAfterFill(w: Waiting, cells: seq<Cell>, missingOnly: bool, interleaved: bool, batch: bool)
    requires Accepted(interleaved, batch)
    ensures Alone(w, if missingOnly then ReadFirst(cells, interleaved, batch) else Chosen(cells, interleaved, batch))
            == AfterFill(w, cells, missingOnly, interleaved, batch)
  {
    var more := if missingOnly then SelectNew(w, cells) else cells;
    ChosenAlone(w, more, interleaved, batch);
    if missingOnly {
      TwoReadsSelect(w, cells);
      AloneStep(w, ReadFirst(cells, interleaved, batch));
      AloneStep(w, ReadSecond(cells, interleaved, batch, IdsIn(w.onDemand, true)));
    }
  }
}

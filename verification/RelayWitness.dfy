/** Runs of relays in which a line is lost, or published twice. */
module RelayWitness {
  import opened Relay

  /** The one thing that goes wrong in a run. */
  datatype Trouble = PublisherFails | CursorDeleted

  /** No crash and no failing call but, as the case may be, a publisher's at a line; cursors are deleted
      only where that is the trouble. */
  predicate Only(what: Trouble, actions: seq<Action>)
    decreases |actions|
  {
    actions == [] ||
    (var front, last := actions[..|actions| - 1], actions[|actions| - 1];
     Only(what, front) && Tolerable(what, Run(front), last))
  }

  predicate Tolerable(what: Trouble, s: Sys, a: Action) {
    match a
    case Crash(_) => false
    case Forget(_) => what.CursorDeleted?
    case Step(t, fault) =>
      || fault.Fine?
      || (what.PublisherFails? && t < |s.threads| && s.threads[t].pc.Publishing?
          && s.threads[t].pc.next < |s.threads[t].pc.lines|)
    case _ => true
  }

  ghost predicate Reached(what: Trouble, actions: seq<Action>, s: Sys) { s == Run(actions) && Only(what, actions) }

  lemma Do(what: Trouble, actions: seq<Action>, s: Sys, a: Action) returns (more: seq<Action>, s': Sys)
    requires Reached(what, actions, s) && Tolerable(what, s, a)
    ensures Reached(what, more, s') && s' == Next(s, a)
  {
    more, s' := actions + [a], Next(s, a);
    assert more[..|more| - 1] == actions;
  }

  /** What concerns one session: its thread, its stored cursor, its log and what is published of it. */
  datatype View = View(thread: Thread, cursor: nat, log: seq<string>, published: seq<string>)

  function ViewOf(s: Sys, t: nat): View
    requires t < |s.threads|
  {
    var id := s.threads[t].session;
    View(s.threads[t], CursorOf(s, id), LogOf(s, id), PublishedOf(s, id))
  }

  /** A step as the session sees it. */
  function ViewStep(v: View, fault: Fault): View {
    var th := v.thread;
    var pc := match th.pc
      case Opening => Reading(false)
      case Reading(final) => Fetching(final, if fault.Fine? then v.cursor else 0)
      case Fetching(final, cursor) =>
        if !fault.Fine? || |v.log| <= cursor then Rest(final) else Publishing(final, cursor, v.log)
      case Publishing(final, next, lines) => if next < |lines| then Publishing(final, next + 1, lines) else Rest(final)
      case Waiting => Reading(th.stop)
      case Dead => Dead;
    View(th.(enabled := NextEnabled(th, fault), pc := pc),
         if Stores(th, fault) then |th.pc.lines| else v.cursor,
         v.log,
         if Sends(th, fault) then v.published + [th.pc.lines[th.pc.next]] else v.published)
  }

  lemma PcAsSeen(s: Sys, t: nat, fault: Fault)
    requires t < |s.threads|
    ensures ViewStep(ViewOf(s, t), fault).thread == s.threads[t].(enabled := NextEnabled(s.threads[t], fault), pc := NextPc(s, t, fault))
  {
  }

  lemma GoAsSeen(s: Sys, t: nat, fault: Fault)
    requires t < |s.threads|
    ensures |Go(s, t, fault).threads| == |s.threads| && Go(s, t, fault).registry == s.registry
    ensures ViewOf(Go(s, t, fault), t) == ViewStep(ViewOf(s, t), fault)
  {
    GoMovesTheThread(s, t, fault);
    PcAsSeen(s, t, fault);
  }

  lemma DoStep(what: Trouble, actions: seq<Action>, s: Sys, t: nat, fault: Fault) returns (more: seq<Action>, s': Sys)
    requires Reached(what, actions, s) && Tolerable(what, s, Step(t, fault)) && t < |s.threads|
    ensures Reached(what, more, s') && |s'.threads| == |s.threads| && s'.registry == s.registry
    ensures ViewOf(s', t) == ViewStep(ViewOf(s, t), fault)
  {
    more, s' := Do(what, actions, s, Step(t, fault));
    GoAsSeen(s, t, fault);
  }

  lemma DoWrite(what: Trouble, actions: seq<Action>, s: Sys, t: nat, line: string) returns (more: seq<Action>, s': Sys)
    requires Reached(what, actions, s) && t < |s.threads|
    ensures Reached(what, more, s') && |s'.threads| == |s.threads| && s'.registry == s.registry
    ensures ViewOf(s', t) == ViewOf(s, t).(log := ViewOf(s, t).log + [line])
  {
    more, s' := Do(what, actions, s, Write(s.threads[t].session, line));
  }

  lemma OneWanted(s: Sys, id: string)
    ensures Wanted([id]) == [id] && Wanted([]) == []
    ensures Started(s, [id]) == StartOne(s, id) && Started(s, []) == s
  {
    assert [id][..0] == [];
    assert Started(s, [id][..0]) == s;
  }

  lemma FirstThread(what: Trouble) returns (actions: seq<Action>, s: Sys)
    ensures Reached(what, actions, s) && |s.threads| == 1 && s.registry == map["s" := 0]
    ensures ViewOf(s, 0) == View(Thread("s", false, true, Opening), 0, [], [])
  {
    actions, s := Do(what, [], START, Roster(["s"]));
    OneWanted(Stopped(Swept(START), ["s"]), "s");
  }

  /** A thread whose publisher has failed at its only line, and whose cursor is behind that line. */
  lemma PassedOverALine(what: Trouble) returns (actions: seq<Action>, s: Sys)
    requires what.PublisherFails?
    ensures Reached(what, actions, s) && |s.threads| == 1 && s.registry == map["s" := 0]
    ensures ViewOf(s, 0) == View(Thread("s", false, false, Waiting), 1, ["a"], [])
  {
    actions, s := FirstThread(what);
    actions, s := DoWrite(what, actions, s, 0, "a");
    actions, s := DoStep(what, actions, s, 0, Fine);
    actions, s := DoStep(what, actions, s, 0, Fine);
    actions, s := DoStep(what, actions, s, 0, Fine);
    assert s.threads[0].pc == Publishing(false, 0, ["a"]);
    actions, s := DoStep(what, actions, s, 0, Fails);
    actions, s := DoStep(what, actions, s, 0, Fine);
  }

  lemma Unwanted(what: Trouble, actions: seq<Action>, s: Sys) returns (more: seq<Action>, s': Sys)
    requires Reached(what, actions, s) && |s.threads| == 1 && s.registry == map["s" := 0]
    requires s.threads[0].session == "s" && !s.threads[0].pc.Dead?
    ensures Reached(what, more, s') && |s'.threads| == 1 && s'.registry == map["s" := 0]
    ensures ViewOf(s', 0) == ViewOf(s, 0).(thread := s.threads[0].(stop := true))
  {
    more, s' := Do(what, actions, s, Roster([]));
    OneWanted(Stopped(Swept(s), []), "s");
  }

  lemma WantedAgain(what: Trouble, actions: seq<Action>, s: Sys) returns (more: seq<Action>, s': Sys)
    requires Reached(what, actions, s) && |s.threads| == 1 && s.registry == map["s" := 0]
    requires s.threads[0].session == "s" && s.threads[0].pc.Dead?
    ensures Reached(what, more, s') && |s'.threads| == 2
    ensures ViewOf(s', 1) == ViewOf(s, 0).(thread := Thread("s", false, true, Opening))
  {
    more, s' := Do(what, actions, s, Roster(["s"]));
    OneWanted(Stopped(Swept(s), ["s"]), "s");
  }

  lemma ReplacedThread(what: Trouble) returns (actions: seq<Action>, s: Sys)
    requires what.PublisherFails?
    ensures Reached(what, actions, s) && |s.threads| == 2
    ensures ViewOf(s, 1) == View(Thread("s", false, true, Opening), 1, ["a"], [])
  {
    actions, s := PassedOverALine(what);
    actions, s := Unwanted(what, actions, s);
    actions, s := DoStep(what, actions, s, 0, Fine);
    actions, s := DoStep(what, actions, s, 0, Fine);
    actions, s := DoStep(what, actions, s, 0, Fine);
    actions, s := WantedAgain(what, actions, s);
  }

  /** One failure of a publisher, every cursor read, log fetch and cursor write working: the line it
      was at is never published, and the session's next thread publishes the line behind it. */
  lemma APublisherFailureLosesALine()
    ensures exists actions :: Only(PublisherFails, actions)
              && LogOf(Run(actions), "s") == ["a", "b"] && PublishedOf(Run(actions), "s") == ["b"]
  {
    var what := PublisherFails;
    var actions, s := ReplacedThread(what);
    actions, s := DoWrite(what, actions, s, 1, "b");
    actions, s := DoStep(what, actions, s, 1, Fine);
    actions, s := DoStep(what, actions, s, 1, Fine);
    actions, s := DoStep(what, actions, s, 1, Fine);
    actions, s := DoStep(what, actions, s, 1, Fine);
    assert ViewOf(s, 1).log == ["a", "b"] && ViewOf(s, 1).published == ["b"];
  }

  // ---- a session that is steered ----------------------------------------------------------------

  lemma DoForget(what: Trouble, actions: seq<Action>, s: Sys, t: nat) returns (more: seq<Action>, s': Sys)
    requires Reached(what, actions, s) && what.CursorDeleted? && t < |s.threads|
    ensures Reached(what, more, s') && s'.threads == s.threads && s'.registry == s.registry
    ensures ViewOf(s', t) == ViewOf(s, t).(cursor := 0)
  {
    more, s' := Do(what, actions, s, Forget(s.threads[t].session));
  }

  /** A thread that has published its session's only line and stored its cursor. */
  lemma PublishedALine(what: Trouble) returns (actions: seq<Action>, s: Sys)
    ensures Reached(what, actions, s) && |s.threads| == 1 && s.registry == map["s" := 0]
    ensures ViewOf(s, 0) == View(Thread("s", false, true, Waiting), 1, ["a"], ["a"])
  {
    actions, s := FirstThread(what);
    actions, s := DoWrite(what, actions, s, 0, "a");
    actions, s := DoStep(what, actions, s, 0, Fine);
    actions, s := DoStep(what, actions, s, 0, Fine);
    actions, s := DoStep(what, actions, s, 0, Fine);
    assert s.threads[0].pc == Publishing(false, 0, ["a"]);
    actions, s := DoStep(what, actions, s, 0, Fine);
    actions, s := DoStep(what, actions, s, 0, Fine);
  }

  /** Steering deletes the cursor and takes the session off the roster: with nothing failing and no thread
      dying, the thread's final poll publishes the whole log again. */
  lemma SteeringRepeatsTheLog()
    ensures exists actions :: Only(CursorDeleted, actions)
              && LogOf(Run(actions), "s") == ["a"] && PublishedOf(Run(actions), "s") == ["a", "a"]
  {
    var what := CursorDeleted;
    var actions, s := PublishedALine(what);
    actions, s := DoForget(what, actions, s, 0);
    actions, s := Unwanted(what, actions, s);
    actions, s := DoStep(what, actions, s, 0, Fine);
    actions, s := DoStep(what, actions, s, 0, Fine);
    actions, s := DoStep(what, actions, s, 0, Fine);
    assert s.threads[0].pc == Publishing(true, 0, ["a"]);
    actions, s := DoStep(what, actions, s, 0, Fine);
    assert ViewOf(s, 0).published == ["a", "a"];
  }
}

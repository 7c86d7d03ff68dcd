/** Relay threads: each publishes the new lines of one session's log, from a stored line cursor. */
module Relay {
  import opened Lists

  /** Where a relay thread stands; `final` marks the one poll after its stop event. */
  datatype Pc =
    | Opening
    | Reading(final: bool)
    | Fetching(final: bool, cursor: nat)
    | Publishing(final: bool, next: nat, lines: seq<string>)
    | Waiting
    | Dead

  /** `enabled` is the thread's publisher: after its first failure it publishes nothing any more. */
  datatype Thread = Thread(session: string, stop: bool, enabled: bool, pc: Pc)

  /** How one outside call of a step ends; a late failure comes after the call has had its effect. */
  datatype Fault = Fine | Fails | FailsLate

  datatype Sys = Sys(
    threads: seq<Thread>,
    registry: map<string, nat>,
    cursors: map<string, nat>,
    logs: map<string, seq<string>>,
    published: map<string, seq<string>>)

  function CursorOf(s: Sys, id: string): nat { if id in s.cursors then s.cursors[id] else 0 }

  function LogOf(s: Sys, id: string): seq<string> { if id in s.logs then s.logs[id] else [] }

  function PublishedOf(s: Sys, id: string): seq<string> { if id in s.published then s.published[id] else [] }

  // ---- one step of a thread --------------------------------------------------------------------

  /** A poll is over: the final one ends the thread. */
  function Rest(final: bool): Pc { if final then Dead else Waiting }

  function At(s: Sys, t: nat, enabled: bool, pc: Pc): Sys
    requires t < |s.threads|
  {
    s.(threads := s.threads[t := s.threads[t].(enabled := enabled, pc := pc)])
  }

  function NextPc(s: Sys, t: nat, fault: Fault): Pc
    requires t < |s.threads|
  {
    var id := s.threads[t].session;
    match s.threads[t].pc
    case Opening => Reading(false)
    case Reading(final) => Fetching(final, if fault.Fine? then CursorOf(s, id) else 0)
    case Fetching(final, cursor) =>
      if !fault.Fine? || |LogOf(s, id)| <= cursor then Rest(final) else Publishing(final, cursor, LogOf(s, id))
    case Publishing(final, next, lines) =>
      if next < |lines| then Publishing(final, next + 1, lines) else Rest(final)
    case Waiting => Reading(s.threads[t].stop)
    case Dead => Dead
  }

  /** The publisher is used when it opens and for every line. */
  predicate Publishes(pc: Pc) { pc.Opening? || (pc.Publishing? && pc.next < |pc.lines|) }

  function NextEnabled(th: Thread, fault: Fault): bool { th.enabled && (Publishes(th.pc) ==> fault.Fine?) }

  /** The step puts its line out: the publisher is still enabled, and fails late at most. */
  predicate Sends(th: Thread, fault: Fault) {
    th.pc.Publishing? && th.pc.next < |th.pc.lines| && th.enabled && !fault.Fails?
  }

  predicate Stores(th: Thread, fault: Fault) { th.pc.Publishing? && th.pc.next >= |th.pc.lines| && !fault.Fails? }

  /** The next step of thread `t`; `fault` is how its outside call ends. A line the publisher does not
      put out is passed over all the same. */
  function Go(s: Sys, t: nat, fault: Fault): Sys
    requires t < |s.threads|
  {
    var th := s.threads[t];
    var moved := At(s, t, NextEnabled(th, fault), NextPc(s, t, fault));
    if Sends(th, fault) then
      moved.(published := s.published[th.session := PublishedOf(s, th.session) + [th.pc.lines[th.pc.next]]])
    else if Stores(th, fault) then moved.(cursors := s.cursors[th.session := |th.pc.lines|])
    else moved
  }

  /** Where one step takes a thread: the first poll follows the opening, whose failure silences the publisher for
      good; a poll reads the cursor, fetches, sends line after line and stores; the poll after the stop event is
      the last. */
  lemma AStepMoves(s: Sys, t: nat, fault: Fault)
    requires t < |s.threads|
    ensures var th, now := s.threads[t], Go(s, t, fault).threads[t];
            && now.session == th.session && now.stop == th.stop
            && match th.pc
               case Opening => now.pc == Reading(false) && (now.enabled <==> th.enabled && fault == Fine)
               case Reading(final) =>
                 now.pc == Fetching(final, if fault == Fine && th.session in s.cursors then s.cursors[th.session] else 0)
               case Fetching(final, cursor) =>
                 var log := if th.session in s.logs then s.logs[th.session] else [];
                 now.pc == if fault == Fine && cursor < |log| then Publishing(final, cursor, log)
                           else if final then Dead else Waiting
               case Publishing(final, next, lines) =>
                 if next < |lines| then
                   now.pc == Publishing(final, next + 1, lines) && (now.enabled <==> th.enabled && fault == Fine)
                 else now.pc == if final then Dead else Waiting
               case Waiting => now.pc == Reading(th.stop)
               case Dead => now.pc == Dead
  {
  }

  /** What one step publishes: the line it stands at, unless the publisher is silenced or fails early. */
  lemma AStepPublishes(s: Sys, t: nat, fault: Fault)
    requires t < |s.threads|
    ensures var th := s.threads[t];
            var sent := th.pc.Publishing? && th.pc.next < |th.pc.lines| && th.enabled && fault != Fails;
            PublishedOf(Go(s, t, fault), th.session) ==
              PublishedOf(s, th.session) + if sent then [th.pc.lines[th.pc.next]] else []
  {
    assert PublishedOf(s, s.threads[t].session) + [] == PublishedOf(s, s.threads[t].session);
  }

  /** What one step stores: behind the last line the number of lines, unless the store fails early. */
  lemma AStepStores(s: Sys, t: nat, fault: Fault)
    requires t < |s.threads|
    ensures var th := s.threads[t];
            CursorOf(Go(s, t, fault), th.session) ==
              if th.pc.Publishing? && th.pc.next >= |th.pc.lines| && fault != Fails then |th.pc.lines| else CursorOf(s, th.session)
  {
  }

  // ---- reconciliation --------------------------------------------------------------------------

  const MAX_RELAYS := 20

  predicate Alive(s: Sys, id: string) {
    id in s.registry && s.registry[id] < |s.threads| && !s.threads[s.registry[id]].pc.Dead?
  }

  /** Dead threads leave the registry. */
  function Swept(s: Sys): Sys { s.(registry := map id | id in s.registry && Alive(s, id) :: s.registry[id]) }

  /** The stop event of every registered thread whose session is no longer wanted is set. */
  function Stopped(s: Sys, wanted: seq<string>): Sys {
    s.(threads := seq(|s.threads|, t requires 0 <= t < |s.threads| => StopUnwanted(s, wanted, t)))
  }

  function StopUnwanted(s: Sys, wanted: seq<string>, t: nat): Thread
    requires t < |s.threads|
  {
    var th := s.threads[t];
    if th.session in s.registry && s.registry[th.session] == t && th.session !in wanted then th.(stop := true) else th
  }

  function StartOne(s: Sys, id: string): Sys {
    if id in s.registry then s
    else s.(registry := s.registry[id := |s.threads|], threads := s.threads + [Thread(id, false, true, Opening)])
  }

  function Started(s: Sys, wanted: seq<string>): Sys
    decreases |wanted|
  {
    if wanted == [] then s else StartOne(Started(s, wanted[..|wanted| - 1]), wanted[|wanted| - 1])
  }

  function Wanted(candidates: seq<string>): seq<string> {
    if |candidates| <= MAX_RELAYS then candidates else candidates[..MAX_RELAYS]
  }

  /** `_reconcile_relays`, under the supervisor's lock. */
  function Reconcile(s: Sys, candidates: seq<string>): Sys {
    Started(Stopped(Swept(s), Wanted(candidates)), Wanted(candidates))
  }

  // ---- what a reconciliation does, thread by thread ------------------------------------------------

  /** The session is among the first twenty candidates. */
  predicate AmongTheFirst(candidates: seq<string>, id: string) { exists i | 0 <= i < |candidates| && i < 20 :: candidates[i] == id }

  lemma WantedAreTheFirstTwenty(candidates: seq<string>)
    ensures forall id :: id in Wanted(candidates) <==> AmongTheFirst(candidates, id)
  {
    forall id ensures id in Wanted(candidates) <==> AmongTheFirst(candidates, id) {
      if id in Wanted(candidates) {
        var i :| 0 <= i < |Wanted(candidates)| && Wanted(candidates)[i] == id;
        assert candidates[i] == id;
      }
      if AmongTheFirst(candidates, id) {
        var i :| 0 <= i < |candidates| && i < 20 && candidates[i] == id;
        assert Wanted(candidates)[i] == id;
      }
    }
  }

  /** A living thread of the session stands in the table. */
  predicate HasRelay(s: Sys, id: string) { exists t | 0 <= t < |s.threads| :: s.threads[t].session == id && s.threads[t].pc != Dead }

  /** What starting the wanted sessions one after another leaves. */
  ghost predicate OnlyAdds(s: Sys, s': Sys, wanted: seq<string>) {
    && s.threads <= s'.threads && s'.cursors == s.cursors && s'.logs == s.logs && s'.published == s.published
    && (forall t :: |s.threads| <= t < |s'.threads| ==>
          s'.threads[t] == Thread(s'.threads[t].session, false, true, Opening)
          && s'.threads[t].session in wanted && s'.threads[t].session !in s.registry)
    && (forall id :: id in s'.registry <==> id in s.registry || id in wanted)
    && (forall id :: id in s.registry ==> s'.registry[id] == s.registry[id])
    && forall id :: id in wanted && id !in s.registry ==>
         |s.threads| <= s'.registry[id] < |s'.threads| && s'.threads[s'.registry[id]].session == id
  }

  lemma AddingOne(s: Sys, s1: Sys, wanted: seq<string>, id: string)
    requires OnlyAdds(s, s1, wanted)
    ensures OnlyAdds(s, StartOne(s1, id), wanted + [id])
  {
  }

  lemma {:induction false} StartingAdds(s: Sys, wanted: seq<string>)
    ensures OnlyAdds(s, Started(s, wanted), wanted)
    decreases |wanted|
  {
    if wanted != [] {
      var front := wanted[..|wanted| - 1];
      StartingAdds(s, front);
      AddingOne(s, Started(s, front), front, wanted[|wanted| - 1]);
      assert wanted == front + [wanted[|wanted| - 1]];
    }
  }

  /** A reconciliation tells exactly the living threads of unwanted sessions to stop, leaves every other thread
      as it is, and starts one fresh thread for each wanted session that had no living one. */
  lemma ReconcileStopsAndStarts(s: Sys, candidates: seq<string>)
    requires Registered(s)
    ensures var s' := Reconcile(s, candidates);
            && |s.threads| <= |s'.threads| && s'.cursors == s.cursors && s'.logs == s.logs && s'.published == s.published
            && (forall t :: 0 <= t < |s.threads| ==>
                  s'.threads[t] == if s.threads[t].pc != Dead && !AmongTheFirst(candidates, s.threads[t].session)
                                   then s.threads[t].(stop := true) else s.threads[t])
            && (forall t :: |s.threads| <= t < |s'.threads| ==>
                  s'.threads[t] == Thread(s'.threads[t].session, false, true, Opening)
                  && AmongTheFirst(candidates, s'.threads[t].session) && !HasRelay(s, s'.threads[t].session))
            && (forall id :: AmongTheFirst(candidates, id) ==> HasRelay(s', id))
  {
    var wanted := Wanted(candidates);
    var stopped := Stopped(Swept(s), wanted);
    WantedAreTheFirstTwenty(candidates);
    StartingAdds(stopped, wanted);
    var s' := Reconcile(s, candidates);
    forall id ensures id in stopped.registry <==> HasRelay(s, id) { SweptKeepsTheLiving(s, id); }
    forall id | AmongTheFirst(candidates, id) ensures HasRelay(s', id) { WantedHasRelay(s, stopped, s', wanted, id); }
  }

  lemma SweptKeepsTheLiving(s: Sys, id: string)
    requires Registered(s)
    ensures id in Swept(s).registry <==> HasRelay(s, id)
    ensures id in Swept(s).registry ==>
              var t := Swept(s).registry[id]; t < |s.threads| && s.threads[t].session == id && s.threads[t].pc != Dead
  {
  }

  /** The sessions reported as relayed are those with a living thread. */
  lemma ReportedExactlyWhen(s: Sys, id: string)
    requires Registered(s)
    ensures id in s.registry && Alive(s, id) <==> HasRelay(s, id)
  {
  }

  lemma WantedHasRelay(s: Sys, stopped: Sys, s': Sys, wanted: seq<string>, id: string)
    requires Registered(s) && stopped == Stopped(Swept(s), wanted) && OnlyAdds(stopped, s', wanted) && id in wanted
    ensures HasRelay(s', id)
  {
    SweptKeepsTheLiving(s, id);
    var t := s'.registry[id];
    if id in stopped.registry { assert s'.threads[t] == stopped.threads[t]; }
    assert s'.threads[t].session == id && s'.threads[t].pc != Dead;
  }

  // ---- runs --------------------------------------------------------------------------------------

  datatype Action =
    | Roster(candidates: seq<string>)
    | Step(thread: nat, fault: Fault)
    | Write(session: string, line: string)
    | Crash(thread: nat)
    | Forget(session: string)

  /** `Forget` is the control room deleting a session's stored cursor when it removes or steers the session. */
  function Next(s: Sys, a: Action): Sys {
    match a
    case Roster(candidates) => Reconcile(s, candidates)
    case Step(t, fault) => if t < |s.threads| then Go(s, t, fault) else s
    case Write(id, line) => s.(logs := s.logs[id := LogOf(s, id) + [line]])
    case Crash(t) => if t < |s.threads| then At(s, t, s.threads[t].enabled, Dead) else s
    case Forget(id) => s.(cursors := s.cursors - {id})
  }

  /** The steps that cost nothing, where `gone` are the sessions whose cursor was deleted: a cursor is read
      that was not deleted, or is zero anyway; a line is put out; the cursor is stored, or is there already;
      and a crash finds nothing published beyond the stored cursor. */
  ghost predicate Harmless(s: Sys, gone: set<string>, a: Action) {
    match a
    case Step(t, fault) =>
      t < |s.threads| ==>
        var th := s.threads[t];
        && (th.pc.Reading? ==> th.session !in gone && (fault.Fine? || CursorOf(s, th.session) == 0))
        && (th.pc.Publishing? ==>
              Sends(th, fault) || Stores(th, fault)
              || (th.pc.next >= |th.pc.lines| && (th.session in gone || CursorOf(s, th.session) == |th.pc.lines|)))
    case Crash(t) =>
      t < |s.threads| && s.threads[t].pc.Publishing? ==>
        s.threads[t].session in gone || s.threads[t].pc.next == CursorOf(s, s.threads[t].session)
    case _ => true
  }

  const START: Sys := Sys([], map[], map[], map[], map[])

  function Exec(s: Sys, actions: seq<Action>): Sys
    decreases |actions|
  {
    if actions == [] then s else Next(Exec(s, actions[..|actions| - 1]), actions[|actions| - 1])
  }

  function Run(actions: seq<Action>): Sys { Exec(START, actions) }

  /** The sessions whose stored cursor was deleted when it was not zero, and has not been stored since. */
  function Forgotten(actions: seq<Action>): set<string>
    decreases |actions|
  {
    if actions == [] then {}
    else
      ForgottenAfter(Run(actions[..|actions| - 1]), Forgotten(actions[..|actions| - 1]), actions[|actions| - 1])
  }

  function ForgottenAfter(s: Sys, gone: set<string>, a: Action): set<string> {
    match a
    case Forget(id) => if CursorOf(s, id) > 0 then gone + {id} else gone
    case Step(t, fault) => if t < |s.threads| && Stores(s.threads[t], fault) then gone - {s.threads[t].session} else gone
    case _ => gone
  }

  ghost predicate Faultless(actions: seq<Action>) {
    forall n: nat :: n < |actions| ==> Harmless(Run(actions[..n]), Forgotten(actions[..n]), actions[n])
  }

  // ---- invariants --------------------------------------------------------------------------------

  /** Every living thread is the one registered for its session. */
  ghost predicate Registered(s: Sys) {
    && (forall id :: id in s.registry ==> s.registry[id] < |s.threads| && s.threads[s.registry[id]].session == id)
    && forall t :: 0 <= t < |s.threads| && !s.threads[t].pc.Dead? ==>
         s.threads[t].session in s.registry && s.registry[s.threads[t].session] == t
  }

  /** What a session's stored cursor and published lines are to each other while its thread stands at `pc`
      and its cursor was deleted or not. */
  ghost predicate Fits(s: Sys, id: string, pc: Pc, deleted: bool) {
    var done, cursor := |PublishedOf(s, id)|, CursorOf(s, id);
    && (deleted ==> cursor == 0)
    && match pc
       case Fetching(_, from) => from == done && (!deleted ==> cursor == done)
       case Publishing(_, next, lines) => next == done && next <= |lines| && lines <= LogOf(s, id) && cursor <= done
       case _ => !deleted ==> cursor == done
  }

  function PcOf(s: Sys, id: string): Pc {
    if id in s.registry && s.registry[id] < |s.threads| then s.threads[s.registry[id]].pc else Dead
  }

  ghost predicate OnceEach(s: Sys, gone: set<string>) {
    forall id :: PublishedOf(s, id) <= LogOf(s, id) && Fits(s, id, PcOf(s, id), id in gone)
  }

  lemma SweepKeeps(s: Sys, gone: set<string>)
    requires Registered(s)
    ensures Registered(Swept(s))
    ensures OnceEach(s, gone) ==> OnceEach(Swept(s), gone)
  {
    var s' := Swept(s);
    if OnceEach(s, gone) {
      forall id ensures PublishedOf(s', id) <= LogOf(s', id) && Fits(s', id, PcOf(s', id), id in gone) {
        assert Fits(s, id, PcOf(s, id), id in gone);
      }
    }
  }

  lemma StopKeeps(s: Sys, wanted: seq<string>, gone: set<string>)
    requires Registered(s)
    ensures Registered(Stopped(s, wanted))
    ensures OnceEach(s, gone) ==> OnceEach(Stopped(s, wanted), gone)
  {
    var s' := Stopped(s, wanted);
    assert forall t :: 0 <= t < |s.threads| ==> s'.threads[t].pc == s.threads[t].pc && s'.threads[t].session == s.threads[t].session;
    if OnceEach(s, gone) {
      forall id ensures PublishedOf(s', id) <= LogOf(s', id) && Fits(s', id, PcOf(s', id), id in gone) {
        assert Fits(s, id, PcOf(s, id), id in gone);
        assert PcOf(s', id) == PcOf(s, id);
      }
    }
  }

  lemma StartOneKeeps(s: Sys, id: string, gone: set<string>)
    requires Registered(s)
    ensures Registered(StartOne(s, id))
    ensures OnceEach(s, gone) ==> OnceEach(StartOne(s, id), gone)
  {
    var s' := StartOne(s, id);
    if OnceEach(s, gone) {
      forall j ensures PublishedOf(s', j) <= LogOf(s', j) && Fits(s', j, PcOf(s', j), j in gone) {
        assert Fits(s, j, PcOf(s, j), j in gone);
      }
    }
  }

  lemma {:induction false} StartKeeps(s: Sys, wanted: seq<string>, gone: set<string>)
    requires Registered(s)
    ensures Registered(Started(s, wanted))
    ensures OnceEach(s, gone) ==> OnceEach(Started(s, wanted), gone)
    decreases |wanted|
  {
    if wanted != [] {
      StartKeeps(s, wanted[..|wanted| - 1], gone);
      StartOneKeeps(Started(s, wanted[..|wanted| - 1]), wanted[|wanted| - 1], gone);
    }
  }

  lemma ReconcileKeeps(s: Sys, candidates: seq<string>, gone: set<string>)
    requires Registered(s)
    ensures Registered(Reconcile(s, candidates))
    ensures OnceEach(s, gone) ==> OnceEach(Reconcile(s, candidates), gone)
  {
    var wanted := Wanted(candidates);
    SweepKeeps(s, gone);
    StopKeeps(Swept(s), wanted, gone);
    StartKeeps(Stopped(Swept(s), wanted), wanted, gone);
  }

  /** A thread that is alive now and moves on stays the registered one. */
  lemma MovingOnKeepsTheRegistry(s: Sys, t: nat, enabled: bool, pc: Pc)
    requires Registered(s) && t < |s.threads| && (pc.Dead? || !s.threads[t].pc.Dead?)
    ensures Registered(At(s, t, enabled, pc))
  {
    var s' := At(s, t, enabled, pc);
    forall u | 0 <= u < |s'.threads| && !s'.threads[u].pc.Dead?
      ensures s'.threads[u].session in s'.registry && s'.registry[s'.threads[u].session] == u
    {
      assert !s.threads[u].pc.Dead?;
    }
  }

  lemma GoMovesTheThread(s: Sys, t: nat, fault: Fault)
    requires t < |s.threads|
    ensures var s' := Go(s, t, fault);
            && s'.threads == s.threads[t := s.threads[t].(enabled := NextEnabled(s.threads[t], fault), pc := NextPc(s, t, fault))]
            && s'.threads[t].pc == NextPc(s, t, fault)
            && s'.registry == s.registry && s'.logs == s.logs
  {
  }

  lemma DeadStaysDead(s: Sys, t: nat, fault: Fault)
    requires t < |s.threads| && s.threads[t].pc.Dead?
    ensures Go(s, t, fault) == s
  {
    assert s.threads[t := s.threads[t].(enabled := s.threads[t].enabled, pc := Dead)] == s.threads;
  }

  lemma NextKeepsTheRegistry(s: Sys, a: Action)
    requires Registered(s)
    ensures Registered(Next(s, a))
  {
    match a
    case Roster(candidates) => ReconcileKeeps(s, candidates, {});
    case Step(t, fault) =>
      if t >= |s.threads| {
      } else if s.threads[t].pc.Dead? {
        DeadStaysDead(s, t, fault);
      } else {
        GoMovesTheThread(s, t, fault);
        MovingOnKeepsTheRegistry(s, t, NextEnabled(s.threads[t], fault), NextPc(s, t, fault));
      }
    case Write(_, _) =>
    case Crash(t) => if t < |s.threads| { MovingOnKeepsTheRegistry(s, t, s.threads[t].enabled, Dead); }
    case Forget(_) =>
  }

  /** What holds of a session while its thread stands at `pc`. */
  ghost predicate InStep(s: Sys, id: string, pc: Pc, deleted: bool) {
    PublishedOf(s, id) <= LogOf(s, id) && Fits(s, id, pc, deleted)
  }

  lemma PublishFits(s: Sys, gone: set<string>, t: nat, fault: Fault)
    requires t < |s.threads| && s.threads[t].pc.Publishing? && Harmless(s, gone, Step(t, fault))
    requires InStep(s, s.threads[t].session, s.threads[t].pc, s.threads[t].session in gone)
    ensures var id := s.threads[t].session;
            InStep(Go(s, t, fault), id, Go(s, t, fault).threads[t].pc, id in ForgottenAfter(s, gone, Step(t, fault)))
  {
    var id := s.threads[t].session;
    var lines, next := s.threads[t].pc.lines, s.threads[t].pc.next;
    var s' := Go(s, t, fault);
    if next < |lines| {
      assert lines[next] == LogOf(s, id)[next];
      TakeOneMore(LogOf(s, id), next);
      assert PublishedOf(s', id) == LogOf(s, id)[..next + 1];
    } else if id !in gone {
      assert CursorOf(s', id) == next;
    }
  }

  lemma GoFits(s: Sys, gone: set<string>, t: nat, fault: Fault)
    requires t < |s.threads| && !s.threads[t].pc.Dead? && Harmless(s, gone, Step(t, fault))
    requires InStep(s, s.threads[t].session, s.threads[t].pc, s.threads[t].session in gone)
    ensures var id := s.threads[t].session;
            InStep(Go(s, t, fault), id, Go(s, t, fault).threads[t].pc, id in ForgottenAfter(s, gone, Step(t, fault)))
  {
    if s.threads[t].pc.Publishing? { PublishFits(s, gone, t, fault); }
  }

  lemma GoLeavesOthers(s: Sys, t: nat, fault: Fault, id: string)
    requires t < |s.threads| && id != s.threads[t].session
    ensures var s' := Go(s, t, fault);
            PublishedOf(s', id) == PublishedOf(s, id) && CursorOf(s', id) == CursorOf(s, id)
  {
  }

  lemma GoKeepsOnceEach(s: Sys, gone: set<string>, t: nat, fault: Fault)
    requires Registered(s) && OnceEach(s, gone) && t < |s.threads| && Harmless(s, gone, Step(t, fault))
    ensures OnceEach(Go(s, t, fault), ForgottenAfter(s, gone, Step(t, fault)))
  {
    var me := s.threads[t].session;
    if s.threads[t].pc.Dead? {
      DeadStaysDead(s, t, fault);
    } else {
      var s' := Go(s, t, fault);
      var gone' := ForgottenAfter(s, gone, Step(t, fault));
      assert PcOf(s, me) == s.threads[t].pc;
      GoMovesTheThread(s, t, fault);
      GoFits(s, gone, t, fault);
      forall id ensures PublishedOf(s', id) <= LogOf(s', id) && Fits(s', id, PcOf(s', id), id in gone') {
        assert PublishedOf(s, id) <= LogOf(s, id) && Fits(s, id, PcOf(s, id), id in gone);
        if id != me {
          GoLeavesOthers(s, t, fault, id);
          assert PcOf(s', id) == PcOf(s, id);
        }
      }
    }
  }

  lemma CrashKeepsOnceEach(s: Sys, gone: set<string>, t: nat)
    requires Registered(s) && OnceEach(s, gone) && t < |s.threads| && Harmless(s, gone, Crash(t))
    ensures OnceEach(At(s, t, s.threads[t].enabled, Dead), gone)
  {
    var s' := At(s, t, s.threads[t].enabled, Dead);
    forall id ensures PublishedOf(s', id) <= LogOf(s', id) && Fits(s', id, PcOf(s', id), id in gone) {
      assert PublishedOf(s, id) <= LogOf(s, id) && Fits(s, id, PcOf(s, id), id in gone);
    }
  }

  lemma WriteKeepsOnceEach(s: Sys, gone: set<string>, session: string, line: string)
    requires OnceEach(s, gone)
    ensures OnceEach(Next(s, Write(session, line)), gone)
  {
    var s' := Next(s, Write(session, line));
    forall id ensures PublishedOf(s', id) <= LogOf(s', id) && Fits(s', id, PcOf(s', id), id in gone) {
      assert PublishedOf(s, id) <= LogOf(s, id) && Fits(s, id, PcOf(s, id), id in gone);
      assert LogOf(s, id) <= LogOf(s', id);
    }
  }

  lemma ForgetKeepsOnceEach(s: Sys, gone: set<string>, session: string)
    requires OnceEach(s, gone)
    ensures OnceEach(Next(s, Forget(session)), ForgottenAfter(s, gone, Forget(session)))
  {
    var s' := Next(s, Forget(session));
    var gone' := ForgottenAfter(s, gone, Forget(session));
    forall id ensures PublishedOf(s', id) <= LogOf(s', id) && Fits(s', id, PcOf(s', id), id in gone') {
      assert PublishedOf(s, id) <= LogOf(s, id) && Fits(s, id, PcOf(s, id), id in gone);
      assert PcOf(s', id) == PcOf(s, id) && PublishedOf(s', id) == PublishedOf(s, id);
      assert CursorOf(s', id) == if id == session then 0 else CursorOf(s, id);
    }
  }

  // ---- every run -----------------------------------------------------------------------------------

  lemma {:induction false} RunIsRegistered(actions: seq<Action>)
    ensures Registered(Run(actions))
    decreases |actions|
  {
    if actions != [] {
      RunIsRegistered(actions[..|actions| - 1]);
      NextKeepsTheRegistry(Run(actions[..|actions| - 1]), actions[|actions| - 1]);
    }
  }

  /** Whatever fails and crashes, two living threads never relay the same session. */
  lemma AtMostOneLivingRelayPerSession(actions: seq<Action>, t: nat, u: nat)
    requires t < |Run(actions).threads| && u < |Run(actions).threads|
    requires !Run(actions).threads[t].pc.Dead? && !Run(actions).threads[u].pc.Dead?
    requires Run(actions).threads[t].session == Run(actions).threads[u].session
    ensures t == u
  {
    RunIsRegistered(actions);
  }

  lemma NextKeepsOnceEach(s: Sys, gone: set<string>, a: Action)
    requires Registered(s) && OnceEach(s, gone) && Harmless(s, gone, a)
    ensures OnceEach(Next(s, a), ForgottenAfter(s, gone, a))
  {
    match a
    case Roster(candidates) => ReconcileKeeps(s, candidates, gone);
    case Step(t, fault) => if t < |s.threads| { GoKeepsOnceEach(s, gone, t, fault); }
    case Write(id, line) => WriteKeepsOnceEach(s, gone, id, line);
    case Crash(t) => if t < |s.threads| { CrashKeepsOnceEach(s, gone, t); }
    case Forget(id) => ForgetKeepsOnceEach(s, gone, id);
  }

  lemma {:induction false} RunPublishesOnceEach(actions: seq<Action>)
    requires Faultless(actions)
    ensures OnceEach(Run(actions), Forgotten(actions))
    decreases |actions|
  {
    if actions != [] {
      var before, last := actions[..|actions| - 1], actions[|actions| - 1];
      forall n: nat | n < |before| ensures Harmless(Run(before[..n]), Forgotten(before[..n]), before[n]) {
        assert before[..n] == actions[..n];
      }
      RunPublishesOnceEach(before);
      RunIsRegistered(before);
      assert Harmless(Run(before), Forgotten(before), last);
      NextKeepsOnceEach(Run(before), Forgotten(before), last);
    }
  }

  /** Over all the threads a session ever has, its published lines are its log's first lines, each once and in order. */
  lemma PublishedLinesAreAPrefixOfTheLog(actions: seq<Action>, id: string)
    requires Faultless(actions)
    ensures PublishedOf(Run(actions), id) <= LogOf(Run(actions), id)
  {
    RunPublishesOnceEach(actions);
  }

  // ---- one poll ------------------------------------------------------------------------------------

  /** What becomes of the publisher in a poll: it lasts, or fails at the k-th line of the poll, before
      or after that line is out. */
  datatype Sending = Lasts | FailsAt(line: nat, late: bool)

  /** How many of a poll's `n` new lines get out. */
  function Through(n: nat, enabled: bool, sending: Sending): (k: nat)
    ensures k <= n
  {
    if !enabled then 0
    else match sending
      case Lasts => n
      case FailsAt(line, late) => if line >= n then n else if late then line + 1 else line
  }

  predicate StillEnabled(n: nat, enabled: bool, sending: Sending) {
    enabled && (sending.FailsAt? ==> sending.line >= n)
  }

  /** What a poll leaves: the number it returns, the stored cursor, all lines published so far, and
      whether its publisher still publishes. */
  datatype Poll = Poll(count: nat, cursor: nat, published: seq<string>, enabled: bool)

  /** `_relay_once` on one session. */
  function PollOnce(cursor: nat, published: seq<string>, log: seq<string>, enabled: bool,
                    readOk: bool, fetchOk: bool, sending: Sending, writeOk: bool): Poll
  {
    var start := if readOk then cursor else 0;
    if !fetchOk || |log| <= start then Poll(0, cursor, published, enabled)
    else
      var n := |log| - start;
      Poll(n, if writeOk then |log| else cursor, published + log[start..start + Through(n, enabled, sending)],
           StillEnabled(n, enabled, sending))
  }

  /** Line `j` of the poll gets out: the publisher was enabled, did not fail at an earlier line of the poll, and
      if it fails at this one, it fails late. */
  predicate GetsOut(j: nat, enabled: bool, sending: Sending) {
    enabled && (sending == Lasts || j < sending.line || (j == sending.line && sending.late))
  }

  /** What a poll does, in terms of what it reads and of which calls work. */
  lemma PollDoes(cursor: nat, published: seq<string>, log: seq<string>, enabled: bool,
                 readOk: bool, fetchOk: bool, sending: Sending, writeOk: bool)
    ensures var start := if readOk then cursor else 0;
            var poll := PollOnce(cursor, published, log, enabled, readOk, fetchOk, sending, writeOk);
            if fetchOk && start < |log| then
              && poll.count == |log| - start
              && poll.cursor == (if writeOk then |log| else cursor)
              && published <= poll.published
              && (exists k: nat :: SentLines(poll.published[|published|..], log, start, k, enabled, sending))
              && (poll.enabled <==> enabled && (sending == Lasts || sending.line >= |log| - start))
            else poll == Poll(0, cursor, published, enabled)
  {
    var start := if readOk then cursor else 0;
    if fetchOk && start < |log| {
      var k := Through(|log| - start, enabled, sending);
      var poll := PollOnce(cursor, published, log, enabled, readOk, fetchOk, sending, writeOk);
      assert poll.published[|published|..] == log[start..start + k];
      assert SentLines(poll.published[|published|..], log, start, k, enabled, sending);
    }
  }

  /** The lines sent are the `k` lines behind `start`, and these are exactly the ones that get out. */
  ghost predicate SentLines(sent: seq<string>, log: seq<string>, start: nat, k: nat, enabled: bool, sending: Sending) {
    && start + k <= |log| && sent == log[start..start + k]
    && forall j: nat :: j < |log| - start ==> (j < k <==> GetsOut(j, enabled, sending))
  }

  /** The lines a poll puts out come next in the log, and the next poll starts behind them. */
  ghost predicate InPlace(after: Poll, log: seq<string>) { after.published <= log && after.cursor == |after.published| }

  /** Whatever the lines are, a poll leaves publisher and cursor in place exactly when it finds nothing
      new, or puts all new lines out from the right one and stores the cursor, or puts nothing out and
      leaves the cursor where it was. */
  lemma PollIsExactExactlyWhen(cursor: nat, length: nat, enabled: bool, readOk: bool, fetchOk: bool, sending: Sending, writeOk: bool)
    requires cursor <= length
    ensures var start := if readOk then cursor else 0;
            var n := if length <= start then 0 else length - start;
            var k := Through(n, enabled, sending);
            (forall log: seq<string> | |log| == length ::
               InPlace(PollOnce(cursor, log[..cursor], log, enabled, readOk, fetchOk, sending, writeOk), log))
            <==>
            || !fetchOk || n == 0
            || (start == cursor && k == n && writeOk)
            || (k == 0 && (!writeOk || cursor == length))
  {
    var start := if readOk then cursor else 0;
    var n := if length <= start then 0 else length - start;
    var k := Through(n, enabled, sending);
    if fetchOk && n > 0 {
      var marked: seq<string> := seq(length, i => if i == 0 then "a" else "b");
      if start != cursor && k > 0 {
        var after := PollOnce(cursor, marked[..cursor], marked, enabled, readOk, fetchOk, sending, writeOk);
        assert after.published[cursor] == marked[0];
        assert !InPlace(after, marked);
      } else if start == cursor {
        ExactFromTheCursor(cursor, length, enabled, readOk, sending, writeOk);
      } else {
        NothingOut(cursor, length, enabled, readOk, sending, writeOk);
      }
    }
  }

  /** A poll that reads a deleted cursor, when lines have been published, keeps them the log's first lines,
      whatever the lines are, exactly when nothing is fetched or nothing goes out. */
  lemma ADeletedCursorRepeatsExactlyWhen(done: nat, length: nat, enabled: bool, fetchOk: bool, sending: Sending, writeOk: bool)
    requires 0 < done <= length
    ensures (forall log: seq<string> | |log| == length ::
               PollOnce(0, log[..done], log, enabled, true, fetchOk, sending, writeOk).published <= log)
            <==> !fetchOk || Through(length, enabled, sending) == 0
  {
    var k := Through(length, enabled, sending);
    if fetchOk && k > 0 {
      var marked: seq<string> := seq(length, i => if i == 0 then "a" else "b");
      var after := PollOnce(0, marked[..done], marked, enabled, true, fetchOk, sending, writeOk);
      assert after.published == marked[..done] + marked[0..k];
      assert after.published[done] == "a";
      assert !(after.published <= marked);
    } else if fetchOk {
      forall log: seq<string> | |log| == length ensures log[..done] + log[0..0] == log[..done] {
      }
    }
  }

  lemma ExactFromTheCursor(cursor: nat, length: nat, enabled: bool, readOk: bool, sending: Sending, writeOk: bool)
    requires cursor < length && (readOk || cursor == 0)
    ensures var k := Through(length - cursor, enabled, sending);
            forall log: seq<string> | |log| == length ::
              InPlace(PollOnce(cursor, log[..cursor], log, enabled, readOk, true, sending, writeOk), log)
              <==> if writeOk then k == length - cursor else k == 0
  {
    var k := Through(length - cursor, enabled, sending);
    forall log: seq<string> | |log| == length
      ensures log[..cursor] + log[cursor..cursor + k] == log[..cursor + k]
    {
    }
  }

  lemma NothingOut(cursor: nat, length: nat, enabled: bool, readOk: bool, sending: Sending, writeOk: bool)
    requires 0 < cursor <= length && !readOk && Through(length, enabled, sending) == 0
    ensures forall log: seq<string> | |log| == length ::
              InPlace(PollOnce(cursor, log[..cursor], log, enabled, readOk, true, sending, writeOk), log)
              <==> !writeOk || cursor == length
  {
    forall log: seq<string> | |log| == length ensures log[..cursor] + log[0..0] == log[..cursor] {
    }
  }

  /** How the publisher's call for the first of the remaining lines ends. */
  function FirstFault(sending: Sending): Fault {
    if sending == FailsAt(0, false) then Fails else if sending == FailsAt(0, true) then FailsLate else Fine
  }

  function Later(sending: Sending): Sending {
    match sending
    case Lasts => Lasts
    case FailsAt(line, late) => if line == 0 then FailsAt(0, late) else FailsAt(line - 1, late)
  }

  /** How the rest of a poll's lines fare once the first of them is dealt with. */
  lemma OneLineLess(n: nat, enabled: bool, sending: Sending)
    requires n > 0
    ensures var on := enabled && FirstFault(sending).Fine?;
            && Through(n, enabled, sending) ==
                 Through(n - 1, on, Later(sending)) + (if Through(n, enabled, sending) > 0 then 1 else 0)
            && StillEnabled(n, enabled, sending) == StillEnabled(n - 1, on, Later(sending))
            && (Through(n, enabled, sending) > 0 <==> enabled && !FirstFault(sending).Fails?)
  {
  }

  lemma PublishOne(s: Sys, t: nat, sending: Sending)
    requires t < |s.threads| && s.threads[t].pc.Publishing? && s.threads[t].pc.next < |s.threads[t].pc.lines|
    ensures var th := s.threads[t];
            var pc := th.pc;
            var s' := Go(s, t, FirstFault(sending));
            && s'.threads == s.threads[t := th.(enabled := th.enabled && FirstFault(sending).Fine?, pc := pc.(next := pc.next + 1))]
            && CursorOf(s', th.session) == CursorOf(s, th.session)
            && PublishedOf(s', th.session) ==
                 PublishedOf(s, th.session) + (if th.enabled && !FirstFault(sending).Fails? then [pc.lines[pc.next]] else [])
  {
    assert PublishedOf(s, s.threads[t].session) + [] == PublishedOf(s, s.threads[t].session);
  }

  /** From `s`, thread `t` has passed over the rest of its lines. */
  ghost predicate PassedOver(s: Sys, s': Sys, t: nat, sending: Sending, writeOk: bool)
    requires t < |s.threads| && s.threads[t].pc.Publishing? && s.threads[t].pc.next <= |s.threads[t].pc.lines|
  {
    ThreadRests(s, s', t, sending) && LinesOut(s, s', t, sending) && CursorLeft(s, s', t, writeOk)
  }

  ghost predicate ThreadRests(s: Sys, s': Sys, t: nat, sending: Sending)
    requires t < |s.threads| && s.threads[t].pc.Publishing? && s.threads[t].pc.next <= |s.threads[t].pc.lines|
  {
    var th := s.threads[t];
    var on := StillEnabled(|th.pc.lines| - th.pc.next, th.enabled, sending);
    s'.threads == s.threads[t := th.(enabled := on, pc := Rest(th.pc.final))]
  }

  ghost predicate LinesOut(s: Sys, s': Sys, t: nat, sending: Sending)
    requires t < |s.threads| && s.threads[t].pc.Publishing? && s.threads[t].pc.next <= |s.threads[t].pc.lines|
  {
    var th := s.threads[t];
    var pc := th.pc;
    PublishedOf(s', th.session) ==
      PublishedOf(s, th.session) + pc.lines[pc.next..pc.next + Through(|pc.lines| - pc.next, th.enabled, sending)]
  }

  ghost predicate CursorLeft(s: Sys, s': Sys, t: nat, writeOk: bool)
    requires t < |s.threads| && s.threads[t].pc.Publishing?
  {
    CursorOf(s', s.threads[t].session) == if writeOk then |s.threads[t].pc.lines| else CursorOf(s, s.threads[t].session)
  }

  /** The lines out after the first step and the rest are the lines out. */
  lemma SentInTwo(s: Sys, s1: Sys, s': Sys, t: nat, n: nat, k: nat)
    requires t < |s.threads| && s.threads[t].pc.Publishing? && n > 0 && k <= n
    requires var pc := s.threads[t].pc; pc.next + n == |pc.lines|
    requires var id, pc := s.threads[t].session, s.threads[t].pc;
             && PublishedOf(s1, id) == PublishedOf(s, id) + (if k > 0 then [pc.lines[pc.next]] else [])
             && PublishedOf(s', id) == PublishedOf(s1, id) + pc.lines[pc.next + 1..pc.next + 1 + (if k > 0 then k - 1 else 0)]
    ensures var id, pc := s.threads[t].session, s.threads[t].pc;
            PublishedOf(s', id) == PublishedOf(s, id) + pc.lines[pc.next..pc.next + k]
  {
    var id, pc := s.threads[t].session, s.threads[t].pc;
    SentSplits(PublishedOf(s, id), pc.lines, pc.next, k);
  }

  /** The state after the first of the remaining lines. */
  ghost predicate OneLineOn(s: Sys, s1: Sys, t: nat, sending: Sending) {
    && t < |s.threads| && s.threads[t].pc.Publishing? && s.threads[t].pc.next < |s.threads[t].pc.lines|
    && s1 == Go(s, t, FirstFault(sending))
    && t < |s1.threads| && s1.threads[t].pc == s.threads[t].pc.(next := s.threads[t].pc.next + 1)
  }

  lemma ThreadRestsOneMore(s: Sys, s1: Sys, s': Sys, t: nat, sending: Sending)
    requires OneLineOn(s, s1, t, sending) && ThreadRests(s1, s', t, Later(sending))
    ensures ThreadRests(s, s', t, sending)
  {
    var th := s.threads[t];
    PublishOne(s, t, sending);
    OneLineLess(|th.pc.lines| - th.pc.next, th.enabled, sending);
  }

  lemma LinesOutOneMore(s: Sys, s1: Sys, s': Sys, t: nat, sending: Sending)
    requires OneLineOn(s, s1, t, sending) && LinesOut(s1, s', t, Later(sending))
    ensures LinesOut(s, s', t, sending)
  {
    var th := s.threads[t];
    var n := |th.pc.lines| - th.pc.next;
    PublishOne(s, t, sending);
    OneLineLess(n, th.enabled, sending);
    assert s1.threads[t].session == th.session;
    SentInTwo(s, s1, s', t, n, Through(n, th.enabled, sending));
  }

  lemma PassedOverOneMore(s: Sys, s1: Sys, s': Sys, t: nat, sending: Sending, writeOk: bool)
    requires OneLineOn(s, s1, t, sending) && PassedOver(s1, s', t, Later(sending), writeOk)
    ensures PassedOver(s, s', t, sending, writeOk)
  {
    ThreadRestsOneMore(s, s1, s', t, sending);
    LinesOutOneMore(s, s1, s', t, sending);
    PublishOne(s, t, sending);
  }

  function FaultIf(ok: bool): Fault { if ok then Fine else Fails }

  lemma NothingLeftToPass(s: Sys, t: nat, sending: Sending, writeOk: bool)
    requires t < |s.threads| && s.threads[t].pc.Publishing? && s.threads[t].pc.next == |s.threads[t].pc.lines|
    ensures PassedOver(s, Go(s, t, FaultIf(writeOk)), t, sending, writeOk)
  {
    var id, pc := s.threads[t].session, s.threads[t].pc;
    assert PublishedOf(s, id) + pc.lines[pc.next..pc.next] == PublishedOf(s, id);
  }

  /** Thread `t` passes over the rest of its lines when nothing else moves. */
  lemma {:induction false} PublishingEnds(s: Sys, t: nat, sending: Sending, writeOk: bool)
    returns (actions: seq<Action>, s': Sys)
    requires t < |s.threads| && s.threads[t].pc.Publishing? && s.threads[t].pc.next <= |s.threads[t].pc.lines|
    ensures s' == Exec(s, actions) && PassedOver(s, s', t, sending, writeOk)
    decreases |s.threads[t].pc.lines| - s.threads[t].pc.next
  {
    var pc := s.threads[t].pc;
    if pc.next == |pc.lines| {
      actions, s' := OneAction(s, Step(t, FaultIf(writeOk)));
      NothingLeftToPass(s, t, sending, writeOk);
    } else {
      var s1 := Go(s, t, FirstFault(sending));
      assert s1.threads[t].pc == pc.(next := pc.next + 1);
      actions, s' := PublishingEnds(s1, t, Later(sending), writeOk);
      PassedOverOneMore(s, s1, s', t, sending, writeOk);
      ExecAfter(s, Step(t, FirstFault(sending)), actions);
      actions := [Step(t, FirstFault(sending))] + actions;
    }
  }

  lemma OneAction(s: Sys, a: Action) returns (actions: seq<Action>, s': Sys)
    ensures s' == Exec(s, actions) == Next(s, a)
  {
    ExecOne(s, a);
    actions, s' := [a], Next(s, a);
  }

  lemma SentSplits(published: seq<string>, lines: seq<string>, next: nat, k: nat)
    requires next < |lines| && next + k <= |lines|
    ensures k > 0 ==> (published + [lines[next]]) + lines[next + 1..next + k] == published + lines[next..next + k]
    ensures k == 0 ==> (published + []) + lines[next + 1..next + 1] == published + lines[next..next]
  {
  }

  lemma ExecOne(s: Sys, a: Action)
    ensures Exec(s, [a]) == Next(s, a)
  {
    assert [a][..0] == [];
  }

  lemma {:induction false} ExecAfter(s: Sys, a: Action, more: seq<Action>)
    ensures Exec(s, [a] + more) == Exec(Next(s, a), more)
    decreases |more|
  {
    if more == [] {
      assert [a] + more == [a];
      ExecOne(s, a);
    } else {
      var front := more[..|more| - 1];
      ExecAfter(s, a, front);
      assert ([a] + more)[..|[a] + more| - 1] == [a] + front;
    }
  }

  /** The two reads of a poll. */
  lemma PollReads(s: Sys, t: nat, readOk: bool, fetchOk: bool)
    requires t < |s.threads| && s.threads[t].pc.Reading?
    ensures var th := s.threads[t];
            var start := if readOk then CursorOf(s, th.session) else 0;
            Go(Go(s, t, FaultIf(readOk)), t, FaultIf(fetchOk)) ==
            At(s, t, th.enabled, if !fetchOk || |LogOf(s, th.session)| <= start then Rest(th.pc.final)
                                 else Publishing(th.pc.final, start, LogOf(s, th.session)))
  {
  }

  /** How the first `i + 1` lines of a poll fare after the first `i`. */
  lemma OneLineMore(i: nat, enabled: bool, sending: Sending)
    ensures StillEnabled(i + 1, enabled, sending) == (StillEnabled(i, enabled, sending) && !(sending.FailsAt? && sending.line == i))
    ensures StillEnabled(i, enabled, sending) ==> Through(i, enabled, sending) == i
    ensures Through(i + 1, enabled, sending) ==
            Through(i, enabled, sending)
            + if StillEnabled(i, enabled, sending) && sending != FailsAt(i, false) then 1 else 0
  {
  }

  /** One poll of thread `t` leads from `s` to `s'` and returns `count`. */
  ghost predicate Polled(s: Sys, s': Sys, t: nat, count: nat, readOk: bool, fetchOk: bool, sending: Sending, writeOk: bool)
    requires t < |s.threads|
  {
    var th := s.threads[t];
    var id := th.session;
    && Poll(count, CursorOf(s', id), PublishedOf(s', id), t < |s'.threads| && s'.threads[t].enabled)
       == PollOnce(CursorOf(s, id), PublishedOf(s, id), LogOf(s, id), th.enabled, readOk, fetchOk, sending, writeOk)
    && (t < |s'.threads| && s'.threads == s.threads[t := th.(enabled := s'.threads[t].enabled)])
    && forall other :: other != id ==>
         CursorOf(s', other) == CursorOf(s, other) && PublishedOf(s', other) == PublishedOf(s, other)
  }

  lemma RestedIsPolled(s: Sys, s': Sys, t: nat, pc: Pc, sending: Sending)
    requires t < |s.threads| && pc.Publishing? && pc.next <= |pc.lines|
    requires ThreadRests(At(s, t, s.threads[t].enabled, pc), s', t, sending)
    ensures var th := s.threads[t];
            var on := StillEnabled(|pc.lines| - pc.next, th.enabled, sending);
            s'.threads == s.threads[t := th.(enabled := on, pc := Rest(pc.final))]
  {
  }

  lemma OutIsPolled(s: Sys, s': Sys, t: nat, pc: Pc, sending: Sending, writeOk: bool)
    requires t < |s.threads| && pc.Publishing? && pc.next <= |pc.lines|
    requires LinesOut(At(s, t, s.threads[t].enabled, pc), s', t, sending)
    requires CursorLeft(At(s, t, s.threads[t].enabled, pc), s', t, writeOk)
    ensures var th := s.threads[t];
            && PublishedOf(s', th.session) ==
                 PublishedOf(s, th.session) + pc.lines[pc.next..pc.next + Through(|pc.lines| - pc.next, th.enabled, sending)]
            && CursorOf(s', th.session) == if writeOk then |pc.lines| else CursorOf(s, th.session)
  {
  }

  lemma PollOfNewLines(cursor: nat, published: seq<string>, log: seq<string>, enabled: bool, start: nat,
                       readOk: bool, sending: Sending, writeOk: bool)
    requires start == (if readOk then cursor else 0) && start < |log|
    ensures var n := |log| - start;
            PollOnce(cursor, published, log, enabled, readOk, true, sending, writeOk) ==
            Poll(n, if writeOk then |log| else cursor, published + log[start..start + Through(n, enabled, sending)],
                 StillEnabled(n, enabled, sending))
  {
  }

  lemma PolledFromParts(s: Sys, s': Sys, t: nat, pc: Pc, readOk: bool, sending: Sending, writeOk: bool)
    requires t < |s.threads| && s.threads[t].pc.Reading? && pc.Publishing? && pc.next < |pc.lines|
    requires var th := s.threads[t];
             var n := |pc.lines| - pc.next;
             && pc == Publishing(th.pc.final, if readOk then CursorOf(s, th.session) else 0, LogOf(s, th.session))
             && s'.threads == s.threads[t := th.(enabled := StillEnabled(n, th.enabled, sending), pc := Rest(pc.final))]
             && PublishedOf(s', th.session) ==
                  PublishedOf(s, th.session) + pc.lines[pc.next..pc.next + Through(n, th.enabled, sending)]
             && CursorOf(s', th.session) == if writeOk then |pc.lines| else CursorOf(s, th.session)
    ensures OneSessionPolled(s, s', t, readOk, true, sending, writeOk)
  {
    var th := s.threads[t];
    PollOfNewLines(CursorOf(s, th.session), PublishedOf(s, th.session), pc.lines, th.enabled, pc.next, readOk, sending, writeOk);
  }

  lemma PassedOverIsPolled(s: Sys, s': Sys, t: nat, pc: Pc, readOk: bool, sending: Sending, writeOk: bool)
    requires t < |s.threads| && s.threads[t].pc.Reading?
    requires var th := s.threads[t];
             && pc == Publishing(th.pc.final, if readOk then CursorOf(s, th.session) else 0, LogOf(s, th.session))
             && pc.next < |pc.lines| && PassedOver(At(s, t, th.enabled, pc), s', t, sending, writeOk)
    ensures OneSessionPolled(s, s', t, readOk, true, sending, writeOk)
  {
    RestedIsPolled(s, s', t, pc, sending);
    OutIsPolled(s, s', t, pc, sending, writeOk);
    PolledFromParts(s, s', t, pc, readOk, sending, writeOk);
  }

  ghost predicate OneSessionPolled(s: Sys, s': Sys, t: nat, readOk: bool, fetchOk: bool, sending: Sending, writeOk: bool)
    requires t < |s.threads| && s.threads[t].pc.Reading?
  {
    var th := s.threads[t];
    var id := th.session;
    var poll := PollOnce(CursorOf(s, id), PublishedOf(s, id), LogOf(s, id), th.enabled, readOk, fetchOk, sending, writeOk);
    && s'.threads == s.threads[t := th.(enabled := poll.enabled, pc := Rest(th.pc.final))]
    && CursorOf(s', id) == poll.cursor && PublishedOf(s', id) == poll.published
  }

  /** A poll whose steps nothing interrupts is `PollOnce`. */
  lemma UninterruptedPollIsPollOnce(s: Sys, t: nat, readOk: bool, fetchOk: bool, sending: Sending, writeOk: bool)
    returns (actions: seq<Action>, s': Sys)
    requires t < |s.threads| && s.threads[t].pc.Reading?
    ensures s' == Exec(s, actions) && OneSessionPolled(s, s', t, readOk, fetchOk, sending, writeOk)
  {
    var first, second := Step(t, FaultIf(readOk)), Step(t, FaultIf(fetchOk));
    var read := Go(s, t, FaultIf(readOk));
    var fetched := Go(read, t, FaultIf(fetchOk));
    PollReads(s, t, readOk, fetchOk);
    if fetched.threads[t].pc.Publishing? {
      actions, s' := PublishingEnds(fetched, t, sending, writeOk);
      PassedOverIsPolled(s, s', t, fetched.threads[t].pc, readOk, sending, writeOk);
    } else {
      actions, s' := [], fetched;
    }
    ExecAfter(read, second, actions);
    ExecAfter(s, first, [second] + actions);
    actions := [first] + ([second] + actions);
  }

  /** Thread `t` has put out what lies behind `cursor`, as far as its publisher lasted. */
  ghost predicate Relayed(s: Sys, s': Sys, t: nat, lines: seq<string>, cursor: nat, sending: Sending, writeOk: bool)
    requires t < |s.threads| && cursor < |lines|
  {
    var th := s.threads[t];
    var n := |lines| - cursor;
    && s'.threads == s.threads[t := th.(enabled := StillEnabled(n, th.enabled, sending))]
    && PublishedOf(s', th.session) ==
         PublishedOf(s, th.session) + lines[cursor..cursor + Through(n, th.enabled, sending)]
    && CursorOf(s', th.session) == (if writeOk then |lines| else CursorOf(s, th.session))
    && forall other :: other != th.session ==>
         CursorOf(s', other) == CursorOf(s, other) && PublishedOf(s', other) == PublishedOf(s, other)
  }

  lemma RelayedIsPolled(s: Sys, s': Sys, t: nat, cursor: nat, readOk: bool, sending: Sending, writeOk: bool)
    requires t < |s.threads|
    requires var id := s.threads[t].session;
             && cursor == (if readOk then CursorOf(s, id) else 0) && cursor < |LogOf(s, id)|
             && Relayed(s, s', t, LogOf(s, id), cursor, sending, writeOk)
    ensures Polled(s, s', t, |LogOf(s, s.threads[t].session)| - cursor, readOk, true, sending, writeOk)
  {
  }

  // ---- the supervisor ---------------------------------------------------------------------------------

  class Supervisor {
    var threads: seq<Thread>
    var registry: map<string, nat>
    var cursors: map<string, nat>
    var logs: map<string, seq<string>>
    var published: map<string, seq<string>>

    constructor ()
      ensures State() == START
    {
      threads, registry, cursors, logs, published := [], map[], map[], map[], map[];
    }

    function State(): Sys
      reads this
    {
      Sys(threads, registry, cursors, logs, published)
    }

    /** `_reconcile_relays` */
    method ReconcileRelays(candidates: seq<string>) returns (relayed: set<string>)
      requires Registered(State())
      modifies this
      ensures State() == Reconcile(old(State()), candidates)
      ensures relayed == set id | id in registry && Alive(State(), id)
    {
      var wanted := if |candidates| <= MAX_RELAYS then candidates else candidates[..MAX_RELAYS];
      Sweep();
      SweepKeeps(old(State()), {});
      StopUnwantedThreads(wanted);
      StopKeeps(Swept(old(State())), wanted, {});
      StartWanted(wanted);
      relayed := set id | id in registry && Alive(State(), id);
    }

    method Sweep()
      modifies this
      ensures State() == Swept(old(State()))
    {
      var todo := registry.Keys;
      while todo != {}
        invariant State() == old(State()).(registry := registry)
        invariant todo <= old(registry).Keys
        invariant forall id :: id in registry <==> id in old(registry) && (id in todo || Alive(old(State()), id))
        invariant forall id :: id in registry ==> registry[id] == old(registry)[id]
        decreases |todo|
      {
        var id :| id in todo;
        todo := todo - {id};
        if !Alive(State(), id) { registry := registry - {id}; }
      }
      assert registry == Swept(old(State())).registry;
    }

    method StopUnwantedThreads(wanted: seq<string>)
      requires Registered(State())
      modifies this`threads
      ensures State() == Stopped(old(State()), wanted)
    {
      ghost var was := State();
      var todo := registry.Keys;
      while todo != {}
        invariant |threads| == |was.threads| && todo <= registry.Keys
        invariant forall t :: 0 <= t < |threads| ==>
          threads[t] == if was.threads[t].session in todo then was.threads[t] else StopUnwanted(was, wanted, t)
        decreases |todo|
      {
        var id :| id in todo;
        assert was.threads[registry[id]].session == id;
        todo := todo - {id};
        if id !in wanted { threads := threads[registry[id] := threads[registry[id]].(stop := true)]; }
      }
      assert threads == Stopped(was, wanted).threads;
    }

    method StartWanted(wanted: seq<string>)
      modifies this
      ensures State() == Started(old(State()), wanted)
    {
      for i := 0 to |wanted|
        invariant State() == Started(old(State()), wanted[..i])
      {
        assert wanted[..i + 1][..i] == wanted[..i];
        var id := wanted[i];
        if id !in registry {
          registry := registry[id := |threads|];
          threads := threads + [Thread(id, false, true, Opening)];
        }
      }
      assert wanted[..|wanted|] == wanted;
    }

    /** `publish_event` for each new line, through thread `t`'s publisher. */
    method PublishLines(t: nat, lines: seq<string>, sending: Sending)
      requires t < |threads|
      modifies this`threads, this`published
      ensures var th := old(threads)[t];
              var n := |lines|;
              && threads == old(threads)[t := th.(enabled := StillEnabled(n, th.enabled, sending))]
              && PublishedOf(State(), th.session) ==
                   PublishedOf(old(State()), th.session) + lines[..Through(n, th.enabled, sending)]
              && forall other :: other != th.session ==> PublishedOf(State(), other) == PublishedOf(old(State()), other)
    {
      var th := threads[t];
      var id := th.session;
      ghost var was := PublishedOf(State(), id);
      var enabled := th.enabled;
      assert was + lines[..0] == was;
      for i := 0 to |lines|
        invariant threads == old(threads)
        invariant enabled == StillEnabled(i, th.enabled, sending)
        invariant PublishedOf(State(), id) == was + lines[..Through(i, th.enabled, sending)]
        invariant forall other :: other != id ==> PublishedOf(State(), other) == PublishedOf(old(State()), other)
      {
        OneLineMore(i, th.enabled, sending);
        TakeOneMore(lines, i);
        if enabled {
          if sending != FailsAt(i, false) {
            published := published[id := PublishedOf(State(), id) + [lines[i]]];
          }
          if sending.FailsAt? && sending.line == i { enabled := false; }
        }
      }
      threads := threads[t := th.(enabled := enabled)];
    }

    /** `_relay_once` of thread `t`, with the log it fetches. */
    method RelayOnce(t: nat, readOk: bool, fetchOk: bool, sending: Sending, writeOk: bool) returns (count: nat)
      requires t < |threads|
      modifies this
      ensures Polled(old(State()), State(), t, count, readOk, fetchOk, sending, writeOk)
      ensures registry == old(registry) && logs == old(logs)
    {
      var id := threads[t].session;
      var cursor := if readOk && id in cursors then cursors[id] else 0;
      var lines := LogOf(State(), id);
      if !fetchOk || |lines| <= cursor {
        assert threads[t := threads[t].(enabled := threads[t].enabled)] == threads;
        return 0;
      }
      count := RelayNew(t, lines, cursor, sending, writeOk);
      RelayedIsPolled(old(State()), State(), t, cursor, readOk, sending, writeOk);
    }

    /** Publishes what lies behind the cursor and stores the new one. */
    method RelayNew(t: nat, lines: seq<string>, cursor: nat, sending: Sending, writeOk: bool) returns (count: nat)
      requires t < |threads| && cursor < |lines|
      modifies this`threads, this`published, this`cursors
      ensures count == |lines| - cursor
      ensures Relayed(old(State()), State(), t, lines, cursor, sending, writeOk)
    {
      PublishLines(t, lines[cursor..], sending);
      count := |lines| - cursor;
      ghost var k := Through(count, old(threads)[t].enabled, sending);
      assert lines[cursor..][..k] == lines[cursor..cursor + k];
      if writeOk { cursors := cursors[threads[t].session := |lines|]; }
    }
  }
}

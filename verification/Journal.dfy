/** The command journal: one row per attempt at an act, keyed `act`, `act#2`, `act#3`, ... */
module Journal {
  import opened Decimals
  import opened Lists

  datatype State = Intent | Accepted | Completed | Failed | Refused

  datatype Row = Row(key: string, state: State)

  /** What a caller asks to happen to an act that is already completed. */
  datatype Policy = Return | Advance

  datatype Outcome = Answer(row: nat) | CommandJournalError

  const MOST_ATTEMPTS := 99

  function Key(act: string, suffix: nat): string {
    if suffix == 1 then act else act + "#" + Print(suffix)
  }

  /** The first row with this key, or the number of rows. */
  function Find(rows: seq<Row>, key: string): (i: nat)
    ensures i <= |rows|
    ensures forall j :: 0 <= j < i ==> rows[j].key != key
    ensures i < |rows| ==> rows[i].key == key
  {
    if rows == [] || rows[0].key == key then 0
    else
      var i := Find(rows[1..], key);
      assert forall j :: 0 < j < 1 + i ==> rows[j] == rows[1..][j - 1];
      1 + i
  }

  /** `begin_command` from this suffix on: the answer, and the rows afterwards. */
  function BeginFrom(rows: seq<Row>, act: string, policy: Policy, suffix: nat): (Outcome, seq<Row>)
    decreases MOST_ATTEMPTS + 1 - suffix
  {
    if suffix > MOST_ATTEMPTS then (CommandJournalError, rows)
    else
      var i := Find(rows, Key(act, suffix));
      if i == |rows| then (Answer(|rows|), rows + [Row(Key(act, suffix), Intent)])
      else if rows[i].state == Intent || (rows[i].state == Completed && policy == Return) then (Answer(i), rows)
      else BeginFrom(rows, act, policy, suffix + 1)
  }

  /** `COMMAND_TRANSITIONS`: an intent takes any outcome, an accepted command a final one. */
  predicate MayMove(before: State, after: State) {
    match before
    case Intent => after != Intent
    case Accepted => after in {Completed, Failed, Refused}
    case _ => false
  }

  /** `finish_command` */
  function Finish(rows: seq<Row>, id: nat, state: State): seq<Row> {
    if id < |rows| && MayMove(rows[id].state, state) then rows[id := rows[id].(state := state)] else rows
  }

  datatype Event = Begin(act: string, policy: Policy) | Done(id: nat, state: State)

  function Step(rows: seq<Row>, e: Event): seq<Row> {
    match e
    case Begin(act, policy) => BeginFrom(rows, act, policy, 1).1
    case Done(id, state) => Finish(rows, id, state)
  }

  function After(events: seq<Event>): seq<Row>
    decreases |events|
  {
    if events == [] then [] else Step(After(events[..|events| - 1]), events[|events| - 1])
  }

  /** The outcomes an intent and an accepted command take; nothing else moves, and nothing goes back. */
  lemma MovesAreThese(before: State, after: State)
    ensures MayMove(before, after) <==>
            || (before == Intent && (after == Accepted || after == Completed || after == Failed || after == Refused))
            || (before == Accepted && (after == Completed || after == Failed || after == Refused))
  {
    assert after.Intent? || after.Accepted? || after.Completed? || after.Failed? || after.Refused?;
  }

  /** A recorded outcome changes the state of that row alone, and no key. */
  lemma FinishRecords(rows: seq<Row>, id: nat, state: State)
    requires id < |rows|
    ensures var after := Finish(rows, id, state);
            && |after| == |rows| && after[id].key == rows[id].key
            && (forall i :: 0 <= i < |rows| && i != id ==> after[i] == rows[i])
            && after[id].state == if MayMove(rows[id].state, state) then state else rows[id].state
  {
  }

  lemma BeginKeepsRows(rows: seq<Row>, act: string, policy: Policy, suffix: nat)
    ensures rows <= BeginFrom(rows, act, policy, suffix).1
    decreases MOST_ATTEMPTS + 1 - suffix
  {
    if suffix <= MOST_ATTEMPTS { BeginKeepsRows(rows, act, policy, suffix + 1); }
  }

  /** In every run: a row that is completed, failed or refused stays as it is whatever follows. */
  lemma {:induction false} FinalRowsStay(events: seq<Event>, e: Event, i: nat)
    requires i < |After(events)| && After(events)[i].state in {Completed, Failed, Refused}
    ensures i < |After(events + [e])| && After(events + [e])[i] == After(events)[i]
  {
    assert (events + [e])[..|events + [e]| - 1] == events;
    var rows := After(events);
    match e
    case Begin(act, policy) => BeginKeepsRows(rows, act, policy, 1);
    case Done(id, state) => if id == i { MovesAreThese(rows[i].state, state); }
  }

  // ---- keys --------------------------------------------------------------------------------

  /** The index of the last `#`, or 0. */
  function LastHash(s: string): nat {
    if s == "" then 0 else if s[|s| - 1] == '#' then |s| - 1 else LastHash(s[..|s| - 1])
  }

  lemma {:induction false} LastHashIs(act: string, digits: string)
    requires AllDigits(digits)
    ensures LastHash(act + "#" + digits) == |act|
    decreases |digits|
  {
    var s := act + "#" + digits;
    if digits != "" {
      var front := digits[..|digits| - 1];
      assert s[..|s| - 1] == act + "#" + front;
      assert s[|s| - 1] == digits[|digits| - 1];
      LastHashIs(act, front);
    }
  }

  lemma HashKeyParts(a: string, i: nat, b: string, j: nat)
    requires a + "#" + Print(i) == b + "#" + Print(j)
    ensures a == b && i == j
  {
    var s := a + "#" + Print(i);
    LastHashIs(a, Print(i));
    LastHashIs(b, Print(j));
    assert s[..|a|] == a && s[..|b|] == b;
    assert s[|a| + 1..] == Print(i) && s[|b| + 1..] == Print(j);
    PrintIsInjective(i, j);
  }

  predicate Suffix(n: nat) { 1 <= n <= MOST_ATTEMPTS }

  /** Some attempt at one act has the key of some attempt at the other. */
  ghost predicate ShareAKey(a: string, b: string) {
    exists i: nat, j: nat :: Suffix(i) && Suffix(j) && Key(a, i) == Key(b, j)
  }

  /** `a` is `b` with the suffix of one of its later attempts. */
  predicate Extends(a: string, b: string) { exists n: nat | n <= MOST_ATTEMPTS :: 2 <= n && a == Key(b, n) }

  /** Two different acts share a key exactly when one is the other, `#` and a number from 2 to 99. */
  lemma ShareAKeyExactlyWhen(a: string, b: string)
    requires a != b
    ensures ShareAKey(a, b) <==> Extends(a, b) || Extends(b, a)
  {
    if i: nat, j: nat :| Suffix(i) && Suffix(j) && Key(a, i) == Key(b, j) {
      if i != 1 && j != 1 {
        HashKeyParts(a, i, b, j);
      } else if i == 1 {
        assert j <= MOST_ATTEMPTS && 2 <= j && a == Key(b, j);
      } else {
        assert i <= MOST_ATTEMPTS && 2 <= i && b == Key(a, i);
      }
    }
    if n: nat :| n <= MOST_ATTEMPTS && 2 <= n && a == Key(b, n) { assert Suffix(1) && Suffix(n) && Key(a, 1) == Key(b, n); }
    if n: nat :| n <= MOST_ATTEMPTS && 2 <= n && b == Key(a, n) { assert Suffix(n) && Suffix(1) && Key(a, n) == Key(b, 1); }
  }

  /** The attempts of acts that share no key, and the attempts of one act, are told apart by their keys. */
  lemma KeysDiffer(a: string, i: nat, b: string, j: nat)
    requires Suffix(i) && Suffix(j) && Key(a, i) == Key(b, j)
    requires a == b || !ShareAKey(a, b)
    ensures a == b && i == j
  {
    assert a == b;
    assert i != 1 ==> |Key(a, i)| > |a|;
    assert j != 1 ==> |Key(b, j)| > |b|;
    if i != 1 && j != 1 { HashKeyParts(a, i, b, j); }
  }

  // ---- the shape of one act's rows -----------------------------------------------------------

  ghost predicate Unique(rows: seq<Row>) {
    forall i, j :: 0 <= i < j < |rows| ==> rows[i].key != rows[j].key
  }

  predicate Has(rows: seq<Row>, act: string, suffix: nat) { Find(rows, Key(act, suffix)) < |rows| }

  function StateOf(rows: seq<Row>, act: string, suffix: nat): State
    requires Has(rows, act, suffix)
  {
    rows[Find(rows, Key(act, suffix))].state
  }

  /** The used suffixes are 1..k, and every attempt before the last one is past its intent. */
  ghost predicate Attempts(rows: seq<Row>, act: string, k: nat) {
    && k <= MOST_ATTEMPTS
    && (forall j: nat :: Suffix(j) ==> (Has(rows, act, j) <==> j <= k))
    && forall j: nat :: 1 <= j < k ==> Has(rows, act, j) && StateOf(rows, act, j) != Intent
  }

  /** Under `return`, only failures and refusals are retried. */
  ghost predicate OnlyFailuresRetried(rows: seq<Row>, act: string, k: nat) {
    forall j: nat :: 1 <= j < k ==> Has(rows, act, j) && StateOf(rows, act, j) in {Failed, Refused}
  }

  /** No attempt before the last is completed. */
  ghost predicate NoneCompleted(rows: seq<Row>, act: string, k: nat) {
    forall j: nat :: 1 <= j < k ==> Has(rows, act, j) && StateOf(rows, act, j) != Completed
  }

  /** Whether `begin_command` hands back the row with this suffix. */
  predicate Answers(rows: seq<Row>, act: string, policy: Policy, suffix: nat)
    requires Has(rows, act, suffix)
  {
    StateOf(rows, act, suffix) == Intent || (StateOf(rows, act, suffix) == Completed && policy == Return)
  }

  lemma {:induction false} SearchSkips(rows: seq<Row>, act: string, policy: Policy, from: nat, to: nat)
    requires from <= to <= MOST_ATTEMPTS + 1
    requires forall j: nat :: from <= j < to ==> Has(rows, act, j) && !Answers(rows, act, policy, j)
    ensures BeginFrom(rows, act, policy, from) == BeginFrom(rows, act, policy, to)
    decreases MOST_ATTEMPTS + 1 - from
  {
    if from < to {
      assert Has(rows, act, from) && !Answers(rows, act, policy, from);
      SearchSkips(rows, act, policy, from + 1, to);
    }
  }

  lemma AttemptIsPassed(rows: seq<Row>, act: string, policy: Policy, k: nat, j: nat)
    requires Attempts(rows, act, k) && (policy == Return ==> NoneCompleted(rows, act, k)) && 1 <= j < k
    ensures Has(rows, act, j) && !Answers(rows, act, policy, j)
  {
  }

  /** Where the search of an act with attempts 1..k ends. */
  lemma SearchReachesTheLastAttempt(rows: seq<Row>, act: string, policy: Policy, k: nat)
    requires Attempts(rows, act, k) && (policy == Return ==> NoneCompleted(rows, act, k))
    ensures BeginFrom(rows, act, policy, 1) ==
            BeginFrom(rows, act, policy, if k > 0 && Answers(rows, act, policy, k) then k else k + 1)
  {
    if k > 0 {
      assert Suffix(k) && Has(rows, act, k);
      forall j: nat | 1 <= j < k ensures Has(rows, act, j) && !Answers(rows, act, policy, j) {
        AttemptIsPassed(rows, act, policy, k, j);
      }
      SearchSkips(rows, act, policy, 1, if Answers(rows, act, policy, k) then k else k + 1);
    }
  }

  /** What `begin_command` answers, from the act's own attempts alone. */
  lemma BeginExactly(rows: seq<Row>, act: string, policy: Policy, k: nat)
    requires Attempts(rows, act, k) && (policy == Return ==> NoneCompleted(rows, act, k))
    ensures var (outcome, after) := BeginFrom(rows, act, policy, 1);
            if k > 0 && Answers(rows, act, policy, k) then
              outcome == Answer(Find(rows, Key(act, k))) && after == rows
            else if k == MOST_ATTEMPTS then
              outcome == CommandJournalError && after == rows
            else
              outcome == Answer(|rows|) && after == rows + [Row(Key(act, k + 1), Intent)]
  {
    SearchReachesTheLastAttempt(rows, act, policy, k);
    if k > 0 && Answers(rows, act, policy, k) {
      var i := Find(rows, Key(act, k));
      assert rows[i].state == StateOf(rows, act, k);
      assert BeginFrom(rows, act, policy, k) == (Answer(i), rows);
    } else if k < MOST_ATTEMPTS {
      assert !Has(rows, act, k + 1);
    }
  }

  /** A begin adds an attempt exactly when there is none, or the newest one failed, was refused or is
      accepted, or is completed and the caller advances; and never a hundredth. */
  lemma ANewAttemptExactlyWhen(rows: seq<Row>, act: string, policy: Policy, k: nat)
    requires Attempts(rows, act, k) && (policy == Return ==> NoneCompleted(rows, act, k)) && (k > 0 ==> Has(rows, act, k))
    ensures |BeginFrom(rows, act, policy, 1).1| > |rows| <==>
            k < 99 && (k > 0 ==> StateOf(rows, act, k) in {Failed, Refused, Accepted}
                                 || (StateOf(rows, act, k) == Completed && policy == Advance))
  {
    BeginExactly(rows, act, policy, k);
  }

  // ---- every run -------------------------------------------------------------------------------

  /** The acts that are begun. */
  function Begun(events: seq<Event>): set<string> { set e | e in events && e.Begin? :: e.act }

  /** No act is another one with a suffix. */
  ghost predicate ClashFree(acts: set<string>) { forall a, b :: a in acts && b in acts ==> !Extends(a, b) }

  lemma ClashFreeActsShareNothing(acts: set<string>, a: string, b: string)
    requires ClashFree(acts) && a in acts && b in acts
    ensures a == b || !ShareAKey(a, b)
  {
    if a != b { ShareAKeyExactlyWhen(a, b); }
  }

  /** The act is begun while its newest attempt stands accepted: the search passes it over like a failure. */
  predicate Doubles(rows: seq<Row>, act: string, e: Event) {
    e.Begin? && e.act == act &&
    exists k: nat | k < MOST_ATTEMPTS ::
      1 <= k && Has(rows, act, k) && !Has(rows, act, k + 1) && StateOf(rows, act, k) == Accepted
  }

  predicate NeverDoubles(events: seq<Event>, act: string)
    decreases |events|
  {
    events == [] ||
    (var front, last := events[..|events| - 1], events[|events| - 1];
     NeverDoubles(front, act) && !Doubles(After(front), act, last))
  }

  /** Every begin of this act asks to have a completed row returned. */
  ghost predicate Guarded(events: seq<Event>, act: string) {
    forall i :: 0 <= i < |events| && events[i].Begin? && events[i].act == act ==> events[i].policy == Return
  }

  lemma {:induction false} FindInLonger(rows: seq<Row>, row: Row, key: string)
    ensures Find(rows, key) < |rows| ==> Find(rows + [row], key) == Find(rows, key)
    ensures Find(rows, key) == |rows| ==> Find(rows + [row], key) == if row.key == key then |rows| else |rows| + 1
  {
    var longer := rows + [row];
    if rows == [] {
      assert longer == [row];
    } else if rows[0].key != key {
      assert longer[1..] == rows[1..] + [row];
      FindInLonger(rows[1..], row, key);
    }
  }

  lemma {:induction false} FindIgnoresStates(a: seq<Row>, b: seq<Row>, key: string)
    requires |a| == |b| && forall i :: 0 <= i < |a| ==> a[i].key == b[i].key
    ensures Find(a, key) == Find(b, key)
  {
    if a != [] { FindIgnoresStates(a[1..], b[1..], key); }
  }

  function NewAttempt(rows: seq<Row>, act: string, suffix: nat): seq<Row> { rows + [Row(Key(act, suffix), Intent)] }

  lemma AttemptAfterAnother(rows: seq<Row>, other: string, n: nat, act: string, j: nat)
    requires Suffix(n) && Suffix(j) && (act == other || !ShareAKey(act, other))
    ensures Has(NewAttempt(rows, other, n), act, j) <==> Has(rows, act, j) || (act == other && j == n)
    ensures Has(rows, act, j) ==> StateOf(NewAttempt(rows, other, n), act, j) == StateOf(rows, act, j)
  {
    FindInLonger(rows, Row(Key(other, n), Intent), Key(act, j));
    if Key(act, j) == Key(other, n) { KeysDiffer(act, j, other, n); }
  }

  /** An attempt at one act leaves every other act's attempts as they are. */
  lemma OtherActsAreUntouched(rows: seq<Row>, other: string, n: nat, act: string, k: nat)
    requires Suffix(n) && act != other && !ShareAKey(act, other) && Attempts(rows, act, k)
    ensures Attempts(NewAttempt(rows, other, n), act, k)
    ensures OnlyFailuresRetried(rows, act, k) ==> OnlyFailuresRetried(NewAttempt(rows, other, n), act, k)
  {
    var after := NewAttempt(rows, other, n);
    forall j: nat | Suffix(j)
      ensures Has(after, act, j) <==> Has(rows, act, j)
      ensures Has(rows, act, j) ==> StateOf(after, act, j) == StateOf(rows, act, j)
    {
      AttemptAfterAnother(rows, other, n, act, j);
    }
  }

  lemma OwnAttemptsStay(rows: seq<Row>, act: string, k: nat, j: nat)
    requires Attempts(rows, act, k) && k < MOST_ATTEMPTS && Suffix(j)
    ensures Has(NewAttempt(rows, act, k + 1), act, j) <==> j <= k + 1
    ensures j <= k ==> Has(rows, act, j) && Has(NewAttempt(rows, act, k + 1), act, j)
                       && StateOf(NewAttempt(rows, act, k + 1), act, j) == StateOf(rows, act, j)
  {
    AttemptAfterAnother(rows, act, k + 1, act, j);
  }

  lemma NextAttemptIsPastIntents(rows: seq<Row>, act: string, k: nat, j: nat)
    requires Attempts(rows, act, k) && k < MOST_ATTEMPTS && 1 <= j <= k
    requires Has(rows, act, k) && StateOf(rows, act, k) != Intent
    ensures Has(NewAttempt(rows, act, k + 1), act, j) && StateOf(NewAttempt(rows, act, k + 1), act, j) != Intent
  {
    OwnAttemptsStay(rows, act, k, j);
  }

  lemma NextAttemptIsCounted(rows: seq<Row>, act: string, k: nat)
    requires Attempts(rows, act, k) && k < MOST_ATTEMPTS
    requires k > 0 ==> Has(rows, act, k) && StateOf(rows, act, k) != Intent
    ensures Attempts(NewAttempt(rows, act, k + 1), act, k + 1)
  {
    var after := NewAttempt(rows, act, k + 1);
    forall j: nat | Suffix(j) ensures Has(after, act, j) <==> j <= k + 1 { OwnAttemptsStay(rows, act, k, j); }
    forall j: nat | 1 <= j < k + 1 ensures Has(after, act, j) && StateOf(after, act, j) != Intent {
      NextAttemptIsPastIntents(rows, act, k, j);
    }
  }

  lemma NextAttemptRetriesAFailure(rows: seq<Row>, act: string, k: nat, j: nat)
    requires Attempts(rows, act, k) && k < MOST_ATTEMPTS && 1 <= j <= k && OnlyFailuresRetried(rows, act, k)
    requires Has(rows, act, k) && StateOf(rows, act, k) in {Failed, Refused}
    ensures Has(NewAttempt(rows, act, k + 1), act, j)
    ensures StateOf(NewAttempt(rows, act, k + 1), act, j) in {Failed, Refused}
  {
    OwnAttemptsStay(rows, act, k, j);
    assert j < k ==> StateOf(rows, act, j) in {Failed, Refused};
  }

  lemma NextAttemptIsNumbered(rows: seq<Row>, act: string, k: nat)
    requires Attempts(rows, act, k) && k < MOST_ATTEMPTS
    requires k > 0 ==> Has(rows, act, k) && StateOf(rows, act, k) != Intent
    ensures Attempts(NewAttempt(rows, act, k + 1), act, k + 1)
    ensures OnlyFailuresRetried(rows, act, k) && (k > 0 ==> StateOf(rows, act, k) in {Failed, Refused})
            ==> OnlyFailuresRetried(NewAttempt(rows, act, k + 1), act, k + 1)
  {
    var after := NewAttempt(rows, act, k + 1);
    NextAttemptIsCounted(rows, act, k);
    if OnlyFailuresRetried(rows, act, k) && (k > 0 ==> StateOf(rows, act, k) in {Failed, Refused}) {
      forall j: nat | 1 <= j < k + 1 ensures Has(after, act, j) && StateOf(after, act, j) in {Failed, Refused} {
        NextAttemptRetriesAFailure(rows, act, k, j);
      }
    }
  }

  lemma FinishKeepsAttempts(rows: seq<Row>, id: nat, state: State, act: string, k: nat)
    requires Attempts(rows, act, k)
    ensures Attempts(Finish(rows, id, state), act, k)
    ensures OnlyFailuresRetried(rows, act, k) ==> OnlyFailuresRetried(Finish(rows, id, state), act, k)
  {
    var after := Finish(rows, id, state);
    forall j: nat | 1 <= j
      ensures Has(after, act, j) <==> Has(rows, act, j)
      ensures Has(rows, act, j) && StateOf(rows, act, j) != Intent ==> StateOf(after, act, j) != Intent
      ensures Has(rows, act, j) && StateOf(rows, act, j) in {Failed, Refused} ==> StateOf(after, act, j) == StateOf(rows, act, j)
    {
      FindIgnoresStates(rows, after, Key(act, j));
    }
  }

  /** What a begin leaves: the rows as they were, or the act's next attempt. */
  predicate AddsAtMostTheNext(rows: seq<Row>, after: seq<Row>, act: string, policy: Policy, k: nat, from: nat) {
    after == rows
    || (after == NewAttempt(rows, act, k + 1) && k < MOST_ATTEMPTS
        && (from <= k ==> Has(rows, act, k) && !Answers(rows, act, policy, k)))
  }

  /** However the policies were mixed before, a begin adds nothing or the act's next attempt. */
  lemma {:induction false} BeginAddsAtMostTheNext(rows: seq<Row>, act: string, policy: Policy, k: nat, from: nat)
    requires Attempts(rows, act, k) && 1 <= from <= k + 1
    ensures AddsAtMostTheNext(rows, BeginFrom(rows, act, policy, from).1, act, policy, k, from)
    decreases k + 1 - from
  {
    if from > MOST_ATTEMPTS {
      assert BeginFrom(rows, act, policy, from).1 == rows;
    } else {
      assert Suffix(from) && (Has(rows, act, from) <==> from <= k);
      BeginOnce(rows, act, policy, from);
      if from <= k && !Answers(rows, act, policy, from) { BeginAddsAtMostTheNext(rows, act, policy, k, from + 1); }
    }
  }

  /** One round of the suffix loop. */
  lemma BeginOnce(rows: seq<Row>, act: string, policy: Policy, suffix: nat)
    requires Suffix(suffix)
    ensures BeginFrom(rows, act, policy, suffix).1 ==
            if !Has(rows, act, suffix) then NewAttempt(rows, act, suffix)
            else if Answers(rows, act, policy, suffix) then rows
            else BeginFrom(rows, act, policy, suffix + 1).1
  {
  }

  lemma NewestIsNotAccepted(rows: seq<Row>, act: string, policy: Policy, k: nat)
    requires Attempts(rows, act, k) && k < MOST_ATTEMPTS && !Doubles(rows, act, Begin(act, policy))
    ensures k > 0 ==> Has(rows, act, k) && StateOf(rows, act, k) != Accepted
  {
    assert Has(rows, act, k + 1) <==> k + 1 <= k;
    if k > 0 { assert Has(rows, act, k) <==> k <= k; }
  }

  lemma BeginKeepsAttempts(rows: seq<Row>, other: string, m: nat, policy: Policy, act: string, k: nat) returns (k': nat)
    requires Attempts(rows, act, k) && Attempts(rows, other, m)
    requires if other == act then m == k else !ShareAKey(act, other)
    ensures Attempts(BeginFrom(rows, other, policy, 1).1, act, k')
    ensures OnlyFailuresRetried(rows, act, k) && !Doubles(rows, act, Begin(other, policy)) && (other == act ==> policy == Return)
            ==> OnlyFailuresRetried(BeginFrom(rows, other, policy, 1).1, act, k')
  {
    BeginAddsAtMostTheNext(rows, other, policy, m, 1);
    k' := k;
    if BeginFrom(rows, other, policy, 1).1 != rows {
      if other == act {
        NextAttemptIsNumbered(rows, act, k);
        if !Doubles(rows, act, Begin(other, policy)) { NewestIsNotAccepted(rows, act, policy, k); }
        k' := k + 1;
      } else {
        OtherActsAreUntouched(rows, other, m + 1, act, k);
      }
    }
  }

  /** In every run whose acts do not clash an act's attempts are numbered 1..k and all but the last are past
      their intent. */
  lemma {:induction false} EveryRunNumbersItsAttempts(events: seq<Event>, act: string) returns (k: nat)
    requires ClashFree(Begun(events) + {act})
    ensures Attempts(After(events), act, k)
    ensures Guarded(events, act) && NeverDoubles(events, act) ==> OnlyFailuresRetried(After(events), act, k)
    decreases |events|
  {
    if events == [] {
      k := 0;
    } else {
      var before := events[..|events| - 1];
      assert events == before + [events[|events| - 1]];
      k := EveryRunNumbersItsAttempts(before, act);
      match events[|events| - 1]
      case Begin(other, policy) =>
        assert events[|events| - 1] in events && other in Begun(events);
        var m := EveryRunNumbersItsAttempts(before, other);
        if other == act { SameCount(After(before), act, k, m); }
        ClashFreeActsShareNothing(Begun(events) + {act}, act, other);
        k := BeginKeepsAttempts(After(before), other, m, policy, act, k);
      case Done(id, state) =>
        FinishKeepsAttempts(After(before), id, state, act, k);
    }
  }

  lemma SameCount(rows: seq<Row>, act: string, k: nat, m: nat)
    requires Attempts(rows, act, k) && Attempts(rows, act, m)
    ensures k == m
  {
    assert Suffix(k) ==> (Has(rows, act, k) <==> k <= m);
    assert Suffix(m) ==> (Has(rows, act, m) <==> m <= k);
  }

  /** Of two attempts at one act the earlier is past its intent, so at most one is open. */
  lemma AtMostOneOpenAttempt(events: seq<Event>, act: string, i: nat, j: nat)
    requires ClashFree(Begun(events) + {act}) && 1 <= i < j <= MOST_ATTEMPTS
    ensures Has(After(events), act, j) ==> Has(After(events), act, i) && StateOf(After(events), act, i) != Intent
  {
    var k := EveryRunNumbersItsAttempts(events, act);
  }

  /** Where completed rows are returned, an act is completed at most once and nothing is tried after that. */
  lemma NothingFollowsACompletedAttempt(events: seq<Event>, act: string, i: nat, j: nat)
    requires ClashFree(Begun(events) + {act}) && Guarded(events, act) && NeverDoubles(events, act) && 1 <= i < j <= MOST_ATTEMPTS
    ensures Has(After(events), act, j) ==>
              Has(After(events), act, i) && StateOf(After(events), act, i) in {Failed, Refused}
  {
    var k := EveryRunNumbersItsAttempts(events, act);
  }

  /** Wherever attempts at the act stand, those before the last failed or were refused. */
  ghost predicate OnlyFailures(rows: seq<Row>, act: string) {
    forall i: nat, j: nat :: Suffix(i) && Suffix(j) && i < j && Has(rows, act, j) ==>
      Has(rows, act, i) && StateOf(rows, act, i) in {Failed, Refused}
  }

  lemma OnlyFailuresOfAttempts(rows: seq<Row>, act: string, k: nat)
    requires Attempts(rows, act, k)
    ensures OnlyFailures(rows, act) <==> OnlyFailuresRetried(rows, act, k)
  {
    assert Suffix(k) ==> (Has(rows, act, k) <==> k <= k);
    if OnlyFailures(rows, act) {
      forall j: nat | 1 <= j < k ensures Has(rows, act, j) && StateOf(rows, act, j) in {Failed, Refused} {
        assert Suffix(j) && Suffix(k) && Has(rows, act, k);
      }
    }
  }

  /** A begin that meets its newest attempt accepted leaves it behind a new one. */
  lemma AnAcceptedRetryShows(rows: seq<Row>, act: string, k: nat)
    requires Attempts(rows, act, k) && 1 <= k < MOST_ATTEMPTS && Has(rows, act, k) && StateOf(rows, act, k) == Accepted
    ensures !OnlyFailures(NewAttempt(rows, act, k + 1), act)
  {
    OwnAttemptsStay(rows, act, k, k);
    OwnAttemptsStay(rows, act, k, k + 1);
    assert Has(NewAttempt(rows, act, k + 1), act, k + 1);
  }

  lemma BeginPassesTheAccepted(rows: seq<Row>, act: string, policy: Policy, k: nat)
    requires Attempts(rows, act, k) && OnlyFailuresRetried(rows, act, k)
    requires 1 <= k < MOST_ATTEMPTS && Has(rows, act, k) && StateOf(rows, act, k) == Accepted
    ensures BeginFrom(rows, act, policy, 1).1 == NewAttempt(rows, act, k + 1)
  {
    BeginExactly(rows, act, policy, k);
  }

  lemma NewestOfDoubles(rows: seq<Row>, act: string, policy: Policy, k: nat)
    requires Attempts(rows, act, k) && Doubles(rows, act, Begin(act, policy))
    ensures 1 <= k < MOST_ATTEMPTS && Has(rows, act, k) && StateOf(rows, act, k) == Accepted
  {
    var j: nat :| 1 <= j < MOST_ATTEMPTS && Has(rows, act, j) && !Has(rows, act, j + 1) && StateOf(rows, act, j) == Accepted;
    assert Suffix(j) && Suffix(j + 1) && j == k;
  }

  lemma DoublingRetriesNoFailure(rows: seq<Row>, act: string, policy: Policy, k: nat)
    requires Attempts(rows, act, k) && OnlyFailuresRetried(rows, act, k) && Doubles(rows, act, Begin(act, policy))
    ensures !OnlyFailures(BeginFrom(rows, act, policy, 1).1, act)
  {
    NewestOfDoubles(rows, act, policy, k);
    BeginPassesTheAccepted(rows, act, policy, k);
    AnAcceptedRetryShows(rows, act, k);
  }

  lemma StepRetriesOnlyFailuresExactlyWhen(before: seq<Event>, e: Event, act: string)
    requires ClashFree(Begun(before + [e]) + {act}) && Guarded(before + [e], act) && Guarded(before, act)
    requires NeverDoubles(before, act) && OnlyFailures(After(before), act)
    ensures OnlyFailures(Step(After(before), e), act) <==> !Doubles(After(before), act, e)
  {
    var rows := After(before);
    assert Begun(before) <= Begun(before + [e]);
    var k := EveryRunNumbersItsAttempts(before, act);
    OnlyFailuresOfAttempts(rows, act, k);
    match e
    case Begin(other, policy) =>
      assert e in before + [e] && other in Begun(before + [e]);
      assert (before + [e])[|before|] == e;
      var m := EveryRunNumbersItsAttempts(before, other);
      if other == act { SameCount(rows, act, k, m); }
      ClashFreeActsShareNothing(Begun(before + [e]) + {act}, act, other);
      if Doubles(rows, act, e) {
        DoublingRetriesNoFailure(rows, act, policy, k);
      } else {
        var k' := BeginKeepsAttempts(rows, other, m, policy, act, k);
        OnlyFailuresOfAttempts(Step(rows, e), act, k');
      }
    case Done(id, state) =>
      FinishKeepsAttempts(rows, id, state, act, k);
      OnlyFailuresOfAttempts(Step(rows, e), act, k);
  }

  ghost function RetriesOnlyFailures(act: string): seq<Event> -> bool { run => OnlyFailures(After(run), act) }

  lemma AfterOneMore(events: seq<Event>, e: Event)
    ensures After(events + [e]) == Step(After(events), e)
  {
    assert (events + [e])[..|events + [e]| - 1] == events;
  }

  lemma NeverDoublesOneMore(before: seq<Event>, e: Event, act: string)
    ensures NeverDoubles(before + [e], act) <==> NeverDoubles(before, act) && !Doubles(After(before), act, e)
  {
    assert (before + [e])[..|before + [e]| - 1] == before;
  }

  lemma RetriesOneMore(before: seq<Event>, e: Event, act: string)
    requires ClashFree(Begun(before + [e]) + {act}) && Guarded(before + [e], act) && Guarded(before, act)
    requires NeverDoubles(before, act) && OnlyFailures(After(before), act)
    ensures OnlyFailures(After(before + [e]), act) <==> NeverDoubles(before + [e], act)
  {
    AfterOneMore(before, e);
    NeverDoublesOneMore(before, e, act);
    StepRetriesOnlyFailuresExactlyWhen(before, e, act);
  }

  lemma NothingToRetry(act: string)
    ensures OnlyFailures(After([]), act)
  {
  }

  lemma RetriedOneMore(before: seq<Event>, e: Event, act: string)
    requires ClashFree(Begun(before + [e]) + {act}) && Guarded(before + [e], act) && Guarded(before, act)
    requires Throughout(RetriesOnlyFailures(act), before) <==> NeverDoubles(before, act)
    ensures Throughout(RetriesOnlyFailures(act), before + [e]) <==> NeverDoubles(before + [e], act)
  {
    var p := RetriesOnlyFailures(act);
    var run := before + [e];
    assert run[..|run| - 1] == before;
    ThroughoutOneMore(p, run);
    NeverDoublesOneMore(before, e, act);
    if Throughout(p, before) {
      ThroughoutAtTheEnd(p, before);
      RetriesOneMore(before, e, act);
    }
  }

  /** Where completed rows are returned: all through a run every retry follows a failure or a refusal exactly
      as long as the act is never begun while its newest attempt stands accepted. */
  lemma OnlyFailuresAreRetriedExactlyWhen(events: seq<Event>, act: string)
    requires ClashFree(Begun(events) + {act}) && Guarded(events, act)
    ensures Throughout(RetriesOnlyFailures(act), events) <==> NeverDoubles(events, act)
  {
    RetriedInPrefix(events, act, |events|);
    assert events[..|events|] == events;
  }

  lemma {:induction false} RetriedInPrefix(events: seq<Event>, act: string, n: nat)
    requires ClashFree(Begun(events) + {act}) && Guarded(events, act) && n <= |events|
    ensures Throughout(RetriesOnlyFailures(act), events[..n]) <==> NeverDoubles(events[..n], act)
    decreases n
  {
    if n == 0 {
      ThroughoutOfNone(RetriesOnlyFailures(act), []);
      NothingToRetry(act);
      assert events[..0] == [];
    } else {
      RetriedInPrefix(events, act, n - 1);
      PrefixIsPlain(events, act, n - 1);
      PrefixIsPlain(events, act, n);
      TakeOneMore(events, n - 1);
      RetriedOneMore(events[..n - 1], events[n - 1], act);
    }
  }

  lemma PrefixIsPlain(events: seq<Event>, act: string, n: nat)
    requires ClashFree(Begun(events) + {act}) && Guarded(events, act) && n <= |events|
    ensures ClashFree(Begun(events[..n]) + {act}) && Guarded(events[..n], act)
  {
    assert Begun(events[..n]) <= Begun(events);
    assert forall i :: 0 <= i < n ==> events[..n][i] == events[i];
  }

  lemma FirstAttempt(act: string)
    ensures Step([], Begin(act, Return)) == [Row(act, Intent)]
  {
    assert Find([], act) == 0 && [] + [Row(act, Intent)] == [Row(act, Intent)];
  }

  lemma SecondAttemptPassesTheAccepted()
    ensures Step([Row("a", Accepted)], Begin("a", Return)) == [Row("a", Accepted), Row("a#2", Intent)]
  {
    var one := [Row("a", Accepted)];
    assert Print(2) == "2" && Key("a", 2) == "a#2";
    assert one[1..] == [] && Find(one, "a") == 0 && Find(one, "a#2") == 1;
    assert BeginFrom(one, "a", Return, 2) == (Answer(1), one + [Row("a#2", Intent)]);
    assert one + [Row("a#2", Intent)] == [Row("a", Accepted), Row("a#2", Intent)];
  }

  lemma BothAreCompleted(rows: seq<Row>)
    requires rows == [Row("a", Accepted), Row("a#2", Intent)]
    ensures Step(Step(rows, Done(0, Completed)), Done(1, Completed)) == [Row("a", Completed), Row("a#2", Completed)]
  {
    assert Step(rows, Done(0, Completed)) == [Row("a", Completed), Row("a#2", Intent)];
  }

  lemma TwoAttempts() returns (events: seq<Event>)
    ensures After(events) == [Row("a", Accepted), Row("a#2", Intent)]
    ensures events == [Begin("a", Return), Done(0, Accepted), Begin("a", Return)]
  {
    var e1, e2 := Begin("a", Return), Done(0, Accepted);
    FirstAttempt("a");
    AfterOneMore([], e1);
    AfterOneMore([] + [e1], e2);
    assert After(([] + [e1]) + [e2]) == [Row("a", Accepted)];
    AfterOneMore(([] + [e1]) + [e2], e1);
    SecondAttemptPassesTheAccepted();
    events := (([] + [e1]) + [e2]) + [e1];
  }

  /** An accepted attempt is passed over by the next begin, and both attempts can then be completed. */
  lemma AnAcceptedAttemptIsDoubled()
    ensures exists events :: After(events) == [Row("a", Completed), Row("a#2", Completed)] && Guarded(events, "a")
  {
    var three := TwoAttempts();
    var e3, e4 := Done(0, Completed), Done(1, Completed);
    AfterOneMore(three, e3);
    AfterOneMore(three + [e3], e4);
    BothAreCompleted(After(three));
    assert Guarded((three + [e3]) + [e4], "a");
  }

  /** A finished act answers every further begin with its completed row, and gains no row. */
  lemma AFinishedActAnswersItself(events: seq<Event>, act: string, i: nat)
    requires ClashFree(Begun(events) + {act}) && Guarded(events, act) && NeverDoubles(events, act) && Suffix(i)
    ensures Has(After(events), act, i) && StateOf(After(events), act, i) == Completed ==>
              BeginFrom(After(events), act, Return, 1) == (Answer(Find(After(events), Key(act, i))), After(events))
  {
    var k := EveryRunNumbersItsAttempts(events, act);
    if Has(After(events), act, i) && StateOf(After(events), act, i) == Completed {
      assert i == k;
      BeginExactly(After(events), act, Return, k);
    }
  }

  /** An open attempt is handed back, not doubled, until its outcome is recorded. */
  lemma AnOpenAttemptIsResumed(events: seq<Event>, act: string, policy: Policy)
    requires ClashFree(Begun(events) + {act}) && (policy == Return ==> Guarded(events, act) && NeverDoubles(events, act))
    ensures var (outcome, rows) := BeginFrom(After(events), act, policy, 1);
            outcome.Answer? && outcome.row < |rows| && rows[outcome.row].state == Intent
            ==> BeginFrom(rows, act, policy, 1) == (outcome, rows)
  {
    var k := EveryRunNumbersItsAttempts(events, act);
    BeginningAgainResumes(After(events), act, policy, k);
  }

  lemma BeginningAgainResumes(rows: seq<Row>, act: string, policy: Policy, k: nat)
    requires Attempts(rows, act, k) && (policy == Return ==> NoneCompleted(rows, act, k))
    ensures var (outcome, after) := BeginFrom(rows, act, policy, 1);
            outcome.Answer? && outcome.row < |after| && after[outcome.row].state == Intent
            ==> BeginFrom(after, act, policy, 1) == (outcome, after)
  {
    BeginExactly(rows, act, policy, k);
    if !(k > 0 && Answers(rows, act, policy, k)) && k < MOST_ATTEMPTS { NewAttemptIsResumed(rows, act, policy, k); }
  }

  lemma NewAttemptIsResumed(rows: seq<Row>, act: string, policy: Policy, k: nat)
    requires Attempts(rows, act, k) && k < MOST_ATTEMPTS && (policy == Return ==> NoneCompleted(rows, act, k))
    requires k > 0 ==> Has(rows, act, k) && !Answers(rows, act, policy, k)
    ensures BeginFrom(NewAttempt(rows, act, k + 1), act, policy, 1) == (Answer(|rows|), NewAttempt(rows, act, k + 1))
  {
    var more := NewAttempt(rows, act, k + 1);
    NextAttemptIsCounted(rows, act, k);
    assert Suffix(k + 1) && (Has(rows, act, k + 1) <==> k + 1 <= k);
    AttemptAfterAnother(rows, act, k + 1, act, k + 1);
    FindInLonger(rows, Row(Key(act, k + 1), Intent), Key(act, k + 1));
    forall j: nat | policy == Return && 1 <= j < k + 1 ensures Has(more, act, j) && StateOf(more, act, j) != Completed {
      OwnAttemptsStay(rows, act, k, j);
    }
    BeginExactly(more, act, policy, k + 1);
  }

  /** An act is refused for good exactly when its ninety-ninth attempt is over and may be retried. */
  lemma RefusedExactlyAfterNinetyNine(events: seq<Event>, act: string, policy: Policy)
    requires ClashFree(Begun(events) + {act}) && (policy == Return ==> Guarded(events, act) && NeverDoubles(events, act))
    ensures BeginFrom(After(events), act, policy, 1).0 == CommandJournalError <==>
            Has(After(events), act, 99) && !Answers(After(events), act, policy, 99)
  {
    var k := EveryRunNumbersItsAttempts(events, act);
    BeginExactly(After(events), act, policy, k);
    assert Has(After(events), act, MOST_ATTEMPTS) <==> MOST_ATTEMPTS <= k;
  }

  lemma TheOtherActsRow()
    ensures BeginFrom([Row("a#2", Intent), Row("a", Failed)], "a", Return, 1)
            == (Answer(0), [Row("a#2", Intent), Row("a", Failed)])
  {
    var done := [Row("a#2", Intent), Row("a", Failed)];
    assert Print(2) == "2" && Key("a", 2) == "a#2";
    assert done[1..] == [Row("a", Failed)];
    assert Find(done, "a") == 1 && Find(done, "a#2") == 0;
    BeginUnfolds(done, "a", Return, 1);
    BeginUnfolds(done, "a", Return, 2);
  }

  lemma TwoActsBegun() returns (events: seq<Event>)
    ensures events == [Begin("a#2", Return), Begin("a", Return)]
    ensures After(events) == [Row("a#2", Intent), Row("a", Intent)]
  {
    var first := [Row("a#2", Intent)];
    FirstAttempt("a#2");
    AfterOneMore([], Begin("a#2", Return));
    AfterOneMore([] + [Begin("a#2", Return)], Begin("a", Return));
    assert first[1..] == [] && Find(first, "a") == 1;
    BeginUnfolds(first, "a", Return, 1);
    assert first + [Row("a", Intent)] == [Row("a#2", Intent), Row("a", Intent)];
    events := ([] + [Begin("a#2", Return)]) + [Begin("a", Return)];
  }

  /** With `#` in an act the rows of two acts mix: the retry of `a` resumes the first attempt at `a#2`. */
  lemma AHashInAnActMixesTwoActs()
    ensures var events := [Begin("a#2", Return), Begin("a", Return), Done(1, Failed)];
            BeginFrom(After(events), "a", Return, 1) == (Answer(0), After(events))
  {
    var two := TwoActsBegun();
    AfterOneMore(two, Done(1, Failed));
    assert two + [Done(1, Failed)] == [Begin("a#2", Return), Begin("a", Return), Done(1, Failed)];
    assert After(two + [Done(1, Failed)]) == [Row("a#2", Intent), Row("a", Failed)];
    TheOtherActsRow();
  }

  // ---- the journal itself ----------------------------------------------------------------------

  predicate IsSpace(c: char) {
    c in "\t\n\r \U{0B}\U{0C}\U{1C}\U{1D}\U{1E}\U{1F}\U{85}\U{A0}\U{1680}\U{2028}\U{2029}\U{202F}\U{205F}\U{3000}"
    || '\U{2000}' <= c <= '\U{200A}'
  }

  /** `not actor.strip()` */
  predicate Anonymous(actor: string) { forall i :: 0 <= i < |actor| ==> IsSpace(actor[i]) }

  lemma BeginUnfolds(rows: seq<Row>, act: string, policy: Policy, suffix: nat)
    requires suffix <= MOST_ATTEMPTS
    ensures var i := Find(rows, Key(act, suffix));
            BeginFrom(rows, act, policy, suffix) ==
            if i == |rows| then (Answer(i), rows + [Row(Key(act, suffix), Intent)])
            else if rows[i].state == Intent || (rows[i].state == Completed && policy == Return) then (Answer(i), rows)
            else BeginFrom(rows, act, policy, suffix + 1)
  {
  }

  /** The characters Python's `str.strip` takes off, by their code points. */
  lemma SpacesAreThese(c: char)
    ensures IsSpace(c) <==>
            || 9 <= c as int <= 13 || 28 <= c as int <= 32 || c as int == 133 || c as int == 160 || c as int == 5760
            || 8192 <= c as int <= 8202 || c as int == 8232 || c as int == 8233 || c as int == 8239
            || c as int == 8287 || c as int == 12288
  {
  }

  class CommandJournal {
    var rows: seq<Row>

    constructor ()
      ensures rows == []
    {
      rows := [];
    }

    /** `begin_command`; `up` is false when the control database cannot be used. */
    method BeginCommand(act: string, completed: string, actor: string, up: bool) returns (outcome: Outcome)
      modifies this
      ensures (completed != "return" && completed != "advance") || Anonymous(actor) || !up
              ==> outcome == CommandJournalError && rows == old(rows)
      ensures (completed == "return" || completed == "advance") && !Anonymous(actor) && up
              ==> (outcome, rows) == BeginFrom(old(rows), act, if completed == "return" then Return else Advance, 1)
    {
      if (completed != "return" && completed != "advance") || Anonymous(actor) || !up { return CommandJournalError; }
      ghost var policy := if completed == "return" then Return else Advance;
      var suffix := 1;
      while suffix <= MOST_ATTEMPTS
        invariant 1 <= suffix <= MOST_ATTEMPTS + 1 && rows == old(rows)
        invariant BeginFrom(rows, act, policy, suffix) == BeginFrom(rows, act, policy, 1)
      {
        var key := if suffix == 1 then act else act + "#" + Print(suffix);
        var i := Find(rows, key);
        BeginUnfolds(rows, act, policy, suffix);
        if i == |rows| {
          rows := rows + [Row(key, Intent)];
          return Answer(i);
        }
        if rows[i].state == Intent { return Answer(i); }
        if rows[i].state == Completed && completed == "return" { return Answer(i); }
        suffix := suffix + 1;
      }
      return CommandJournalError;
    }

    /** `finish_command`; the answer says whether the outcome was recorded. */
    method FinishCommand(id: nat, state: State, up: bool) returns (recorded: bool)
      modifies this
      ensures recorded == (up && id < |old(rows)| && MayMove(old(rows)[id].state, state))
      ensures rows == if up then Finish(old(rows), id, state) else old(rows)
    {
      recorded := up && id < |rows| && MayMove(rows[id].state, state);
      if recorded { rows := rows[id := rows[id].(state := state)]; }
    }
  }
}

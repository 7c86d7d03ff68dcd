/** Every launch happens under a recorded signature for exactly the findings it is briefed on. */
module GateInventory {
  import opened Text
  import opened GateFiles
  import opened GateSteps

  /** Finding ids as the scanner writes them: non-empty, one line. */
  predicate CleanIds(ids: seq<string>) {
    forall i :: 0 <= i < |ids| ==> ids[i] != "" && OneLine(ids[i])
  }

  predicate CleanArgs(a: ProposeArgs) {
    (a.report.Some? ==> CleanIds(a.report.value.checkIds)) && (a.spec.Some? ==> OneLine(a.spec.value.name))
  }

  predicate CleanAction(act: Action) {
    act.Arrive? && act.task.ProposeReadDoc? ==> CleanArgs(act.task.pa)
  }

  predicate CleanActions(acts: seq<Action>) { forall i :: 0 <= i < |acts| ==> CleanAction(acts[i]) }

  // ---- what the files and the calls carry ---------------------------------------------

  /** The id is the fingerprint of the inventory written beside it. */
  ghost predicate Identified(id: string, spec: string, checkIds: seq<string>) {
    id == Fingerprint(spec, checkIds) && OneLine(spec) && CleanIds(checkIds)
  }

  ghost predicate GoodDoc(doc: Proposal) { doc.id == "" || Identified(doc.id, doc.action.name, doc.checkIds) }

  ghost predicate GoodSignature(s: Signature) { Identified(s.proposalId, s.action.name, s.checkIds) }

  ghost predicate GoodPair(doc: Proposal, s: Signature, approvals: seq<Signature>) {
    GoodDoc(doc) && GoodSignature(s) && s.proposalId == doc.id && s in approvals
  }

  ghost predicate GoodTask(t: Task, approvals: seq<Signature>) {
    match t
    case ProposeReadDoc(a) => CleanArgs(a)
    case ProposeReadClaim(a, _) => CleanArgs(a)
    case ProposeReadSignature(a) => CleanArgs(a)
    case ProposeWrite(draft) => GoodDoc(draft)
    case ApproveReadDoc(_) => true
    case ApproveAppend(_, doc) => GoodDoc(doc) && doc.id != ""
    case ApproveWrite(_, doc) => GoodDoc(doc)
    case DispatchReadDoc(_) => true
    case DispatchReadSignature(_, doc) => GoodDoc(doc)
    case DispatchClaim(_, doc, s) => GoodPair(doc, s, approvals)
    case DispatchStamp(_, doc, s) => GoodPair(doc, s, approvals)
    case DispatchSubmit(_, doc, s) => GoodPair(doc, s, approvals)
    case DispatchRollback(_, doc, s) => GoodPair(doc, s, approvals)
    case DispatchLog(_, doc, s) => GoodPair(doc, s, approvals)
    case DispatchWrite(_, doc, s) => GoodPair(doc, s, approvals)
    case ReleaseReadDoc(_) => true
    case ReleaseReadClaim(_, doc) => GoodDoc(doc)
    case ReleaseUnlink(_, doc, _) => GoodDoc(doc)
    case ReleaseLog(_, doc, _) => GoodDoc(doc)
    case ReleaseWrite(_, doc, _) => GoodDoc(doc)
    case Ended => true
  }

  ghost predicate GoodFiles(f: Files) {
    && GoodDoc(f.proposal)
    && (forall s :: s in f.approvals ==> GoodSignature(s))
    && (forall e :: e in f.events && e.Enqueued? ==>
          GoodPair(e.doc, e.signature, f.approvals) && e.run.proposalId == e.doc.id)
  }

  ghost predicate Good(s: Sys) {
    GoodFiles(s.files) && forall c :: c in s.tasks ==> GoodTask(s.tasks[c], s.files.approvals)
  }

  lemma DraftIsGood(a: ProposeArgs, approvals: seq<Signature>)
    requires Decidable(a) && CleanArgs(a)
    ensures GoodDoc(Draft(a, approvals))
  {
  }

  lemma AppendKeepsGoodFiles(f: Files, more: seq<Signature>, e: Event)
    requires GoodFiles(f)
    requires forall s :: s in more ==> GoodSignature(s)
    requires e.Enqueued? ==> GoodPair(e.doc, e.signature, f.approvals) && e.run.proposalId == e.doc.id
    ensures GoodFiles(f.(approvals := f.approvals + more))
    ensures GoodFiles(f.(events := f.events + [e]))
  {
    forall x | x in f.events + [e] && x.Enqueued?
      ensures GoodPair(x.doc, x.signature, f.approvals) && x.run.proposalId == x.doc.id
    {
      assert x in f.events || x == e;
    }
  }

  ghost predicate StaysGood(f: Files, f': Files, t': Task) {
    GoodFiles(f') && GoodTask(t', f'.approvals) && forall s :: s in f.approvals ==> s in f'.approvals
  }

  lemma ProposeKeepsGood(me: nat, t: Task, f: Files)
    requires t.ProposeReadDoc? || t.ProposeReadClaim? || t.ProposeReadSignature? || t.ProposeWrite?
    requires GoodFiles(f) && GoodTask(t, f.approvals)
    ensures StaysGood(f, Advance(me, t, f).0, Advance(me, t, f).1)
  {
    match t
    case ProposeReadClaim(a, _) => if Decidable(a) { DraftIsGood(a, []); }
    case ProposeReadSignature(a) => if Decidable(a) { DraftIsGood(a, f.approvals); }
    case _ =>
  }

  lemma ReleaseKeepsGood(me: nat, t: Task, f: Files)
    requires t.ReleaseReadDoc? || t.ReleaseReadClaim? || t.ReleaseUnlink? || t.ReleaseLog? || t.ReleaseWrite?
    requires GoodFiles(f) && GoodTask(t, f.approvals)
    ensures StaysGood(f, Advance(me, t, f).0, Advance(me, t, f).1)
  {
    if t.ReleaseUnlink? && f.lock.Held? { AppendKeepsGoodFiles(f, [], Released(f.lock.inode, f.lock.claim)); }
  }

  lemma SubmitKeepsGood(me: nat, t: Task, f: Files)
    requires t.DispatchSubmit? && GoodFiles(f) && GoodTask(t, f.approvals)
    ensures StaysGood(f, Advance(me, t, f).0, Advance(me, t, f).1)
  {
    var e := Enqueued(me, RunOf(t.da, t.doc, t.signature), t.doc, t.signature, t.da.submits.QueuedThenRaised?);
    AppendKeepsGoodFiles(f, [], e);
  }

  lemma DispatchKeepsGood(me: nat, t: Task, f: Files)
    requires t.DispatchReadDoc? || t.DispatchReadSignature? || t.DispatchClaim? || t.DispatchStamp?
             || t.DispatchSubmit? || t.DispatchRollback? || t.DispatchLog? || t.DispatchWrite?
    requires GoodFiles(f) && GoodTask(t, f.approvals)
    ensures StaysGood(f, Advance(me, t, f).0, Advance(me, t, f).1)
  {
    if t.DispatchSubmit? { SubmitKeepsGood(me, t, f); }
  }

  lemma AdvanceKeepsGood(me: nat, t: Task, f: Files)
    requires GoodFiles(f) && GoodTask(t, f.approvals)
    ensures StaysGood(f, Advance(me, t, f).0, Advance(me, t, f).1)
  {
    match t
    case ApproveReadDoc(_) =>
    case ApproveAppend(a, doc) => AppendKeepsGoodFiles(f, [Sign(a, doc)], Released(0, None));
    case ApproveWrite(_, _) =>
    case Ended =>
    case ProposeReadDoc(_) => ProposeKeepsGood(me, t, f);
    case ProposeReadClaim(_, _) => ProposeKeepsGood(me, t, f);
    case ProposeReadSignature(_) => ProposeKeepsGood(me, t, f);
    case ProposeWrite(_) => ProposeKeepsGood(me, t, f);
    case ReleaseReadDoc(_) => ReleaseKeepsGood(me, t, f);
    case ReleaseReadClaim(_, _) => ReleaseKeepsGood(me, t, f);
    case ReleaseUnlink(_, _, _) => ReleaseKeepsGood(me, t, f);
    case ReleaseLog(_, _, _) => ReleaseKeepsGood(me, t, f);
    case ReleaseWrite(_, _, _) => ReleaseKeepsGood(me, t, f);
    case _ => DispatchKeepsGood(me, t, f);
  }

  lemma MoreApprovalsKeepGood(t: Task, approvals: seq<Signature>, more: seq<Signature>)
    requires GoodTask(t, approvals) && forall s :: s in approvals ==> s in more
    ensures GoodTask(t, more)
  {
  }

  lemma NextKeepsGood(s: Sys, act: Action, ruled: bool)
    requires Good(s) && CleanAction(act)
    ensures Good(Next(s, act, ruled))
  {
    var s' := Next(s, act, ruled);
    if act.Go? && act.id in s.tasks {
      AdvanceKeepsGood(act.id, s.tasks[act.id], s.files);
      forall c | c in s'.tasks ensures GoodTask(s'.tasks[c], s'.files.approvals) {
        if s' != s && c != act.id { MoreApprovalsKeepGood(s.tasks[c], s.files.approvals, s'.files.approvals); }
      }
    }
  }

  lemma {:induction false} GoodHolds(acts: seq<Action>, ruled: bool)
    requires CleanActions(acts)
    ensures Good(Exec(acts, ruled))
    decreases |acts|
  {
    if acts != [] {
      GoodHolds(acts[..|acts| - 1], ruled);
      NextKeepsGood(Exec(acts[..|acts| - 1], ruled), acts[|acts| - 1], ruled);
    }
  }

  lemma SameIdSameInventory(id: string, s1: string, a: seq<string>, s2: string, b: seq<string>)
    requires Identified(id, s1, a) && Identified(id, s2, b)
    ensures s1 == s2 && multiset(a) == multiset(b)
  {
    FingerprintNamesTheInventory(s1, a, s2, b);
  }

  lemma PrefixIsSubmultiset(s: seq<string>, n: nat)
    requires n <= |s|
    ensures multiset(s[..n]) <= multiset(s)
  {
    assert s == s[..n] + s[n..];
  }

  /** In every interleaving, ruled or not: each launch carries a signature from the approvals log,
      for the same named remediation and the same multiset of findings as the proposal it was queued for, and
      is briefed on nothing that was not signed. */
  lemma SignedInventoryIsDispatchedInventory(acts: seq<Action>, ruled: bool, e: Event)
    requires CleanActions(acts)
    requires e in Exec(acts, ruled).files.events && e.Enqueued?
    ensures e.signature in Exec(acts, ruled).files.approvals
    ensures e.run.proposalId == e.doc.id == e.signature.proposalId
    ensures e.signature.action.name == e.doc.action.name
    ensures multiset(e.signature.checkIds) == multiset(e.doc.checkIds)
    ensures multiset(Brief(e.doc)) <= multiset(e.signature.checkIds)
  {
    GoodHolds(acts, ruled);
    SameIdSameInventory(e.doc.id, e.signature.action.name, e.signature.checkIds, e.doc.action.name, e.doc.checkIds);
    if |e.doc.checkIds| > GOAL_INVENTORY_LIMIT { PrefixIsSubmultiset(e.doc.checkIds, GOAL_INVENTORY_LIMIT); }
  }

  // ---- the spec that is launched ------------------------------------------------------------

  /** The spec a call reloads for its own dispatch; None when the file is missing or nothing is dispatched. */
  function SpecOf(t: Task): Option<Remediation> {
    match t
    case ApproveReadDoc(a) => SpecOfApproval(a)
    case ApproveAppend(a, _) => SpecOfApproval(a)
    case ApproveWrite(a, _) => SpecOfApproval(a)
    case DispatchReadDoc(a) => a.spec
    case DispatchReadSignature(a, _) => a.spec
    case DispatchClaim(a, _, _) => a.spec
    case DispatchStamp(a, _, _) => a.spec
    case DispatchSubmit(a, _, _) => a.spec
    case DispatchRollback(a, _, _) => a.spec
    case DispatchLog(a, _, _) => a.spec
    case DispatchWrite(a, _, _) => a.spec
    case _ => None
  }

  function SpecOfApproval(a: ApproveArgs): Option<Remediation> { if a.dispatch.Some? then a.dispatch.value.spec else None }

  /** What call `c` finds when it reloads the spec. */
  function SpecReadBy(acts: seq<Action>, ruled: bool, c: nat): Option<Remediation>
    decreases |acts|
  {
    if acts == [] then None
    else
      var front, last := acts[..|acts| - 1], acts[|acts| - 1];
      if last.Arrive? && last.id == c && c !in Exec(front, ruled).tasks && IsStart(last.task) then SpecOf(last.task)
      else SpecReadBy(front, ruled, c)
  }

  predicate Loading(t: Task) {
    t.ApproveReadDoc? || t.ApproveAppend? || t.ApproveWrite? || t.DispatchReadDoc? || t.DispatchReadSignature?
  }

  predicate Loaded(t: Task) { t.DispatchClaim? || t.DispatchStamp? || t.DispatchSubmit? }

  /** A call that may still dispatch carries the spec it reloads. */
  predicate Carries(t: Task, spec: Option<Remediation>) {
    (Loaded(t) || Loading(t) ==> SpecOf(t) == spec) && (Loaded(t) ==> spec.Some?)
  }

  lemma AdvanceCarries(me: nat, t: Task, f: Files, spec: Option<Remediation>)
    requires Carries(t, spec)
    ensures Carries(Advance(me, t, f).1, spec)
    ensures forall e :: e in Advance(me, t, f).0.events && e !in f.events && e.Enqueued? ==>
              e.caller == me && spec == Some(e.run.action)
  {
  }

  ghost predicate SpecsCarried(acts: seq<Action>, ruled: bool) {
    var s := Exec(acts, ruled);
    && (forall c :: c in s.tasks ==> Carries(s.tasks[c], SpecReadBy(acts, ruled, c)))
    && (forall e :: e in s.files.events && e.Enqueued? ==>
          e.caller in s.tasks && SpecReadBy(acts, ruled, e.caller) == Some(e.run.action))
  }

  lemma {:induction false} SpecsAreCarried(acts: seq<Action>, ruled: bool)
    ensures SpecsCarried(acts, ruled)
    decreases |acts|
  {
    if acts != [] {
      var front, act := acts[..|acts| - 1], acts[|acts| - 1];
      SpecsAreCarried(front, ruled);
      var s := Exec(front, ruled);
      if act.Go? && act.id in s.tasks {
        AdvanceCarries(act.id, s.tasks[act.id], s.files, SpecReadBy(front, ruled, act.id));
      }
    }
  }

  /** The action launched is the one recorded with the signature exactly when the dispatching call reloads
      that action; its name is the signed one exactly when the call reloads the name the proposal shows. */
  lemma LaunchedActionIsSignedExactlyWhen(acts: seq<Action>, ruled: bool, e: Event)
    requires CleanActions(acts)
    requires e in Exec(acts, ruled).files.events && e.Enqueued?
    ensures e.signature in Exec(acts, ruled).files.approvals
    ensures e.run.action == e.signature.action <==> SpecReadBy(acts, ruled, e.caller) == Some(e.signature.action)
    ensures e.run.action.name == e.signature.action.name <==>
            SpecReadBy(acts, ruled, e.caller).Some? && SpecReadBy(acts, ruled, e.caller).value.name == e.doc.action.name
  {
    SpecsAreCarried(acts, ruled);
    SignedInventoryIsDispatchedInventory(acts, ruled, e);
  }
}

/** The documents the docs-remediation gate keeps on disk, and the fingerprint that binds a
    signature to a list of findings. */
module GateFiles {
  import opened Text

  datatype ProposalState = NoProposal | Warranted | Approved | InFlight | Completed | Failed

  datatype Mode = Fleet | Command

  /** The remediation as its spec file has it: its name, and the rest of the action the documents record
      (path, model, budget, attempts and phases). */
  datatype Remediation = Remediation(name: string, rest: string)

  /** One line of `approvals.jsonl`, with the action the proposal showed when it was signed. */
  datatype Signature = Signature(at: nat, proposalId: string, signer: string, action: Remediation, checkIds: seq<string>)

  /** `action` is the remediation as the dispatching call reloads it. */
  datatype Run = Run(proposalId: string, at: nat, action: Remediation, mode: Mode, approvedBy: string, approvedAt: nat)

  /** One line of `runs.jsonl`. A claim that could not be read is recorded without its run. */
  datatype RunRow = RunRow(run: Option<Run>, status: ProposalState)

  /** `proposal.json`. The empty id means that nothing is proposed. */
  datatype Proposal = Proposal(
    state: ProposalState, id: string, action: Remediation, checkIds: seq<string>, drift: int,
    signature: Option<Signature>, run: Option<RunRow>, at: nat)

  /** `remediation.lock`. The file's existence is the lock; `inode` tells which call created it,
      and a claim of None is a lock whose contents are not there yet. */
  datatype Lock = Free | Held(inode: nat, claim: Option<Run>)

  /** What leaves the gate: a job put on the fleet queue together with the two documents it was
      queued under, and a lock dropped by `release` together with what the lock held. `raised` marks
      a job that was queued although its submit raised. */
  datatype Event =
    | Enqueued(caller: nat, run: Run, doc: Proposal, signature: Signature, raised: bool)
    | Released(inode: nat, claim: Option<Run>)

  datatype Files = Files(
    proposal: Proposal, approvals: seq<Signature>, runs: seq<RunRow>, lock: Lock, events: seq<Event>)

  const GOAL_INVENTORY_LIMIT: nat := 25

  const NO_ACTION := Remediation("", "")

  const EMPTY_PROPOSAL := Proposal(NoProposal, "", NO_ACTION, [], 0, None, None, 0)

  const EMPTY_FILES := Files(EMPTY_PROPOSAL, [], [], Free, [])

  predicate Standing(state: ProposalState) { state.Warranted? || state.Approved? }

  function Newest(approvals: seq<Signature>): Option<Signature> {
    if approvals == [] then None else Some(approvals[|approvals| - 1])
  }

  /** `read_approval(...).get("proposal_id") == id` */
  predicate NewestNames(approvals: seq<Signature>, id: string) {
    approvals != [] && approvals[|approvals| - 1].proposalId == id
  }

  /** The finding rows a dispatched brief is written from. */
  function Brief(p: Proposal): seq<string> {
    if |p.checkIds| <= GOAL_INVENTORY_LIMIT then p.checkIds else p.checkIds[..GOAL_INVENTORY_LIMIT]
  }

  // ---- the fingerprint ----------------------------------------------------------------

  /** The payload `compute_proposal_id` hashes; the hash is taken to be injective, so the payload
      stands for it. */
  function Fingerprint(spec: string, checkIds: seq<string>): string {
    spec + "\n" + JoinLines(Sorted(checkIds))
  }

  /** The two inventories that print as the empty text. */
  predicate Blank(ids: seq<string>) { ids == [] || ids == [""] }

  lemma SortedKeepsOneLine(ids: seq<string>)
    ensures AllOneLine(Sorted(ids)) <==> AllOneLine(ids)
  {
    var s := Sorted(ids);
    StableSortPermutes(Itself, ids);
    forall i | 0 <= i < |s| ensures s[i] in ids { assert s[i] in multiset(s); }
    forall i | 0 <= i < |ids| ensures ids[i] in s { assert ids[i] in multiset(ids); }
  }

  lemma JoinIsEmptyOnlyOnBlank(ids: seq<string>)
    requires AllOneLine(ids) && JoinLines(Sorted(ids)) == ""
    ensures Blank(ids)
  {
    if ids != [] {
      SortedKeepsOneLine(ids);
      StableSortPermutes(Itself, ids);
      SplitUndoesJoin(Sorted(ids));
      assert Sorted(ids) == SplitLines("") == [""];
      assert |ids| == 1 && ids[0] in multiset([""]);
    }
  }

  lemma FingerprintParts(s1: string, a: seq<string>, s2: string, b: seq<string>)
    requires OneLine(s1) && OneLine(s2)
    requires Fingerprint(s1, a) == Fingerprint(s2, b)
    ensures s1 == s2 && JoinLines(Sorted(a)) == JoinLines(Sorted(b))
  {
    var p, q := JoinLines(Sorted(a)), JoinLines(Sorted(b));
    NewlineAfter(s1, p);
    NewlineAfter(s2, q);
    var f := Fingerprint(s1, a);
    assert f == Fingerprint(s2, b);
    assert f[..|s1|] == s1 && f[..|s2|] == s2;
    assert f[|s1| + 1..] == p && f[|s2| + 1..] == q;
  }

  /** Two proposals share an id exactly when they name the same spec and the same multiset of
      findings, the order never mattering; the one collision among one-line ids is no finding
      against a single finding whose id is the empty text. */
  lemma FingerprintNamesTheInventory(s1: string, a: seq<string>, s2: string, b: seq<string>)
    requires OneLine(s1) && OneLine(s2) && AllOneLine(a) && AllOneLine(b)
    ensures Fingerprint(s1, a) == Fingerprint(s2, b) <==>
            s1 == s2 && (multiset(a) == multiset(b) || (Blank(a) && Blank(b)))
  {
    SortedIsTheMultiset(a, b);
    SortedKeepsOneLine(a);
    SortedKeepsOneLine(b);
    StableSortPermutes(Itself, a);
    StableSortPermutes(Itself, b);
    assert Blank(a) ==> JoinLines(Sorted(a)) == "";
    assert Blank(b) ==> JoinLines(Sorted(b)) == "";
    if Fingerprint(s1, a) == Fingerprint(s2, b) {
      FingerprintParts(s1, a, s2, b);
      if a == [] {
        JoinIsEmptyOnlyOnBlank(b);
      } else if b == [] {
        JoinIsEmptyOnlyOnBlank(a);
      } else {
        SplitUndoesJoin(Sorted(a));
        SplitUndoesJoin(Sorted(b));
      }
    }
  }

  /** Without the one-line condition the fingerprint does not tell inventories apart. */
  lemma NewlineInAnIdCollides(spec: string)
    ensures Fingerprint(spec, ["a\nb"]) == Fingerprint(spec, ["a", "b"])
    ensures multiset(["a\nb"]) != multiset(["a", "b"])
  {
    assert StrLe("a", "b");
    assert Sorted(["b"]) == ["b"] by { assert ["b"][1..] == []; }
    assert Sorted(["a", "b"]) == ["a", "b"] by { assert ["a", "b"][1..] == ["b"]; }
    assert Sorted(["a\nb"]) == ["a\nb"];
    assert JoinLines(["a", "b"]) == "a\nb" by { assert ["a", "b"][1..] == ["b"]; }
    assert |multiset(["a\nb"])| == 1 && |multiset(["a", "b"])| == 2;
  }
}

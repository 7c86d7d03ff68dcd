# Evidence and control rail: a verified model

The scripts modelled here keep a repository of experiments honest: they gate a paid
docs-remediation run, compact an append-only registry, score confidence as a predictor, pool
campaign ledgers, schedule cells over models, journal commands, generate instruction files, follow
imports, relay session logs and hold a drift flag. Most of what can go wrong in them spans several
calls, several callers or a whole history, so the results below are about every input, every run
and every interleaving.

Where the script changes files, a queue or an array step by step, a class or a method with loops
does the same and is proved against a function; the properties are lemmas about that function.

| modules | what they cover |
|---|---|
| `Text`, `Lists`, `Decimals` | strings as the scripts compare, sort, join and print them; list comprehensions and grouping |
| `GateFiles`, `GateSteps` | the gate's four files, and its operations cut at every file access and at submit |
| `GateSafety`, `GateRule`, `GateInventory`, `GateWitness` | what holds in every interleaving, the exact release rule, and traces showing where the guarantees stop |
| `GateOps`, `GateClass` | the operations run whole, their place among the interleavings, and the imperative form |
| `GateTables` | what each verb does and when, field by field, and how the files agree |
| `Merge`, `Registry`, `RegistryBuild`, `RegistryReport`, `RegistryOpen`, `RegistryRaises`, `RegistryGuards`, `RegistryWitness` | the registry log: merging, lifecycle, heads, compaction, what is reported of each version, open versions, when it raises, drain guards |
| `Sums`, `RankSum`, `RankSumAuc` | the rank-sum statistic and its in-place tie loop |
| `Pooling` | identity-aware pooling with its audit trail |
| `RoundRobin`, `Schedule`, `Enqueue` | provider spread and interleaving |
| `Reorder` | re-interleaving a waiting lane so that neighbours differ in provider |
| `FillQueue`, `FillSteps`, `FillNames`, `FillOverlap`, `FillWitness` | the two queue lanes; fills, re-interleavings, workers and resets cut at every Redis call; which ids wait twice; runs in which cells are doubled or lost |
| `Journal` | the suffix-keyed command journal |
| `Positional`, `Frontmatter`, `Surfaces` | the instruction generator: round trips, rendering, writing and the drift check |
| `Closure` | the transitive import closure |
| `Relay`, `RelayWitness` | relay threads with stored cursors, and runs in which they lose or repeat lines |
| `Watchdog` | the edge-triggered drift flag |

## Where the code and its own words differ

The model follows the code; each difference has a proved condition.

- `scripts/docs_proposal_gate.py:1097` promises one launch per proposal, ever. After a release, the
  same findings proposed again adopt the spent signature (`:993-996`) and can be launched again.
  `GateWitness.OneSignatureLaunchesTwice` gives the run, `GateOps.OncePerProposalExactlyWhen` says
  which call breaks the promise, and the bound that always holds is one launch, plus releases, plus
  submits that raised after queueing.
- `scripts/docs_proposal_gate.py:1107-1109` says that a failed enqueue leaves no running work. The fleet
  submit pushes the job and then writes its board record (`scripts/fleet/fleet_manager.py:1129-1130`),
  so it can raise with the job on the queue, and the claim that is rolled back then guarded a run.
  `GateSafety.AtMostOneRunInEveryInterleaving` says that this is the only way safety is lost.
- The relay's publisher disables itself at its first failure (`src/agentic_dynamics/control/live.py:133-163`),
  and `_relay_once` stores its cursor all the same, so lines can be lost without any failing cursor.
- The control room deletes a session's cursor when it removes or steers the session, while the session's
  relay thread still has a final poll to make; that poll then publishes the log again
  (`RelayWitness.SteeringRepeatsTheLog`). `Relay.PublishedLinesAreAPrefixOfTheLog` allows such a deletion
  only where nothing reads the cursor before it is stored again, and
  `Relay.ADeletedCursorRepeatsExactlyWhen` says when such a read repeats lines.
- A rebuild of the queue reads, deletes and re-pushes without a lock, and a re-interleaving reads before
  the transaction that `src/agentic_dynamics/control/queue_reinterleave.py:121` calls atomic. `FillSteps`
  says what workers, other fills and resets in between cost.
- The queued-aware skip (`scripts/enqueue.py:78-80`) is meant to keep a cell from being queued twice. A
  worker that is denied admission and the re-drive of a dead letter put cells back without looking:
  `FillWitness.ARequeueQueuesTwice` is a run with fills strictly one at a time, and
  `FillNames.OneFillAtATimeQueuesNothingTwice` and `FillOverlap.OverlappingFillsQueueNothingTwice` are
  the exact rules for fills one at a time and for fills that overlap.
- The journal's `accepted` state is passed over by the next begin like a failure
  (`Journal.AnAcceptedAttemptIsDoubled`). Nothing in the repository sets it today.
- An approval covers the remediation's name and the findings. Proposed again with another model or budget
  in the spec file, the proposal keeps its id and its old signature
  (`GateWitness.ARemodelledSpecKeepsItsSignature`).
- `scripts/confidence_cascade_retrospective.py:367` pairs the group id of entry k with the size of
  group k, so some tie groups keep unaveraged ranks. `RankSumAuc.TheLoopMissesATie` is an input
  where the statistic is wrong; `RankSumAuc.HalfCreditExactlyWhen` says when it is right.
- `scripts/aggregate_workflow_metrics.py:644` calls the merged list sorted; it is in order of first
  appearance.
- `scripts/_gen_instructions.py:206-207` calls the split lossless. It is when, and only when, every header
  line ends in a newline: `Frontmatter.LosslessExactlyWhen`.
- Compaction does not leave at most one version current, and a closed version can open again:
  `RegistryWitness` holds small logs, and `RegistryOpen.AtMostOneCurrentExactlyWhen` and
  `RegistryOpen.BecomesCurrentExactlyWhen` are the exact rules.
- Merging the halves of a log separately loses fields when the second half starts older than the
  first ends: `Merge.MergingHalvesExactlyWhen`.

## Assumptions

- SHA-256 is taken to be injective: a proposal id is the fingerprint payload itself.
- A release does not drop the lock of a fleet launch that may still submit or roll back. This is the
  operators' discipline, not something the script checks; `GateWitness` shows two ways it fails without
  it, and `GateRule.ReleaseIsUnsafeExactlyWhenTheHolderMaySpend` that it is exactly what is needed.
- `FillQueue` takes fills one after another, each as a whole; `FillSteps` drops that assumption.
- The control database records an intent and an outcome atomically; it is not part of this model beyond
  the transitions it allows.
- Session logs grow by whole lines. The client that fetches them calls its answer a bounded recent tail
  (`apps/control_room/clients/claude_agents_client.py:239`): once that tail is full its line count stops
  growing, and the relay publishes nothing more.
- One supervisor process at a time. The script's `--once` beside the running service, or a second service,
  keeps a registry of its own, and a session can then have a relay thread in each.
- Which lane a cell is put back on, and which cells are re-driven, is left open: any cell a worker has taken,
  either lane, either end.
- Numbers in the rank statistic are exact; rounding is not modelled.

## Model

| member | source | states |
|---|---|---|
| GateFiles.FingerprintNamesTheInventory | scripts/docs_proposal_gate.py:443-460 | two fingerprints of one-line names and ids agree exactly when the specs are equal and the check ids agree as multisets, except that no id and one empty id look alike |
| GateFiles.NewlineInAnIdCollides | scripts/docs_proposal_gate.py:459 | an id holding a newline collides with two ids |
| GateSafety.AtMostOneRunInEveryInterleaving | scripts/docs_proposal_gate.py:642-675 | in every interleaving of any number of callers, with stale reads, failing and raising submits and deaths, under the release rule: between two launches the first one's lock was released unless its submit had raised; and at most one enqueued run is unreleased, with the lock naming it, exactly when no job was rolled back after its submit had queued it |
| GateSafety.SafeExactlyWhenNoQueuedRunIsDropped | scripts/docs_proposal_gate.py:1216-1226 | the same from any state in which every run is kept: what follows is safe exactly as long as no step rolls back a job that its own submit had queued |
| GateRule.CertainSubmitsKeepTheClaim | scripts/docs_proposal_gate.py:642-675 | where a submit that raises has queued nothing, at most one run is unreleased and the lock names it, in every interleaving |
| GateSafety.LaunchesNeverExceedReleasesByMoreThanOne | scripts/docs_proposal_gate.py:1097-1107 | in every interleaving the launches of a proposal never exceed one, plus the releases of its runs, plus its submits that raised after queueing |
| GateRule.ReleaseIsUnsafeExactlyWhenTheHolderMaySpend | scripts/docs_proposal_gate.py:1453 | from a state in which every run is kept, dropping the lock can be followed by an unsafe state, with no queued job rolled back, exactly when the holder is a fleet launch that may still submit or roll back |
| GateInventory.SignedInventoryIsDispatchedInventory | scripts/docs_proposal_gate.py:1150-1161 | in every interleaving, with or without the release rule, a launch's signature and its proposal name the same remediation and the same multiset of check ids, and the brief shows the first of them |
| GateInventory.LaunchedActionIsSignedExactlyWhen | scripts/docs_proposal_gate.py:1172 | the action a launch is queued with (name, path, model, budget and phases) is the one recorded with its signature exactly when the dispatching call reloads that action from the spec file; its name is the signed one exactly when the reloaded name is the one the proposal shows |
| GateWitness.OneSignatureLaunchesTwice | scripts/docs_proposal_gate.py:993-996 | a run of whole calls in which one signature launches one proposal twice |
| GateWitness.ARaisedSubmitLaunchesTwice | scripts/fleet/fleet_manager.py:1129-1130 | a submit queues its job and raises, the claim is rolled back, and the next dispatch launches a second run, with nothing released |
| GateWitness.ARewrittenSpecIsLaunched | scripts/docs_proposal_gate.py:1172 | a spec rewritten under another name after the signature is launched under it |
| GateWitness.ARemodelledSpecKeepsItsSignature | scripts/docs_proposal_gate.py:993-996 | a spec file with another model is proposed again, adopts the old signature, and is launched as the proposal shows it and the signature does not |
| GateWitness.EarlyReleaseLaunchesTwice | scripts/docs_proposal_gate.py:1453 | releasing under a dispatch that has not submitted yet leaves two unreleased runs |
| GateWitness.EarlyReleaseLetsARollbackDropAnotherClaim | scripts/docs_proposal_gate.py:1218-1227 | the rollback unlink drops another run's lock after an early release |
| GateOps.WholeIsItsSteps | scripts/docs_proposal_gate.py:850-1021 | each whole operation leaves the files its own steps leave when nothing comes between |
| GateOps.WholeRunsAreInterleavings | scripts/docs_proposal_gate.py:1085-1266 | a list of whole operations is one of the interleavings, and the release rule never stops it |
| GateOps.EveryWholeRunIsSettled | scripts/docs_proposal_gate.py:924-941 | over every run of whole operations: the lock exists exactly while the state is in flight, a standing proposal is approved exactly when the newest signature names it, the runs log counts the launches whose submit did not raise, and launches never exceed one plus releases plus raised submits |
| GateOps.EnqueuesExactlyWhen | scripts/docs_proposal_gate.py:1135-1242 | a call queues a job exactly when an approved proposal is dispatched, or a standing one signed and dispatched, with a valid workdir, mode and spec and a submit that queues; then it is one job, under the newest signature, which names the proposal, and the call reports it exactly when the submit did not raise |
| GateOps.OncePerProposalExactlyWhen | scripts/docs_proposal_gate.py:1097 | a call ends the at-most-once promise exactly when it launches a proposal with a launch on the runs log, or with a queued job whose submit raised and that no row records |
| GateClass.Gate.ClaimRun | scripts/docs_proposal_gate.py:642-659 | the claim is taken exactly when no lock exists, and nothing else changes |
| GateClass.Gate.ReleaseClaim | scripts/docs_proposal_gate.py:662-675 | the lock is dropped, whoever holds it, and what it held is returned |
| GateClass.Gate.Propose | scripts/docs_proposal_gate.py:850-1021 | an unmeasured report, a missing spec or a run in flight leaves all as it is; otherwise the document is withdrawn at or below the threshold, and above it carries the fingerprint, already approved when the newest signature names it; a settled gate stays settled |
| GateClass.Gate.Dispatch | scripts/docs_proposal_gate.py:1085-1266 | the refusals in their order, the claim, the rollback of a submit that raised, with or without its job on the queue, and else the launch: lock, runs log and document name one run under the newest signature; a settled gate stays settled |
| GateClass.Gate.Approve | scripts/docs_proposal_gate.py:1274-1404 | nothing is signed while a run is in flight, no proposal stands or another id is echoed; otherwise one signature for the standing inventory is appended, the document approved, and dispatch follows when asked for; a settled gate stays settled |
| GateClass.Gate.Release | scripts/docs_proposal_gate.py:1412-1475 | without a lock or with a non-terminal status nothing changes; otherwise the lock is dropped, and runs log and document close the run it named; a settled gate stays settled |
| GateTables.ApproveSignsExactlyWhen | scripts/docs_proposal_gate.py:1330-1404 | `approve` appends a signature exactly when a warranted or approved proposal with an id stands, no other id is echoed and it is no dry run; the signature carries that proposal's id, action and findings; otherwise every file stays as it was |
| GateTables.ApproveIsRefusedFor | scripts/docs_proposal_gate.py:1318-1393 | which refusal an approve meets, or what it answers when it signs without dispatching |
| GateTables.AStaleEchoIsRefused | scripts/docs_proposal_gate.py:1342-1351 | echoing an id that no longer stands is refused and signs nothing |
| GateTables.EverySignatureIsTheEchoedOne | scripts/docs_proposal_gate.py:1342-1362 | in every interleaving, a step that changes the approvals log belongs to a call that arrived as an approve and no dry run, adds one signature in its name, and names the echoed id if one was echoed |
| GateTables.DispatchLaunchesExactlyWhen | scripts/docs_proposal_gate.py:1135-1266 | when a dispatch launches, in terms of the fields before the call; what lock, runs log, proposal and queue then hold; what a raised submit leaves; and that nothing changes otherwise |
| GateTables.DispatchIsRefusedFor | scripts/docs_proposal_gate.py:1135-1171 | which refusal a dispatch meets first |
| GateTables.ProposeWritesExactlyWhen | scripts/docs_proposal_gate.py:916-1015 | when `propose` rewrites the document and every field it then holds |
| GateTables.ProposeReports | scripts/docs_proposal_gate.py:895-1015 | the outcome of every proposing call |
| GateTables.ReleaseClosesExactlyWhen | scripts/docs_proposal_gate.py:1412-1475 | a run is closed exactly when a lock is held and the status is a final one; lock, runs log and document afterwards |
| GateTables.EveryLaunchWasAllowed | scripts/docs_proposal_gate.py:1135-1200 | in every interleaving, a queued run was dispatched for a standing proposal, under a signature that names it, and records that signature's signer and time |
| GateTables.TheFilesAgree | scripts/docs_proposal_gate.py:1229-1262 | in every interleaving, the signature and the run that the proposal shows are on file, and a fleet run that the runs log records as launched was queued |
| GateTables.BriefIsTheFirst | scripts/docs_proposal_gate.py:840 | a brief lists the first twenty-five findings in order |
| Merge.MergeKeepsTheLastSupplied | scripts/generate_manifest.py:172-189 | each field of a merged version is the last non-null value over the lines that are running maxima of `indexed_at` |
| Merge.ALineCountsExactlyWhen | scripts/generate_manifest.py:80-97 | a line counts exactly when it is an object whose version id and entity id are non-empty texts |
| Merge.MergesRunningMaxima | scripts/generate_manifest.py:180-189 | a line is merged exactly when it is at least as late as every line before it |
| Merge.MergedStampIsTheLatest | scripts/generate_manifest.py:180-189 | the merged `indexed_at` is the latest of all lines |
| Merge.InOrderNothingIsLost | scripts/generate_manifest.py:172-189 | while `indexed_at` does not decrease, no supplied field is ever lost |
| Merge.MergingHalvesExactlyWhen | scripts/generate_manifest.py:172-189 | merging a concatenation equals merging the merged halves, for all fields such halves may carry, exactly when the halves fit by their stamps |
| Registry.LearnAllMergesPerVersion | scripts/generate_manifest.py:172-189 | the first pass holds, for each version id, the merge of exactly that id's lines |
| Registry.LifecycleFromPointersAndTombstones | scripts/generate_manifest.py:100-133 | superseded exactly when some version points to it, with the end the last pointer gives; otherwise tombstoned exactly when its own line says so |
| Registry.HeadCharacterisation | scripts/generate_manifest.py:208-238 | for every log and entity, what a tombstoned, a current and a superseded head mean |
| RegistryBuild.CompactRegistryIndex | scripts/generate_manifest.py:136-269 | the whole two-pass compaction with its tables, buckets and sorts; None where comparing stamps raises |
| RegistryReport.EveryVersionIsReportedAs | scripts/generate_manifest.py:100-133 | for every log: under a tombstoned head an open version is reported superseded, ending where that head begins; every other version with the lifecycle and end that its own row and the last pointer to it give |
| RegistryReport.HeadIsTheLatest | scripts/generate_manifest.py:208-226 | the head is the latest of the tombstones, of the open versions or of all, whichever it is taken from, and of equals the one that appeared last |
| RegistryReport.EntitiesAreReportedInOrder | scripts/generate_manifest.py:269 | entities are reported in the order of their ids, each once |
| RegistryReport.VersionsAreReportedOldestFirst | scripts/generate_manifest.py:210 | versions are reported oldest first |
| RegistryReport.VersionsOfOneStampKeepTheirOrder | scripts/generate_manifest.py:210 | versions of one stamp are reported in order of first appearance |
| RegistryOpen.CurrentExactlyWhen | scripts/generate_manifest.py:208-238 | a version is reported current exactly when nothing points to it, it is no tombstone, and no unsuperseded tombstone of its entity is as late as every version open by itself |
| RegistryOpen.HeadIsATombstoneExactlyWhenCovered | scripts/generate_manifest.py:214-217 | an entity's head is a tombstone exactly when some unsuperseded tombstone is as late as every version open by itself |
| RegistryOpen.AtMostOneCurrentExactlyWhen | scripts/generate_manifest.py:208-238 | an entity reports at most one current version exactly when such a tombstone exists or at most one version is open by itself |
| RegistryOpen.BecomesCurrentExactlyWhen | scripts/generate_manifest.py:208-238 | for any log and any lines appended: a version that was not current becomes current exactly when it had been closed by a pointer, its own tombstone or a covering one, and afterwards is open by itself and uncovered |
| RegistryWitness.TwoUnlinkedVersionsAreBothCurrent | scripts/generate_manifest.py:127-133 | two versions without a pointer between them are both reported current |
| RegistryOpen.AnAppendReopensAClosedVersion | scripts/generate_manifest.py:223-238 | in any log a version its entity's tombstone closed is current again once a later live version without a pointer is appended |
| RegistryWitness.ALaterLineReopensAVersion | scripts/generate_manifest.py:223-238 | three concrete rows for which that happens |
| RegistryGuards.EveryVersionOnce | scripts/generate_manifest.py:272-278 | the compacted registry lists every version id of the valid rows once, in one entity, and its version count is the number of distinct ids |
| RegistryGuards.StampedLogsCompact | scripts/generate_manifest.py:214-217 | compaction never raises when every valid row carries `indexed_at` |
| RegistryRaises.CompactionRaisesExactlyWhen | scripts/generate_manifest.py:214-217 | compaction raises exactly when some entity has tombstones and versions open by themselves, and of one of these kinds no version carries a stamp and the last listed has no `indexed_at` at all |
| RegistryWitness.AnUnstampedVersionRaises | scripts/generate_manifest.py:214-217 | a log of two rows on which compaction raises |
| RegistryGuards.RefusedExactlyWhen | scripts/generate_manifest.py:434-468 | after any history, a write is refused exactly when fewer distinct ids or fewer valid rows are left than at the last write |
| RegistryGuards.WritesExactlyWhen | scripts/generate_manifest.py:434-468 | what a write leaves or reports, with and without `--allow-shrink` |
| RegistryGuards.RecordedCountsNeverFall | scripts/generate_manifest.py:313-367 | over any history without `--allow-shrink` neither recorded count ever falls |
| RegistryGuards.AppendsAreNeverRefused | scripts/generate_manifest.py:434-468 | a pure append is never refused |
| RegistryGuards.PureDeletionIsNeverAccepted | scripts/generate_manifest.py:281-296 | deleting valid rows without replacement is never accepted |
| Sums.GroupRanksAddUp | scripts/confidence_cascade_retrospective.py:372 | in any tournament the ranks of a group of k add up to k(k+1)/2 plus the points it takes from outsiders |
| RankSum.PlaceIsRank | scripts/confidence_cascade_retrospective.py:361-363 | the place a stable sort gives an entry is one plus the number of entries it beats |
| RankSum.AveragingIsSharing | scripts/confidence_cascade_retrospective.py:367-371 | replacing a tie group's ranks by their mean gives each tied pair half a point |
| RankSumAuc.ShareMean | scripts/confidence_cascade_retrospective.py:369-371 | one masked mean assignment on the array |
| RankSumAuc.ScatterRanks | scripts/confidence_cascade_retrospective.py:361-363 | `ranks[order] = 1..n` gives every entry its untied rank |
| RankSumAuc.AverageTies | scripts/confidence_cascade_retrospective.py:366-371 | the tie loop as written averages exactly the groups its index pairing reaches |
| RankSum.AveragedExactlyWhen | scripts/confidence_cascade_retrospective.py:365-371 | a value is averaged exactly when it is that of some entry k while the k-th distinct value occurs more than once |
| RankSum.AucExactlyWhen | scripts/confidence_cascade_retrospective.py:357-360 | there is no statistic exactly when all entries are of one class; otherwise it is the pair credit over the number of pairs |
| RankSumAuc.RankAuc | scripts/confidence_cascade_retrospective.py:355-372 | the in-place computation equals the share of pair credits; None when a class is empty |
| RankSumAuc.RankSumIsPairCredit | scripts/confidence_cascade_retrospective.py:372 | the positive ranks minus n(n+1)/2 are the points positives take from negatives, whichever ties are averaged |
| RankSumAuc.TotalRankIsFixed | scripts/confidence_cascade_retrospective.py:366-371 | averaging any set of tie groups keeps the total rank n(n+1)/2 |
| RankSumAuc.TieFreeCountsWins | scripts/confidence_cascade_retrospective.py:355-372 | without ties the statistic counts the pairs in which the ok one has the higher confidence |
| RankSumAuc.AllTiesGiveHalfCredit | scripts/confidence_cascade_retrospective.py:364-371 | with all ties averaged each tied pair counts one half |
| RankSumAuc.HalfCreditExactlyWhen | scripts/confidence_cascade_retrospective.py:367 | the statistic gives half credit for every labelling exactly when every tie group is averaged |
| RankSumAuc.TheLoopMissesATie | scripts/confidence_cascade_retrospective.py:367 | an input whose tie the loop leaves out |
| RankSumAuc.AucIsAProportion | scripts/confidence_cascade_retrospective.py:372 | the result lies in [0, 1] |
| Pooling.PoolingAccountsForEveryRow | scripts/aggregate_workflow_metrics.py:683-711 | identity-less rows all survive, observable rows are kept once, and a duplicate entry exists exactly for rows met again, with the count and every ledger path |
| Pooling.IdentityLessRowsAllStay | scripts/aggregate_workflow_metrics.py:608-628 | a row whose eight identity fields are all empty is kept as often as it was met and never recorded as a duplicate |
| Pooling.RowsWithAnIdentityAreKeptOnce | scripts/aggregate_workflow_metrics.py:608-628 | a row with any one of the eight is kept once and recorded exactly when met again, with how often |
| Pooling.RowsStayInOrder | scripts/aggregate_workflow_metrics.py:683-711 | rows are kept in the order they are met |
| Pooling.NothingIsLost | scripts/aggregate_workflow_metrics.py:683-711 | rows met are rows kept plus occurrences minus one of each recorded duplicate |
| Pooling.PoolingIgnoresLedgerOrder | scripts/aggregate_workflow_metrics.py:643-723 | permuting the ledgers changes neither the pooled multiset nor the duplicates, their counts and the set of their paths |
| Pooling.PoolRow | scripts/aggregate_workflow_metrics.py:684-711 | one row: kept, or recorded with its provenance |
| Pooling.MergeCorpora | scripts/aggregate_workflow_metrics.py:643-723 | the loop over ledgers pools each campaign's sightings in order |
| RoundRobin.EachLaneKeepsItsOrder | scripts/enqueue.py:234-237 | round robin returns each lane whole and in its own order |
| RoundRobin.EveryPrefixIsFair | scripts/enqueue.py:234-237 | in every prefix a lane is at most one ahead of any other that still has elements |
| RoundRobin.NeighboursDiffer | scripts/enqueue.py:219-223 | two neighbours share a key only when no other key comes later |
| Schedule.SpreadOrderPermutes | scripts/enqueue.py:208-224 | the spread order is a permutation of the models |
| Schedule.ProviderIsBeforeTheSlash | scripts/enqueue.py:204-205 | a model's provider is what stands before its first slash |
| Schedule.NeighboursAreOfTwoProviders | scripts/enqueue.py:208-224 | on names: two adjacent models `p/..` and `q/..` before a model `o/..` with another o have different p and q |
| Schedule.SpreadFollowsThePriorities | scripts/enqueue.py:102 | providers are first met by their priority, those without one in the order given |
| Schedule.AProvidersModelsAreSorted | scripts/enqueue.py:214-215 | a provider's models come in alphabetical order |
| Schedule.NeighboursShareAProviderOnlyAtTheEnd | scripts/enqueue.py:208-224 | two adjacent models share a provider only when no other provider's model comes later |
| Schedule.InterleavePermutes | scripts/enqueue.py:227-238 | no cell is lost, invented or repeated |
| Schedule.InterleaveServesInSpreadOrder | scripts/enqueue.py:227-238 | the models are first served in the spread order |
| Schedule.InterleaveKeepsEachModelsOrder | scripts/enqueue.py:227-238 | each model's cells keep their order |
| Schedule.InterleaveIsFair | scripts/enqueue.py:227-238 | after any number of cells a model has been served at most once more than any other that still has cells |
| Schedule.InterleaveIsIdempotent | scripts/enqueue.py:369-371 | interleaving an interleaved list changes nothing, so a rebuild with no new cells keeps the queue |
| Enqueue.GroupByKey | scripts/enqueue.py:210-212 | the setdefault-append loop groups by key in order of first appearance |
| Enqueue.SpreadModels | scripts/enqueue.py:208-224 | the index-map loop computes the spread order and ends after the total number of models |
| Enqueue.InterleaveCells | scripts/enqueue.py:227-238 | the popleft loop computes the interleaving and ends on the cells left |
| Reorder.RefusedExactlyWhenNoOrderSpreads | src/agentic_dynamics/control/queue_reinterleave.py:54-57 | re-interleaving is refused exactly when no order of the cells at all keeps neighbours of one provider apart, and otherwise its order does |
| Reorder.RefusedExactlyWhenAProviderHoldsMost | src/agentic_dynamics/control/queue_reinterleave.py:69-78 | on names: re-interleaving is refused exactly when some provider has more than half of the cells, rounded up |
| Reorder.ReorderedNeighboursAreOfTwoProviders | src/agentic_dynamics/control/queue_reinterleave.py:54-57 | on names: two neighbours of a re-interleaved lane are of two providers |
| Reorder.TheFullestProviderIsNext | src/agentic_dynamics/control/queue_reinterleave.py:93-102 | at every place stands a cell of the provider with the most cells left, the one before it aside, and of equals the one that appeared first |
| Reorder.ReorderPermutes | src/agentic_dynamics/control/queue_reinterleave.py:59-60 | no job is lost or duplicated |
| Reorder.ReorderKeepsEachProvidersOrder | src/agentic_dynamics/control/queue_reinterleave.py:41-49 | each provider's cells keep their order |
| Reorder.ReinterleaveCells | src/agentic_dynamics/control/queue_reinterleave.py:38-104 | the greedy loop over counts, groups and candidates computes that order, or refuses |
| FillQueue.NoCellWaitsTwice | scripts/enqueue.py:180-188 | over any run of fills, pops, put-backs, re-interleavings and resets one after another, while every fill skips queued cells: at no time does a cell id wait twice, in one lane or across both, exactly when no cell is put back while one of its id waits |
| FillQueue.SelectedExactly | scripts/enqueue.py:180-188 | the skip keeps the order and drops exactly the cells whose id is not empty and waits in a lane |
| FillQueue.FillChanges | scripts/enqueue.py:312-406 | which lane a fill changes, and what joins it |
| FillQueue.LanesAreQueues | scripts/worker.py:339-344 | cells leave a lane in the order they joined; where a cell put back joins; what a reset empties |
| FillQueue.FillingAgainAddsNothing | scripts/enqueue.py:180-188 | a missing-only fill repeated at once selects nothing |
| FillQueue.Lanes.PushCells | scripts/enqueue.py:191-201 | pushing on the left appends to the order in which cells are popped |
| FillQueue.Lanes.Rebuild | scripts/enqueue.py:369-400 | read, delete and re-push with nothing in between: cells are popped in the interleaving of the waiting ones followed by the new ones |
| FillQueue.Lanes.WriteQueue | src/agentic_dynamics/control/queue_reinterleave.py:120-132 | pushing an order on the right, last first, makes it the order in which cells are popped |
| FillQueue.Lanes.ReinterleaveQueue | apps/control_room/routes/telemetry.py:531-535 | the lane is re-interleaved, or left alone where that is refused |
| FillQueue.Lanes.FillLanes | scripts/enqueue.py:312-406 | which lane a fill changes and to what; a fill that asks for batch and interleave is refused and changes nothing |
| FillSteps.AloneIsAfterFill | scripts/enqueue.py:358-406 | a fill's Redis calls with nothing in between do what the whole fill does |
| FillSteps.IdsReadExactlyWhen | scripts/enqueue.py:82-95 | a lane that can be read yields the non-empty ids of its cells, one that cannot yields none |
| FillSteps.TheBooksBalance | scripts/enqueue.py:369-406 | in every interleaving of fills, re-interleavings, pops, requeues, resets and deaths, cut at each Redis call: what fills set out to queue, plus what rewrites queue again, is taken, waiting, about to be queued or lost |
| FillSteps.NothingLostExactlyWhenUndisturbed | scripts/enqueue.py:369-406 | all through a run the cells taken, waiting and about to be queued are, each as often, those that fills set out to queue exactly when every rewrite drops the cells it had read, no lane with cells is reset, and no fill dies with cells to queue |
| FillNames.WillWaitIsAlone | scripts/enqueue.py:358-406 | how often an id waits once a fill's remaining calls are taken alone, from what the fill has read and the lanes hold |
| FillNames.RequeueKeepsOnceExactlyWhen | scripts/worker.py:548-563 | from a state in which no id waits twice, a cell put back makes its id wait twice, now or when the running fill has ended, exactly when the id waits, or the fill is past the read that would have shown it and is to queue it |
| FillNames.OneFillAtATimeQueuesNothingTwice | scripts/enqueue.py:75-95 | while fills run one at a time and skip what is queued, no id waits twice, at any time and with the running fill's remaining calls taken, exactly as long as no cell is put back in that way, wherever between the calls workers pop and put back, lanes are reset and fills die |
| FillOverlap.TwoFillsDoubleExactlyWhen | scripts/enqueue.py:180-188 | two fills that overlap, each wherever it stands: when the first ends and then the second, an id waits twice exactly when the second is past the read that would have shown what the first queues, is to queue the id, and does not drop the lane that holds it |
| FillOverlap.OverlappingFillsQueueNothingTwice | scripts/enqueue.py:180-188 | however many missing-only fills and re-interleavings overlap, and whichever of their reads fail: all through a run each id waits or is about to be queued at most once exactly as long as no fill selects, no rewrite restores and no requeue puts back an id that waits or is about to be queued already |
| FillOverlap.CommittedComesToWait | scripts/enqueue.py:397-406 | once all fills have chosen, what waits and is about to be queued is what waits when they have ended one after another |
| FillWitness.OverlappingFillsQueueTwice | scripts/enqueue.py:180-188 | two fills that both read before either pushes queue a cell twice |
| FillWitness.ARequeueQueuesTwice | scripts/worker.py:548-563 | with fills strictly one at a time, a denied worker puts back a cell that a fill has queued meanwhile |
| FillWitness.ARequeueInsideARebuildIsLost | scripts/fleet/dlq.py:60-73 | a cell put back between a rebuild's read and its delete is gone |
| FillWitness.APopInsideARebuildIsQueuedAgain | scripts/enqueue.py:370-400 | a cell taken between a rebuild's read and its delete is queued again |
| FillWitness.APushInsideARebuildIsLost | scripts/enqueue.py:370-400 | a cell pushed between a rebuild's read and its delete is gone |
| FillWitness.APopInsideAReinterleavingIsQueuedAgain | src/agentic_dynamics/control/queue_reinterleave.py:107-132 | a cell taken between a re-interleaving's read and its transaction waits again |
| Journal.ShareAKeyExactlyWhen | scripts/_command_journal.py:92 | two different acts share a key exactly when one is the other, `#` and a number from 2 to 99 |
| Journal.BeginExactly | scripts/_command_journal.py:90-122 | what a begin answers and adds, from the number and last state of the act's attempts |
| Journal.ANewAttemptExactlyWhen | scripts/_command_journal.py:96-122 | which newest attempts a begin goes past, and that there is never a hundredth |
| Journal.MovesAreThese | src/agentic_dynamics/control/control_db.py:2230-2236 | which outcomes an intent and an accepted command take |
| Journal.FinishRecords | src/agentic_dynamics/control/control_db.py:2293-2315 | an outcome changes the state of its row alone |
| Journal.FinalRowsStay | src/agentic_dynamics/control/control_db.py:2293-2315 | in every run a completed, failed or refused row stays as it is |
| Journal.SpacesAreThese | scripts/_command_journal.py:86 | the characters an anonymous actor consists of |
| Journal.EveryRunNumbersItsAttempts | scripts/_command_journal.py:90-122 | in every run of acts of which none is another with a suffix, an act's suffixes are 1..k and all attempts before the last are past their intent; under `return`, and with no accepted attempt doubled, they failed or were refused |
| Journal.OnlyFailuresAreRetriedExactlyWhen | scripts/_command_journal.py:109-119 | under `return`, all through a run every retry follows a failure or a refusal exactly as long as the act is never begun while its newest attempt stands accepted |
| Journal.AnAcceptedAttemptIsDoubled | src/agentic_dynamics/control/control_db.py:2230-2236 | an accepted attempt is passed over by the next begin, and both attempts are then completed |
| Journal.AtMostOneOpenAttempt | scripts/_command_journal.py:109-113 | of two attempts at one act the earlier is not an intent |
| Journal.NothingFollowsACompletedAttempt | scripts/_command_journal.py:114-118 | under `return`, with no accepted attempt doubled, an act is completed at most once and no attempt follows |
| Journal.AFinishedActAnswersItself | scripts/_command_journal.py:114-118 | under the same conditions a completed act answers every begin with its completed row and gains none |
| Journal.AnOpenAttemptIsResumed | scripts/_command_journal.py:109-113 | an open attempt is handed back by the next begin, not doubled |
| Journal.RefusedExactlyAfterNinetyNine | scripts/_command_journal.py:91-122 | a begin is refused exactly when attempt 99 exists and may not be answered with |
| Journal.AHashInAnActMixesTwoActs | scripts/_command_journal.py:92 | with the acts `a` and `a#2` one act's retry resumes the other act's row |
| Journal.CommandJournal.BeginCommand | scripts/_command_journal.py:52-126 | the suffix loop on the journal, with its argument and availability errors |
| Journal.CommandJournal.FinishCommand | scripts/_command_journal.py:129-145 | an intent takes any outcome and an accepted command a final one, nothing else changes a row, and the answer says whether the outcome was recorded |
| Positional.RoundTripExactlyWithoutDollarZero | scripts/_gen_instructions.py:344-350 | shifting every `$N` up by one undoes the reindexing of exactly the bodies that never say `$0` |
| Positional.APlaceholderMovesDown | scripts/_gen_instructions.py:197 | a placeholder `$N` with N at least one becomes `$` and the number before N |
| Positional.PlainTextStays | scripts/_gen_instructions.py:344-350 | text without `$` is left as it is |
| Positional.AnotherDollarStays | scripts/_gen_instructions.py:197 | so is a `$` that no digit from 1 to 9 follows |
| Decimals.PrintsDigits | scripts/_gen_instructions.py:347-348 | how a number is written in decimal digits |
| Decimals.PrintParse | scripts/_gen_instructions.py:196-197 | a number without leading zeros prints back as it was read |
| Frontmatter.SplitFrontmatter | scripts/_gen_instructions.py:203-222 | the line scan computes the split, or reports an unterminated header |
| Frontmatter.PrintedPartsReturnExactlyWhen | scripts/_gen_instructions.py:203-222 | splitting a printed document returns its fields and body exactly when there is a field, each field stays on one line for `splitlines`, and none is the fence |
| Frontmatter.LosslessExactlyWhen | scripts/_gen_instructions.py:206-207 | printing the parts of a header gives the document back exactly when the header has a field and its lines and the closing line end in a newline |
| Frontmatter.AnUnendedFenceIsNotPrintedBack | scripts/_gen_instructions.py:206-207 | a closing line without its newline is accepted, and lost |
| Frontmatter.ScalarIsTheFirst | scripts/_gen_instructions.py:225-233 | a scalar comes from the first line that gives its key a value; there is none exactly when no line does |
| Frontmatter.BreaksAreThese | scripts/_gen_instructions.py:212 | the characters a document is split at |
| Frontmatter.LineEndsAfterItsBreak | scripts/_gen_instructions.py:212 | a line ends after its first break, a carriage return and a newline together being one break, a carriage return before anything else too |
| Frontmatter.RenderedAgentKeepsExactly | scripts/_gen_instructions.py:319-329 | a rendered agent splits into its name, its description and the untouched body exactly when both values stay on one line |
| Frontmatter.RenderedCommandReturnsExactly | scripts/_gen_instructions.py:332-341 | a rendered command splits into its description alone and a body that shifts back to the source exactly when the description stays on one line and the body never says `$0` |
| Surfaces.NothingReportedExactlyWhen | scripts/_gen_instructions.py:506-538 | the check has nothing to say exactly when the tree reads as the rendering and holds no orphan |
| Surfaces.GeneratedExactlyWhen | scripts/_gen_instructions.py:476-485 | the eight generated trees |
| Surfaces.ReadTextMeans | scripts/_gen_instructions.py:527 | a carriage return, with or without a newline behind it, is read as one newline |
| Surfaces.WritingConvergesExactlyWhen | scripts/_gen_instructions.py:544-567 | from any tree, a write leaves no drift exactly when no rendered text holds a carriage return |
| Surfaces.WritingTwiceIsWritingOnce | scripts/_gen_instructions.py:544-567 | a second write changes nothing and finds nothing to prune |
| Surfaces.ADroppedRootStaysUnreported | scripts/_gen_instructions.py:552-553 | a root document nobody renders any more is neither pruned nor reported |
| Surfaces.Checkout.FindDrift | scripts/_gen_instructions.py:506-538 | sorted lines without repeats, one for each missing, stale and orphaned path and no other; none exactly when the tree matches |
| Surfaces.Checkout.WriteSurfaces | scripts/_gen_instructions.py:544-567 | the tree afterwards: rendered paths hold what is rendered, files neither rendered nor in a generated tree are as they were; the number written; and the pruned paths, each orphan once |
| Closure.SourceClosure | scripts/build_data.py:1738-1820 | exactly the files reached from the entry, sorted and without repeats, on any graph, cycles included |
| Closure.Walk.Visit | scripts/build_data.py:1801-1817 | the recursive visit with its shared seen table ends, adds only reached files, and leaves no import of a new file unseen |
| Closure.OnlyTheEdgesMatter | scripts/build_data.py:1738-1820 | the closure does not depend on the order or repetition of import lines |
| Closure.ClosureOfAMember | scripts/build_data.py:1741-1748 | a member's closure lies within, and files that reach each other have the same one |
| Text.PathOrderIsByParts | scripts/build_data.py:1820 | paths are ordered by their components |
| Relay.AtMostOneLivingRelayPerSession | scripts/claude_agents_supervisor.py:173-197 | within one supervisor, whatever fails, crashes or is deleted, two living threads never relay one session |
| Relay.ReconcileStopsAndStarts | scripts/claude_agents_supervisor.py:156-197 | a reconciliation tells exactly the living threads of sessions beyond the first twenty candidates to stop, leaves every other thread as it is, and starts one for each wanted session without a living one |
| Relay.AStepMoves | scripts/claude_agents_supervisor.py:199-237 | where each step takes a thread and what becomes of its publisher, whichever call fails |
| Relay.AStepPublishes | src/agentic_dynamics/control/live.py:133-163 | a step puts out the line it stands at unless the publisher is silenced or fails early |
| Relay.AStepStores | scripts/claude_agents_supervisor.py:235-236 | a step stores the number of lines behind the last of them, unless the store fails early |
| Relay.PublishedLinesAreAPrefixOfTheLog | scripts/claude_agents_supervisor.py:199-237 | over all of a session's threads, the published lines are its log's first lines, each once and in order, while every cursor is read (or zero anyway), no cursor is read that was deleted and not stored since, every line gets out, every cursor is stored (or there already, or deleted), and no thread dies beyond its stored cursor |
| Relay.ADeletedCursorRepeatsExactlyWhen | apps/control_room/routes/claude_agents.py:244-248 | once lines are out, a poll that reads a deleted cursor keeps the published lines the log's first ones, whatever the lines are, exactly when nothing is fetched or nothing goes out |
| RelayWitness.SteeringRepeatsTheLog | apps/control_room/routes/claude_agents.py:244-248 | a session is steered, its cursor deleted and its thread stopped: with nothing failing, the final poll publishes the whole log again |
| RelayWitness.APublisherFailureLosesALine | src/agentic_dynamics/control/live.py:133-163 | with every cursor read, fetch and write working, one failure of a publisher loses a line for good, and the session's next thread publishes behind the gap |
| Relay.PollIsExactExactlyWhen | scripts/claude_agents_supervisor.py:216-237 | whatever the lines, a poll leaves published lines and cursor in place exactly when it finds nothing new, or puts all new lines out from the right one and stores the cursor, or puts nothing out and leaves the cursor where it was |
| Relay.PollDoes | scripts/claude_agents_supervisor.py:218-237 | count, cursor, lines and publisher after a poll, in terms of which of its calls work |
| Relay.UninterruptedPollIsPollOnce | scripts/claude_agents_supervisor.py:216-237 | the steps of a poll, taken alone, are the poll |
| Relay.Supervisor.ReconcileRelays | scripts/claude_agents_supervisor.py:155-197 | registry and threads after sweeping, stopping and starting, and the sessions reported as relayed |
| Relay.Supervisor.RelayOnce | scripts/claude_agents_supervisor.py:216-237 | count, cursor, published lines and publisher after one poll, whichever of its calls fail; other sessions untouched |
| Watchdog.StateIsTheLastVerdict | scripts/docs_drift_watchdog.py:301-333 | the stored state is the verdict of the last stored pass that measured, clear before the first |
| Watchdog.AStoredPassHoldsWhatItFound | scripts/docs_drift_watchdog.py:301-316 | a stored pass that measured every axis holds the flag raised exactly when it found drift |
| Watchdog.AStoredPassFlagsItsEdge | scripts/docs_drift_watchdog.py:319-333 | its flag line is written exactly when the verdict differs from the one held, and says which way |
| Watchdog.AScanThatCouldNotLookChangesNothing | scripts/docs_drift_watchdog.py:322-330 | a scan with errors leaves state, `since` and flags as they were, whatever drift it counts |
| Watchdog.AFailedScanNeverClears | scripts/docs_drift_watchdog.py:308-316 | over any run of passes the same holds of one more scan with errors |
| Watchdog.HistoryHoldsEveryPass | scripts/docs_drift_watchdog.py:640-658 | the trend file gains one line for every pass that is no dry run and lives to write it, with what the pass found, held and changed |
| Watchdog.SinceIsTheLastChange | scripts/docs_drift_watchdog.py:592-600 | `since` is the stamp of the last change of verdict, or of the first stored pass |
| Watchdog.OneFlagPerChangeExactlyWhen | scripts/docs_drift_watchdog.py:679-684 | the flag file holds one line per change, with its stamp, exactly when no changing pass dies before its flag line |
| Watchdog.FlagsAlternate | scripts/docs_drift_watchdog.py:679-684 | while no edge is lost, flag lines alternate starting with raised, and the last one is the state held |
| Watchdog.FlagsAlternateExactlyWhen | scripts/docs_drift_watchdog.py:679-684 | flag lines alternate starting with raised exactly when an even number of edges was lost before each line |
| Watchdog.ALostRaiseLeavesALoneClear | scripts/docs_drift_watchdog.py:660-684 | a raise whose pass dies between the state file and the flag file is never recorded |
| Watchdog.ResultsDir.RunOnce | scripts/docs_drift_watchdog.py:592-684 | the three files after a pass, wherever it stops, and the state and transition reported |

## Left out

- Redis, git, subprocess, HTTP and systemd: best-effort mirrors of the files, or unseen libraries. What such a call answers (a report, a submit, a log, a cursor) is a parameter.
- Corrupt and half-written files, except that the gate's lock blocks by existing, whatever it holds.
- Timestamps are ordered values; the campaign span in `merge_corpora` compares raw strings and is not modelled, nor are its paths, jobs, attempts and checkpoints, which are only concatenated.
- The gate's run id, goal text, budget and expiry note: descriptions carried along, never decided on.
- The argument check of `approve` for a blank signer, and `status`: a refusal before anything is read, and a pure read.
- Surfaces: a path that is a file in the rendering and a directory on disk.
- Positional: Python refuses to convert numbers of more than 4300 digits; the model does not.
- Schedule: cells carry an id, a model and a payload; the other columns are the payload. Admission of cells by the budget, and the status hash written beside a push, are not modelled.
- FillQueue: cells without an id never count as queued, as in the script; `--dry-run` is not modelled.
- Reorder: the summary the script prints and the provider its error names.
- Relay: the relay limit is its default of 20; the roster, the grace period, the publisher's status lines and its bounded history window are not modelled; a published line is one the publisher has stored.
- Closure: how an import line resolves to a file is a given relation; the byte encoding of the source-tree identity is not modelled.
- Registry: the manifest's file hashes, versions and bookkeeping beside the registry and the row count.
- Report rendering, argument parsing, markdown and CSV output.

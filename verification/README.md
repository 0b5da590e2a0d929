# Verification of choir

A Dafny model of the parts of choir that decide what lands, what is recorded and what is kept, with
proofs of what they guarantee, and of the places where they guarantee less than they say.

| files | what they model |
|---|---|
| `Git`, `MergeTrain`, `MergeTrainProofs` | building, landing and reverting a merge train over a commit graph |
| `MergeQueue`, `Drainer`, `MergeQueueProofs` | the speculative merge queue |
| `Serial`, `Withheld`, `Speculation`, `SpeculationProofs`, `SpeculativeRuns`, `SpeculationPromise`, `SpeculationCases`, `SpeculationSwap` | the queue that tests one change at a time, and when speculation does not show |
| `BatchLand`, `BatchLandProofs`, `BatchRaises` | the demo's batch queue with bisection |
| `Seating`, `Session` | roles handed to worktrees that are held open, for any number of roles |
| `Harvest` | replaying merges into a ledger over several runs |
| `Sequencer` | the single-writer log under every interleaving of clients |
| `Sync`, `SyncProofs`, `SyncRuns` | mirroring upstream refs by compare-and-swap against other writers |
| `Backup`, `BackupProofs`, `Restore`, `RestoreProofs` | backups and restores cut at any point, over runs |
| `Civil`, `Stamp` | the calendar of backup stamps |
| `Utf8`, `Decimal`, `Identity`, `IdentityProofs`, `Token` | identifiers, fingerprints and tokens |
| `Text`, `Acl`, `AclProofs`, `Seed`, `SeedProofs`, `SeedFlags`, `Config`, `Links`, `LinksProofs` | text that is edited without damaging it |

Where the program changes state step by step the model does too: a class or a method with the program's
loops, proved equal to a function, and the properties are lemmas about that function. Files, git, hashes,
CI verdicts and other writers are parameters: oracles that may answer anything, or steps that may come at
any time.

## What the proofs found

- A merge train that contains an empty merge lands but cannot be reverted (`EmptyMergeBlocksRevert`); the
  revert of a train goes through exactly when every merge changed something (`RevertUndoesTrain`). A
  reverted pull request is never merged again (`RevertedWorkIsNotMergedAgain`).
- The merge queue promises outcomes "exactly as if they had been tested one at a time". Whatever speculator,
  executor and log answer, that holds of every queue exactly when the window and its ceiling are one
  (`PromiseForSettings`), and with a wider window only of a queue in which at most one change waits; a window of
  one that may open spares the first round, and `PromiseForQueue` says for which queues that is enough. On one
  run of distinct changes it holds exactly when every round is orderly
  (`RunIsInvisibleExactly`, `RoundIsInvisible`): no identity repeats among what it landed, a round without verdicts
  had nothing at stake, and those it refused would have been refused in turn. Pairs that break it are
  `ConflictBehindAFailure`, `TwinsLandTogether` and `SilenceVoidsTheRound`. What lands is always what serial
  testing of it would give, and blame is always fair (`DrainIsFaithful`, `DrainBlamesFairly`).
- The bisection of the batch queue can blame a later item than the first bad one (`WrongItemHappens`), and an
  eviction can make a clean batch raise: under a broken runner exactly when some tail of the batch does not merge
  by itself (`BrokenRunner`), and under some runner, when different selections have different trees, exactly when
  some selection does not merge (`NeverRaisesExactly`, `EvictionCanRaise`).
- The bridge sends batches of 500 and a node takes 256 by default, so a first mirror of more than 256 refs is
  never complete, however many rounds it is given (`DefaultNodeMirrors`, `FirstRoundDecides`).
- The comment at crates/choir-cli/src/backup.rs:695-696 says a backup is never a new manifest over an old log.
  After a take cut between the two moves it is, until a later take gets as far as the manifest (`OnlyOneBadCut`);
  the checksum row shows it. A take cut between a refs digest and its bundle can leave a stale bundle that every
  later take keeps while the refs do not move, and nothing shows (`StaleBundleSurvives`, `AgreesUnlessTorn`).
  Repositories that share a file name overwrite each other's bundle (`AllBackedUp`).
- A restore cut inside the copy of the log leaves part of it, and every later run refuses it as somebody else's;
  a repository cut while it was unbundled stays as it is for good (`RestoreCompletes`). Cut between the log and
  the fingerprint, a restore loses the pin, and the next run goes ahead as a new author without asking
  (`PinLostExactly`, `UnattendedSeam`).
- Rendering an access file is stable except for stray carriage returns (`LastRenderingWins`, `ReturnsErode`), and
  so is rewriting the configuration file, unless a value had another key's line in it (`RewriteIsStable`).
- A plain branch name of 161 to 512 characters cannot be proposed (`LongPlainBranchRefused`).

## Model

| member | source | states |
|---|---|---|
| `MergeTrain.Clone.BuildTrain` | crates/choir-bridge/src/queue.rs:91-142 | the loop that detaches at the base and merges pull requests in order computes `Build`: same entries, same tip, and the worktree ends on the tip |
| `MergeTrain.Clone.Land` | crates/choir-bridge/src/queue.rs:961-975 | the push changes the remote exactly when the branch is an ancestor of the tip, and then only that branch |
| `MergeTrain.Clone.RevertTrain` | crates/choir-bridge/src/queue.rs:988-1025 | succeeds exactly when every revert does and the push is a fast-forward; on any failure the remote is untouched and the answer says which |
| `MergeTrain.Clone.RevertEach` | crates/choir-bridge/src/queue.rs:1007-1016 | the revert loop stops at the first failure and otherwise ends on the fold of the reverts |
| `MergeTrainProofs.TrainIsWellBuilt` | crates/choir-bridge/src/queue.rs:91-142 | entries match pull requests one for one, each with its fate and the note that tells it explained by the train of the entries before it, and the merge commits form a spine from base to tip |
| `MergeTrainProofs.BuildFailsIffUnresolved` | crates/choir-bridge/src/queue.rs:91-142 | building fails exactly when the base or some head does not resolve; a conflict never fails it |
| `MergeTrainProofs.ContainedIsRecognized` | crates/choir-bridge/src/queue.rs:96-152 | a head the train already contains is recognised before the merge, so no merge of the train is a no-op |
| `MergeTrainProofs.RevListIsSpine` | crates/choir-bridge/src/queue.rs:995-1003 | listing first-parent merges between base and tip yields exactly the spine, newest first |
| `MergeTrainProofs.TrainSpine` | crates/choir-bridge/src/queue.rs:91-142 | the first-parent merges between base and tip are the merged entries in order, and the tip is the base exactly when nothing merged |
| `MergeTrainProofs.RevertSpine` | crates/choir-bridge/src/queue.rs:1007-1016 | after each revert the tree is that of the next older spine commit; it fails exactly when some merge changed nothing |
| `MergeTrainProofs.RevertUndoesTrain` | crates/choir-bridge/src/queue.rs:977-1025 | reverting a built train goes through if and only if something merged and every merge changed its first parent's tree, and then leaves the base's tree on top of the train tip |
| `MergeTrainProofs.RevertedWorkIsNotMergedAgain` | crates/choir-bridge/src/queue.rs:108-119 | after a revert, a new train takes every reverted pull request for already landed |
| `MergeTrainProofs.PushKeepsHistory` | crates/choir-bridge/src/queue.rs:961-975 | a push is accepted exactly when everything reachable from the branch stays reachable |
| `MergeTrainProofs.LandThenRevertIsAccepted` | crates/choir-bridge/src/queue.rs:968-1025 | landing on the base a train was built from, and then reverting, are both fast-forwards |
| `MergeTrainProofs.EmptyMergeBlocksRevert` | crates/choir-bridge/src/queue.rs:1007-1016 | a train of one empty commit merges and lands but cannot be reverted |
| `BatchLand.Maintainer.BatchLand` | demo/tui.py:728-798 | the nested loops compute `Land` with the merges of git: report, branch and test count, from any clone; a call that raises leaves the branch alone |
| `BatchLand.Maintainer.TestAndEvict` | demo/tui.py:764-793 | the test, bisect, evict loop terminates and computes `Drain`, with the worktree always the fold of the batch under test |
| `BatchLand.Maintainer.FindCulprit` | demo/tui.py:778-789 | the bisection never meets a conflict, tests exactly the prefixes it reports and ends on `Bisect` of the true verdicts |
| `BatchLand.Maintainer.Screen` | demo/tui.py:750-761 | the first pass keeps what merges and reports the rest |
| `BatchLandProofs.BisectFindsBoundary` | demo/tui.py:778-789 | the prefix settled on fails and the one before it passes, unless it is the first |
| `BatchLandProofs.BisectFindsLeast` | demo/tui.py:778-789 | the smallest failing prefix is found if and only if no prefix probed at or above it passes |
| `BatchLandProofs.MonotoneFindsLeast` | demo/tui.py:778-789 | in particular whenever failing prefixes stay failing |
| `BatchRaises.WrongItemBlamed` | demo/tui.py:778-792 | the first item breaks the tests, the second mends them, the third breaks them: the first prefix is red, yet the third item is evicted and the first lands |
| `BatchRaises.WrongItemHappens` | demo/tui.py:778-792 | a concrete repository of three commits in which that happens |
| `BatchLandProofs.CulpritEndsARedPrefix` | demo/tui.py:778-792 | the evicted item ends a failing prefix whose predecessor passes or is empty |
| `BatchLandProofs.BisectCost` | demo/tui.py:778-789 | a bisection costs at most the binary logarithm of its range, rounded up |
| `BatchLandProofs.DrainConserves` | demo/tui.py:764-793 | kept and evicted together are the candidates, each once, and the kept keep their order |
| `BatchLandProofs.DrainIsGreen` | demo/tui.py:764-793 | what is kept merges onto the base and its tests pass |
| `BatchLandProofs.DrainCost` | demo/tui.py:1122 | test runs are at most 1 + evicted * (ceil(log2 n) + 1), the scorecard's formula, and one fewer when everything was evicted |
| `BatchLandProofs.CeilLog2Meaning` | demo/tui.py:1122 | the logarithm used is the least power of two that reaches n |
| `BatchLandProofs.FirstPassConserves` | demo/tui.py:750-761 | let through and blocked together are the items, each once, in order |
| `BatchLandProofs.FirstPassOneMore` | demo/tui.py:750-761 | an item is let through exactly when it merges on what was let through before it |
| `BatchLandProofs.BatchLandAccounts` | demo/tui.py:728-798 | a call that returns puts every item in exactly one of merged, blocked or evicted, merged in queue order, within the run bound |
| `BatchLandProofs.OnlyTestedWorkLands` | demo/tui.py:794-798 | over every call: one that raises leaves the branch where it was, and one that returns leaves it there or on the merged items with their tests passed |
| `BatchRaises.BrokenRunner` | demo/tui.py:721-793 | with a runner that fails everything, the demo's broken one, the queue raises if and only if some tail of the batch does not merge by itself |
| `BatchRaises.BrokenRunnerPagesAll` | demo/tui.py:707-793 | and otherwise evicts every item from the front and lands nothing |
| `BatchRaises.NeverRaisesExactly` | demo/tui.py:742-748 | when trees tell selections apart, no verdicts make a batch raise if and only if every selection of its items merges |
| `BatchRaises.IndependentItemsNeverRaise` | demo/tui.py:742-748 | the exception cannot happen when every selection of the candidates merges, even when trees do not tell them apart |
| `BatchRaises.EvictionCanRaise` | demo/tui.py:742-748 | a concrete repository, whose selections have different trees, where a clean batch raises after an eviction |
| `Seating.Assign` | crates/choir-bridge/src/queue.rs:316-343 | the two passes give the bijection of roles and trees that is in turn, and no bijection beats it in no-op checkouts |
| `Seating.OneAssignment` | crates/choir-bridge/src/queue.rs:316-343 | first come, first served and leftovers in order leave one assignment: held and requested revisions determine every role's tree |
| `Seating.OverlapIsTheBest` | crates/choir-bridge/src/queue.rs:316-343 | no assignment has more no-op checkouts than the multiset overlap of held and requested revisions |
| `Seating.MatchRoles` | crates/choir-bridge/src/queue.rs:324-333 | the first pass alone realises the whole overlap |
| `Seating.FillRoles` | crates/choir-bridge/src/queue.rs:334-343 | the second pass fills the empty slots in order and changes no match |
| `Session.DifferentialSession.Prepare` | crates/choir-bridge/src/queue.rs:309-400 | one tree per revision or an error, which is the answer exactly when git cannot do what it takes: on a first call all trees or none, later the checkouts in role order up to the first that fails; recorded heads are the real ones in either case |
| `Session.DifferentialSession.Move` | crates/choir-bridge/src/queue.rs:315-362 | a later observation: the assignment is the one in turn, and the checkouts done so far are the ones recorded |
| `Session.DifferentialSession.CheckoutAll` | crates/choir-bridge/src/queue.rs:344-358 | the checkout loop stops at the first failure with the heads truthful |
| `Session.DifferentialSession.Create` | crates/choir-bridge/src/queue.rs:364-400 | the first observation creates all trees or none |
| `Session.MovedIsTruthful` | crates/choir-bridge/src/queue.rs:344-358 | after any number of checkouts the recorded heads match the disk and no other worktree moved |
| `Session.MovedHeads` | crates/choir-bridge/src/queue.rs:344-358 | roles done sit on their revisions, the others where they were |
| `Session.EachOnItsRevision` | crates/choir-bridge/src/queue.rs:344-362 | when all checkouts went through, each role has a worktree of its own on its revision |
| `MergeQueue.Closure` | crates/choir-queue/src/lib.rs:805-822 | the ids taken down by a failure, as the ejection loop reaches them: they include the failure and are closed under declared dependencies |
| `MergeQueue.ClosureShrinks` | crates/choir-queue/src/lib.rs:805-822 | every turn of the ejection loop leaves fewer ids outside |
| `MergeQueue.LandShape` | crates/choir-queue/src/lib.rs:464-486 | landing a prefix appends exactly its changes and ends on its last state |
| `MergeQueue.WindowStaysOpen` | crates/choir-queue/src/lib.rs:335-345 | the window stays between one and its ceiling through every round |
| `MergeQueueProofs.RoundWindow` | crates/choir-queue/src/lib.rs:777-856 | a settled round grows the window by one per landing, up to the ceiling, and halves it exactly when a change failed that no other change behind it or in the queue declares a dependency on; a round without verdicts leaves it alone |
| `MergeQueueProofs.EvictReports` | crates/choir-queue/src/lib.rs:795-856 | an eviction reports the failure, then what goes down with it of the train, last first, and of the queue in order |
| `Drainer.TrainQueue.constructor` | crates/choir-queue/src/lib.rs:423-438 | a new queue has the default window of 20, as ceiling too, and nothing waiting |
| `Drainer.TrainQueue.Submit` | crates/choir-queue/src/lib.rs:501-503 | a change joins at the back |
| `Drainer.TrainQueue.SetMaxWindow` | crates/choir-queue/src/lib.rs:365-374 | a lowered ceiling brings the window under it at once |
| `Drainer.TrainQueue.BuildTrain` | crates/choir-queue/src/lib.rs:567-645 | the train-building loop pops exactly what it took and computes `Speculate`, a stuck speculator included |
| `Drainer.TrainQueue.LandPrefix` | crates/choir-queue/src/lib.rs:464-486 | the landing loop updates base, window and landed identities as `Land` says, up to the first landing the log refuses |
| `Drainer.TrainQueue.Blast` | crates/choir-queue/src/lib.rs:805-822 | the ejection loop computes the closure over what is left of the train and the queue |
| `Drainer.TrainQueue.EjectAll` | crates/choir-queue/src/lib.rs:823-848 | taking the train apart from its end and then sifting the whole queue keeps and ejects each change once |
| `Drainer.TrainQueue.EvictFailed` | crates/choir-queue/src/lib.rs:795-856 | ejection by declared dependencies, or halving when nothing depended on the failure |
| `Drainer.TrainQueue.SettleTrain` | crates/choir-queue/src/lib.rs:719-857 | the green prefix lands, a failure is evicted, an inconclusive verdict or a refused landing stalls with everything from there on queued again and nobody blamed |
| `Drainer.TrainQueue.DrainAll` | crates/choir-queue/src/lib.rs:551-865 | the drain terminates and computes `Drain`, batches without verdicts and refused landings included |
| `MergeQueueProofs.TrainIsLinked` | crates/choir-queue/src/lib.rs:567-645 | every member was merged onto the state of the member ahead of it |
| `MergeQueueProofs.DrainIsFaithful` | crates/choir-queue/src/lib.rs:3-6 | the final state is the one reached by merging the merged changes one at a time in that order, each with its tests passed there and its landing recorded |
| `MergeQueueProofs.DrainBlamesFairly` | crates/choir-queue/src/lib.rs:717-722 | a change is blamed for failing only when it failed on top of changes that landed ahead of it |
| `MergeQueueProofs.DrainConserves` | crates/choir-queue/src/lib.rs:551-865 | every change is merged, rejected or waiting as often as it was submitted, and waiting is empty unless the drain stalled |
| `MergeQueueProofs.DrainKeepsOrder` | crates/choir-queue/src/lib.rs:634-645 | landed followed by waiting is the submitted line with changes taken out, never reordered |
| `MergeQueueProofs.ClosureIsLeast` | crates/choir-queue/src/lib.rs:776-822 | a failure takes down exactly itself and what transitively declared a dependency on it |
| `Withheld.WithheldIsInvisible` | crates/choir-queue/src/lib.rs:608-623 | telling changes no ahead of their turn and taking them out of the line leaves the one-at-a-time outcome as it is, if and only if each would have been rejected in its turn and all together for the same reasons |
| `SpeculationProofs.RoundIsInvisible` | crates/choir-queue/src/lib.rs:3-6 | finishing one at a time after a round has the outcome of one at a time all along, if and only if a void round had nothing at stake, no identity repeats among what a settled round landed and stopped at, and those refused would have been refused in turn |
| `SpeculativeRuns.SpeculationIsInvisible` | crates/choir-queue/src/lib.rs:3-6 | a run of such rounds ends with the outcome of the one-at-a-time queue, whatever the window does |
| `SpeculativeRuns.RunIsInvisibleExactly` | crates/choir-queue/src/lib.rs:3-6 | when no change waits twice, a drain has the one-at-a-time outcome if and only if every round is such: no later round undoes a difference |
| `SpeculationSwap.CancellingRun` | crates/choir-queue/src/lib.rs:3-6 | a concrete world and queue with a change waiting twice where the outcome is the same though a round is not such: two wrong refusals cancel |
| `SpeculationPromise.PromiseForQueue` | crates/choir-queue/src/lib.rs:3-6 | a queue has the one-at-a-time outcome whatever speculator, executor and log answer, if and only if at most one change waits, or the window is one and stays so, or it is one and at most two wait, one change waits over and over, or the first of at most four waits twice; not said of longer mixed queues that begin with a change twice |
| `SpeculationPromise.PromiseForSettings` | crates/choir-queue/src/lib.rs:3-9 | every queue has it in every environment, if and only if the window and its ceiling are one |
| `SpeculativeRuns.SmoothQueueIsSerial` | crates/choir-queue/src/lib.rs:3-6 | waiting changes that are new and distinct and always merge cleanly, or whose tests always pass, give the one-at-a-time outcome for every window |
| `SpeculationCases.ConflictBehindAFailure` | crates/choir-queue/src/lib.rs:608-617 | a change that conflicts only on top of a failing one is rejected, though one at a time it lands |
| `SpeculationCases.ClashHappens` | crates/choir-queue/src/lib.rs:608-617 | a concrete world and pair in which that happens |
| `SpeculationCases.RefusedAnyway` | crates/choir-queue/src/lib.rs:579-617 | a change that would be refused on the base for the same reason, as a resubmission always is, may be refused behind a failure without harm |
| `SpeculationCases.ResubmissionIsHarmless` | crates/choir-queue/src/lib.rs:579-582 | a concrete run with a resubmission behind a failure, and the one-at-a-time outcome |
| `SpeculationPromise.TwinsLandTogether` | crates/choir-queue/src/lib.rs:113-118 | changes of one identity in one train all land, where one at a time only one does |
| `SpeculationCases.SilenceVoidsTheRound` | crates/choir-queue/src/lib.rs:624-716 | a speculator or an executor without an answer for one change sends the change ahead of it back untested, which one at a time would land |
| `SpeculationCases.SilenceHappens` | crates/choir-queue/src/lib.rs:624-656 | a concrete world and pair in which that happens |
| `Sequencer.SequencerActor.Submit` | crates/choir-actor/src/lib.rs:100-122 | one entry is appended, linked and numbered, and the reply names it |
| `Sequencer.SequencerActor.Dump` | crates/choir-actor/src/lib.rs:124-131 | a dump is the log |
| `Sequencer.SharedEntrySharesHistory` | crates/choir-actor/src/lib.rs:103-113 | two chains that agree on the hash of one entry agree on its position and on everything before it |
| `Sequencer.EqualHeadsEqualLogs` | crates/choir-actor/src/lib.rs:103-113 | two valid chains with equal head hashes are the same log |
| `Sequencer.EveryRunIsSound` | crates/choir-actor/src/lib.rs:100-131 | under every interleaving: seq i at index i, parents linked, every reply true, dumps prefixes of later dumps, each client in its send order |
| `Sequencer.HistoryOnlyGrows` | crates/choir-actor/src/lib.rs:100-131 | nothing logged, answered or read is ever changed later |
| `Sequencer.NothingIsLost` | crates/choir-actor/src/lib.rs:100-122 | a client with nothing waiting has exactly what it sent in the log |
| `Sequencer.EveryTurnServes` | crates/choir-actor/src/lib.rs:100-122 | a client that gets as many turns as it has messages waiting has all it sent in the log |
| `Sequencer.ReadersSeeTheLog` | crates/choir-actor/src/lib.rs:100-122 | every reader gets the log as it is when he reads |
| `Sync.SyncOnce` | crates/choir-bridge/src/main.rs:213-274 | one round submits the sets in batches, then the deletes, and counts what was accepted and unchanged |
| `Sync.SubmitBatch` | crates/choir-bridge/src/main.rs:180-209 | the chunked requests are played in order, each whole or refused whole |
| `SyncProofs.AdmittedOpSettlesItsName` | crates/choir-bridge/src/main.rs:241-271 | an admitted operation settles exactly its own name and replaces only a value the bridge read; others change nothing |
| `SyncProofs.RequestNeverHurts` | crates/choir-bridge/src/main.rs:241-271 | under any concurrent writer no operation leaves more names in disagreement than it met |
| `SyncProofs.QuietProgress` | crates/choir-bridge/src/main.rs:236-274 | without other writers the disagreements go down by exactly the number accepted, even for a stale or partial read |
| `SyncProofs.EveryRefReported` | crates/choir-bridge/src/main.rs:241-274 | every upstream ref with an object id is either set or counted unchanged, and nothing else is |
| `SyncProofs.OpsCoverDisagreement` | crates/choir-bridge/src/main.rs:241-271 | against a complete read the operations name exactly the refs that disagree |
| `SyncProofs.QuietRoundConverges` | crates/choir-bridge/src/main.rs:236-274 | against a complete quiet view everything is accepted, the label becomes upstream and no other key moves |
| `SyncProofs.SettledRoundIsEmpty` | crates/choir-bridge/src/main.rs:241-274 | once nothing disagrees a round has nothing to submit |
| `SyncProofs.BatchesAreOps` | crates/choir-bridge/src/main.rs:180-209 | when the node takes the bridge's batches, batching changes nothing |
| `SyncProofs.RoundLandsIffBatchesFit` | crates/choir-bridge/src/main.rs:162-209 | a quiet round lands if and only if sets and deletes each fit the node's limit or the limit is at least the batch size |
| `SyncRuns.FirstRoundDecides` | crates/choir-bridge/src/main.rs:236-274 | on a quiet view read in full, a mirror agrees with upstream after any number of rounds if and only if its first round's batches fit the node: a full batch refused once is refused for ever |
| `SyncRuns.DefaultNodeMirrors` | crates/choir-node/src/platform.rs:43 | with the node's default limit a first mirror is complete, after one round or ever, if and only if it has at most 256 refs |
| `SyncProofs.ForeignKeys` | crates/choir-bridge/src/main.rs:99-117 | a key of another label is taken for this one's exactly when the other label continues this one after a colon |
| `Harvest.Run` | crates/choir-bridge/src/main.rs:1076-1173 | the harvest loop tallies and records as `Walk` says, and looks at nothing behind an early stop |
| `Harvest.EveryMergeCounted` | crates/choir-bridge/src/main.rs:1184-1187 | every merge is counted under exactly one heading |
| `Harvest.RunRecords` | crates/choir-bridge/src/main.rs:1057-1170 | a run replays nothing the ledger has, records only what it replayed, and everything replayable unless it stopped |
| `Harvest.RowsInOrder` | crates/choir-bridge/src/main.rs:1088-1140 | the rows of a run are what it had to replay of the merges it got to, in order |
| `Harvest.StopsAtFirstBand` | crates/choir-bridge/src/main.rs:1111-1135 | a run is stopped exactly when the last merges it replayed, as many as the bound, were all inconclusive, and no earlier stretch of that many in a row was |
| `Harvest.StoppingOnlyPostpones` | crates/choir-bridge/src/main.rs:1117-1136 | repeating runs that stop at a band reaches the ledger of one run without a stop, within the merges to record divided by the band, rounded up |
| `Civil.NextDayCount` | crates/choir-cli/src/backup.rs:424-434 | the next day count is the next day of the Gregorian calendar |
| `Civil.FromDaysCounts` | crates/choir-cli/src/backup.rs:424-434 | the date is the one reached by counting days from 1970-01-01, and is valid, for every day count |
| `Civil.DayNumberOfDays` | crates/choir-cli/src/backup.rs:424-434 | adding up year and month lengths gives the day count back |
| `Civil.DaysOfDayNumber` | crates/choir-cli/src/backup.rs:424-434 | every date from 1970 on is the date of its day number |
| `Civil.DatesInOrder` | crates/choir-cli/src/backup.rs:424-434 | dates come in the order of their day counts |
| `Stamp.StampsSort` | crates/choir-cli/src/backup.rs:435 | stamps with four-digit years sort exactly as the instants |
| `Stamp.StampReads` | crates/choir-cli/src/backup.rs:416-440 | a stamp of a four-digit year reads back as the instant it was made from |
| `Stamp.SortsUntil` | crates/choir-cli/src/backup.rs:410-435 | stamps below a limit sort as instants if and only if the limit is at most the year 10000 |
| `Stamp.HorizonDoesNotSort` | crates/choir-cli/src/backup.rs:435 | the last second of 9999 sorts behind the first of 10000 |
| `Backup.Directory.Take` | crates/choir-cli/src/backup.rs:487-732 | refusals leave the directory alone; otherwise the moves are performed in order, up to where the run was cut |
| `Backup.CheckContiguous` | crates/choir-cli/src/backup.rs:548-571 | the line loop computes `Walk` |
| `Backup.Directory.GatherBundles` | crates/choir-cli/src/backup.rs:648-694 | the repository loop gathers `Gather`, reuse included |
| `BackupProofs.WalkMeaning` | crates/choir-cli/src/backup.rs:548-571 | accepted are exactly the logs whose entries carry 0, 1, 2 and so on, and their number is the next seq |
| `BackupProofs.TakeGoesThrough` | crates/choir-cli/src/backup.rs:487-700 | a take goes through if and only if log and fingerprint are there, the held log is a prefix, the log is numbered without a gap and its chain holds, there is a policy, and every listed repository can be bundled |
| `BackupProofs.CutLeaves` | crates/choir-cli/src/backup.rs:695-731 | fingerprint, policy, manifest, log and snapshot are put in place in this order, each whole or not at all |
| `BackupProofs.ListedMeans` | crates/choir-cli/src/backup.rs:646-652 | a repository is listed exactly when a line of the list names it and is no comment |
| `BackupProofs.RunIsSound` | crates/choir-cli/src/backup.rs:527-571 | after any run of appends and takes, cut or not, the held log is a prefix of the node's, so the next take does not call it diverged, and the manifest describes a log at least as long |
| `BackupProofs.HeldLogsGrow` | crates/choir-cli/src/backup.rs:527-547 | the logs a directory has held form a prefix chain |
| `BackupProofs.ChecksumMeaning` | crates/choir-cli/src/backup.rs:152-170 | when the checksum row passes, size, position and entry count agree with the manifest as well |
| `BackupProofs.OnlyOneBadCut` | crates/choir-cli/src/backup.rs:695-725 | over any run of takes into an empty directory, the checksum row fails if and only if a take stopped between manifest and log with the log grown and none since got as far as the manifest |
| `BackupProofs.AgreesUnlessTorn` | crates/choir-cli/src/backup.rs:706-715 | for every order of moves and every cut, digests and bundles agree afterwards if and only if no gathered name had just one of its files moved with the other of other refs |
| `BackupProofs.AgreementStays` | crates/choir-cli/src/backup.rs:648-715 | takes not cut among the bundles keep every refs digest the digest of its bundle |
| `BackupProofs.AllBackedUp` | crates/choir-cli/src/backup.rs:655-694 | every listed repository is backed up if and only if no two that share a file name differ |
| `BackupProofs.StaleBundleSurvives` | crates/choir-cli/src/backup.rs:665-715 | at unchanged refs every later finished take backs a repository up, unless the cut take moved its digest and not its bundle while its refs had moved: then none does, and the checksum row passes each time |
| `Restore.Target.Run` | crates/choir-cli/src/restore.rs:282-467 | one run: refuse, or place files up to where it was cut, between two writes or inside one, then ask for the operator's decision or go on |
| `Restore.Target.Place` | crates/choir-cli/src/restore.rs:324-398 | the writes of `place` in order, the fingerprint only on a fresh run, and part of the one it was cut in |
| `Restore.Target.Resuming` | crates/choir-cli/src/restore.rs:282-310 | the target is resumed exactly when its log is the backup's, fresh when it has neither log nor repository |
| `RestoreProofs.LogNeverReplaced` | crates/choir-cli/src/restore.rs:282-300 | a log that is not the backup's, and the repositories beside it, are never touched; its own stays whole if and only if no run is cut while copying it again |
| `RestoreProofs.DroppedPinStaysDropped` | crates/choir-cli/src/restore.rs:331-343 | once the log is placed, a removed fingerprint is never put back |
| `RestoreProofs.RestoreCompletes` | crates/choir-cli/src/restore.rs:282-467 | after any history from an empty target an uncut run goes ahead if and only if no run was cut inside the log; then log, snapshot and policy are the backup's, a repository is if and only if no run was cut while unbundling it, the run is ready if and only if there is a credential and a key or no pin, and as a new author if and only if the key is not there |
| `RestoreProofs.OnlyOursIsWritten` | crates/choir-cli/src/restore.rs:282-310 | a target is refused exactly when it holds another log, or no log and one of the repositories, and then nothing changes; a run never touches a repository that is there, and one that was cut decides nothing |
| `RestoreProofs.WritesInOrder` | crates/choir-cli/src/restore.rs:324-398 | the log goes first, then fingerprint, snapshot, policy and repositories |
| `RestoreProofs.PinLostExactly` | crates/choir-cli/src/restore.rs:328-343 | without the operator the pin is lost if and only if the first placing run was cut before it began on the fingerprint, and whole if and only if that run got past it |
| `RestoreProofs.UnattendedSeam` | crates/choir-cli/src/restore.rs:428-467 | what the next run does after every history: refuse if a run was cut inside the log, go ahead as a new author if the first was cut right behind it, stop and ask otherwise |
| `Identity.Frame` | crates/choir-cli/src/runner.rs:348-356 | the loop frames the fields one after the other, each with its byte length |
| `Identity.WorkspaceKey` | crates/choir-cli/src/propose.rs:230-247 | the label of every branch, however odd, is one safe path segment |
| `IdentityProofs.MaterialReads` | crates/choir-cli/src/runner.rs:348-356 | the framed bytes determine how many fields there are and each of them |
| `IdentityProofs.MaterialDecodes` | crates/choir-cli/src/runner.rs:348-356 | read field by field the material gives the fields back |
| `IdentityProofs.DigestCovers` | crates/choir-cli/src/runner.rs:324-377 | a fingerprint is the hash of bytes that read as tag, repository, external id and generation |
| `IdentityProofs.SameChangeSameWork` | crates/choir-cli/src/runner.rs:324-377 | two attempts share a change, and exactly then a retry key, if and only if tag, namespace, repository, external id and generation are the same |
| `IdentityProofs.SameChangeSameName` | crates/choir-cli/src/runner.rs:282-301 | under the other scheme equal changes mean equal names |
| `IdentityProofs.SchemesCollide` | crates/choir-cli/src/runner.rs:193-218 | a named and a fingerprinted workspace share a change if and only if namespace and repository are equal and the name is the digest |
| `IdentityProofs.DigestCanBeName` | crates/choir-cli/src/runner.rs:193-218 | such a name is accepted if and only if the digest is a safe segment of at most 160 characters |
| `IdentityProofs.RevisionRefReads` | crates/choir-cli/src/propose.rs:196-198 | the ref of a revision tells the workspace and the commit |
| `IdentityProofs.DeriveSucceeds` | crates/choir-cli/src/propose.rs:147-170 | a proposal is refused exactly for a detached head, a bad target or repository, a branch over 512 bytes or a label over 160, and says which |
| `IdentityProofs.ExternalRefused` | crates/choir-cli/src/runner.rs:324-377 | a fingerprinted identity is refused for its repository, namespace, key, external id or generation, whichever is wrong first |
| `IdentityProofs.ProposalSays` | crates/choir-cli/src/propose.rs:147-170 | the ref a proposal asks to land on, its workspace path, and a workspace name that begins with the namespace and ends in the start of the fingerprint |
| `IdentityProofs.LabelReads` | crates/choir-cli/src/propose.rs:230-247 | a label is the branch from its first letter or digit on with dashes for unsafe characters, and `branch` without one |
| `IdentityProofs.RepoIsTwoSegments` | crates/choir-cli/src/runner.rs:165-181 | a repository is accepted exactly when it is two safe segments around one slash |
| `IdentityProofs.NamedSays` | crates/choir-cli/src/runner.rs:282-300 | what a workspace that goes by its name is, and when it is refused |
| `IdentityProofs.LongPlainBranchRefused` | crates/choir-cli/src/propose.rs:161-165 | a plain branch name of 161 to 512 characters is refused for its label |
| `IdentityProofs.BranchesStayApart` | crates/choir-cli/src/propose.rs:161-165 | two proposals share a change if and only if repository and branch are the same |
| `IdentityProofs.NameIsSafe` | crates/choir-cli/src/runner.rs:363-366 | the derived directory name is one safe path segment |
| `Utf8.EncodeInjective` | crates/choir-cli/src/runner.rs:348-356 | different strings have different bytes |
| `Utf8.ShortestForm` | crates/choir-cli/src/runner.rs:348-356 | a string has as many bytes as the shortest form of each code point takes |
| `Decimal.ReadPrint` | crates/choir-cli/src/runner.rs:351 | a printed length reads back |
| `Token.B64Url` | crates/choir-bridge/src/github.rs:14-34 | the chunk loop computes the encoding |
| `Token.DecodedEncoded` | crates/choir-bridge/src/github.rs:14-34 | decoding gives every byte sequence back |
| `Token.EncodedLength` | crates/choir-bridge/src/github.rs:14-34 | the length is ceil(4n/3), so there is no padding |
| `Token.EncodedHasNoDot` | crates/choir-bridge/src/github.rs:15 | every character is of the alphabet, and none is a dot |
| `Token.TokenReads` | crates/choir-bridge/src/github.rs:42-83 | the three parts of a token can be read back |
| `Token.TokenSplits` | crates/choir-bridge/src/github.rs:42-86 | taken apart at its dots a token is its header, payload and signature |
| `Token.AppJwt` | crates/choir-bridge/src/github.rs:42-86 | the token is the three encoded parts for the app and the time, the signature over the first two, and nothing when the key cannot sign |
| `Token.ClaimsSay` | crates/choir-bridge/src/github.rs:42-86 | the claims read back as issued a minute ago, good for ten minutes from there, and the app |
| `Token.ClaimsRead` | crates/choir-bridge/src/github.rs:48-55 | the claims tell the app and the time |
| `Acl.Render` | crates/choir-cli/src/acl.rs:60-106 | the line loop with its header flag and final pop writes the header once and every other line rendered |
| `Acl.Counts` | crates/choir-cli/src/acl.rs:116-134 | the counting loop counts the grants of the file and those whose subject is named |
| `AclProofs.NamedAreCommented` | crates/choir-cli/src/acl.rs:116-134 | the second count is the number of lines rendered with a name |
| `AclProofs.GrantsSurvive` | crates/choir-cli/src/acl.rs:43-59 | a rendered file grants exactly what the original does, line for line, whatever names contain and however lines end; so both counts agree |
| `AclProofs.EveryLineShown` | crates/choir-cli/src/acl.rs:60-107 | behind the header every other line comes out as it was, or as its grant with the subject's name, line breaks as spaces, for a comment |
| `AclProofs.HeaderOnce` | crates/choir-cli/src/acl.rs:65-78 | however many headers came in, one comes out, first |
| `AclProofs.LastRenderingWins` | crates/choir-cli/src/acl.rs:60-106 | a second rendering equals rendering the original under the second roster, if and only if no line of the file that is copied and will be ended by a line feed ends in a stray carriage return |
| `AclProofs.RenderingSettles` | crates/choir-cli/src/acl.rs:66-67 | on text without carriage returns rendering twice is rendering once, for any two rosters |
| `AclProofs.ReturnsErode` | crates/choir-cli/src/acl.rs:65-86 | a comment line ending in two carriage returns is changed by every rendering |
| `AclProofs.HeaderIsMark` | crates/choir-cli/src/acl.rs:40 | the header the command writes is a comment line without white space around it |
| `Seed.Parse` | crates/choir-cli/src/serve.rs:121-150 | the line loop with its early returns computes `ParseSpec` |
| `Seed.PlanNode` | crates/choir-cli/src/serve.rs:318-468 | the flags pushed are those of `PlanOf`, for homes and seeds |
| `SeedFlags.HomeHears` | crates/choir-cli/src/serve.rs:318-406 | when a home starts, and what its node hears when the flags are read back one after the other |
| `SeedFlags.SeedHears` | crates/choir-cli/src/serve.rs:407-469 | the same for a seed, which serves or only archives |
| `SeedFlags.PairIsFirstTwo` | crates/choir-cli/src/serve.rs:190-196 | the TLS pair is named on the first two lines of the marker that are not blank |
| `SeedFlags.RefusalsSayWhy` | crates/choir-cli/src/serve.rs:318-469 | a refusal names all that is missing, or the first thing that is wrong |
| `SeedProofs.MarkerRoundTrip` | crates/choir-cli/src/serve.rs:99-150 | a marker reads back as its seed if and only if the seed is well formed |
| `SeedProofs.TornMarker` | crates/choir-cli/src/serve.rs:117-121 | every prefix of a marker reads as nothing or as the very seed |
| `SeedProofs.MarkerNeverStartsHome` | crates/choir-cli/src/serve.rs:232-244 | with a marker there, whatever it holds, a start is refused or is that of the seed it names |
| `SeedProofs.TornMarkerStart` | crates/choir-cli/src/serve.rs:318-339 | a torn marker refuses the start or starts the seed being written, never a home |
| `SeedProofs.NoticeIsNotice` | crates/choir-cli/src/serve.rs:100-108 | the lines above the answers are comments |
| `Config.WriteHomeConfig` | crates/choir-cli/src/main.rs:2769-2803 | the two loops write every line of another key and then the entries |
| `Config.ConfiguredIn` | crates/choir-cli/src/main.rs:4478-4495 | the scan returns the first non-empty value of the key |
| `Config.PutGet` | crates/choir-cli/src/main.rs:2791-2801 | a written key answers with its value, trimmed, and an empty one hides nothing older |
| `Config.ReadsBackExactly` | crates/choir-cli/src/main.rs:4478-4495 | a value reads back, trimmed, if and only if it ends on the line it begins on, white space apart |
| `Config.OtherKeysKept` | crates/choir-cli/src/main.rs:2791-2797 | every other key answers as before, whatever the file looks like |
| `Config.OtherLinesKept` | crates/choir-cli/src/main.rs:2791-2797 | lines of other keys, and of none, are kept as they were, in order |
| `Config.CommentsAnswerNothing` | crates/choir-cli/src/main.rs:4478-4495 | a comment line answers no lookup |
| `Config.PutPut` | crates/choir-cli/src/main.rs:2791-2801 | writing the same keys again is as good as writing only the second time, for every lookup |
| `Config.RewriteIsStable` | crates/choir-cli/src/main.rs:2791-2801 | whatever the values, the text is the same too if and only if no kept line still ends in a carriage return and no value written first had a line of another key below its first |
| `Config.LineBreaksAreLost` | crates/choir-cli/src/main.rs:4478-4495 | a value with a line break inside never reads back |
| `Config.JoinedHome` | crates/choir-cli/src/main.rs:2784-2801 | all five values read back, and keys this command does not write are kept |
| `Links.RepointEscapingLinks` | crates/choir-cli/src/docs.rs:223-239 | the scan terminates and computes `Repointed` |
| `LinksProofs.OnlyLinksChange` | crates/choir-cli/src/docs.rs:220-239 | the new page parses into the same text around the same links, each moved |
| `LinksProofs.GlueParse` | crates/choir-cli/src/docs.rs:223-239 | the parts a page is cut into are the page |
| `LinksProofs.IdempotentExactly` | crates/choir-cli/src/docs.rs:223-257 | for a base without a quote, doing it twice is doing it once on every page if and only if the base has no fragment or query that hides a link to repoint |
| `LinksProofs.RepointedLandsThere` | crates/choir-cli/src/docs.rs:242-257 | a link is repointed exactly when it climbs one step past the book and names a page there, and then names the file the original resolved to |

## Left out

- SpeculativeRuns.RunIsInvisibleExactly: asks that no change waits twice; with repeated changes two wrong refusals may cancel (`CancellingRun`), and then only `SpeculationIsInvisible` is stated.
- SpeculationPromise.PromiseForQueue: with a window of one that may open, nothing is said of five or more waiting changes that begin with the same change twice and are not all that change: whether two that have not landed ever meet in a round then depends on how the copies, and what an eviction takes along, line up with the growing window.
- MergeTrainProofs.RevertUndoesTrain: is about reverting on the train tip itself; what happens after the branch moved is only that the push is refused.
- Backup.Directory.Take: a bundle is the refs it holds; refs that move between listing them and bundling, a digest program or archiver that fails, and an incoming directory left by a killed run are not modelled.
- Restore.Target.Run: a write that is cut short leaves some beginning of what it was writing; starting the restored node, its canary write and the prefix check after it are not modelled.
- BatchLand.Maintainer.BatchLand: the origin has no other writer during a call, so the final push is never rejected.
- BatchRaises.NeverRaisesExactly: asks that different selections have different trees, because the tests see nothing but a tree; `IndependentItemsNeverRaise` needs no such thing.
- Drainer.TrainQueue.DrainAll: verdicts and the log's answers are functions of the change and the state tested; a batch goes without verdicts exactly when some job of it does, so a batch of no jobs is always answered; what a resolution memory replays counts as an answer of the speculator; the window journal and recorded checks are not modelled.
- Sync.SyncOnce: signatures and scopes of operations are not modelled, and neither is a transport failure in the middle of a round.
- Config.PutGet: asks that values end on the line they begin on, white space apart; `ReadsBackExactly` shows that others do not read back.
- Token.AppJwt: a clock in the first minute of 1970 is not modelled.
- Stamp.SortsUntil: leap seconds and clocks before 1970 are not modelled.
- Harvest.Run: reproduction runs, specimens and the record of population restrictions are left out, since they do not change which merges are recorded.
- Harvest.StoppingOnlyPostpones: asks that no merge is listed twice, as a listing of a history never does.
- Git: the line merge of one file, the merge base and patch ids are oracles; commit dates are not part of a commit, so two merges that agree on parents, tree and message are one.
- Hashes: content hashes and digests are functions, and injective where a lemma says so.
- Worktrees: a checkout or a creation that fails leaves its worktree as it was, and removing worktrees succeeds.
- The view fold, the encoding of log entries, workspace snapshots and policy checks of the node: another layer, of which only the compare-and-swap rule is used.
- Subprocesses, HTTP and MCP transport, TLS issuance, service units, key generation, file permissions and terminal output: only the state effect of a step is modelled.
- Argument parsers, exit codes, reports, `parse_merge_list`, `parse_observed_merges`, `redact` and `repositories`: single-branch facts that would add easy members.

# Verified models of five core components

This project models the five most stateful parts of the repository in Dafny and
proves what their code, tests and documentation promise. `dafny verify
dfyconfig.toml` checks all of it.

| area | modules |
|---|---|
| multi-agent coordinator | MultiAgentContracts, CoordinatorModel, Coordinator, CoordinatorSafety, CoordinatorRounds, CoordinatorResume, CoordinatorConservation, CoordinatorAccounting, CoordinatorRules |
| release regression planner and executor | ReleaseTiming, ReleaseSplit, ReleaseBalance, ReleasePlan, ReleaseBuild, ReleaseRun, ReleaseSchedule, ReleaseWindow, ReleaseExecutor, ReleaseEvidence |
| versioned memory graph | MemoryGraphRecords, DepthFirst, GraphEdits, VersionedMemoryGraph, MemoryGraphRuns, MemoryGraphEffects |
| exact-source materialiser | Decimal, GitBatch, MaterializationDigest |
| checkpointed runtimes | StateGraph, StateGraphSemantics, WorkingMemory |

Outcomes, Ordering, Sequences and PlainText hold what the areas share: result types,
sorting, the order of strings, slicing, and what counts as text.

**How the code is mirrored.** Objects that update their fields are classes
(`MultiAgentCoordinator`, `MemoryGraph`, `Explorer`, `CompiledStateGraph`,
`Memory`); loops are methods with loops. Each is proved equal to a function of
its inputs, or of the object's old state, and the theorems are about those
functions. CoordinatorRules, ReleaseEvidence, MemoryGraphEffects and
StateGraphSemantics say what these functions compute without using them, as relations
on what goes in and what comes out. A digest is a free constructor, so two digests are equal exactly when
what they digest is equal; a message carries its ID as a field of its own, so
the coordinator's theorems hold for any function that computes IDs. Node
behaviour is a deterministic function of the world and the message; the world
itself is an abstract type.

**What the proofs found.**

- Resuming a coordinator run reproduces the uninterrupted run exactly when the
  run stopped between rounds. After a `MAX_MESSAGES` or `FAILED` stop it never
  does, and both stops do happen; order, causality and uniqueness still carry over.
- At delivery the coordinator can neither find a duplicate nor refuse a message
  of a lawful checkpoint. For a checkpoint made by hand it can, and then the message
  is lost: a pending message without an edge fails the run and is put back nowhere.
  A valid checkpoint is conserved by every call exactly when all its pending messages
  have an edge.
- From such a checkpoint a call fails exactly when a node raises, returns no messages
  or breaks one of the five rules for its outputs; well-behaved nodes never fail a run.
- The memory graph's no-op test can never fire, because the generation is part of
  the digest it compares and always changes; nor can its dangling-edge test,
  because nodes are never removed and endpoints are checked first.
- The release run's final passed + skipped = collected test can only fail for an
  empty plan.
- A built shard plan passes the validator exactly when the planner knows every
  isolation class of the inventory: files of another class are left out of the plan.
- Reading back what `git cat-file --batch` prints works for any blobs exactly when
  no requested ID holds a space or a newline.
- The materialisation stream is injective as long as modes and IDs hold no NUL,
  and a NUL in any of them always breaks it.
- The answers of the test processes decide what a release run comes to, whether it
  finishes and which rows it leaves. Without an unclean answer it finishes as soon as
  as many polls found something as there were parallel shards left, and every exclusive
  shard is reported, however many polls in between found nothing. It finishes exactly
  when every planned shard is recorded already or reported faultlessly.

## Model

| member | source | states |
|---|---|---|
| `MultiAgentContracts.Topology.FirstEdge` | orchestration/multi_agent/contracts.py:74-78 | the edge looked up is the first declared one that joins the two nodes |
| `Coordinator.MultiAgentCoordinator.OfferOutputs` | orchestration/multi_agent/orchestration.py:210-219 | the loop over a node's outputs queues, turns away or fails on each as `OfferAll` does, which is said rule by rule in `OutputsAreJudged` |
| `Coordinator.MultiAgentCoordinator.DeliverMessage` | orchestration/multi_agent/orchestration.py:188-229 | one delivery, on all its paths (duplicate, refused, raised, wrong type, outputs), and the world its node leaves |
| `Coordinator.MultiAgentCoordinator.DeliverRound` | orchestration/multi_agent/orchestration.py:183-229 | a round, with the undelivered rest put back in front of the new queue at a message limit or a failure |
| `Coordinator.MultiAgentCoordinator.ExecuteRounds` | orchestration/multi_agent/orchestration.py:154-254 | the whole loop, its result or the refusal of its checkpoint or result, and the world left behind; a refused checkpoint reaches no node |
| `Coordinator.MultiAgentCoordinator.RunManyMessages` | orchestration/multi_agent/orchestration.py:65-97 | a fresh run from validated turn-zero messages, each reason to refuse it with its own error, and the world left behind, untouched by a refusal |
| `Coordinator.MultiAgentCoordinator.ResumeFrom` | orchestration/multi_agent/orchestration.py:99-121 | a resume continues a checkpoint of the same topology and refuses any other; the world is the one its run leaves, untouched by a refusal |
| `CoordinatorSafety.OfferAllKeeps` | orchestration/multi_agent/orchestration.py:210-219 | offering outputs keeps IDs unique, the scheduled set exact, turns ordered and causes present, and leaves the transcript alone |
| `CoordinatorSafety.DeliverConsistent` | orchestration/multi_agent/orchestration.py:188-219 | a delivery adds exactly its message to the transcript, keeps IDs unique and the seen set exact, and never reports an already delivered ID |
| `CoordinatorSafety.LawfulIsDeliverable` | orchestration/multi_agent/orchestration.py:256-264 | a message of a lawful run always passes the delivery check |
| `CoordinatorSafety.RunRoundSettles` | orchestration/multi_agent/orchestration.py:183-229 | however a round ends, transcript and queue hold distinct IDs of one conversation, and a failure carries an error |
| `CoordinatorSafety.RunRoundsSettle` | orchestration/multi_agent/orchestration.py:176-232 | however a call ends, transcript and queue hold distinct IDs; the transcript only grows; the laws are kept |
| `CoordinatorSafety.ExecuteKeeps` | orchestration/multi_agent/orchestration.py:233-254 | from any valid checkpoint the final checkpoint and result are always valid, the transcript is extended, no delivery-time duplicate is reported, and lawfulness is kept |
| `CoordinatorSafety.ChainKeeps` | orchestration/multi_agent/orchestration.py:99-121 | any chain of resumes from a lawful checkpoint succeeds and ends in a lawful checkpoint that extends the transcript |
| `CoordinatorSafety.RunsAreLawful` | orchestration/multi_agent/orchestration.py:65-121 | a fresh run followed by any resumes, whatever stops them, leaves messages in breadth-first order with spread at most one turn pending, causally closed, along permitted edges, with unique IDs |
| `CoordinatorSafety.EveryMessageHasARoot` | orchestration/multi_agent/orchestration.py:273-283 | every delivered or pending message of turn t ends a causal chain of exactly t hops from a turn-zero root over permitted edges, all earlier hops delivered |
| `CoordinatorRounds.RoundsFollowTurns` | orchestration/multi_agent/orchestration.py:176-232 | a fresh run, or a resume cut between rounds, delivers messages of turn r - 1 in round r and no others, and acknowledges each delivery |
| `CoordinatorResume.RunSplits` | orchestration/multi_agent/orchestration.py:176-232 | a run given more rounds passes through the state in which a shorter one stopped between rounds |
| `CoordinatorResume.CutStaysCut` | orchestration/multi_agent/orchestration.py:184-187 | a run stopped inside a round stops at the same place whatever its round limit |
| `CoordinatorResume.CheckpointLosesNothing` | orchestration/multi_agent/orchestration.py:166-175 | between rounds the state rebuilt from the checkpoint is the state that wrote it, but for the receipts: the scheduled set is exactly the delivered and the queued IDs |
| `CoordinatorResume.ResumeIsExact` | orchestration/multi_agent/orchestration.py:99-254 | stopping and resuming gives the uninterrupted result with the receipts concatenated if and only if the first call ended neither `MAX_MESSAGES` nor `FAILED` |
| `CoordinatorResume.CutsHappen` | orchestration/multi_agent/orchestration.py:184-187 | fresh runs that end `MAX_MESSAGES` and `FAILED` exist, and resuming them is not the longer run |
| `CoordinatorResume.ResumeKeepsTheWorld` | orchestration/multi_agent/orchestration.py:99-121 | after a clean stop the nodes' world is also the one the uninterrupted run leaves |
| `CoordinatorAccounting.EveryOutputHasOneFate` | orchestration/multi_agent/orchestration.py:210-229 | every output up to the first bad one is a duplicate exactly when its ID was scheduled, rejected exactly when its edge is full, and queued otherwise, each refusal with one receipt, in order; the bad one fails its parent's delivery; later ones are not looked at |
| `CoordinatorConservation.RoundGrows` | orchestration/multi_agent/orchestration.py:183-229 | wherever a round stops whose messages all have an edge, delivered plus remaining messages grow by exactly the outputs it accepted, each returned by a node to which it delivered the parent |
| `CoordinatorConservation.CallConserves` | orchestration/multi_agent/orchestration.py:176-232 | from any valid checkpoint whose pending messages have an edge, a call leaves what it found, in order, followed by exactly the outputs it accepted; each was returned by the node that received its parent during this call, in the world the deliveries before it had left |
| `CoordinatorConservation.UnroutedIsLost` | orchestration/multi_agent/orchestration.py:196-229 | the first pending message without an edge is refused and put back nowhere: a call exists that ends `FAILED` with it in no list, and nothing else missing |
| `CoordinatorConservation.ConservedExactly` | orchestration/multi_agent/orchestration.py:99-254 | a valid checkpoint is conserved by every call if and only if all its pending messages have an edge |
| `CoordinatorConservation.LossHappens` | orchestration/multi_agent/orchestration.py:220-229 | such a checkpoint exists: its resume reports neither the message it had nor any other |
| `CoordinatorAccounting.CallWithinBounds` | orchestration/multi_agent/orchestration.py:176-187 | from any valid checkpoint, neither limit is exceeded unless the checkpoint already did |
| `CoordinatorAccounting.RoundWithinLimits` | orchestration/multi_agent/orchestration.py:289-298 | the queue a round leaves is the part it did not reach and the outputs it accepted, and these never exceed the in-flight limit of any edge |
| `CoordinatorAccounting.StatusTellsWhy` | orchestration/multi_agent/orchestration.py:176-254 | what each reported status guarantees about pending work, limits, cancellation and the last receipt |
| `CoordinatorRules.RulesExactly` | orchestration/multi_agent/orchestration.py:273-283 | an output is good exactly when its sender got the parent, its conversation is the run's, its turn is the next, it names the parent and a declared edge joins its ends; otherwise the error is that of the first of these rules it breaks |
| `CoordinatorRules.OutputsAreJudged` | orchestration/multi_agent/orchestration.py:210-229 | output by output: a good one with a scheduled ID gets a duplicate receipt, else one whose first declared edge already carries its limit a rejection receipt, else it is queued; the first bad one fails the run with a receipt for its parent |
| `CoordinatorRules.OffersFailExactly` | orchestration/multi_agent/orchestration.py:210-229 | offering outputs fails if and only if some output breaks a rule, with the error of the first that does |
| `CoordinatorRules.LoadCounts` | orchestration/multi_agent/orchestration.py:290-294 | the load of an edge is the number of queued messages that travel it |
| `CoordinatorRules.DeliveryFollowsRules` | orchestration/multi_agent/orchestration.py:188-229 | a delivery, in full: duplicate, undeliverable with its error, raised, not messages, or acknowledged and its outputs judged; every receipt repeats its message's ID, ends and attempt |
| `CoordinatorRules.CallFailsExactly` | orchestration/multi_agent/orchestration.py:176-254 | if every pending message has an edge, a call ends `FAILED` if and only if the node of some message it delivered raised, returned no messages or returned a bad one; that is then the last delivery and the error says what was wrong |
| `CoordinatorRules.WellBehavedNeverFail` | orchestration/multi_agent/orchestration.py:99-254 | nodes that always return good outputs never fail a call |
| `CoordinatorRules.FreshRunsAreRefusedExactly` | orchestration/multi_agent/orchestration.py:74-90 | a fresh run is refused exactly for non-positive limits, no initial message, one that is not a topology-valid turn-zero message of the conversation, or a repeated ID, each with its own error, in this order |
| `CoordinatorRules.FreshRunsStartInOrder` | orchestration/multi_agent/orchestration.py:88-97 | transcript and pending messages of a fresh run are the initial messages in the given order, followed by the accepted outputs |
| `CoordinatorRules.CancellationIsObeyed` | orchestration/multi_agent/orchestration.py:177-179 | no round starts once the port says cancelled; before the first round that means no delivery at all |
| `ReleaseSplit.CutGroups` | scripts/release_regression.py:547-562 | the cutting loop gives shards that fit, in order, none of which could take the next file |
| `ReleaseSplit.TightIsShortest` | scripts/release_regression.py:526-562 | no order-preserving split within the limits has fewer shards than a tight one |
| `ReleaseSplit.TightIsUnique` | scripts/release_regression.py:547-562 | there is only one split within the limits that cuts only where it must, so the splitter's is that one |
| `ReleaseSplit.BoundedExclusiveGroups` | scripts/release_regression.py:526-562 | the splitter keeps order, loses nothing, respects both limits but for single files, cuts only where it must, uses the fewest shards possible, and refuses exactly non-positive limits |
| `ReleaseBalance.PopLeast` | scripts/release_regression.py:518-518 | the least loaded open bucket, ties by index, leaves the heap |
| `ReleaseBalance.Capacity` | scripts/release_regression.py:505-506 | the shards have room for all files, at most eight each, and one shard fewer would not |
| `ReleaseBalance.Rank` | scripts/release_regression.py:510-516 | a permutation of the files, longest estimate first, ties by path |
| `ReleaseBalance.PlaceBalanced` | scripts/release_regression.py:517-522 | placing a file keeps every bucket's load within any open bucket's load plus the estimate of any file it holds |
| `ReleaseBalance.FillBuckets` | scripts/release_regression.py:507-522 | the heap is never empty when popped, every file is in exactly one bucket, no bucket overflows, the loads are balanced, and each file went to the first of the least loaded open buckets |
| `ReleaseBalance.OneDeal` | scripts/release_regression.py:507-522 | dealing by a plain scan for the first least loaded open bucket, which the heap refines, puts every file in one determined bucket |
| `ReleaseBalance.PathOrderIsByComponents` | scripts/release_regression.py:523-523 | files of a shard are ordered by the components of their paths |
| `ReleaseBalance.BalancedParallelGroups` | scripts/release_regression.py:489-523 | exactly ceil(n/8) shards, none empty or over eight files, every file once, each in path order, loads balanced |
| `ReleasePlan.ObserveShard` | scripts/release_regression.py:626-630 | a shard is accepted exactly when it repeats no file, and its files' classes are recorded |
| `ReleasePlan.ObservePlan` | scripts/release_regression.py:620-630 | the scan succeeds exactly when no index and no file is repeated; otherwise the error is decided at the first shard that repeats anything, index before file |
| `ReleasePlan.ValidatePlan` | scripts/release_regression.py:614-642 | accepts exactly the plans with distinct indexes that run each inventory file once under its own class; each of the five errors exactly when its rule is the first broken |
| `ReleasePlan.CoversIsPermutation` | scripts/release_regression.py:614-642 | for an inventory without repetition, a plan is accepted exactly when its indexes differ and its rows permute the inventory |
| `ReleaseBuild.AppendGroups` | scripts/release_regression.py:576-578 | groups become shards numbered on, in order, and add exactly their files' rows |
| `ReleaseBuild.BuildShardPlan` | scripts/release_regression.py:565-588 | parallel-safe shards first, then process-isolated, then exclusive ones, numbered from one; each of the first two classes dealt out evenly, longest file first, over exactly ceil(n/8) shards; the exclusive files cut in order into the fewest shards the limits allow; every plannable row once; refused exactly for a non-positive size |
| `ReleaseBuild.BuiltPlanIsValid` | scripts/release_regression.py:565-642 | a built plan passes the validator if and only if every class in the inventory is a known one |
| `ReleaseRun.PersistPartitions` | scripts/release_regression.py:703-723 | making a shard durable moves it from the work left to the persisted ones, where it was not before, and keeps every other result |
| `ReleaseRun.NextKeeps` | scripts/release_regression.py:791-854 | every step, a crash included, keeps work and persisted shards a partition of the plan, the window within the workers, and every durable row |
| `ReleaseRun.BehaviourKeepsInv` | scripts/release_regression.py:885-979 | the same over any sequence of crashes and restarts, from whatever rows earlier runs left, stale ones included |
| `ReleaseRun.ProgressIsDurable` | noetrium_platform/foundation/governance/release/runtime/regression_state.py:104-114 | no row is ever lost, and the result of a planned shard never changes; only a stale row may give way, to a clean result of the shard with its index |
| `ReleaseRun.PersistedNeverRuns` | scripts/release_regression.py:686-699 | a persisted shard is never run again, in this process or a later one |
| `ReleaseRun.FinishedIsComplete` | scripts/release_regression.py:949-979 | a finished run has exactly one clean result for every planned shard |
| `ReleaseExecutor.PartitionPendingPlans` | scripts/release_regression.py:675-700 | cached results, and the parallel and exclusive shards without one in plan order |
| `ReleaseExecutor.FillWindow` | scripts/release_regression.py:795-807 | the window takes pending shards in order, by steps of the state machine, until it is full or nothing is pending |
| `ReleaseWindow.TakeFinished` | scripts/release_regression.py:809-826 | exactly the shards the poll finds finished leave the window, in index order and with what they came to; the others stay in order |
| `ReleaseWindow.RecordSaves` | scripts/release_regression.py:815-825 | recording them makes exactly the clean ones durable that no unclean one with a smaller index precedes |
| `ReleaseExecutor.PersistBatch` | scripts/release_regression.py:815-825 | finished shards are made durable front to back, and the process stops exactly when one of them failed |
| `ReleaseExecutor.PollWindow` | scripts/release_regression.py:809-826 | a poll stops the process exactly when it brings an unclean answer, and saves exactly the rows before it; otherwise the answered shards have left the window |
| `ReleaseExecutor.RunParallelPlans` | scripts/release_regression.py:731-830 | the rolling window only takes steps of the state machine, gets through exactly when the polls drain it without an unclean answer, and leaves exactly the rows they save |
| `ReleaseExecutor.RunExclusivePlans` | scripts/release_regression.py:833-854 | exclusive shards run one after the other; the phase finishes exactly when every one has a clean report, and the durable rows are those up to the first that has not |
| `ReleaseExecutor.SummarizeRegressionResults` | scripts/release_regression.py:857-882 | there is one total over all results, and it is returned, or refused exactly when it does not add up |
| `ReleaseExecutor.FinishedAddsUp` | scripts/release_regression.py:868-872 | a finished run's totals add up, count every planned shard, and are positive unless the plan is empty |
| `ReleaseExecutor.RunPhases` | scripts/release_regression.py:949-973 | from any durable rows, those of no planned shard passed over, a process is a run of the state machine; whether it finishes and what it leaves is what the answers come to |
| `ReleaseExecutor.RunReleaseRegression` | scripts/release_regression.py:947-979 | a refused plan changes nothing; otherwise the process is a run of the state machine that is interrupted exactly when the answers do not get it through, and success means every planned shard is durable and the totals reported are those of the planned shards' durable rows |
| `ReleaseSchedule.OneOutcome` | scripts/release_regression.py:757-826 | the same answers on the same durable rows always come to the same end and the same rows |
| `ReleaseSchedule.FinishedIsAnswered` | scripts/release_regression.py:794-854 | a process never finishes without a clean answer in some poll for every parallel shard it still had to run, and a clean report in its own position for every exclusive one |
| `ReleaseSchedule.ProductivePollsDrain` | scripts/release_regression.py:794-826 | without an unclean answer, as many polls that find some shard of the window finished as there are shards get the window through, with any number of fruitless polls in between |
| `ReleaseSchedule.CleanAnswersFinish` | scripts/release_regression.py:791-854 | a process always finishes if none of its shards gets an unclean answer, as many polls find something as there are parallel shards left, and every exclusive shard has a clean report, whatever was durable before |
| `ReleaseEvidence.AcceptedExactly` | scripts/release_regression.py:129-148 | a report is accepted exactly when no fault is counted and passed and skipped tests add up to a positive number collected; the row then repeats its counts and names the shard's first and last file |
| `ReleaseEvidence.RowsRepeatReports` | scripts/release_regression.py:653-671 | every row a process leaves was there before, unchanged, or repeats the counts of the faultless report about the planned shard with that index: from the poll that found it finished in the window, or from its own turn |
| `ReleaseEvidence.FinishesExactly` | scripts/release_regression.py:791-854 | a process finishes if and only if every planned shard was recorded before, by index and files, or is reported faultlessly when its turn comes |
| `ReleaseEvidence.TotalsAddUpReports` | scripts/release_regression.py:864-882 | the totals of a run that succeeds are the sums, over the planned shards, of the collected, passed and skipped counts their test processes reported |
| `MemoryGraphRecords.GenerationRoundTrip` | components/reference/single_agent/memory/versioned_memory_graph.py:26-32 | the number read from a generation name is the number written, for every integer |
| `DepthFirst.Explorer.Visit` | components/reference/single_agent/memory/versioned_memory_graph.py:160-169 | a visit that returns has explored its node and restored the path; one that raises has found a cycle |
| `DepthFirst.Explorer.VisitAll` | components/reference/single_agent/memory/versioned_memory_graph.py:157-172 | the search terminates and succeeds exactly when the graph has no cycle |
| `DepthFirst.ChildrenFirstIsAcyclic` | components/reference/single_agent/memory/versioned_memory_graph.py:168-169 | a graph whose nodes all finish after their children has no cycle |
| `GraphEdits.TableHasSameCycles` | components/reference/single_agent/memory/versioned_memory_graph.py:150-156 | the adjacency table has a cycle exactly when the edges have one |
| `GraphEdits.ValidateDag` | components/reference/single_agent/memory/versioned_memory_graph.py:145-172 | accepts exactly the graphs whose active edges join existing active nodes and close no loop; the first bad edge decides which error it gets, and a cycle is reported exactly when that is all that is wrong |
| `GraphEdits.ApplyBatch` | components/reference/single_agent/memory/versioned_memory_graph.py:69-130 | a batch is its operations one after the other, up to the first error, and keeps records valid and endpoints present |
| `GraphEdits.OperationKeepsWellFormed` | components/reference/single_agent/memory/versioned_memory_graph.py:72-130 | no operation leaves an invalid record, a record under a foreign key or an edge without an endpoint |
| `VersionedMemoryGraph.MemoryGraph.Stage` | components/reference/single_agent/memory/versioned_memory_graph.py:57-143 | staging answers as `Stages` allows, which `StageAnswers` spells out, and changes nothing |
| `VersionedMemoryGraph.MemoryGraph.Activate` | components/reference/single_agent/memory/versioned_memory_graph.py:174-188 | compare-and-swap on the base digest: installs and records, or conflicts and changes nothing |
| `VersionedMemoryGraph.MemoryGraph.Restore` | components/reference/single_agent/memory/versioned_memory_graph.py:190-196 | installs exactly the DAGs and clears the ledger; a refusal changes nothing |
| `VersionedMemoryGraph.NothingDangles` | components/reference/single_agent/memory/versioned_memory_graph.py:152-153 | an edited graph never has a dangling edge |
| `MemoryGraphRuns.ListingIsValid` | components/reference/single_agent/memory/memory_graph.py:70-93 | the snapshot listed from a working copy is valid exactly when no parent is missing |
| `MemoryGraphRuns.ListingInverts` | components/reference/single_agent/memory/versioned_memory_graph.py:133-137 | listing a working copy and reading the snapshot back gives the same dictionaries |
| `MemoryGraphRuns.ListingIsCanonical` | components/reference/single_agent/memory/versioned_memory_graph.py:133-137 | a working copy has one canonical snapshot |
| `MemoryGraphRuns.StagesExactly` | components/reference/single_agent/memory/versioned_memory_graph.py:57-143 | staging succeeds for exactly the batches that meet the rules, and the no-op error never occurs |
| `MemoryGraphRuns.StagedIsSound` | components/reference/single_agent/memory/versioned_memory_graph.py:131-143 | a staged snapshot is valid, acyclic, one generation on, and holds exactly the edited graph |
| `MemoryGraphRuns.StagingIsDeterministic` | components/reference/single_agent/memory/versioned_memory_graph.py:57-143 | staging the same batch on the same snapshot gives the same transaction |
| `MemoryGraphRuns.HistoriesKeepInv` | components/reference/single_agent/memory/versioned_memory_graph.py:57-196 | every graph reachable from empty by stage, activate and restore is valid, canonical and acyclic over active nodes and edges |
| `MemoryGraphRuns.Perform` | components/reference/single_agent/memory/versioned_memory_graph.py:57-196 | whatever a client asks of the object and whatever the answer, the object takes a step of such a history |
| `MemoryGraphRuns.NoDoubleActivation` | components/reference/single_agent/memory/versioned_memory_graph.py:174-188 | between restores generations rise by one per activation, so no base is used twice and no transaction is activated twice |
| `MemoryGraphRuns.LedgerIsAChain` | components/reference/single_agent/memory/versioned_memory_graph.py:178-187 | each result digest is the next base digest, from the last restore to the current snapshot, and every entry repeats the provenance of its transaction |
| `MemoryGraphEffects.BatchEffects` | components/reference/single_agent/memory/versioned_memory_graph.py:69-130 | every field of every node has the value of the last operation that writes it, or its old one; an edge is active exactly when the last operation naming it creates it, or none names it and it was; what no operation names is unchanged, generation included |
| `MemoryGraphEffects.EffectsDecide` | components/reference/single_agent/memory/versioned_memory_graph.py:69-130 | these effects leave nothing open: they decide the edited graph |
| `MemoryGraphEffects.RefusedExactly` | components/reference/single_agent/memory/versioned_memory_graph.py:72-130 | after any operations, the next one is refused with an error exactly when the node or edge it needs is missing, or it creates one that is there, or the base's generation is no number, or the record it would write is not valid |
| `MemoryGraphEffects.StageAnswers` | components/reference/single_agent/memory/versioned_memory_graph.py:57-143 | what staging answers from the base and the operations alone: too few or too many operations, the first refused operation's error, an inactive endpoint, a cycle, an unreadable generation, a missing parent, a blank rationale or evidence ID, or the transaction that carries the edited graph, its base, digests and sorted evidence |
| `Decimal.ParseInverts` | components/reference/single_agent/memory/versioned_memory_graph.py:30-30 | reading a written integer back gives the integer |
| `Decimal.ParsesExactly` | components/reference/single_agent/memory/versioned_memory_graph.py:30-30 | a text is read as a number exactly when it is the number's digits, perhaps with single underscores between them, at most one sign in front and white space around |
| `GitBatch.SplitsInThree` | scripts/release_distribution.py:207-210 | a header splits in three exactly when it is three space-free stretches joined by spaces |
| `GitBatch.GitBlobBatch` | scripts/release_distribution.py:188-225 | the cursor loop reads what the frame-by-frame reading reads, error for error |
| `GitBatch.ParsesExactlyFramings` | scripts/release_distribution.py:200-225 | an answer is accepted with some blobs if and only if it is one frame per requested ID, in order, with right lengths and no bytes left over |
| `GitBatch.ParseUndoesPrint` | scripts/release_distribution.py:188-225 | reading what git prints returns the blobs, newlines and all, if and only if no ID holds a space or newline |
| `GitBatch.RefusedExactly` | scripts/release_distribution.py:200-225 | an answer is refused with an error if and only if the error names what is wrong with the first bad frame, or bytes are left over |
| `MaterializationDigest.BigEndianInjective` | scripts/release_distribution.py:238-239 | two lengths that fit a field have different encodings |
| `MaterializationDigest.BigEndianReadsBack` | scripts/release_distribution.py:238-239 | reading the bytes of a length, most significant first, gives the length back |
| `MaterializationDigest.FeedDigest` | scripts/release_distribution.py:232-239 | the loop feeds the stream of all entries, or stops exactly when a length does not fit its field |
| `MaterializationDigest.StreamInjective` | scripts/release_distribution.py:232-239 | two lists of entries feed the same bytes only if they are the same list |
| `MaterializationDigest.StreamReadsBack` | scripts/release_distribution.py:232-239 | a reader that knows only the layout (schema, then mode, ID, four-byte path length, path, eight-byte blob length, blob) gets the entries back |
| `MaterializationDigest.NulWouldCollide` | scripts/release_distribution.py:236-237 | every list of entries with a NUL in a mode or an ID feeds the same bytes as a different list |
| `StateGraph.CompiledStateGraph.MergeInto` | components/reference/graph.py:371-375 | a key-by-key merge, in whatever order, applies each key's reducer to its old value once |
| `StateGraph.CompiledStateGraph.SaveSnapshot` | components/reference/graph.py:119-126 | appends to the thread's history unless it is the latest already; other threads are untouched |
| `StateGraph.CompiledStateGraph.StepOnce` | components/reference/graph.py:440-473 | one node run, merge, route and checkpoint |
| `StateGraph.CompiledStateGraph.StreamThread` | components/reference/graph.py:393-474 | events, history and ending of a stream, on every path, as `Stream` gives them, which `StreamFollowsGraph` spells out |
| `StateGraph.ContinuingIsExact` | components/reference/graph.py:413-474 | running out of k steps and streaming m more from the latest checkpoint is streaming k + m steps at once: events, history, ending and position |
| `StateGraph.ThreadHistoryIsLinear` | components/reference/graph.py:413-474 | a thread started once and only ever continued has step i at entry i, the child of entry i - 1 |
| `StateGraphSemantics.RunTakes` | components/reference/graph.py:440-473 | a step runs the first next node on the state, gives each updated key its reducer's answer for its old value, pauses on an interrupt, and otherwise goes to the command's goto, else the router's answer, else the edges, merging the updates of sends in order |
| `StateGraphSemantics.OneStep` | components/reference/graph.py:440-473 | that description decides the step |
| `StateGraphSemantics.StreamFollowsGraph` | components/reference/graph.py:393-474 | a stream starts at the entry with the new state or at the latest checkpoint with the resume value under its key, or is refused; then it is its first step followed by the stream from the checkpoint that step saved |
| `StateGraphSemantics.ResumeRunsTheNode` | components/reference/graph.py:422-473 | after an interrupt, streaming on stops at once with the same interrupt until a value is passed; then the interrupted node runs again, on the saved values with that value in them |
| `WorkingMemory.Memory.constructor` | components/reference/single_agent/memory/stores.py:58-70 | starts from the last rows loaded |
| `WorkingMemory.Memory.Remember` | components/reference/single_agent/memory/stores.py:76-87 | the items are always the recency view of the whole call history, and are exactly what is persisted |
| `WorkingMemory.NewestReplaces` | components/reference/single_agent/memory/stores.py:80-84 | a call replaces the earlier call with its key and becomes the latest |
| `WorkingMemory.TruncationIsHarmless` | components/reference/single_agent/memory/stores.py:84-84 | truncating before a call loses nothing the call would have kept |
| `WorkingMemory.RecencyOfHistory` | components/reference/single_agent/memory/stores.py:76-87 | after any calls from empty the memory is the last `capacity` of the calls no later call replaced, in order, with the latest values |
| `WorkingMemory.LastOccurrencesExactly` | components/reference/single_agent/memory/stores.py:76-87 | the calls that count are, in order, exactly those that are the last with their key |

## Left out

- Coordinator: hashing of messages and receipts, the field checks of message and receipt records, and Python type checks; IDs are free and digests are compared as the values they digest.
- Coordinator: limits are naturals, so a negative limit, refused by the source like zero, is not a case of its own.
- Coordinator: the journal, its failures, `resume_from_journal`, and the group-chat, debate, hierarchy and transport wrappers.
- Coordinator: nodes that are not deterministic functions of the world and the message; a cancellation port is asked by round, so its answers are a function of the round.
- Release: reading the inventory and the durable state, a state that does not match and is started afresh, and `with_plan`'s own checks, which the validator repeats.
- Release: durable rows are a map with one row per shard index, written atomically; a row recorded for a planned shard, by index and identity, is assumed to be a clean result of it. The identity is the list of files; the source digests the names joined by newlines, so it would confuse lists in which a name holds one.
- Release: processes, signals, output, timing files, the file durations of a report and the thread pool; polling is a finite list of answers, and running out of answers is a crash.
- Release: durations are exact non-negative reals and paths are strings relative to the root; error messages do not name the file.
- Memory graph: the event ID, which is a truncated digest; digests of transactions; `diagnostics`.
- Memory graph: payload values are taken after their conversion to text and truth values, and generation numbers are read as ASCII decimals: non-ASCII digits and spaces that Python's `int` also accepts are not modelled.
- Memory graph: transactions built by hand, which `activate` does not check again; the history theorems are about staged ones.
- Memory graph: Python's recursion limit, which the depth-first search hits on very long chains.
- Materialiser: the git process, the limit Python puts on the digits of an integer, encoding paths as UTF-8 (paths are bytes), and writing the files.
- State graph: `checkpoint_id` time travel, graphs without a checkpointer, the SQLite checkpointer, freezing of JSON values, reducers that raise, consumers that stop reading events, and several threads at once.
- Working memory: locks, the fields of an item other than its key, and reloading order; a memory starts from rows with unique keys, as an earlier memory wrote them.
- The remaining stores, bridges, registries and command-line tools, which would add only easy members.

# Repo Health verification

A Dafny model of the parts of the Repo Health backend that carry state or a guarantee, with proofs about them:

- the **durable lease queue** in SQLite (`TaskQueue.dfy`, `Persistence.dfy`), the text timestamps its SQL
  compares (`Timestamps.dfy`), the queue as a protocol of any number of crashing workers (`LeaseProtocol.dfy`),
  the worker loop over it (`WorkerRound.dfy`, `WorkerBudget.dfy`, `WorkerBatch.dfy`, `Worker.dfy`) and its refinement
  of the protocol (`WorkerProtocol.dfy`), the local executor with its cache and its concurrent batches
  (`LocalExecutor.dfy`), the write-once result tables (`ResultStore.dfy`) and `analyze` as the client of store, facts
  and digest (`Orchestrator.dfy`);
- **repository facts**: the merge and its algebra (`Facts.dfy`, `MergeAlgebra.dfy`), the digest and its survival
  through serialisation (`FactsDigest.dfy`), both said field by field (`FactsContents.dfy`), the collection fold over
  sources (`Collection.dfy`), what a PUBLIC run keeps out (`PublicProfile.dfy`) and when the collected facts can be
  dispatched (`Dispatch.dfy`);
- the **score**: the six-category formula (`Score.dfy`, `ScoreProperties.dfy`, and in terms of its inputs
  `ScoreFormula.dfy`), the calibration anchors and the CI/CD component score (`Calibration.dfy`, `Cicd.dfy`), over
  exact reals;
- **bounded pagination** against an arbitrary server (`Pagination.dfy`).

`Ordering.dfy`, `SortedDict.dfy`, `RealArithmetic.dfy`, `Wrappers.dfy` and `Contracts.dfy` hold what these share:
string and key order, Python dictionaries and stable sorts, a few facts on products and quotients, the result
types and the task contract.

Each object the code updates in place is a class whose methods change its fields. The calls of the store, a round of
the worker and the collection fold are proved equal to functions on values, and the theorems are about those
functions: over every sequence of calls, every interleaving and every input. The batch and drain loops of the worker
and the executor state what they achieve directly. Time is an input everywhere; the clock readings are arbitrary
unless a theorem says otherwise. `dafny verify dfyconfig.toml` checks the whole project.

## Where the code and the obvious claim part

The model follows the code. Where a natural claim is false, the exact condition is proved.

- The store accepts a report by worker name only. A stored outcome always carries the row's current attempt when
  each worker name has one claim in flight (`StoredOutcomeIsCurrent`). The default worker name is the same for
  every process, and two processes sharing it can store a stale report (`SharedNameStoresStaleReport`); an
  accepted report is current exactly when its name has not claimed the task again (`AcceptanceIsFresh`).
  `run_once` keeps to one claim at a time only if the calls under a name run one after the other: two concurrent
  `execute_many` calls of one worker object interleave at the execution and share its name just the same.
- A fresh batch that is left alone does not have to finish. `execute_many` raises exactly when some round comes
  before the due time of every unfinished task, that is, while all of them are still in their backoff
  (`Worker.WorkerExecutor.ExecuteMany`, `WorkerBatch.Starved`). It finishes when every claim is past the backoffs of
  the retries before it, and at any pace when nothing is retried. (All this as long as no task is handed back from
  attempt 100, see below, which cannot happen with max_attempts up to 100.) `EarlyClaimStarves` is a batch of one task that
  raises because the second claim follows the retry within two seconds; the loop itself never waits.
- Submitting a task again is accepted exactly while it has been claimed at most once (`ResubmissionAccepted`).
- Completing twice with the same outcome is accepted exactly for a success (`RepeatedCompletion`).
- A claim can raise although it has written: exactly the one that takes a row from attempt 100 to 101
  (`ClaimWritesThenRaises`). From then on, whenever that row is first due, every claim is refused and nobody gets a
  task (`OverrunRowBlocks`), and in a disciplined run the row never finishes (`OverrunNeverFinishes`);
  `LastAttemptOverruns` is a run that gets there.
- The failure branch of the collection appends without sorting. The facts can be dispatched exactly when every
  failure after the last success sorts after everything left behind before it (`DispatchNeedsFailuresToFollow`, and
  `DispatchFromReplies` in terms of the replies alone; `UnsortedFailureBreaksDispatch` is an input that fails).
- An owner source excluded from a PUBLIC run is listed as used when the exclusion itself fails: unless limitations
  clash, exactly when it names no known fact group (`KnownGroupIsUnused`; `UnknownGroupIsListed` is an input).
- Two limitations with equal code and reason, one with a scope and one without, make the merge raise; the fold
  then records the collector as failed. The merge laws include that case.
- An analysis whose collected facts cannot be dispatched raises before any commit, and repeating it does not help:
  the row stays unscored (`UndispatchableNeverScores`, `RaisesFromReplies`).
- `analyze` returns the envelope it computed, which may differ in its timestamps from the one stored when two
  runs race (`RepeatedAnalyzeAnswersFromStore`; `RaceReturnsOtherEnvelope` is such a race).
- A high security finding only caps the score; below the cap the status may still be a pass (`SecurityCapHolds`).

## Model

| member | source | states |
|---|---|---|
| Timestamps.FromTicks | src/repo_health/persistence/sqlite.py:385-386 | every microsecond of years 1 to 9999 has a valid calendar reading that denotes it |
| Timestamps.KnownInstants | src/repo_health/persistence/sqlite.py:385-386 | the readings of the first instant, the Unix epoch, a leap day and the last instant |
| Timestamps.CalendarIsTime | src/repo_health/persistence/sqlite.py:385-386 | comparing calendar fields from the year down compares instants, and a reading is unique |
| Timestamps.FractionOrder | src/repo_health/persistence/sqlite.py:385-386 | the fraction that is omitted when zero still sorts before every written fraction |
| Timestamps.TextOrderIsTimeOrder | src/repo_health/persistence/sqlite.py:260-261 | lexicographic order of the column texts is time order, and different instants have different texts |
| Timestamps.ParseUndoesIso | src/repo_health/persistence/sqlite.py:385-390 | parsing gives back the instant that was written |
| Timestamps.TextLayout | src/repo_health/persistence/sqlite.py:385-386 | digit by digit the text of a datetime: fixed widths, separators, a fraction of six digits unless it is zero, and the offset +00:00 |
| TaskQueue.NextDue | src/repo_health/persistence/sqlite.py:259-263 | the selected row is due and strictly first by availability, analyzer and id; none is selected exactly when none is due |
| TaskQueue.LongestWaitingFirst | src/repo_health/persistence/sqlite.py:259-263 | the claimed row precedes every other claimable one by availability, then analyzer, then task id, said of the columns |
| TaskQueue.EarliestFirst | src/repo_health/persistence/sqlite.py:259-263 | in time: no waiting task whose availability has come became available before the claimed one; ties go by analyzer, then by id |
| TaskQueue.NothingClaimable | src/repo_health/persistence/sqlite.py:260-261 | nothing is claimed iff every waiting task is still ahead of its availability and every running one within its lease |
| TaskQueue.ReclaimWaitsForExpiry | src/repo_health/persistence/sqlite.py:260-261 | a running row is selected only once its stored expiry has passed in time, not just in text |
| TaskQueue.RunKeepsInvariant | src/repo_health/persistence/sqlite.py:221-347 | over any calls: running iff owned and leased, an outcome only in terminal rows, the attempt column equals the stored task's attempt |
| TaskQueue.TerminalForever | src/repo_health/persistence/sqlite.py:221-347 | a completed or failed row is never changed by anything called later |
| TaskQueue.IdentityForever | src/repo_health/persistence/sqlite.py:221-347 | a row keeps its task; only its attempt moves, and never down |
| TaskQueue.RegisterWrites | src/repo_health/persistence/sqlite.py:278-347 | a row refines a write-once register: the only write is the current owner's verdict on an unset one, and it stores exactly that verdict |
| TaskQueue.RepeatedCompletion | src/repo_health/persistence/sqlite.py:278-309 | repeating an accepted completion changes nothing and is accepted iff the outcome was a success |
| TaskQueue.ClaimWritesThenRaises | src/repo_health/persistence/sqlite.py:265-276 | a claim raises after writing iff it takes a row that is not queued from attempt 100 to 101 |
| TaskQueue.OverrunRowBlocks | src/repo_health/persistence/sqlite.py:259-267 | claims are refused with a validation error, changing nothing, iff the first due row is past the last attempt |
| Persistence.SQLitePersistence.EnqueueTask | src/repo_health/persistence/sqlite.py:221-253 | the table and the answer are those of the queue's enqueue step, and the rows stay well formed |
| Persistence.SQLitePersistence.SelectDue | src/repo_health/persistence/sqlite.py:259-263 | the query over the table finds the unique least due row |
| Persistence.SQLitePersistence.ClaimTask | src/repo_health/persistence/sqlite.py:255-276 | the table and the answer are those of the claim step, decode errors after the update included |
| Persistence.SQLitePersistence.RenewTask | src/repo_health/persistence/sqlite.py:311-321 | the table and the answer are those of the renewal step |
| Persistence.SQLitePersistence.CompleteTask | src/repo_health/persistence/sqlite.py:278-309 | the table and the answer are those of the completion step |
| Persistence.SQLitePersistence.FailTask | src/repo_health/persistence/sqlite.py:323-347 | the table and the answer are those of the hand-back step |
| Persistence.SQLitePersistence.RegisterRepository | src/repo_health/persistence/sqlite.py:91-107 | refused exactly for another repository under a known id, otherwise recorded; a known one keeps its creation time |
| Persistence.SQLitePersistence.CreateAnalysis | src/repo_health/persistence/sqlite.py:109-150 | the tables and the answer are those of the create step, and the store stays consistent |
| Persistence.SQLitePersistence.CommitEnvelope | src/repo_health/persistence/sqlite.py:182-219 | the tables and the answer are those of the commit step, and the store stays consistent |
| LeaseProtocol.AttemptAccounting | src/repo_health/persistence/sqlite.py:255-276 | in every reachable state a row is queued iff never claimed, its attempt is the submitted one plus the claims after the first, and its owner is the last claimant |
| LeaseProtocol.AcceptanceIsFresh | src/repo_health/persistence/sqlite.py:291-294 | a report the store would accept is about the current attempt iff its worker name has not claimed the task again since |
| LeaseProtocol.InFlightIsLatest | src/repo_health/execution/worker.py:84-101 | with one claim in flight per worker name, no in-flight claim is followed by another claim under its name |
| LeaseProtocol.AcceptedTicketIsCurrent | src/repo_health/persistence/sqlite.py:278-347 | fencing: under that discipline an accepted report comes from the task's latest claim |
| LeaseProtocol.StoredOutcomeIsCurrent | src/repo_health/persistence/sqlite.py:278-309 | under that discipline every stored outcome carries its row's attempt, in every run and with any clocks |
| LeaseProtocol.SharedNameStoresStaleReport | src/repo_health/config.py:45 | two processes under one worker name store a stale report: a run in which the stored attempt is behind the row's |
| LeaseProtocol.ResubmissionAccepted | src/repo_health/persistence/sqlite.py:221-231 | enqueueing the submitted task again changes nothing and is accepted iff the task was claimed at most once |
| LeaseProtocol.ClaimsBounded | src/repo_health/execution/worker.py:84-101 | a task is claimed at most max_attempts times plus once per lease expiry |
| LeaseProtocol.OverrunNeverFinishes | src/repo_health/persistence/sqlite.py:255-347 | in a disciplined run a row past the last attempt stays running, without an outcome, whatever follows |
| LeaseProtocol.LastAttemptOverruns | src/repo_health/contracts/execution.py:54 | a disciplined run reaches such a row: submitted at attempt 100, its lease runs out once; while it is due every claim is refused |
| LeaseProtocol.SuccessiveClaims | src/repo_health/persistence/sqlite.py:255-276 | with any clocks, a second claim follows a step that handed the task back after its last claim, or comes no earlier than the expiry last granted by a claim or renewal |
| LeaseProtocol.LeaseExclusion | src/repo_health/persistence/sqlite.py:255-321 | under a monotone clock no two workers hold unexpired leases on one task |
| WorkerBudget.RoundBurnsFuel | src/repo_health/execution/worker.py:84-101 | an undisturbed round changes one unfinished row and strictly lowers the rounds it can still take; a retry is due after the backoff, anything else is stored |
| WorkerBudget.QuietRoundSucceeds | src/repo_health/execution/worker.py:84-101 | when nobody interferes a round gets a task iff an unfinished row is due, and then it settles |
| WorkerBudget.RoundBurnsReserve | src/repo_health/execution/worker.py:84-101 | a round that gets a task burns reserve although others claim, renew, complete and fail meanwhile, as long as nothing new is enqueued |
| WorkerBatch.WaitedIsNotStarved | src/repo_health/execution/worker.py:92-99 | a clock that is past the submission, and past the backoff of each retry that happened, is never too early for every unfinished task |
| WorkerBatch.EarlyClaimStarves | src/repo_health/execution/worker.py:58-75 | a fresh batch of one task, left alone, whose second round finds nothing because it comes within the backoff of a retry |
| WorkerRound.RoundKeepsAll | src/repo_health/execution/worker.py:84-101 | whatever others do during a round, outcomes stored before stay stored |
| WorkerRound.DelayDoubles | src/repo_health/execution/worker.py:97 | the backoff is two seconds after the first attempt and doubles with each, up to sixty |
| WorkerRound.HandedBackIsDue | src/repo_health/execution/worker.py:90-101 | a round whose outcome is retryable and below the attempt limit leaves the task due 2, 4, 8, 16, 32 and from the sixth attempt on 60 seconds later, whatever others did; any other outcome is stored |
| Worker.WorkerExecutor.RunOnce | src/repo_health/execution/worker.py:84-101 | claim, execute while others act, settle: the table and the answer are those of a round, and the outcome is about the task and attempt claimed |
| Worker.WorkerExecutor.RunRounds | src/repo_health/execution/worker.py:58-75 | at most max(1, len * max_attempts) rounds, each as the trace says; success only with a final stored outcome for every task; left alone it fails iff a round comes before the due time of every unfinished task |
| Worker.WorkerExecutor.ExecuteMany | src/repo_health/execution/worker.py:40-82 | never a partial list: one final outcome per task in analyzer order, each the one the store keeps whatever others do, within the round limit; a fresh batch left alone raises iff a round comes before the due time of every unfinished task, so never if each claim is past the backoffs that happened, nor at any pace if no analyzer asks for a retry |
| Worker.WorkerExecutor.RunUntilEmpty | src/repo_health/execution/worker.py:111-118 | terminates whatever the clocks say and whatever others do as long as nothing new is enqueued; takes at most 102 tasks per row, or max_attempts per row when alone; stops only when nothing is due or the limit is reached |
| Worker.WorkerExecutor.Renew | src/repo_health/execution/worker.py:103-109 | true exactly when this worker owns the running row, and then only the expiry changes |
| WorkerProtocol.ClaimIsTake | src/repo_health/execution/worker.py:85-89 | the claim of a round is the protocol's Take: same store, and the worker's record is the new ticket, in flight |
| WorkerProtocol.SettleIsStep | src/repo_health/execution/worker.py:90-101 | the end of a round is the protocol's HandBack or Finish of that ticket: same store, and within the rules that bound claims |
| WorkerProtocol.AcceptedRoundIsFresh | src/repo_health/execution/worker.py:84-101 | in a disciplined run a settling call that writes comes from the task's latest claim, whatever happened during the execution |
| WorkerProtocol.WholeRound | src/repo_health/execution/worker.py:84-101 | a rule-abiding run with nothing of this name in flight stays one by a whole round, interleaved with any steps of other names and ending in any way, and its table is the one the round promises |
| LocalExecutor.LocalExecutor.Execute | src/repo_health/execution/local.py:90-179 | with deterministic analyzers the cached executor answers as one without a cache; every outcome belongs to its task; only its own successes are cached |
| LocalExecutor.VerdictsByReply | src/repo_health/execution/local.py:90-179 | for every reply the state, error kind and retryability: only timeouts and transient failures may be retried, and a result of another task is a failure |
| LocalExecutor.BatchOrder | src/repo_health/execution/local.py:71-88 | a batch is taken in the order of analyzer ids, tasks of one analyzer in the order given |
| LocalExecutor.LocalExecutor.ExecuteMany | src/repo_health/execution/local.py:71-88 | in any interleaving of starts and replies exactly one outcome per task in analyzer order, each its own task's, and with deterministic analyzers each as without a cache |
| ResultStore.RunKeepsStore | src/repo_health/persistence/sqlite.py:109-219 | over any creations and commits the columns agree with the stored envelope and a key belongs to one row |
| ResultStore.RunPreserves | src/repo_health/persistence/sqlite.py:109-219 | no later call changes a request, its key, its creation time, a repository or a scored envelope |
| ResultStore.OneKeyOneRequest | src/repo_health/persistence/sqlite.py:109-150 | two accepted creations under one key, with anything in between, were made with equal requests and got the same row |
| ResultStore.ClientKeyDecides | src/repo_health/persistence/sqlite.py:109-150 | after an accepted creation under a client key, and any further calls, another request under that key is refused and adds no row, and the same one is answered with the stored row |
| ResultStore.ContentDecides | src/repo_health/persistence/sqlite.py:109-150 | the same by content digest for requests without a key or with an empty one |
| ResultStore.ScoredForever | src/repo_health/persistence/sqlite.py:182-219 | once a scored envelope is stored, a commit after any further calls changes nothing and is answered with the stored row iff it brings the stored result |
| ResultStore.RepeatedAnalyzeAnswersFromStore | src/repo_health/orchestration/orchestrator.py:61-181 | analysing a finished request again is answered from the store with the same result, with the very envelope iff no different one had won a race |
| ResultStore.RaceReturnsOtherEnvelope | src/repo_health/orchestration/orchestrator.py:90-181 | a race after which the store answers with another envelope than the one returned |
| Orchestrator.AnalysisOrchestrator.AnalyzeRequest | src/repo_health/orchestration/orchestrator.py:61-181 | the tables and the answer are those of create, collect, dispatch and commit in order, with others working on the store meanwhile |
| Orchestrator.EnvelopeContents | src/repo_health/orchestration/orchestrator.py:119-174 | the envelope scores and judges the results it carries: failed iff collection or execution raised, completed iff six results without error or skip |
| Orchestrator.ResultsOfAnalysis | src/repo_health/orchestration/orchestrator.py:69-107 | the results are the executor's in analyzer order, or one scoreless error per task naming what failed |
| Orchestrator.RaisesExactlyUndispatchable | src/repo_health/orchestration/orchestrator.py:89 | a call raises a validation error iff it had to compute and the facts were refused, and then it has only created the analysis |
| Orchestrator.FallbackDispatches | src/repo_health/orchestration/orchestrator.py:69-87 | the facts of a failed collection are always accepted |
| Orchestrator.RaisesFromReplies | src/repo_health/orchestration/orchestrator.py:67-89 | as long as no limitations at hand clash, it raises iff a failure after the last replying collector does not follow what was left before |
| Orchestrator.UndispatchableNeverScores | src/repo_health/orchestration/orchestrator.py:61-107 | repeating such an analysis raises every time and leaves the row unscored |
| Orchestrator.AloneStoresItsEnvelope | src/repo_health/orchestration/orchestrator.py:109-181 | alone and dispatchable, an analysis that has to compute stores the very envelope it returns |
| Orchestrator.AnsweredOnceForAll | src/repo_health/orchestration/orchestrator.py:61-65 | after an answer every later analysis of the request is answered from the store with the same result, changing nothing |
| SortedDict.SortIsStable | src/repo_health/collection/service.py:44 | the model of Python's sort keeps items with equal keys in order |
| SortedDict.SortByFixed | src/repo_health/contracts/results.py:506-517 | a list is left alone by the sort iff it is in key order |
| SortedDict.IndexOfValues | src/repo_health/collection/merge.py:12-14 | reading a dictionary out in key order and indexing it again gives the dictionary back |
| SortedDict.ValuesOfIndex | src/repo_health/collection/merge.py:12-14 | a strictly sorted list is what its own dictionary reads out to |
| Facts.CanonFixed | src/repo_health/collection/merge.py:12-14 | deduplicating by key is a projection whose fixed points are the strictly sorted lists |
| Facts.IndexOfMerge | src/repo_health/collection/merge.py:17-36 | merging two lists by key is the right-biased union of their dictionaries, in key order |
| MergeAlgebra.MergeAssociative | src/repo_health/collection/merge.py:39-64 | the merge is associative on all facts, the raising case included |
| MergeAlgebra.MergeIsRightBiasedUnion | src/repo_health/collection/merge.py:17-64 | item by item what a merge contains: right-biased under shared keys, every limitation, capability and source of either side |
| FactsContents.MergeContents | src/repo_health/collection/merge.py:12-64 | field by field what a merge holds: statuses by source, observations by key and capability states by id with the last item of the right side winning, limitations and capabilities of both sides, each list in order |
| FactsContents.MergeRaises | src/repo_health/collection/merge.py:12-64 | the merge raises iff some list would hold two limitations of one code and reason, one with a scope and one without |
| MergeAlgebra.MergeIsCanonical | src/repo_health/collection/merge.py:39-64 | whatever the merge returns is in key order without repetition, with every status's source among the used ones |
| MergeAlgebra.IdentityAndIdempotence | src/repo_health/collection/merge.py:39-64 | the empty facts on either side, and the facts themselves, all act alike: as identity iff the facts are canonical |
| MergeAlgebra.MergeCommutes | src/repo_health/collection/merge.py:39-64 | two sides commute iff they agree wherever both write, or the merge raises |
| FactsDigest.DigestIsIdentity | src/repo_health/contracts/results.py:519-545 | facts share a digest iff they differ at most in collection times and snapshot digests, although default fields are dropped |
| FactsContents.DigestContents | src/repo_health/contracts/results.py:519-545 | facts share a digest iff all fields but collection times and snapshot digests agree, status by status |
| FactsContents.PayloadKeys | src/repo_health/contracts/results.py:530-538 | facts in the default public context keep their old payload: profile, used sources and capability states are absent iff all are at their defaults, and the scan state iff it is unset as well |
| FactsDigest.RebuildFixed | src/repo_health/contracts/results.py:424-428 | the validators leave facts alone iff everything is in their order |
| FactsDigest.AcceptedIffInOrder | src/repo_health/contracts/results.py:582-588 | the digest taken before dispatch is accepted after serialising and rebuilding iff the facts were in order |
| FactsContents.AcceptedContents | src/repo_health/contracts/results.py:582-588 | the digest is accepted iff statuses go by source, observations by key, capability states by id, limitations by code, and ids strictly |
| FactsContents.RebuildOrders | src/repo_health/contracts/results.py:424-428 | the validators put any facts in order, and once is enough |
| FactsContents.RebuildKeeps | src/repo_health/contracts/results.py:424-428 | the validators lose and add nothing but repeated ids |
| FactsDigest.MergedFactsAccepted | src/repo_health/orchestration/orchestrator.py:191-216 | whatever the merge returns is a fixed point of the validators, so its digest is accepted in the analyzer inputs |
| Collection.CollectionService.Collect | src/repo_health/collection/service.py:48-121 | the loop with its exception branch computes the fold over the sorted collectors |
| Collection.SupplyOrderIrrelevant | src/repo_health/collection/service.py:35-46 | with distinct source ids the result does not depend on the order of supply |
| Collection.ServiceCollects | src/repo_health/collection/service.py:35-121 | sorting the configuration when the service is built changes nothing in what it collects |
| Collection.CapabilityStatesOfRun | src/repo_health/collection/service.py:123-131 | a PUBLIC run reports sourcecraft as unavailable whatever was configured; every other capability, and every one of an owner run, as configured last; each id once |
| Collection.UsedSourcesOfRun | src/repo_health/collection/service.py:98-121 | the used sources are those the facts use or report on, without those a status marks as excluded |
| Collection.ExclusionContents | src/repo_health/collection/service.py:137-169 | an excluded owner source contributes one unavailable status and one limitation in its own group, and nothing of its reply |
| Collection.LastReporterDecides | src/repo_health/collection/service.py:62-93 | each observation is that of the last successful collector reporting its key, and there is no other |
| Collection.FailureStaysVisible | src/repo_health/collection/service.py:80-93 | a failed collector changes no fact group and its limitation is there at the end |
| PublicProfile.PublicNonInterference | src/repo_health/collection/service.py:48-169 | PUBLIC runs that differ only in what owner sources would reply give facts equal up to provenance, with equal digests |
| PublicProfile.ExcludedSourceUnused | src/repo_health/collection/service.py:98-121 | in a PUBLIC run an owner source is absent from the used sources iff excluding it succeeded |
| PublicProfile.KnownGroupIsUnused | src/repo_health/collection/service.py:98-169 | as long as no limitations at hand clash, an owner source of a PUBLIC run is absent from the used sources iff it names a known fact group |
| PublicProfile.UnknownGroupIsListed | src/repo_health/collection/service.py:137-169 | a concrete run that lists an excluded source as used |
| Collection.SuccessIsReply | src/repo_health/collection/service.py:62-93 | as long as no limitations at hand clash, a collector succeeds iff it replies |
| Dispatch.DispatchNeedsFailuresToFollow | src/repo_health/collection/service.py:80-121 | the collected facts are accepted in analyzer inputs iff every failure after the last success has an id and a code that follow all those the collectors before it left |
| Dispatch.DispatchFromReplies | src/repo_health/collection/service.py:80-121 | as long as no limitations at hand clash, the same with the replies in place of the successes |
| Dispatch.UnsortedFailureBreaksDispatch | src/repo_health/collection/service.py:80-93 | a concrete run whose facts are refused in analyzer inputs |
| Score.TallyCategories | src/repo_health/scoring/v1.py:124-171 | one pass over the categories computes all six sums |
| Score.ScoreEngine | src/repo_health/scoring/v1.py:105-264 | raises iff the weights are unusable, otherwise computes the score of the formula |
| ScoreProperties.WeightsNormalised | src/repo_health/scoring/v1.py:74-82 | normalised weights are non-negative and sum to one |
| ScoreProperties.CoverageKBounds | src/repo_health/scoring/v1.py:180-182 | K lies in [0, 1] and never exceeds evidence coverage or confidence |
| ScoreProperties.MeanBounds | src/repo_health/scoring/v1.py:173-179 | the weighted mean lies between any bounds of the measurable scores |
| ScoreProperties.ScoreWellDefined | src/repo_health/scoring/v1.py:173-201 | there is a score iff the presentation is not INSUFFICIENT_DATA; it is the smaller of mean and cap and lies in [0, 100] |
| ScoreProperties.SecurityCapHolds | src/repo_health/scoring/v1.py:191-215 | no score above the security cap survives, and the status is a failure iff a scored repository has a severe finding |
| ScoreProperties.BetterEvidenceNeverDemotes | src/repo_health/scoring/v1.py:180-189 | more measurable categories, coverage or confidence never lower K nor demote the presentation |
| ScoreProperties.HigherScoresNeverLower | src/repo_health/scoring/v1.py:173-201 | raising measurable scores never lowers the overall score nor takes it away |
| ScoreProperties.ScoreIgnoresWeightScale | src/repo_health/scoring/v1.py:74-82 | multiplying all weights by a positive number changes nothing in the result |
| ScoreFormula.Formula | src/repo_health/scoring/v1.py:124-182 | K, evidence coverage and confidence as weighted means over the six named fields, and the mean score over the measurable ones alone |
| ScoreFormula.PresentationThresholds | src/repo_health/scoring/v1.py:183-188 | SCORE iff at least minimum_score_categories are measurable and K reaches score_k; INSUFFICIENT_DATA iff the provisional minimum of either is missed |
| ScoreFormula.CapsAndStatus | src/repo_health/scoring/v1.py:191-216 | the score is the mean limited to 40 by secrets and critical findings and to 60 by high ones, and the exact condition of each status |
| ScoreFormula.CoverageReadings | src/repo_health/scoring/v1.py:267-289 | the covered share by weight, by count or by the presence of a score, kept within [0, 1] |
| ScoreFormula.AcceptedWeights | src/repo_health/scoring/v1.py:74-82 | weights are usable iff they name only the six categories and some weight is positive |
| Calibration.AnchoredQuality | src/repo_health/scoring/calibration_v2.py:77-87 | the scan computes the interpolation for any anchors and never divides by zero |
| Calibration.OnLine | src/repo_health/scoring/calibration_v2.py:83-86 | between two neighbouring anchors the result is on the line through them |
| Calibration.HitsAnchors | src/repo_health/scoring/calibration_v2.py:77-87 | every anchor is met exactly and the ends extend as constants |
| Calibration.QualityBounds | src/repo_health/scoring/calibration_v2.py:77-87 | for falling anchors the result stays between the last and the first value |
| Calibration.QualityNeverRises | src/repo_health/scoring/calibration_v2.py:77-87 | for falling anchors the result never rises, across all segments |
| Calibration.ReliabilityIsLinear | src/repo_health/scoring/calibration_v2.py:45-53 | the reliability table is 100 minus the clamped failure percentage |
| Calibration.DurationIsPiecewise | src/repo_health/scoring/calibration_v2.py:54-60 | the duration table in numbers: 100 up to 300 s, then lines through 70 at 900 s and 30 at 1800 s down to 0 at 3600 s |
| Cicd.CicdComponentScore | src/repo_health/scoring/calibration_v2.py:149-180 | building, filtering and averaging the components computes the score, the components and the eligible names |
| Cicd.ScoreExists | src/repo_health/scoring/calibration_v2.py:173-177 | there is a score iff a failure component is selected with another one; without a selection iff the failure rate is known |
| Cicd.ScoreIsMean | src/repo_health/scoring/calibration_v2.py:178-180 | the score is the exact weighted mean of the selected components, lies between them and in [0, 100] |
| Cicd.WorseNeverRises | src/repo_health/scoring/calibration_v2.py:149-180 | with the same components the score never rises with failure rate, streak, p50, p95 or either trend |
| Cicd.ComponentValues | src/repo_health/scoring/calibration_v2.py:160-172 | which components there are and the value of each in numbers |
| Cicd.ScoreInNumbers | src/repo_health/scoring/calibration_v2.py:39-44 | the score is the mean of the selected components with weights 75, 15, 5 and 5 |
| Pagination.GetJson | src/repo_health/collection/sourcecraft.py:164-225 | only transient outcomes are retried, the first other one decides, and the pauses double |
| Pagination.DecidedBy | src/repo_health/collection/sourcecraft.py:193-225 | what every sequence of answers gives, by status code: refused, not found, unavailable, malformed, or the object |
| Pagination.BlankTexts | src/repo_health/collection/sourcecraft.py:283-284 | a page token counts as blank iff all its characters are among the code points Python strips |
| Pagination.TakeRows | src/repo_health/collection/sourcecraft.py:265-282 | rows are taken in order up to the first malformed one or the cap, whichever comes first |
| Pagination.GetJsonPages | src/repo_health/collection/sourcecraft.py:227-294 | for any server and any limits the loop stops where and how the token chain says |
| Pagination.OneResult | src/repo_health/collection/sourcecraft.py:240-294 | that description leaves one possible result per server and limits |
| Pagination.CompleteExactly | src/repo_health/collection/sourcecraft.py:283-285 | complete iff the server has a whole chain within max_pages with fewer than max_rows rows |
| Pagination.CollectedIsPrefix | src/repo_health/collection/sourcecraft.py:240-294 | at most max_pages pages and max_rows rows, a prefix of the chain's rows, all of it if complete, and no token sent twice |
| Pagination.LargerLimitsKeep | src/repo_health/collection/sourcecraft.py:240-294 | larger limits never change a complete result |

## Left out

- SQLite: each call is one atomic step; transactions, threads and the write lock are not modelled.
- Persistence.SQLitePersistence.ClaimTask: does not model that a validation error leaves the connection's transaction open, so that the next claim on it raises before it reads, because transactions are outside the model; neither call changes a row.
- The columns `updated_at`, `analysis_id` and `analyzer_id` of a task row, and the schema of the summary projection: written with the row and read by no modelled branch.
- JSON and SHA-256: equality of canonical texts and digests is equality of the values; Pydantic's normalisation of field texts is taken as already done.
- Timestamps.Parse: reads the two shapes `_iso` writes, not every ISO 8601 text, because only those are stored.
- The check of an outcome that it finishes no earlier than it starts: clock readings are unrelated inputs.
- LocalExecutor.LocalExecutor.ExecuteMany: deadlines and timeouts appear as an analyzer's reply, cancellation does not; the limit on concurrency only removes interleavings.
- Worker.WorkerExecutor.RunUntilEmpty: others may do anything but enqueue, because otherwise the loop need not end.
- `WorkerExecutor.__init__` beyond its limits, logging, telemetry, trace ids and credentials.
- Floating point: scores are exact reals, so rounding, NaN and infinities are not modelled; `exp` is any decreasing function into (0, 1] with value one at zero.
- The score's breakdown, contributions and limitation texts; the score envelope around it.
- Documentation, activity, issue and security analyzers and their single-branch mappings; AppSec severity counting.
- The path check and headers of a SourceCraft request, and the HTTP client: a server is a function of request number, token and attempt.
- Orchestrator.AnalysisOrchestrator.AnalyzeRequest: what collection and the batch come to, and the texts of score and digest, are inputs; the validation of the requested analyzers and the mapping of categories to the score input are not modelled.
- FastAPI routes, configuration, capability probing, report rendering, the scheduler and the external tools.

# Verified models of the SECOM MLOps system

Dafny models of the parts of the repository where a mistake would be silent: the request
batcher and the event publisher of the serving API, the scripts that move a model release,
the two at-least-once consumers, the point-in-time datasets, the drift arithmetic and the
feature-vector encoding. Each model follows the branches of the code it cites; what the code
is for is then proved of it, for all inputs, runs or schedules.

`dafny verify dfyconfig.toml` checks the project.

## How the models are built

- **Batcher.** `BatcherProtocol` is a step machine: a step is the code between two awaits of
  `PredictionBatcher`, and callers, worker and close interleave in any order. Time is left out,
  so a timeout may fire whenever its wait is pending. `BatcherBoard` is the machine the batcher
  stands for, with one runtime call per request; `BatcherRefinement` maps every run of the first
  to a run of the second. `BatcherAnswers` tells each step of single requests and callers. `PredictionBatcherObject` is the same protocol as an object whose
  methods loop over batches and futures; `PredictionService` holds a primary and a shadow one.
- **Publisher.** `EventPublisher` holds the step machine, its conservation law and the object.
- **Releases.** `PromoteScript`, `RollbackScript` and the modules in `CanaryScripts.dfy` are the
  deployment scripts, one step per external call; a call works, takes effect without an answer,
  or does neither. `Rollout` holds the shared stores. `DeploymentStores` has the two release scripts as
  methods over mutable stores that do exactly what these steps say. `SerialRuns` runs one operator at a
  time, kills included; `ReloadInterleaving` runs any number of promote and rollback operators
  at once; `PromoteRecovery` kills promotions and runs another. `ReleasePipeline` follows a
  candidate from its record through canary and release, and both ways back; `ScriptOutcomes` says
  column by column what each script needs and leaves.
- **Consumers.** `LabelArchiver` and `FeatureMaterializer` take a partition as a sequence and
  any schedule of crashes, restarts and lost answers; `ConsumerLoop` is the poll loop of both.
  `MaterializerRuns` says exactly for which logs the materializer's two stores agree.
- **Datasets.** `Tables` gives the SQL its meaning (filters, ROW_NUMBER in a partition, ORDER
  BY); `TrainingCohort`, `ServingGateCohort` and `LabelSelection` are the queries,
  `LiveQualityCohort` the anti-join of the live-quality evaluation,
  `LatestSelection` the row limits, `TrainingDataset` and `TrainingArtifact` the builder, the catalog
  and the loader. `TrainingBuild` goes from the tables to the loaded dataset, `CatalogRuns` lets any
  number of builds overlap.
- **Drift.** `Histogram`, `Quantiles`, `StabilityIndex` and `FeatureStatistics` compute over
  reals; of the logarithm only its sign and that it turns products into sums is used, the square
  root is a parameter.
- **Encoding.** `FeatureVectorHash` models doubles by their bit patterns.

## What the proofs found

- A rollback after a promotion restores everything exactly when the replaced threshold lies in
  [0, 1]: the reload endpoint refuses any other, while a runtime can be started with one
  (`RollbackUndoesPromotion`, `ThresholdThatCannotBeRestored`).
- A promotion killed after its reload and then repeated records its own version as the previous
  one, so a rollback no longer brings the original version back (`RollbackAfterRecovery`).
- A killed promotion can be recovered exactly as long as none has marked the request deployed or
  failed (`RecoveryCompletes`).
- A canary rollback that reloads the previous version leaves the recorded canary state naming the
  one it took away (`CanaryRollbackLeavesRecordedState`).
- A reload is a compare-and-swap exactly when the pre-read reported a non-empty version
  (`GuardedExactlyWhenRead`).
- A serving-gate dataset rebuilds unchanged exactly when no later release decision contradicts a
  member's snapshot; the conflict check looks past the cohort end (`RebuildIsStableExactlyWhen`).
- The feature archive keeps the first content of a snapshot id while the online store serves the
  last. Whenever a record was just archived the archive has what is served, in every run,
  exactly when no id is used for two snapshots (`OnlineIsArchivedExactlyWhen`, `ReusedIdSplitsStores`).
- The online store goes back to an older version exactly when the records of a sample do not come
  in the order of their versions; the store never compares them (`OnlineNeverGoesBackExactlyWhen`).
- The manual rollback mark overwrites a time that is set, but no serial run ever shows it such a
  time (`SerialRuns.MarkingCall`, `TimesStay`).
- Overlapping builds of the same members share one catalog row. In whatever order they claim and
  mark it, the dataset loads exactly when the row is ready and the build it names has the cutoff
  of the last claim; a late failure of one build unloads the result of another
  (`OverlappingBuildsLoadExactlyWhen`, `CatalogRuns.LateFailureUnloads`).

## Model

| member | source | states |
|---|---|---|
| BatcherRefinement.BatchingIsInvisible | secom_mlops/serving/api/batch.py:159-273 | every interleaving of the batcher completes requests and publishes events exactly as some run that makes one runtime call per request |
| BatcherRefinement.StepRefines | secom_mlops/serving/api/batch.py:88-114 | a step is a sequence of completions of open futures by the one-call machine |
| BatcherRefinement.CompletedOnce | secom_mlops/serving/api/batch.py:204-206 | a future that is complete keeps its outcome for the rest of every run |
| BatcherRefinement.AnswersAreOwn | secom_mlops/serving/api/client.py:50-56 | an answered request holds what the runtime said about its own features, in an answer received while the request was in the worker's batch and still waited for |
| BatcherRefinement.EventsMatchAnswers | secom_mlops/serving/api/batch.py:257-273 | events are published once each, for exactly the logged requests that were answered, with their answers |
| BatcherBoard.AnswerIsOwn | secom_mlops/serving/api/batch.py:247-273 | in the one-call machine an answer comes from a call on that request's features and can be normalised |
| BatcherInvariants.AccountingAlwaysHolds | secom_mlops/serving/api/batch.py:180-210 | in every run: unfinished = queued + held, what entered left in consecutive FIFO runs, the worker's of size 1 to the maximum |
| BatcherInvariants.ItemsAreCompleted | secom_mlops/serving/api/batch.py:203-246 | in every run: an item enters once, a row is sent at most once, and whatever left the worker is complete |
| BatcherInvariants.CloseCompletesEverything | secom_mlops/serving/api/batch.py:70-86 | after the drain of a close every item that had entered is complete, nothing is queued or unfinished |
| BatcherInvariants.CallersGetTheirOwnAnswers | secom_mlops/serving/api/batch.py:139-178 | a call that returned has one answer per input, in input order, each about that input and received while its request was in the worker's batch |
| BatcherAnswers.HandedIsAnswered | secom_mlops/serving/api/batch.py:247-273 | the converse of `AnswersAreOwn`: an answer handed to a request that is waited for becomes its result when it has a run id, a threshold and numbers, and fails it otherwise |
| BatcherAnswers.HandedCallReturns | secom_mlops/serving/api/batch.py:139-178 | a call whose requests were all handed such an answer returns on the next resume, with these answers in the order of its inputs |
| BatcherAnswers.EveryFutureFollows | secom_mlops/serving/api/batch.py:64-273 | every step of every run: which requests it ends, and how; all others stay as they are |
| BatcherAnswers.EveryRequestIsAskedFor | secom_mlops/serving/api/batch.py:88-157 | every step of every run: which requests it adds, and that they wait, but for a copy that found the queue full |
| BatcherAnswers.EveryCallerFollows | secom_mlops/serving/api/batch.py:159-178 | every step of every run: when a caller goes on, returns or raises, and with what |
| BatcherAnswers.EveryStepFollows | secom_mlops/serving/api/batch.py:64-106 | every step of every run: what enters the queue, and how start and close switch the batcher and its worker |
| BatcherAnswers.FreshIsOff | secom_mlops/serving/api/batch.py:29-50 | a batcher that was not started holds nothing and serves nobody |
| BatcherAnswers.OldestCanBeServed | secom_mlops/serving/api/batch.py:180-273 | whenever the worker waits and is not told to stop, the oldest queued request can be served at once, by what the runtime says of its features |
| BatcherAnswers.WorkerFollows | secom_mlops/serving/api/batch.py:191-217 | a batch takes the next item while it has room, and sends exactly its items that are still waited for |
| BatcherAnswers.OneCallIsAnswered | secom_mlops/serving/api/batch.py:132-157 | one undisturbed call to a fresh batcher, logged or not, returns what the runtime says of its features, or raises when that cannot be normalised |
| PredictionBatcherObject.PredictionBatcher.constructor | secom_mlops/serving/api/batch.py:29-62 | a new batcher is empty and stopped, and its accounting holds |
| PredictionBatcherObject.PredictionBatcher.SubmitNowait | secom_mlops/serving/api/batch.py:88-114 | the submit step of the protocol, and the answer is whether the item was accepted |
| PredictionBatcherObject.PredictionBatcher.Invoke | secom_mlops/serving/api/batch.py:132-157 | the new call's requests are registered in order, or nothing happens when the batcher is stopped |
| PredictionBatcherObject.PredictionBatcher.TimeOutPut | secom_mlops/serving/api/batch.py:163-167 | a put timeout fails every open request of the call and no other |
| PredictionBatcherObject.PredictionBatcher.TimeOutResponse | secom_mlops/serving/api/batch.py:174-178 | a response timeout cancels every open request of the call |
| PredictionBatcherObject.PredictionBatcher.SelectActive | secom_mlops/serving/api/batch.py:214-217 | the requests of a batch that are still waited for, in order |
| PredictionBatcherObject.PredictionBatcher.Dispatch | secom_mlops/serving/api/batch.py:202-217 | the open rows are sent; a batch with none is finished at once |
| PredictionBatcherObject.PredictionBatcher.Receive | secom_mlops/serving/api/batch.py:237-273 | an answer is handed out row by row, an error to all; task_done for each item; every request on the wire is known |
| PredictionBatcherObject.PredictionBatcher.StopWorker | secom_mlops/serving/api/batch.py:203-210 | a cancelled worker fails the open requests of its batch |
| PredictionBatcherObject.PredictionBatcher.DrainQueue | secom_mlops/serving/api/batch.py:78-86 | the loop of close fails what is open in the queue and leaves nothing unfinished |
| PredictionService.Service.Predict | secom_mlops/serving/api/prediction_service.py:33-43 | the primary sees a request as if there were no shadow; the shadow gets a copy under its own prediction id, or refuses it |
| PredictionService.Service.PredictDebugMany | secom_mlops/serving/api/prediction_service.py:45-49 | unlogged rows go to the primary only |
| EventPublisher.AlwaysConserved | secom_mlops/serving/api/prediction_event_publisher.py:65-134 | in every run: accepted = handed over + held + queued, in order; batches of size 1 to the maximum |
| EventPublisher.CloseHandsOverEverything | secom_mlops/serving/api/prediction_event_publisher.py:86-96 | when a close ends, every accepted event was handed to the sink once and in order |
| EventPublisher.CloseAcceptsNothing | secom_mlops/serving/api/prediction_event_publisher.py:65-72 | while a close is under way nothing is accepted |
| EventPublisher.NothingIsLostUnlessTheSinkFails | secom_mlops/serving/api/prediction_event_publisher.py:124-134 | without sink failures everything handed over is delivered |
| EventPublisher.AcceptsExactlyWhen | secom_mlops/serving/api/prediction_event_publisher.py:58-90 | in every run an event is accepted exactly when it is submitted between a start and a close and the queue has room |
| EventPublisher.CloseCanFinish | secom_mlops/serving/api/prediction_event_publisher.py:86-134 | a close can always be finished, and a sink that works then got all that was left, in order |
| EventPublisher.CloseFollows | secom_mlops/serving/api/prediction_event_publisher.py:86-96 | in every run a close waits for the queue when there is a worker, then stops it, and is over when it ends |
| EventPublisher.DeliversExactlyWhen | secom_mlops/serving/api/prediction_event_publisher.py:124-134 | in every run the sink has exactly the batches that were handed to it while it worked |
| EventPublisher.BatchGrows | secom_mlops/serving/api/prediction_event_publisher.py:98-122 | a batch takes the next event while it is below the maximum |
| EventPublisher.BufferedPredictionEventPublisher.SubmitNowait | secom_mlops/serving/api/prediction_event_publisher.py:65-84 | true exactly when the event was accepted: accepting and not full |
| EventPublisher.BufferedPredictionEventPublisher.Publish | secom_mlops/serving/api/prediction_event_publisher.py:124-134 | the batch is handed over, with one task_done an event |
| EventPublisher.BufferedPredictionEventPublisher.EndClose | secom_mlops/serving/api/prediction_event_publisher.py:92-96 | the end of a close after the join: all accepted events were handed over |
| ScriptOutcomes.ReloadAcceptsExactlyWhen | secom_mlops/serving/runtime/app.py:110-158 | a reload is accepted exactly when its threshold is in [0, 1], every expectation that is neither absent nor empty holds of the live runtime, and the version is registered under the expected run; and what is served then |
| ScriptOutcomes.RecordsExactlyWhen | scripts/deployment/record_serving_candidate_deployment_request.py:110-213 | a request is recorded exactly when the candidate's latest evaluation passed and compared this version and run with the champion's; and with which columns |
| PromoteScript.StepLowersRank | scripts/deployment/promote_candidate_to_release.py:379-554 | every call of a promotion moves it on; it ends after at most 14 |
| PromoteScript.StepRequests | scripts/deployment/promote_candidate_to_release.py:430-554 | a promotion changes request rows only by marking its own row at three points |
| ScriptOutcomes.RollbackSucceedsExactlyWhen | scripts/deployment/rollback_release_deployment.py:94-275 | an undisturbed rollback succeeds exactly when recorded state, request, registry, alias (absent, or at the active or previous version), live version and previous threshold allow it; and every column it leaves |
| ScriptOutcomes.FailedRollbackOutcome | scripts/deployment/rollback_release_deployment.py:423-608 | a rollback that fails leaves aliases, requests, recorded state and canary server; refused by its own checks it leaves everything but the canary traffic, refused by the server it records one failed reload |
| ScriptOutcomes.PromotionOutcome | scripts/deployment/promote_candidate_to_release.py:74-518 | an undisturbed promotion: exactly which columns of request, registry and live runtime it needs, and every column it leaves |
| ScriptOutcomes.FailedPromotionOutcome | scripts/deployment/promote_candidate_to_release.py:430-554 | a promotion that started and failed closes its request and records one failed reload, and moves no alias, recorded state or canary |
| ScriptOutcomes.CanaryOutcome | scripts/deployment/deploy_candidate_to_canary.py:81-434 | an undisturbed canary deployment: exactly which columns it needs, and every column it leaves |
| ScriptOutcomes.CanaryRollbackOutcome | scripts/deployment/rollback_candidate_canary.py:74-401 | an undisturbed canary rollback: exactly which columns it needs, and every column it leaves |
| ScriptOutcomes.AliasOutcome | scripts/deployment/promote_model_alias.py:64-184 | the alias script, undisturbed: which requests it takes, that the alias moves and a candidate alias still at that version goes, and nothing else |
| ScriptOutcomes.ManualMarkOutcome | scripts/deployment/mark_model_deployment_rolled_back.py:76-135 | which requests the manual mark takes, and what it writes |
| ScriptOutcomes.PromotionAmongOthers | scripts/deployment/promote_candidate_to_release.py:256-454 | whatever others did in between: a promotion's reload expects what it read, remembers what it replaced, goes on only if the server serves the candidate, and records what it replaced as previous |
| ScriptOutcomes.CanaryAmongOthers | scripts/deployment/deploy_candidate_to_canary.py:293-434 | the same of a canary deployment, which expects nothing |
| ScriptOutcomes.RollbackAmongOthers | scripts/deployment/rollback_release_deployment.py:316-571 | the same of a rollback, which records active and previous exchanged |
| ScriptOutcomes.CanaryRollbackAmongOthers | scripts/deployment/rollback_candidate_canary.py:319-390 | the same of a canary rollback |
| ScriptOutcomes.LostAnswersTakeEffect | scripts/deployment/promote_candidate_to_release.py:430-554 | a call whose answer is lost changes the stores as one that works, a call that fails changes nothing |
| ScriptOutcomes.LostAnswersTakeEffectInRollback | scripts/deployment/rollback_release_deployment.py:423-608 | the same of the release rollback |
| ScriptOutcomes.FailedCallLeadsOn | scripts/deployment/promote_candidate_to_release.py:536-554 | where each of the four scripts goes on after each call that does not work |
| SerialRuns.TimesStay | secom_mlops/monitor/deployments.py:175-206 | in every serial run the time at which a request first reached a status keeps its value, however the run goes on |
| DeploymentStores.Stores.Promote | scripts/deployment/promote_candidate_to_release.py:379-554 | the script over mutable stores, with any failing calls, ends exactly where its step sequence does |
| DeploymentStores.Stores.HandlePromoteFailure | scripts/deployment/promote_candidate_to_release.py:536-554 | the failure handler records the failed reload, then marks the request failed |
| DeploymentStores.Stores.RollBack | scripts/deployment/rollback_release_deployment.py:416-608 | the rollback over mutable stores ends exactly where its step sequence does |
| PromoteThenRollback.PromoteSucceedsExactlyWhen | scripts/deployment/promote_candidate_to_release.py:74-195 | an uninterrupted promotion succeeds exactly when all its checks pass |
| PromoteThenRollback.PromotionIsRecorded | scripts/deployment/promote_candidate_to_release.py:493-518 | from agreed stores it records as previous exactly what was active and live |
| PromoteThenRollback.PromotionEnablesRollback | scripts/deployment/rollback_release_deployment.py:94-275 | after it every check of the rollback passes |
| PromoteThenRollback.EnabledRollback | scripts/deployment/rollback_release_deployment.py:423-571 | an enabled rollback succeeds exactly when the server accepts the previous threshold; otherwise only the traffic reset and a failed event remain |
| PromoteThenRollback.RollbackUndoesPromotion | scripts/deployment/rollback_release_deployment.py:423-571 | promote then roll back restores version, run id, threshold, alias and active request exactly when the replaced threshold is in [0, 1] |
| PromoteThenRollback.ThresholdThatCannotBeRestored | secom_mlops/serving/runtime/schemas.py:15-22 | a runtime started with threshold 1.5 can be promoted away and not brought back |
| PromoteRecovery.RecoveryCompletes | scripts/deployment/promote_candidate_to_release.py:430-518 | any killed promotions, then one uninterrupted: it succeeds exactly when none closed the request, and then runtime, alias, recorded version and request agree |
| PromoteRecovery.AttemptsKeepPromotable | scripts/deployment/promote_candidate_to_release.py:171-195 | killed promotions leave the request promotable, the recorded state as it was and nothing live but the old or the new model |
| PromoteRecovery.RollbackAfterRecovery | scripts/deployment/promote_candidate_to_release.py:307-328 | a rollback after a recovery restores the original version exactly when no killed attempt had reloaded |
| PromoteRecovery.KilledAfterReload | scripts/deployment/promote_candidate_to_release.py:438-451 | such an attempt exists: one killed right after its reload |
| ReleasePipeline.RecordedRequestGoesLive | scripts/deployment/record_serving_candidate_deployment_request.py:110-213 | record, canary and promotion, uninterrupted, bring a candidate live exactly when it is registered with a threshold in [0, 1] and the canary server is the one meant; a rollback then still restores what was live before |
| ReleasePipeline.CanarySucceedsExactlyWhen | scripts/deployment/deploy_candidate_to_canary.py:81-128 | an uninterrupted canary deployment succeeds exactly when all its checks and the reload pass |
| ReleasePipeline.CanaryLeavesPromotable | scripts/deployment/deploy_candidate_to_canary.py:293-434 | it leaves the release slot as it is and its request promotable |
| ReleasePipeline.CanaryRollbackSucceedsExactlyWhen | scripts/deployment/rollback_candidate_canary.py:74-107 | an uninterrupted canary rollback succeeds exactly when the request is eligible and, with a reload, the server accepts the previous version |
| ReleasePipeline.CanaryRollbackLeavesRecordedState | scripts/deployment/rollback_candidate_canary.py:319-401 | after a canary deployment and its rollback the recorded canary state names the live version exactly when the previous one was not reloaded or was the same |
| ReleasePipeline.SeededStoresAgree | secom_mlops/serving/runtime/app.py:317-401 | a server that starts with a known champion and no recorded row leaves agreed stores and nothing to roll back to; an existing row stays |
| ReleasePipeline.SeedsExactlyWhen | secom_mlops/serving/runtime/app.py:317-369 | a starting server records itself exactly when version, run and threshold are known and nothing is recorded for its slot; and with which columns |
| ReloadInterleaving.PromotionReplacesGatedVersion | scripts/deployment/promote_candidate_to_release.py:171-281 | under any interleaving, a promotion that read a version and changes the live one replaces exactly the version its request was gated against |
| ReloadInterleaving.RollbackReplacesActiveVersion | scripts/deployment/rollback_release_deployment.py:316-340 | a rollback that changes the live version replaces the recorded active one by the recorded previous one |
| ReloadInterleaving.GuardedExactlyWhenRead | secom_mlops/serving/runtime/app.py:482-513 | a reload about to be posted can replace no other version exactly when the pre-read reported one |
| SerialRuns.RunKeepsInvariant | secom_mlops/monitor/deployments.py:122-206 | in every serial run, kills and failing calls included, request times, operators and history stay consistent |
| SerialRuns.DeployedWentThroughCanary | scripts/deployment/deploy_candidate_to_canary.py:81-128 | a deployed request went through canary reload, canary ready and release reload in that order; a started one is approved and passed its gate |
| SerialRuns.RolledBackIsFinal | scripts/deployment/mark_model_deployment_rolled_back.py:87-99 | a rolled back request stays rolled back, however the run goes on |
| SerialRuns.RollbacksAreSeparated | scripts/deployment/rollback_release_deployment.py:119-124 | between two rollbacks of the slot there is a promotion |
| SerialRuns.AliasCall | scripts/deployment/promote_model_alias.py:64-98 | the alias script keeps the request times in order and never touches a rolled back request |
| SerialRuns.CanaryRollbackKeeps | scripts/deployment/rollback_candidate_canary.py:74-107 | a canary rollback works on a started request that is not rolled back |
| SerialRuns.MarkingCall | scripts/deployment/mark_model_deployment_rolled_back.py:76-135 | the manual mark keeps the request times in order, overwrites none, and leaves rolled back requests as they are |
| LabelParser.ParseAcceptsExactly | label-archiver/src/main/java/org/example/LabelParser.java:16-86 | exactly the complete, well-formed and consistent events are accepted, unchanged |
| LabelArchiver.ExactlyOnceEffect | label-archiver/src/main/java/org/example/LabelArchiverApp.java:105-126 | for every schedule the table is the first-wins fold of m records with committed <= m <= committed + 1 |
| LabelArchiver.CommittedRecordsAreStored | label-archiver/src/main/java/org/example/LabelRepository.java:54-80 | every committed record is stored under its event: with the row of the first record of that event, which has its sample, revision, value and label |
| LabelArchiver.ConflictIsNeverPassed | label-archiver/src/main/java/org/example/LabelRepository.java:66-78 | a malformed record, two records of one event that differ in sample, revision, value or label, or two events with one sample and revision are never both below the committed offset |
| LabelArchiver.AvailableWhenInserted | container/postgres/monitoring-schema.sql:410-413 | the recorded availability of a label is the time of the insert that stored it |
| LabelArchiver.ArchivesExactlyConsistentPrefix | label-archiver/src/main/java/org/example/LabelArchiverApp.java:63-70 | left undisturbed it archives the first n records exactly when they parse and do not contradict each other |
| LabelArchiver.RowsStay | container/postgres/monitoring-schema.sql:405-428 | a stored row and its availability are never changed |
| LabelArchiver.StepMoves | label-archiver/src/main/java/org/example/LabelArchiverApp.java:105-126 | what moves table and offset, however a commit ends, and where a restart goes on |
| LabelArchiver.ConsistentInsertSucceeds | label-archiver/src/main/java/org/example/LabelRepository.java:32-52 | a record that contradicts none before it is inserted or verified as a replay |
| LabelArchiver.InconsistentInsertFails | label-archiver/src/main/java/org/example/LabelRepository.java:66-78 | one that contradicts an earlier record fails |
| LabelArchiver.FirstWinsMeaning | label-archiver/src/main/java/org/example/LabelRepository.java:9-20 | the fold holds an event exactly when a record carries it, with the row of its first record |
| LabelArchiver.LabelArchiverApp.ArchiveThenCommit | label-archiver/src/main/java/org/example/LabelArchiverApp.java:105-126 | insert, database commit, offset commit as three steps; a failure ends the process |
| LabelArchiver.LabelArchiverApp.Run | label-archiver/src/main/java/org/example/LabelArchiverApp.java:63-70 | the poll loop handles record after record |
| FeatureMaterializer.TwoStoreOrder | fdc-feature-materializer/src/main/java/org/example/FeatureStateRecordHandler.java:35-41 | for every schedule online is the last-write fold of v records, the archive holds the snapshots of p, and committed <= p <= v <= committed + 1 |
| FeatureMaterializer.CommittedSnapshotsAreArchived | fdc-feature-materializer/src/main/java/org/example/FeatureStateRecordHandler.java:39-41 | every committed snapshot is archived, with an availability no earlier than it was first online |
| FeatureMaterializer.FirstAvailabilityStays | fdc-feature-materializer/README.md:14-17 | an archived row and its first availability are never replaced |
| FeatureMaterializer.StepMoves | fdc-feature-materializer/src/main/java/org/example/FeatureStateRecordHandler.java:35-41 | what moves each store and the offset, however a write ends, and where a restart goes on |
| MaterializerRuns.AvailableWhenOnline | fdc-feature-materializer/src/main/java/org/example/FeatureStateRecordHandler.java:39-40 | the recorded availability of a snapshot is the time of a write to the online store |
| MaterializerRuns.OnlineNeverGoesBackExactlyWhen | fdc-feature-materializer/src/main/java/org/example/FeatureStateRecordHandler.java:37-39 | no step of any run, replays included, moves a sample to an older version exactly when the records a run can put online come in the order of their versions |
| MaterializerRuns.OutOfOrderGoesBack | fdc-feature-materializer/src/main/java/org/example/FeatureStateRecordHandler.java:39 | the run that goes back: a first pass over a record older than what is online |
| MaterializerRuns.OnlineIsArchivedExactlyWhen | fdc-feature-materializer/src/main/java/org/example/store/ServingSnapshotRepository.java:9-30 | over records that can be passed, the archive has what is served online whenever a record was just archived, in every run, exactly when no snapshot id is used for two snapshots |
| MaterializerRuns.OnlineIsArchivedForEveryPrefix | fdc-feature-materializer/src/main/java/org/example/store/ServingSnapshotRepository.java:9-30 | the same for any log, without a bound on how far the runs go |
| MaterializerRuns.ReusedIdSplitsStores | fdc-feature-materializer/src/main/java/org/example/store/ServingSnapshotRepository.java:29 | for any two different snapshots of one sample under one id a run commits both, and then the first is archived and the last online |
| MaterializerRuns.QuietRunReaches | fdc-feature-materializer/src/main/java/org/example/FeatureStateRecordHandler.java:35-41 | records that can be passed are passed by an undisturbed run |
| FeatureMaterializer.PassesExactlyWhen | fdc-feature-materializer/src/main/java/org/example/store/PostgresServingSnapshotSink.java:47-63 | in any reachable state a record is passed exactly when the log up to it can be: it parses, and its id is archived already or its sample and version are not |
| FeatureMaterializer.InsertSucceedsExactlyWhen | container/postgres/monitoring-schema.sql:248-267 | the insert succeeds exactly when the log stays passable: no two ids are archived with one version of a sample |
| FeatureMaterializer.MaterializesExactlyPassablePrefix | fdc-feature-materializer/src/main/java/org/example/FeatureStateRecordHandler.java:35-41 | whatever happened before, an undisturbed materializer gets past the first n records exactly when they can be passed |
| FeatureMaterializer.FeatureStateRecordHandler.Handle | fdc-feature-materializer/src/main/java/org/example/FeatureStateRecordHandler.java:35-41 | online write, archive, offset; a failure skips the rest |
| TrainingCohort.MembersMean | secom_mlops/datasets/training_dataset_repository.py:47-127 | the members are exactly the complete snapshots that were available first and in the window, each with the label of highest revision known at the cutoff |
| TrainingCohort.LaterRowsChangeNothing | secom_mlops/datasets/training_dataset_repository.py:62-93 | tables that agree on what was available in time give the same members, wherever later rows were put |
| TrainingCohort.RebuildIsStable | secom_mlops/datasets/training_dataset_repository.py:62-93 | appending late snapshots and labels changes nothing |
| TrainingCohort.MembersIgnoreStorageOrder | secom_mlops/datasets/training_dataset_repository.py:123-126 | the result and its order do not depend on how the tables store rows |
| TrainingCohort.JoinKeepsRows | secom_mlops/datasets/training_dataset_repository.py:120-122 | the label join neither drops nor duplicates a row |
| TrainingCohort.MembersHaveOneRowPerSample | secom_mlops/datasets/training_dataset_repository.py:62-79 | a sample has one row |
| TrainingArtifact.IdentityIsCanonical | secom_mlops/datasets/training_dataset.py:322-360 | two builds have the same identity payload exactly when they have the same start, maturity, filters and members; cutoff and order do not matter |
| TrainingCohort.SampleIsInExactlyOneWindow | airflow/dags/build_periodic_training_dataset.py:52-54 | over adjacent windows a sample is in exactly one dataset when its first complete snapshot falls in their union, else in none |
| LabelSelection.MatchesOneLabel | secom_mlops/datasets/training_dataset_repository.py:80-100 | a sample matches at most one label: the one of highest revision known at the cutoff, or none if none is known |
| LabelSelection.InLabels | secom_mlops/datasets/training_dataset_repository.py:80-100 | a label is kept exactly when none of its sample known at the cutoff has a higher revision, or the same and a later availability, or both the same and a smaller id |
| Tables.TextBeforeMeans | secom_mlops/datasets/training_dataset_repository.py:71-93 | the text order of every ORDER BY: a proper beginning comes first, and else the smaller character where two texts first differ |
| ServingGateCohort.RebuildIsStableExactlyWhen | secom_mlops/datasets/serving_gate_dataset_repository.py:27-129 | a rebuild after later rows gives the same members exactly when no later release decision contradicts one, and fails otherwise |
| ServingGateCohort.AcceptedRowsAreMembers | secom_mlops/datasets/serving_gate_dataset.py:165-247 | the rows of a dataset that could be built are exactly the first release decisions in the window, each on its exact complete snapshot, available by then and shared by all release decisions on the target, with a threshold in [0, 1] and the newest well-named label known at the cutoff |
| ServingGateCohort.FetchesExactlyWhenUsable | secom_mlops/datasets/serving_gate_dataset.py:165-247 | the members can be fetched exactly when the tables have all this of every first release decision in the window; then each of them is a member |
| ServingGateCohort.MembersAreInOrder | secom_mlops/datasets/serving_gate_dataset_repository.py:128 | members come in the order of their decisions, one for a sample and version |
| ServingGateCohort.EveryTargetHasOneRow | secom_mlops/datasets/serving_gate_dataset_repository.py:40-63 | a sample and version is in the cohort exactly by its first release decision, once |
| ServingGateCohort.JoinsFindOneRow | secom_mlops/datasets/serving_gate_dataset_repository.py:121-127 | a decision joins at most one snapshot and one label |
| LiveQualityCohort.AntiJoinIsFirstRow | scripts/monitoring/evaluate_live_model_quality.py:92-127 | the anti-join keeps exactly the decisions that are row number one of their case |
| LiveQualityCohort.CohortMeans | scripts/monitoring/evaluate_live_model_quality.py:92-127 | in columns: of the decisions of one model run and threshold on one snapshot, exactly the one logged first is kept, if it is in the window |
| LiveQualityCohort.CohortIgnoresLate | scripts/monitoring/evaluate_live_model_quality.py:108-109 | decisions logged after the window change nothing |
| LiveQualityCohort.WindowHoldsFirstDecision | scripts/monitoring/evaluate_live_model_quality.py:108-127 | a window holds a decision of a case exactly when the case was first decided in it, and then that one, once |
| LiveQualityCohort.CaseIsEvaluatedOnce | scripts/monitoring/evaluate_live_model_quality.py:92-127 | over adjacent windows, each evaluated on the table of its own time, a case is evaluated in exactly one when first decided in their union, else in none |
| LatestSelection.SelectLatestIsLatest | secom_mlops/training/training_data_preparation.py:162-194 | the selection fails exactly with too few rows, and else gives the latest labelled rows in ascending order |
| LatestSelection.SelectsTail | secom_mlops/training/training_data_preparation.py:180-193 | sorting down, cutting and sorting up is the end of the ascending order |
| LatestSelection.SelectionIgnoresOrder | secom_mlops/training/training_data_preparation.py:180-193 | the selection does not depend on the order of the input |
| LatestSelection.TrainingRowsAreLatest | secom_mlops/training/training_data_preparation.py:162-194 | training gets exactly the 1000 labelled rows available last, ascending by availability, sample and snapshot, or fails exactly when there are fewer |
| LatestSelection.DecisionsAreLatest | scripts/monitoring/compare_candidate_with_champion_serving.py:102-126 | the gate gets exactly the latest labelled decisions, ascending by time and prediction id, for any limit |
| TrainingDataset.EvaluateReadiness | secom_mlops/datasets/training_dataset.py:285-319 | a reason is given exactly for each minimum that is missed |
| TrainingDataset.BuildDatasetFrame | secom_mlops/datasets/training_dataset.py:384-456 | the loop yields the frame row by row, or the error of the first bad member |
| TrainingDataset.FrameRowsFollowMembers | secom_mlops/datasets/training_dataset.py:435-456 | a frame has one row per member, in order |
| TrainingArtifact.BuiltLoads | secom_mlops/datasets/training_dataset_builder.py:171-212 | a build from any claimable catalog state loads back its frame |
| TrainingArtifact.WrittenLoadsExactlyWhen | secom_mlops/datasets/training_dataset_loader.py:221-233 | what was written loads exactly when the catalog row has the build's cutoff |
| TrainingArtifact.LoadsExactlyWhen | secom_mlops/datasets/training_dataset_loader.py:60-276 | a dataset loads exactly when types, ids, digests, columns, times, rows and statistics are as the loader demands, each spelled out; and what is loaded |
| TrainingArtifact.LoadedIsSound | secom_mlops/datasets/training_dataset_loader.py:60-243 | whatever loads has unique samples, consistent labels, right missing counts, ids and digests that fit and statistics equal to a recount |
| TrainingArtifact.RowChecksPassExactly | secom_mlops/datasets/training_dataset_loader.py:155-189 | the row checks pass exactly for sound rows |
| TrainingArtifact.RecountIsSummary | secom_mlops/datasets/training_dataset.py:243-269 | the loader's recount over a built frame is the builder's summary |
| CatalogRuns.OverlappingBuildsLoadExactlyWhen | secom_mlops/datasets/training_dataset_repository.py:173-285 | after any claims and marks of any number of builds of the same members, in any order, the dataset loads exactly when its row is ready and the build it names has the cutoff of the last claim that took effect |
| CatalogRuns.ReadyExactlyWhen | secom_mlops/datasets/training_dataset_repository.py:244-285 | the row is ready exactly when a ready mark that followed a claim was not followed by a failure mark |
| CatalogRuns.TwoBuilds | secom_mlops/datasets/training_dataset_repository.py:204-222 | two builds that both claimed: with the first ready the dataset loads exactly when the cutoffs are close, with the second ready as well it loads |
| CatalogRuns.LateFailureUnloads | secom_mlops/datasets/training_dataset_repository.py:273-285 | a dataset that loads refuses every claim, but a late failure mark unloads it |
| TrainingBuild.PersistsExactlyWhen | secom_mlops/datasets/training_dataset_builder.py:140-222 | a build persists a dataset exactly when its configuration is valid, its cohort large enough and every label and payload sound, and no dataset of the same members is ready |
| TrainingBuild.PersistedLoads | secom_mlops/datasets/training_dataset_builder.py:140-212 | tables to loaded frame: a persisted dataset loads, and its rows are those of the cohort query, column for column, ordered by availability and sample |
| TrainingBuild.LoadedRowsAreMembers | secom_mlops/datasets/training_dataset_loader.py:60-243 | a loaded dataset shows exactly the first complete snapshots in the window, each with the newest label known at the cutoff |
| TrainingBuild.LateRowsChangeNoBuild | secom_mlops/datasets/training_dataset_builder.py:140-173 | rows that come in late change nothing of how a build ends |
| TrainingDataset.FetchesExactlyWellNamed | secom_mlops/datasets/training_dataset.py:166-240 | the rows of the query become members one by one, exactly when their labels are well named |
| Histogram.BisectLeft | scripts/monitoring/create_drift_reference_baseline.py:158-160 | binary search finds the bucket of a value |
| Histogram.BaselineBucketCounts | scripts/monitoring/create_drift_reference_baseline.py:155-162 | count i is the number of values in (edge i-1, edge i], and the counts sum to the number of values |
| Histogram.CurrentBucketCounts | scripts/monitoring/evaluate_fixed_reference_drift_metrics.py:271-279 | the same histogram; the clamp never acts |
| Histogram.HistogramIgnoresOrder | scripts/monitoring/evaluate_fixed_reference_drift_metrics.py:271-279 | permuted values have the same histogram |
| Quantiles.QuantileIsMonotone | secom_mlops_common/metrics/stats.py:27-42 | an interpolated quantile stays in range, does not fall as q rises, and is the least value at 0 and the greatest at 1 |
| Quantiles.QuantileInterpolates | secom_mlops_common/metrics/stats.py:27-42 | between two neighbours the quantile is the point of the line through them |
| Quantiles.QuantileBinEdges | scripts/monitoring/create_drift_reference_baseline.py:138-148 | the edges increase, stay in range and are exactly the quantiles between neighbouring bins |
| Quantiles.ConstantBaselineEdges | scripts/monitoring/create_drift_reference_baseline.py:151-152 | the anchor edges single out the constant value |
| StabilityIndex.PopulationStabilityIndex | scripts/monitoring/evaluate_fixed_reference_drift_metrics.py:282-296 | None exactly for empty or mismatched shares; otherwise, with a logarithm, the relative entropy of the current shares to the baseline's plus that of the baseline's to the current, shares below epsilon raised to it |
| StabilityIndex.ScoreIsDivergence | scripts/monitoring/evaluate_fixed_reference_drift_metrics.py:290-296 | the sum of the terms is that divergence |
| StabilityIndex.SharesAddUpToOne | secom_mlops_common/metrics/stats.py:183-187 | each share times the total is its count, and the shares add up to one |
| StabilityIndex.ScoreSign | scripts/monitoring/evaluate_fixed_reference_drift_metrics.py:290-296 | the index is never negative, and zero exactly when all clamped shares agree |
| StabilityIndex.BuildDistribution | scripts/monitoring/create_drift_reference_baseline.py:165-199 | the stored edges, counts and range describe the values; the edges are the two anchors of a constant, the midpoint for one bin, and else exactly the inner quantiles |
| StabilityIndex.FeaturePsiScore | scripts/monitoring/evaluate_fixed_reference_drift_metrics.py:299-313 | a score exists exactly with fitting bins and values, and is the index of the two histograms |
| StabilityIndex.BaselineThenScore | scripts/monitoring/evaluate_fixed_reference_drift_metrics.py:299-313 | from baseline values to score: the divergence of the two histograms' shares, never negative, zero for permuted values |
| FeatureStatistics.UpdateFeatureStats | secom_mlops_common/metrics/stats.py:127-145 | every feature's sums are advanced by its column, in place |
| FeatureStatistics.CollectFeatureValues | secom_mlops_common/metrics/stats.py:168-180 | every feature's non-null values, in row order |
| FeatureStatistics.ValuesArePresent | secom_mlops_common/metrics/stats.py:168-180 | the collected values are one of every row that has the feature, in row order |
| FeatureStatistics.StatsAreOfCollected | secom_mlops_common/metrics/stats.py:127-180 | the streaming sums are those of the collected values |
| FeatureStatistics.NumeratorIsSumOfSquaredDeviations | secom_mlops_common/metrics/stats.py:155-165 | the streaming numerator is the sum of squared deviations, so the clamp at zero never acts |
| FeatureStatistics.StdIsRootOfSampleVariance | secom_mlops_common/metrics/stats.py:155-165 | the result is the root of the sample variance |
| FeatureVectorHash.DecodeEncode | fdc-feature-assembler/src/main/java/org/example/processor/FeatureVectorHash.java:38-65 | the encoded slots decode back to the vector |
| FeatureVectorHash.InputLayout | fdc-feature-assembler/src/main/java/org/example/processor/FeatureVectorHash.java:34-65 | the bytes are the domain, then the 590 slots in order, null as byte 0, a number as byte 1 and its eight bytes, with -0.0 as 0.0 |
| FeatureVectorHash.RefusedForFirst | fdc-feature-assembler/src/main/java/org/example/processor/FeatureVectorHash.java:24-56 | an object is refused for its size, or for the first slot that is missing, not numeric or not finite |
| FeatureVectorHash.FeatureKeyReads | fdc-feature-assembler/src/main/java/org/example/processor/FeatureVectorHash.java:78-80 | a key is an f and the three digits of its index |
| FeatureVectorHash.SameInputExactlyWhenSameSlots | fdc-feature-assembler/src/main/java/org/example/processor/FeatureVectorHash.java:24-68 | two accepted objects feed the same bytes exactly when they agree in every slot |
| FeatureVectorHash.AcceptedExactlyWhen | fdc-feature-assembler/src/main/java/org/example/processor/FeatureVectorHash.java:24-56 | exactly the objects with the 590 canonical keys and null or finite values are accepted |
| FeatureVectorHash.SlotDecides | fdc-feature-assembler/src/main/java/org/example/processor/FeatureVectorHash.java:45-59 | in one slot -0.0 and 0.0 feed the same bytes, null and zero different ones |
| FeatureVectorHash.PutLong | fdc-feature-assembler/src/main/java/org/example/processor/FeatureVectorHash.java:61-64 | the reused buffer holds the eight bytes, most significant first |
| FeatureVectorHash.Feed | fdc-feature-assembler/src/main/java/org/example/processor/FeatureVectorHash.java:24-65 | the loop feeds the encoding, or fails with the first bad slot |

## Left out

- HTTP, MLflow, Kafka, PostgreSQL and Valkey clients: an external call is a step that works, loses its answer or has no effect; registry versions map to fixed run ids and runs to fixed thresholds.
- asyncio internals: `wait_for` cancellation races and deadlines; a put, a get or a timeout is one step, and a cancellation may also fall between the last get and the dispatch.
- BatcherInvariants.CloseCompletesEverything: does not cover putters still blocked when the queue is drained; they end through their own timeouts.
- EventPublisher.CloseHandsOverEverything: does not cover two closes that overlap.
- Prediction metrics, the fields of prediction events, and the numeric conversion of a prediction, which is valid or not.
- PredictionService.Service.Predict: ends where the wait for the primary's answer begins; start and close only call the batchers'.
- The deployment scripts' dry runs, notes text, `updated_at`, audit payloads and printing.
- Rollout alias steps: reading and deleting the candidate alias is one step.
- The canary operators in serial runs: they are taken to work on a slot other than the release slot.
- The `--request-id` choice of the next request, and `promote_model_alias.py` without a request.
- SerialRuns.RunKeepsInvariant: does not cover two status-writing scripts at work at once, because status updates carry no guard.
- LabelArchiver.ExactlyOnceEffect: does not cover partition reassignment to a second consumer while the first is still at work.
- LabelArchiver.Initial: the table starts empty and holds one partition; rows other partitions put into it are not modelled. Records are keyed by sample, so only an event id shared by two samples could collide.
- FeatureMaterializer.Initial: the stores hold one partition, as for the label archiver.
- JSON parsing of label events beyond field presence and type, and of snapshots altogether: a snapshot record parses or does not.
- The feature and prediction archivers, which lack the label archiver's replay check.
- Text collation: text is ordered by character; any total order would do.
- TrainingArtifact.BuiltLoads: does not model Parquet, JSON or SHA-256; digests are uninterpreted functions, collisions are not excluded.
- The time statistics of the manifest and the types of the frame's columns.
- TrainingBuild.Build: a build in which the tracking server or the file system fails after the claim; it ends in the failure mark, which `CatalogRuns` covers.
- LiveQualityCohort.CaseIsEvaluatedOnce: does not cover a decision that is logged after the evaluation of the window it was made in.
- The claim and mark functions of the serving-gate catalog, which repeat those of the training catalog.
- Gate metrics, the label join, metrics and status of the live-quality evaluation, training, candidate registration.
- Floating-point rounding, `nextafter` and `sqrt`: reals, a smaller neighbour and an abstract root.

# Verified model of a fraud-serving system

The repository scores card transactions with an ONNX model behind a Go server, routes traffic between
a champion and a challenger through a Go router, and lets a Python loop decide from late labels
whether the challenger is promoted or rolled back. This project models the parts of it that hold
logic, and proves what they are relied on for.

Concurrent components are step systems: a `State`, the `Event`s its goroutines or external calls can
produce, `Enabled`, `Apply`, and `Run` over a list of events, so a statement about `Run` is about every
interleaving and every choice a Go `select` may make. Beside each machine stands a class with the
source's fields and methods, and each of its calls, made without interruption, is proved to be a run of
the machine.

| file | what it models |
|---|---|
| `OnnxGraph.dfy` | the in-place ZipMap removal on an SSA dataflow graph; operators are uninterpreted functions |
| `HotSwap.dfy` | replacing the served model under a read-write lock, and the three model reads of a request |
| `PredictionStore.dfy` | the bounded prediction log: batching, one retry, drain, a COPY that may lose its reply |
| `ServingShutdown.dfy` | from a 200 response to the table, across the shutdown order of the serving process |
| `ShadowDispatcher.dfy` | N workers competing for shadow tasks, and their drain |
| `ModelsTable.dfy` | the role table: registration, promotion, rollback |
| `CanaryDecisions.dfy` | the decision cascade and the two ways of counting consecutive improvements |
| `CanaryController.dfy` | the evaluator loop over decision log, roles, champion container and router, with failing calls and crashes |
| `CanaryRouter.dfy` | the routing decision, its exact split, and state updates racing with requests |
| `PurgedSplit.dfy` | purged time-series folds over scikit-learn's `TimeSeriesSplit` arithmetic |
| `StabilityIndex.dfy` | the population stability index: edges, histogram, floor, sum |
| `CategoryCodes.dfy` | the three encoders that must give a category the same integer |
| `Options.dfy`, `Rounding.dfy`, `RealArithmetic.dfy` | shared: optional values, division rounded up, order facts about reals |

## What the code does that its documentation does not say

Each line is a lemma; an "exactly when" is an if-and-only-if whose condition a caller can check, and
each failure is shown by a run or an input.

- The ZipMap removal does not look into subgraphs inside node attributes: the meaning is kept exactly
  when no node that binds something captures the map name there (`MeaningKeptExactly`), and the graph
  stays well formed exactly when no node captures it at all (`RewriteKeepsGraphWellFormedExactly`). It
  merges two graph outputs exactly when both the map and the raw tensor were outputs
  (`OutputsStayDistinctExactly`).
- A response may name a model other than the one that scored it (`ResponseMayNameAnotherRunner`). The
  two coincide exactly when no Reload installs between the two reads (`ReportedVersionsAreOrdered`).
- A batch counted as a flush error may be in the table (`FailedBatchMayBeStored`): exactly when a reply
  was lost (`TableIsStoredBatches`).
- Answers are accounted for after every shutdown exactly when the HTTP shutdown is clean
  (`ServingShutdown.ShutdownSafeExactly`); waiting for the log goroutines would add only stores without a buffer
  (`SettledShutdownSafeExactly`, `LateHandlerIsLost`).
- With `SHADOW_WORKERS=0` the dispatcher's Shutdown returns over a full buffer; no worker is harmless
  exactly when the channel has no room either (`ShadowDispatcher.ShutdownSafeExactly`). If tasks may still be dispatched
  after shutdown has begun, no number of workers helps: none is lost exactly when the channel has no room
  (`LateDispatchSafeExactly`).
- The streak query has `LIMIT 10`, so requiring more than 11 runs never promotes, while the in-memory
  path would (`PathsAgreeExactly`, `MoreThanElevenRunsNeverPromote`).
- A role change need not stand. Between two iterations of the evaluator the roles are final exactly when
  the canary is off or neither a rollback nor a possible promotion would change them
  (`RolesFinalExactly`); whatever left the canary on, be it a failed call, a lost reply or a stopped
  process, the next windows may undo what was done. The evaluator alone can leave no champion exactly
  when the canary is on and it can promote at all or the challenger is the only champion
  (`ChampionLostExactly`), and can promote a version it retired, which registration refuses to do, exactly
  when the canary is on, it can promote, and the challenger is registered (`RetiredPromotedExactly`).
- Among all writers of the role table there is at most one champion at every point of a run exactly when
  no registration in it commits over a champion other than its own versions, since registration does not
  retire an older champion (`OneChampionExactly`, `RegistrationKeepsOneChampionExactly`), and at least one
  exactly when no commit promotes an unregistered challenger and nobody retires or demotes the only
  champion (`ChampionStaysExactly`). Identical artifacts end as a challenger
  (`ChampionRegisteredExactlyWhenDistinct`).
- A reload that loads but is not answered, or whose commit fails, leaves the champion container serving a
  version that no role names; `IterationAgreesExactly` says when container and role agree after an
  iteration.
- After an unclean HTTP shutdown main still destroys the model, and a handler may then reach for it: this
  cannot happen exactly when the shutdown is clean (`ModelSafeExactly`).
- The `_encoded` column gives a missing cell the code of a literal "nan" category, the other two
  encoders give it -1 (`CodesAgreeExactly`).
- "Equal reference mass per bin" holds, if no tie lies across a percentile, exactly when the number of
  bins divides the sample size (`EqualMassExactly`); otherwise every bin holds the quotient rounded down or
  up (`BinsHoldFloorOrCeil`).
- The diagram in the repository's README draws a rollback at "worse by 0.05+" and an improvement at
  "better by 0.01+"; the code compares strictly, so exactly 0.05 or 0.01 does not fire
  (`BoundariesDoNotFire`, `DefaultBoundaries`).
- The promotion walkthrough in `PRODUCTION.md` records `no_clear_signal` for a first window with 180
  challenger labels and a better challenger. Below the sample minimum the code records
  `insufficient_data`, and above it such a window is `improving` (`DefaultBoundaries`).

## Model

| member | source | states |
|---|---|---|
| OnnxGraph.RewritePreservesMeaning | training/src/export.py:14-43 | For any operators and any SSA, topologically sorted graph in which no node that binds something captures the map in a subgraph, the rewritten graph computes what the original computes with its first ZipMap read as the identity: every other name keeps its value, every graph output reads the same, and an output that named the map now names the raw tensor with type FLOAT [None, 2] |
| OnnxGraph.MeaningKeptExactly | training/src/export.py:28-42 | The condition on captures is exact: the meaning is kept under all operators and inputs if and only if it holds |
| OnnxGraph.CaptureChangesMeaning | training/src/export.py:28-31 | Whenever it does not hold, for every input there are operators under which some name other than the map changes its value |
| OnnxGraph.OutputsStayDistinctExactly | training/src/export.py:33-40 | Distinct graph outputs stay distinct if and only if the raw name and the map name were not both outputs |
| OnnxGraph.RewriteKeepsGraphWellFormedExactly | training/src/export.py:24-42 | The rewritten graph is SSA and topologically sorted again if and only if no node captures the map name in a subgraph |
| OnnxGraph.MapUnnamed | training/src/export.py:28-42 | After the rewrite no node reads or binds the map name and no graph output has it |
| OnnxGraph.RewriteKeepsIndependentValues | training/src/export.py:28-42 | Whatever ZipMap computes, and captured or not: a name that does not depend on the map keeps the value the original graph really gives it |
| OnnxGraph.TerminalZipMapTaintsOnlyItself | training/src/export.py:15-18 | If no node reads or captures the map, the map name is the only one that depends on it, so every other name is independent |
| OnnxGraph.Simulates | training/src/export.py:28-42 | After every prefix of the nodes the rewritten graph is in step with the reference meaning, one node behind once the ZipMap is passed |
| OnnxGraph.ZipMapNames | training/src/export.py:24-26 | The raw name is available before the first ZipMap, the map name only after it, and they differ |
| OnnxGraph.NodeProto.RewireInputs | training/src/export.py:29-31 | Renames exactly the inputs equal to the map name, in place, and nothing else of the node |
| OnnxGraph.GraphProto.RewireNodes | training/src/export.py:28-31 | Every node object is rewired; outputs, operators and attributes stay |
| OnnxGraph.GraphProto.RewireOutputs | training/src/export.py:33-40 | Exactly the outputs that named the map get the raw name and the raw type |
| OnnxGraph.GraphProto.RemoveEqual | training/src/export.py:42-42 | The list's removal by value equality deletes the first ZipMap itself, no earlier equal node |
| OnnxGraph.GraphProto.RemoveZipMapAt | training/src/export.py:42-42 | So exactly that position goes, and every other node and output stays |
| OnnxGraph.GraphProto.FindZipMap | training/src/export.py:20-24 | The ZipMap taken is the first one in node order; none is reported only if there is none |
| OnnxGraph.GraphProto.StripZipMap | training/src/export.py:25-42 | The in-place writes, in the source's order, leave the graph whose meaning the lemmas above relate to the original's |
| OnnxGraph.GraphProto.RemoveZipMap | training/src/export.py:14-43 | No ZipMap: the graph is unchanged. A first ZipMap without an input or output: raises with nothing written. Otherwise: the stripped graph |
| HotSwap.NoUseAfterDestroy | serving/internal/model/runner.go:45-109 | In every interleaving no inference runs on a destroyed session, only a live session is destroyed, and none is destroyed twice; a request scores on the runner installed last, a probe on its own candidate |
| HotSwap.LiveSessionsExactly | serving/internal/model/runner.go:57-74 | The live sessions are exactly the current runner's, until shutdown, and those of candidates still being validated and superseded runners not yet destroyed; no two threads answer for the same one |
| HotSwap.NothingLeaksAtShutdown | serving/internal/model/runner.go:102-109 | After the final Destroy every session ever created has been destroyed exactly once |
| HotSwap.ReadersAndWriterExclude | serving/internal/model/runner.go:31-39 | While a reloader may replace the runner no thread is inside Score or ModelVersion, and at most one reloader is there |
| HotSwap.ReadRunnerStaysInService | serving/internal/model/runner.go:31-49 | From reading the runner until releasing the lock, the runner read stays in service with a live session: a reload does not get past an in-flight Score |
| HotSwap.InstalledOnlyIfSampled | serving/internal/model/runner.go:62-70 | A runner gets to the write lock only after the sample check of the same reload, its thread having started no other since, accepted it: the sample has all its features, or sampling is off |
| HotSwap.RefusedReloadChangesNothing | serving/internal/model/runner.go:57-67 | A failed probe or sample check leaves the runner in service as it was and removes exactly the candidate's session from the live ones |
| HotSwap.ReportedVersionsAreOrdered | serving/internal/server/handlers.go:153-199 | The runner that scored is no later than the one the response names, which is no later than the one the log record names; two of them coincide if and only if no Reload installed between the two reads |
| HotSwap.ResponseMayNameAnotherRunner | serving/internal/server/handlers.go:153-189 | For any two distinct versions there is a run in which one scores and the other is named in the response |
| HotSwap.StepKeepsInv | serving/internal/model/runner.go:45-109 | Every step of every thread keeps lock ownership, session ownership, liveness and the order of versions read |
| HotSwap.ReachableInv | serving/internal/model/runner.go:45-109 | So these hold after every run from the first runner |
| HotSwap.RunKeepsInv | serving/internal/model/runner.go:45-109 | And after every further run from any state that satisfies them |
| HotSwap.ValidateAgainstSample | serving/internal/model/runner.go:76-100 | Passes exactly when the sampler answers and has every feature; its own error is told apart from missing features, of which the first five in feature order are shown |
| HotSwap.NameSet | serving/internal/model/runner.go:83-86 | The set holds exactly the sampled names |
| HotSwap.FirstMissing | serving/internal/model/runner.go:87-95 | The names shown are missing features at increasing positions, at most five, and no missing feature before the last shown, or at all if fewer than five are shown, is left out |
| HotSwap.FeatureVector | serving/internal/model/runner.go:177-185 | The i-th value is the map's value of the i-th feature, exactly when no feature is missing; otherwise the first missing name is reported |
| HotSwap.Swappable.Score | serving/internal/model/runner.go:45-49 | The vector that goes to the session in service, which is live, holds each feature's value at that feature's place; the answer is the second probability its model gives for this vector with the vector's hash, the inference error, or the first missing feature; the call is exactly one locked read of the model |
| HotSwap.Swappable.ModelVersion | serving/internal/model/runner.go:51-55 | The version of the runner installed last |
| HotSwap.Swappable.Reload | serving/internal/model/runner.go:57-74 | Succeeds exactly when the artifact loads, its own probe passes and the sample, if enabled, has every feature; then the new session replaces the old one, which is dead. Otherwise the runner is unchanged and a session created on the way is dead again. The steps taken are exactly those up to the check that fails, or all |
| HotSwap.Swappable.SwapIn | serving/internal/model/runner.go:68-72 | A candidate that passed is installed before the superseded session is destroyed, and ends in service and live |
| HotSwap.Swappable.Destroy | serving/internal/model/runner.go:102-109 | Destroys the session in service once and leaves none to destroy again; a second call does nothing |
| PredictionStore.AcceptedInOrder | serving/internal/predictions/store.go:63-126 | In every reachable state the accepted records, in acceptance order, are the finished batches, the batch in hand, then the channel, which never exceeds its buffer; the error counter is the number of finished batches not reported stored; an exited flusher holds nothing |
| PredictionStore.TableIsStoredBatches | serving/internal/predictions/store.go:115-150 | With distinct ids: a second COPY happened exactly when the first was not acknowledged; a batch is in the table unless both attempts were refused, and is wrongly counted as failed exactly when a reply was lost; the table is the stored batches in order and repeats no id |
| PredictionStore.FailedBatchMayBeStored | serving/internal/predictions/store.go:115-126 | For every store and record there is a run that counts the record's batch as a flush error though its row is in the table |
| PredictionStore.TickFlushesTheBatch | serving/internal/predictions/store.go:89-93 | A tick on any non-empty batch leads to one COPY or, if that is not acknowledged, two, of exactly that batch; then that batch alone has been finished, its rows are stored at most once, and unless both attempts are refused they are; on an empty batch nothing happens |
| PredictionStore.KeyConflictOnlyWithItself | migrations/001_predictions_table.sql:2-2 | With distinct accepted ids the primary key refuses a batch exactly when that same batch's first COPY committed and lost its reply |
| PredictionStore.DrainKeepsOrder | serving/internal/predictions/store.go:94-111 | The drained batches, put end to end, are the batch in hand and then the channel: nothing lost, repeated or reordered |
| PredictionStore.DrainBatchSizes | serving/internal/predictions/store.go:95-107 | No drained batch is empty; each has at most 1000 records, but the first may have one more than the batch in hand had |
| PredictionStore.DrainBatchCount | serving/internal/predictions/store.go:94-107 | Draining b batched and c buffered records flushes exactly ceil((b+c)/1000) batches when b < 1000, and 1 + ceil(max(c-1,0)/1000) otherwise |
| PredictionStore.StepKeepsInv | serving/internal/predictions/store.go:63-126 | Every step of producers and flusher keeps order, bound and error count |
| PredictionStore.StepKeepsTableInv | serving/internal/predictions/store.go:115-150 | Every step keeps the table equal to the stored batches while accepted ids are distinct |
| PredictionStore.ReachableInv | serving/internal/predictions/store.go:44-126 | So both hold after every run from an empty store, and the key is unique in the table even if accepted ids are not |
| PredictionStore.Store.constructor | serving/internal/predictions/store.go:44-56 | A new store is the machine's initial state |
| PredictionStore.Store.Log | serving/internal/predictions/store.go:63-77 | Never blocks: accepts exactly when the flusher is waiting or there is room and the caller's context does not win the select; the record then goes to the flusher or to the end of the channel, otherwise it is dropped or cancelled and nothing changes |
| PredictionStore.Store.Receive | serving/internal/predictions/store.go:87-88 | The oldest record of the channel joins the end of the batch |
| PredictionStore.Store.OnTick | serving/internal/predictions/store.go:89-93 | A batch that is not empty is flushed whole and the hand is empty again; an empty one costs no COPY |
| PredictionStore.Store.FlushPostgres | serving/internal/predictions/store.go:128-150 | All rows or none, refused on a repeated key; success is reported only if the rows are stored |
| PredictionStore.Store.Attempt | serving/internal/predictions/store.go:115-125 | One attempt is one COPY step of the machine; only a failed first attempt leaves the batch in hand |
| PredictionStore.Store.FlushWithRetry | serving/internal/predictions/store.go:115-126 | One or two COPYs, then the batch is finished with its contents unchanged, the hand is empty and the channel untouched |
| PredictionStore.Store.DrainOne | serving/internal/predictions/store.go:97-103 | One turn moves the oldest record into the batch and flushes it exactly when it has reached 1000 |
| PredictionStore.Store.DrainLast | serving/internal/predictions/store.go:104-108 | On an empty channel the rest is flushed, if there is any, and the flusher exits |
| PredictionStore.Store.Drain | serving/internal/predictions/store.go:94-111 | The drain loop terminates with channel and batch empty, having flushed exactly the batches the drain lemmas describe |
| PredictionStore.Store.FinishFlush | serving/internal/predictions/store.go:89-93 | A flush that is under way when done is closed ends before the flusher looks again, and touches neither channel nor acceptance |
| PredictionStore.Store.Shutdown | serving/internal/predictions/store.go:152-156 | From any state the invariant allows, in or out of a flush, with producers quiet: on return the channel is empty and every accepted record has been through a flush |
| ServingShutdown.EveryResponseAccountedFor | serving/cmd/server/main.go:103-108 | After a clean HTTP shutdown, Drain and the store's Shutdown, the channel and the batch are empty and the record behind each 200 is in exactly one of: a batch reported flushed, and then in the table; a batch counted as failed; the buffer-full drops |
| ServingShutdown.ShutdownSafeExactly | serving/cmd/server/main.go:103-108 | For every buffer size: no run loses an answered record if and only if the HTTP shutdown returns without error |
| ServingShutdown.SettledShutdownSafeExactly | serving/cmd/server/main.go:103-108 | Even with every handler and log goroutine given the time to end: no run loses one if and only if the HTTP shutdown is clean or the channel has no buffer |
| ServingShutdown.AnsweredLate | serving/cmd/server/main.go:103-108 | For every buffer size and record a run with an unclean shutdown returns before the answered record was logged |
| ServingShutdown.LateHandlerIsLost | serving/internal/server/handlers.go:191-212 | For every store with a buffer and every record a run with an unclean shutdown logs the answered record into a channel nobody reads: in no batch, not dropped |
| ServingShutdown.ModelSafeExactly | serving/cmd/server/main.go:103-110 | For every buffer size: after the model is destroyed no handler and no log goroutine can still use it, in any run, if and only if the HTTP shutdown is clean |
| ServingShutdown.ModelDestroyedInHandler | serving/cmd/server/main.go:103-110 | For every buffer size a run with an unclean shutdown destroys the model while a handler is running |
| ServingShutdown.HandledOnce | serving/internal/predictions/store.go:115-125 | No record is both in a batch reported flushed and in one counted as failed |
| ServingShutdown.DeliveredExactly | serving/internal/predictions/store.go:115-125 | The records delivered are exactly those of some batch reported flushed, those abandoned exactly those of some batch that was not |
| ServingShutdown.DeliveredIsStored | serving/internal/predictions/store.go:115-126 | A record in a batch reported flushed is among the rows stored |
| ServingShutdown.StepKeepsInv | serving/internal/server/handlers.go:191-212 | Every step of handlers, log goroutines, flusher and main keeps every answered record pending in one goroutine or decided once by the store |
| ServingShutdown.ReachableInv | serving/internal/server/handlers.go:191-252 | So this holds in every run of the serving process |
| ServingShutdown.Handler.Score | serving/internal/server/handlers.go:122-212 | 200 exactly on a non-zero transaction, found features and a finite probability; 400 and 404 on exactly their conditions, 500 otherwise; a log goroutine starts exactly for a 200, with the record answered; the call is a run of the system |
| ShadowDispatcher.TasksConserved | router/internal/shadow/dispatcher.go:41-94 | In every interleaving each task is accepted as often as it is buffered, in a worker's hands or executed, so none runs twice; tasks are taken in acceptance order; the buffer keeps its bound |
| ShadowDispatcher.ComparedExactly | router/internal/shadow/dispatcher.go:82-94 | Over every run the comparisons recorded are, in order, the tasks whose execution the challenger answered, the tasks executed are those whose execution ended, and the drop counter counts the drops |
| ShadowDispatcher.ComparedAmongExecuted | router/internal/shadow/dispatcher.go:82-94 | No task is compared more often than it is executed |
| ShadowDispatcher.ShutdownLosesNothing | router/internal/shadow/dispatcher.go:53-80 | With a worker and no dispatch after done is closed, Shutdown returns only with an empty buffer and every accepted task executed once |
| ShadowDispatcher.ShutdownSafeExactly | router/internal/shadow/dispatcher.go:28-56 | With quiet producers no run loses a task if and only if there is at least one worker or the channel has no buffer |
| ShadowDispatcher.WorkerStepsUseWork | router/internal/shadow/dispatcher.go:58-94 | Every worker step decreases the remaining work, so workers alone cannot run forever |
| ShadowDispatcher.NoWorkerStuck | router/internal/shadow/dispatcher.go:68-77 | After done is closed, until Shutdown can return, some worker has a step to take |
| ShadowDispatcher.DrainTerminates | router/internal/shadow/dispatcher.go:53-80 | With quiet producers the workers take at most 2 * buffered + 3 * workers steps, and when they can take no more after done is closed, Shutdown returns |
| ShadowDispatcher.LateDispatchSafeExactly | router/cmd/server/main.go:78-81 | If tasks may be dispatched after done is closed, then for every number of workers Shutdown never loses an accepted task if and only if the channel has no buffer |
| ShadowDispatcher.LateDispatchMayBeStranded | router/internal/shadow/dispatcher.go:41-56 | For every buffer and any number of workers a run accepts a given task after done and never executes it |
| ShadowDispatcher.ReachableInv | router/internal/shadow/dispatcher.go:41-94 | Conservation, order and the buffer bound hold after every run |
| ShadowDispatcher.Dispatcher.constructor | router/internal/shadow/dispatcher.go:28-39 | A new dispatcher is the machine's initial state, all workers waiting; a worker count below zero starts none |
| ShadowDispatcher.Dispatcher.Dispatch | router/internal/shadow/dispatcher.go:41-51 | Never blocks: accepts exactly when a worker is waiting or there is room, and then hands the task over or appends it; otherwise it counts a drop |
| ShadowDispatcher.Dispatcher.Execute | router/internal/shadow/dispatcher.go:82-94 | The task counts as executed whether or not the challenger answers; its comparison is recorded exactly if it does |
| ShadowDispatcher.Dispatcher.TakeOldest | router/internal/shadow/dispatcher.go:72-72 | The receive of the drain takes the oldest task and leaves the rest in order |
| ShadowDispatcher.Dispatcher.DrainOne | router/internal/shadow/dispatcher.go:71-73 | A drain turn executes the oldest buffered task and stays in the drain |
| ShadowDispatcher.Dispatcher.DrainAndExit | router/internal/shadow/dispatcher.go:70-77 | The drain of one worker terminates, executes all that was buffered in order and exits with the channel empty |
| ModelsTable.RegistrationOutcome | monitoring/scripts/register_models.py:29-63 | A registration commits exactly when neither version is retired; then the given challenger is the only one, the given champion is a champion if it is another version, the other challengers are retired and no other role changes |
| ModelsTable.RegistrationPaths | monitoring/scripts/register_models.py:33-62 | A version newly given a role gets that role's model path, one that had the role keeps its own, and no other version is touched or lost |
| ModelsTable.ChampionRegisteredExactlyWhenDistinct | monitoring/scripts/register_models.py:91-115 | A committed registration leaves its champion a champion if and only if the two versions differ |
| ModelsTable.RegistrationKeepsOneChampionExactly | monitoring/scripts/register_models.py:91-115 | A committed registration of two versions leaves at most one champion if and only if no other version was one before; of one version twice, if and only if at most one other was |
| ModelsTable.RetiredStaysRetired | monitoring/scripts/register_models.py:47-56 | No sequence of registrations, committed or aborted, moves a version out of retired |
| ModelsTable.RoleChangesKeepOneChampion | monitoring/scripts/run_canary_evaluator.py:110-125 | A promotion leaves the given version as the only champion if registered, else none; a rollback removes that version from the champions at most; both keep at most one |
| ModelsTable.RollbackAfterPromotionLeavesNoChampion | monitoring/scripts/run_canary_evaluator.py:110-125 | Promoting and later rolling back the same version leaves no champion |
| ModelsTable.PromotionRevivesExactly | monitoring/scripts/run_canary_evaluator.py:112-116 | A promotion takes its own version out of retired if it was there, and no other |
| ModelsTable.PromotionOutcome | monitoring/scripts/run_canary_evaluator.py:110-116 | A promotion retires the other champions and nobody else, and changes no path |
| ModelsTable.RollbackOutcome | monitoring/scripts/run_canary_evaluator.py:120-125 | A rollback retires its version, if registered, and changes nothing else |
| ModelsTable.Models.UpsertModel | monitoring/scripts/register_models.py:21-63 | Refuses exactly a retired version asked for another role, and then changes nothing; a version that has the role stays as it is; any other gets the role and the path, and no other row changes |
| ModelsTable.Models.RegisterModels | monitoring/scripts/register_models.py:91-115 | Commits what the registration lemmas describe, or leaves the table as it was |
| ModelsTable.Models.PromoteChallenger | monitoring/scripts/run_canary_evaluator.py:110-116 | The two updates in sequence amount to the promotion the role lemmas describe |
| ModelsTable.Models.RetireModel | monitoring/scripts/run_canary_evaluator.py:120-125 | The update amounts to the rollback the role lemmas describe; an unregistered version is no error |
| CanaryDecisions.OutcomesExactly | monitoring/canary/evaluator.py:96-203 | Each outcome is reached exactly under its documented condition on sample sizes, guardrails, promotion delta and streak; only promoted and rollback outcomes carry a verdict other than continue |
| CanaryDecisions.BoundariesDoNotFire | monitoring/canary/evaluator.py:139-174 | For every configuration: a challenger exactly on all three guardrails is not rolled back, and one better by exactly the promotion delta is not improving |
| CanaryDecisions.DefaultBoundaries | monitoring/common/config.py:52-57 | Under the default configuration, the documentation's boundary values and its walkthrough's first window get the outcomes listed above, and values just beyond each limit the next outcome |
| CanaryDecisions.StreakExactly | monitoring/canary/evaluator.py:216-223 | The streak is at least k if and only if the last k outcomes exist and are all improving |
| CanaryDecisions.CountFromPrior | monitoring/canary/evaluator.py:216-223 | The in-memory count is the streak |
| CanaryDecisions.CountFromRows | monitoring/canary/evaluator.py:236-242 | The count is the longest improving prefix of the rows returned |
| CanaryDecisions.CountFromDatabase | monitoring/canary/evaluator.py:225-242 | Counting newest first over at most ten rows gives min(streak, 10) |
| CanaryDecisions.PathsAgreeExactly | monitoring/canary/evaluator.py:178-242 | The two counts lead to the same promotion decision on all histories if and only if at most 11 runs are required; beyond that the database path never promotes |
| CanaryController.PromotionsRestOnStreaks | monitoring/scripts/run_canary_evaluator.py:143-168 | In every run, from any log, a promotion the run records is immediately preceded, for its pair, by required-1 improving rows, and each of these rows that the run recorded rests on a window that met the sample minimum, cleared every guardrail and beat the promotion delta |
| CanaryController.PromotionsAreSpaced | monitoring/scripts/run_canary_evaluator.py:88-108 | A promotion recorded in a run is at least required rows after any earlier one of the pair, so one whose reload failed is not retried without a full new streak |
| CanaryController.MoreThanElevenRunsNeverPromote | monitoring/canary/evaluator.py:225-234 | If more than 11 runs are required, no run of the controller ever records a promotion |
| CanaryController.RoleChangesAreJustified | monitoring/scripts/run_canary_evaluator.py:86-127 | Wherever calls fail or the process dies, and whatever others do: the evaluator changes a role only after the matching decision row was stored and acknowledged, and for a promotion only after the champion container then answered with the challenger's version, having done nothing else in between |
| CanaryController.DecisionStoredBefore | monitoring/scripts/run_canary_evaluator.py:167-168 | The evaluator is about to reload or to retire only directly after its own acknowledged write of a promote or a rollback decision |
| CanaryController.ReloadAnsweredBefore | monitoring/scripts/run_canary_evaluator.py:92-110 | A promotion is about to commit only directly after a reload that answered with the challenger's version, itself directly after the stored decision |
| CanaryController.OneChampionExactly | monitoring/scripts/run_canary_evaluator.py:110-125 | With registrations and other evaluators changing roles at any moment: there is at most one champion at every point of a run if and only if no registration in it commits over a champion other than its own versions |
| CanaryController.ChampionStaysExactly | monitoring/scripts/run_canary_evaluator.py:110-125 | There is a champion at every point of a run if and only if no step that takes effect promotes an unregistered version, or retires or demotes the only champion |
| CanaryController.ExactlyOneChampionExactly | monitoring/scripts/run_canary_evaluator.py:110-125 | There is exactly one at every point if and only if every step meets both conditions |
| CanaryController.StepKeepsAChampionExactly | monitoring/scripts/run_canary_evaluator.py:110-125 | The condition on a single step, for the evaluator's own and everyone else's |
| CanaryController.StepKeepsOneChampionExactly | monitoring/scripts/run_canary_evaluator.py:110-125 | Of all steps, only such a registration breaks it |
| CanaryController.CommitOutcome | monitoring/scripts/run_canary_evaluator.py:110-125 | A commit leaves exactly the challenger champion if it is registered, no champion if not; the evaluator takes a version out of retired if and only if it commits the promotion of a challenger retired at that moment |
| CanaryController.RolesFinalExactly | monitoring/scripts/run_canary_evaluator.py:143-171 | Between two iterations no run of the evaluator alone changes a role, whatever windows come and calls fail, if and only if the canary is off or neither a rollback nor a possible promotion would change the table |
| CanaryController.ChampionLostExactly | monitoring/scripts/run_canary_evaluator.py:86-127 | From a table with a champion some run of the evaluator alone leaves none if and only if the canary is on and at most eleven runs are required or the challenger is the only champion |
| CanaryController.RetiredPromotedExactly | monitoring/scripts/run_canary_evaluator.py:86-127 | Some run of the evaluator alone makes the challenger a champion after it was retired if and only if the canary is on, at most eleven runs are required and the challenger is registered |
| CanaryController.RollbackMayLeaveNoChampion | monitoring/scripts/run_canary_evaluator.py:36-46 | One such run, for every configuration that can promote and any good and bad window: promote, fail to reach the router, roll the only champion back |
| CanaryController.RetiredChallengerMayBePromoted | monitoring/scripts/run_canary_evaluator.py:112-127 | Likewise: retire the challenger, fail to reach the router, make the retired version the only champion |
| CanaryController.OffChangesNothing | monitoring/scripts/run_canary_evaluator.py:145-156 | While the canary is off the evaluator changes neither roles nor router and can only record inactive decisions |
| CanaryController.IterationAgreesExactly | monitoring/scripts/run_canary_evaluator.py:92-127 | If the champion container serves the one champion before an iteration, it does after it if and only if a promotion went through for a registered challenger or left the container's version alone, and a rollback failed or was not of the version served |
| CanaryController.CanaryOffIsAccepted | router/internal/server/handlers.go:164-209 | What the evaluator asks for after a role change is a state the router accepts, installs, and routes to the champion alone |
| CanaryController.StepKeepsInv | monitoring/scripts/run_canary_evaluator.py:143-168 | Every step, external or the evaluator's own, keeps every row of the pair justified and a pending decision one the log may hold |
| CanaryController.ReachableInv | monitoring/scripts/run_canary_evaluator.py:143-168 | So every row of the pair a run adds to any log is justified |
| CanaryController.Evaluator.SelectOutcomes | monitoring/canary/evaluator.py:226-234 | The rows counted are those of this pair, in order, whatever other pairs log in between |
| CanaryController.PairRowsExactly | monitoring/canary/evaluator.py:228-229 | The rows counted are exactly those that name this champion and this challenger |
| CanaryController.OtherRowsDoNotCount | monitoring/canary/evaluator.py:228-229 | A row with another version in either place leaves the pair's streak unchanged; one with both is the pair's latest |
| CanaryController.Evaluator.WriteDecision | monitoring/scripts/run_canary_evaluator.py:63-83 | The row is stored unless the call failed, and reported stored only if the reply arrived |
| CanaryController.Evaluator.DisableCanary | monitoring/scripts/run_canary_evaluator.py:36-46 | Turns the canary off with 0/0 unless the call failed; a failure is swallowed |
| CanaryController.Evaluator.ApplyPromotion | monitoring/scripts/run_canary_evaluator.py:87-118 | Reload, then commit only on the challenger's version, then disable only on an acknowledged commit: exactly these steps, and container, roles and router end as the replies say |
| CanaryController.Evaluator.ApplyRollback | monitoring/scripts/run_canary_evaluator.py:120-127 | Retire, then disable only on an acknowledged update: exactly these steps, and roles and router end as the replies say |
| CanaryController.Evaluator.ApplyDecision | monitoring/scripts/run_canary_evaluator.py:86-127 | A continue decision changes nothing; the others do exactly their branch |
| CanaryController.Evaluator.Decide | monitoring/scripts/run_canary_evaluator.py:143-165 | An unreachable or inactive router yields an inactive decision without a window; otherwise the decision is the evaluator's on this window and this pair's streak; none exactly when the evaluation raises |
| CanaryController.Evaluator.Iterate | monitoring/scripts/run_canary_evaluator.py:143-171 | One loop iteration takes exactly the steps its replies allow; the log grows by the row decided on unless the write failed, and roles, container and router change only after an acknowledged row, as its verdict and the replies say |
| CanaryRouter.SplitIsExact | router/internal/routing/state.go:38-43 | With canary on and percent p in 0..100, c of n evenly spaced draws go to the challenger, where 100(c-1) < np <= 100c, for every n; at 100 all do |
| CanaryRouter.ShadowSplitIsExact | router/internal/routing/state.go:45-48 | With canary off and shadow percent p in 0..100, c of n evenly spaced draws are shadowed, where 100(c-1) < np <= 100c; none at 0 or with canary on, all at 100 |
| CanaryRouter.CountShadowBelow | router/internal/routing/state.go:45-48 | Of the first k of n draws, exactly min(k, ceil(n*p/100)) are shadowed |
| CanaryRouter.CountBelow | router/internal/routing/state.go:38-43 | Of the first k of n draws, exactly min(k, ceil(n*p/100)) go to the challenger |
| CanaryRouter.DrawBelow | router/internal/routing/state.go:39-39 | Draw i/n is below p percent if and only if i < ceil(n*p/100) |
| CanaryRouter.RaisingPercentOnlyAdds | router/internal/routing/state.go:38-51 | Raising a percentage takes no draw away from the set it governs, the challenger's or the shadow's, and the shadow runs only for a request the champion serves |
| CanaryRouter.RoutingSafe | router/internal/server/handlers.go:58-133 | In every reachable state, whatever the initial percentages: canary on implies shadow 0, every shadow task carries a champion answer, and each request was routed as the state it loaded allows |
| CanaryRouter.DisableTakesEffect | router/internal/server/handlers.go:164-209 | After an accepted disable with 0/0 and until the next accepted update, every request that loads the state goes to the champion without shadow |
| CanaryRouter.StepKeepsInv | router/internal/server/handlers.go:58-209 | Updates and requests in any interleaving keep the routing invariant |
| CanaryRouter.ReachableInv | router/cmd/server/main.go:42-46 | It holds from the initial state on, though the initial percentages are not validated |
| CanaryRouter.Handler.constructor | router/cmd/server/main.go:42-51 | The router starts with canary off, whatever percentages the environment gives |
| CanaryRouter.Handler.HandleAdminCanary | router/internal/server/handlers.go:164-209 | 401 exactly without the token; accepted exactly with it, a well-formed body, both percentages in 0..100 and not canary together with shadow; then that state is installed, otherwise nothing changes; the call is one step of the machine |
| CanaryRouter.Handler.HandleScore | router/internal/server/handlers.go:58-133 | 400 exactly without a transaction; else the answer comes from the challenger exactly when canary is on and the draw is below its percentage, or there is none if that upstream fails; one task is offered, with the champion's answer, exactly when there is an answer, canary is off and the draw is below the shadow percentage; the call is a run of the machine |
| PurgedSplit.FoldExactly | training/src/splits.py:27-30 | A fold trains on a non-empty prefix and validates on exactly the rows of its block that are at least the gap later than every training row, sorted input or not |
| PurgedSplit.FoldsMoveForward | training/src/splits.py:27-43 | Of two yielded folds the later trains on strictly more, including all the earlier validated on; validation sets are disjoint and move forward |
| PurgedSplit.EveryFoldAccountedFor | training/src/splits.py:26-50 | Yielded plus dropped folds make k; a fold is dropped exactly when its validation set is empty; the all-dropped condition holds exactly when nothing was yielded |
| PurgedSplit.SortedPurgesPrefix | training/src/splits.py:28-30 | On sorted times the purge removes a leading part of each block and nothing after it |
| PurgedSplit.NoGapKeepsBlock | training/src/splits.py:28-30 | On sorted times a gap of zero or less purges nothing: each fold validates on its whole block |
| PurgedSplit.NoGapOutcome | training/src/splits.py:22-43 | So all k folds are yielded, each with n / (k + 1) validation rows, rounded down |
| PurgedSplit.PurgeExactly | training/src/splits.py:29-30 | The rows kept are exactly the block rows at or after the cutoff, in increasing order |
| PurgedSplit.BlocksTile | training/src/splits.py:23-27 | The k blocks are non-empty, adjacent, end at the last row and leave at least one row before the first |
| PurgedSplit.BlockSizeExactly | training/src/splits.py:23-27 | k + 1 times the block size is at most the number of rows, and k + 1 times one more exceeds it; so the first training prefix is at least one block and at most k rows longer |
| PurgedSplit.BlocksGrow | training/src/splits.py:23-27 | A later block starts at or after the end of an earlier one |
| PurgedSplit.Split | training/src/splits.py:16-50 | Refuses exactly fewer than two folds or fewer rows than folds plus one; otherwise yields and drops the folds the lemmas describe, for a gap of 86400 seconds a day, and warns at the end exactly when all k were dropped; on sorted times without a gap every fold has n / (k + 1) validation rows |
| PurgedSplit.AllFolds | training/src/splits.py:26-43 | The loop yields and drops those folds in order, and counts the dropped |
| PurgedSplit.PurgedFold | training/src/splits.py:27-30 | One loop turn computes the fold FoldExactly describes |
| PurgedSplit.LatestTime | training/src/splits.py:28-28 | The latest training time, on unsorted times too |
| PurgedSplit.PurgeBlock | training/src/splits.py:29-30 | The mask keeps the rows PurgeExactly describes |
| StabilityIndex.EdgesCover | monitoring/drift/psi.py:12-18 | For any non-empty reference the edges strictly increase and cover [0, 1], ties or constant samples included |
| StabilityIndex.EdgesExactly | monitoring/drift/psi.py:12-18 | Evenly spaced edges from 0 to 1 if all values coincide; otherwise exactly the distinct percentiles in order, the first lowered to 0 and the last raised to 1 if need be |
| StabilityIndex.PercentileOfLine | monitoring/drift/psi.py:12-12 | Interpolation is linear: on values that lie on a line every percentile is the line at position j(n-1)/bins |
| StabilityIndex.PercentilesOrdered | monitoring/drift/psi.py:12-12 | A later percentile is never smaller, ties included |
| StabilityIndex.ExactlyOneBin | monitoring/drift/psi.py:22-23 | A value within the edges falls in exactly one bin |
| StabilityIndex.CountsAddUp | monitoring/drift/psi.py:22-23 | The counts of a sample within the edges add up to its size |
| StabilityIndex.HistogramsComplete | monitoring/drift/psi.py:12-23 | For samples of probabilities both histograms count every value once |
| StabilityIndex.SharePositive | monitoring/drift/psi.py:25-29 | A floored share is positive, so the ratio and its logarithm are defined |
| StabilityIndex.ShareExactly | monitoring/drift/psi.py:25-29 | A share is the bin's part of the sample, and 0.000001 exactly for an empty bin |
| StabilityIndex.TermSign | monitoring/drift/psi.py:31-31 | A bin's term is never negative, and zero exactly when the two shares agree |
| StabilityIndex.PsiNonNegative | monitoring/drift/psi.py:6-31 | The index is never negative, zero exactly when the floored shares agree in every bin, and zero for a sample against itself |
| StabilityIndex.PsiIsTwoEntropies | monitoring/drift/psi.py:31-31 | For a logarithm, which turns products into sums, the index is the relative entropy of the recent shares to the reference shares plus the reverse |
| StabilityIndex.TermSplits | monitoring/drift/psi.py:31-31 | The same for one bin |
| StabilityIndex.EqualMassExactly | monitoring/drift/psi.py:10-12 | If no tie lies across an interior percentile and the last of these is below the maximum, or with one bin or one value: all bins hold equally many reference values if and only if the number of bins divides the sample size |
| StabilityIndex.EqualMassDivides | monitoring/drift/psi.py:10-12 | Ties or not, equal mass needs a sample size that the number of bins divides |
| StabilityIndex.NoTiesIsHarmless | monitoring/drift/psi.py:12-12 | A sample of at least two distinct values meets that condition for every number of bins |
| StabilityIndex.BinsHoldFloorOrCeil | monitoring/drift/psi.py:10-12 | With harmless ties every bin holds the sample size over the number of bins rounded down or up, the last one rounded up |
| StabilityIndex.QuantileBinsAreBalanced | monitoring/drift/psi.py:12-18 | With harmless ties there are as many bins as asked for, and bin b holds exactly the values whose ranks lie between its two percentile positions |
| StabilityIndex.PercentilePosition | monitoring/drift/psi.py:12-12 | If no tie lies across the j-th percentile, the i-th smallest value reaches it if and only if i >= ceil(j(n-1)/bins) |
| StabilityIndex.ComputePsi | monitoring/drift/psi.py:6-31 | A number exactly when there are reference values and, unless no bins are asked for, recent ones; then the sum of the two relative entropies over the bins, or 0 without bins |
| StabilityIndex.ComputeEdges | monitoring/drift/psi.py:12-18 | The edge array with its ends overwritten in place holds the edges EdgesCover describes |
| StabilityIndex.ComputeShare | monitoring/drift/psi.py:22-29 | A bin's share of the whole sample, floored exactly when the bin is empty |
| StabilityIndex.SumTerms | monitoring/drift/psi.py:31-31 | The sum runs over every bin once |
| CategoryCodes.CodesAgreeExactly | training/src/features.py:51-69 | Stored code and training code agree on every row; the encoded column agrees with them if and only if the cell is not missing or no literal "nan" category exists |
| CategoryCodes.CodesAreBijective | training/scripts/load_features_to_redis.py:27-31 | Codes are a bijection from the sorted distinct values to 0..k-1, and a missing cell is -1 |
| CategoryCodes.ReusedMappingKeepsCodes | monitoring/common/encoding.py:6-25 | Another frame encoded with the training mappings gets the training code for every known value and -1 for every unknown or missing one |
| CategoryCodes.CategoriesExactly | training/scripts/preprocess.py:39-42 | The categories are exactly the present values, in strictly increasing order |
| CategoryCodes.LessExactly | training/src/features.py:56-56 | The order is that of Python strings: a proper prefix first, else the smaller character where two strings first differ |
| CategoryCodes.EnumerateExactly | training/src/features.py:56-57 | The mapping is defined on exactly the categories and gives each its position |
| CategoryCodes.EncodeCategoricals | monitoring/common/encoding.py:6-25 | Cell by cell: in train mode a code is the value's position among its column's categories, in reuse mode what the given mapping of that column says, and -1 for a missing cell or a value or column that is not there; train mode returns each column's own mapping, reuse mode the mappings given |
| CategoryCodes.TrainingCodeIsPosition | monitoring/common/encoding.py:20-24 | The code of a value is its position among the categories, even if they are not sorted, and -1 if it is not among them |
| CategoryCodes.BuildMapping | training/src/features.py:57-57 | The mapping built is the enumeration EnumerateExactly describes |
| CategoryCodes.EncodeColumn | training/src/features.py:51-69 | Without a literal "nan" category the encoded column equals the codes stored for serving on every row |

## Left out

Outside the model:

- HTTP, JSON, Redis and Postgres drivers, metrics, logging, timeouts and clocks; each call is one event that commits, fails, or takes effect with its reply lost.
- ONNX Runtime, gradient boosting, hyper-parameter search and the metric and test functions of scikit-learn and scipy; evaluator metrics are arbitrary reals per window.
- The edit that keeps only the tree classifier in the challenger's training script: its meaning depends on converter output that is not part of this model.
- Drift alert writing, shadow summaries, the label simulator, the migration runner: nothing in them spans operations.
- Admin tokens are one boolean; versions and hashes are opaque strings; timestamps, notes and checksums of the role table are dropped.
- Floating point: probabilities, metrics and draws are reals, without rounding, NaN (beyond the handler's check) or infinity.

Premises:

- `Swappable.Destroy` runs when no request or reload is active. ModelSafeExactly proves that of every run whose HTTP shutdown is clean, and of no other kind; calls after it are excluded.
- The lock of the hot swap admits a reader whenever no writer holds it: Go's preference for waiting writers is not modelled, so every Go run is covered and some others are too. A health check's version read counts as a request's.
- Prediction ids of different responses differ (they are random UUIDs). Without this the table still repeats no id.
- One evaluator process per version pair; rows of the pair sort by creation time in the order they were written.
- The logarithm is any function that is 0 at 1 and strictly increasing on positive numbers; percentiles interpolate linearly.
- Columns reach the three encoders with the categories preprocessing gave them; the file format keeps them.

Members whose contract is weaker than the code or the promise:

- OnnxGraph.RewritePreservesMeaning: takes each ZipMap to have one input and one output, as the ONNX-ML operator specification says.
- OnnxGraph.GraphProto.RemoveZipMap: repeated fields are taken to own their elements, so no node object occurs twice in the list.
- HotSwap.Swappable.Score: inference is a function of model version and vector; tensor allocation errors count as inference errors.
- HotSwap.Swappable.Reload: the uninterrupted call; interleavings with other threads are the state machine's.
- PredictionStore.Store.Shutdown: a second call, which panics on the closed channel, is excluded; producers that are not quiet are covered by AcceptedInOrder.
- PredictionStore.Store.Drain: batches are sequences, so reuse of one backing array by `batch[:0]` is not modelled.
- ShadowDispatcher.Dispatcher.DrainAndExit: one worker alone; several draining at once are covered by ShutdownLosesNothing and DrainTerminates.
- ShadowDispatcher.DrainTerminates: bounds the workers' steps and excludes a stuck state; that the scheduler eventually runs a worker is assumed.
- CanaryController.PromotionsRestOnStreaks: rows that an earlier process wrote under other thresholds count as that process decided them, since the query reads only their outcome.
- CanaryController.RoleChangesAreJustified: nothing is promised the other way round; a stored decision may never be applied if a call fails or the process stops.
- CanaryRouter.DisableTakesEffect: requests that loaded an earlier state are not recalled.
- StabilityIndex.EqualMassExactly: a tie across a percentile shifts values between bins or merges edges, and then only EqualMassDivides is promised.
- PurgedSplit.FoldExactly: times are integers in seconds, one per row; missing times are not modelled.
- CategoryCodes.EncodeCategoricals: lists the categorical columns only, under distinct names; other columns are copied unchanged by the source.

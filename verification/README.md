# Verification of api-migration-proxy

A Dafny model of the parts of the migration proxy that decide what becomes of a request's comparison,
with proofs of what those parts promise. Run `dafny verify dfyconfig.toml` in this directory.

## What is modelled

**Collector** (`CollectorModel`, `CollectorInvariant`, `CollectorSteps`, `CollectorTheorems`, `CollectorProgress`,
`CollectorVerdicts`, `CollectorCounts`, `BoundedCollectorObject`).
The event collector is a transition system whose steps are the code between two awaits, together with
the moves of a store that may answer anything, contradict itself, land a write after its timeout, or
fail. The class `BoundedCollector` has the source's fields and loops; each method is proved to move
them as the transition system does. The theorems hold in every state of every run.

**Pipeline and runtime** (`WorkModel`, `WorkInvariant`, `WorkSteps`, `WorkTheorems`, `WorkMoves`, `WorkProgress`,
`Process`, `ComparisonPipelineObject`, `PipelineMemory`, `ProxyRuntimeObject`, `Bodies`). A selected request takes a
shadow slot, is finalised, queued, compared on a thread pool by workers that time out, fail, or are cancelled at any
await, and is offered to the collector, whose whole transition system is part of the state. The main result is the
conservation of requests from selection to storage, with an exact cause for every move of every request. `Process`
interleaves the requests with replacements of the configuration. `Bodies` holds the capture of request and response
bodies.

**Comparison engine** (`Walk`, `Agreement`, `Positions`, `Differences`, `Decimals`, `Json`, `Pointer`, `Segments`,
`Indices`, `Trees`, `FieldMoves`, `FieldMappings`, `Leaves`, `Scanner`, `Nodes`, `Parser`, `Readings`, `Compare`,
`Results`). The stack-based walk refines a recursive difference; a verdict of no difference is exactly a relation on JSON
values, and every difference is exactly a position at which the two documents differ; field mappings are moves on trees
that commute, can be undone and conserve leaves; the parser, with its depth scanner, number and key hooks and node
count, is proved against the JSON grammar (RFC 8259 sections 2 to 7) and pointers against RFC 6901 sections 3 and 4.

**Retention and coverage** (`Retention`, `Queries`, `EventStoreObject`, `StoreContract`, `Coverage`,
`CohortWindowObject`). The event table with purging that no query can see; the collector and the table as one system, in
which a stored event has its row until it expires; and the per-request stages whose counts stay in order.

**Routing** (`Templates`, `Routing`, `Cohorts`, `Configuration`). Templates whose overlap check is exact, an invertible path
rewrite, an injective cohort serialisation with an exact ratio, and the revisions of the configuration.

`Totals` and `Options` are helpers.

## Assumptions

- Collector: the callbacks it is given do not call back into it; the callback of a finished write runs before the
  retry that follows it, because the sleep in between yields a turn of the event loop
  (src/api_migration_proxy/collection/collector.py:261); a worker has taken its first step before it is cancelled, and is
  cancelled only at an await. A clean acknowledgement means that the event has been stored, a clean failure that this
  attempt stored nothing of it; nothing is assumed about any other answer. `StoreContract` proves this of the SQLite store,
  starting from an empty table. The `store` of the collector's model is what has ever been persisted; that the row is still
  there until it expires is `StoreContract.StoredUntilItExpires`. Clock readings are arbitrary, in any order.
- Pipeline: a request makes at most one event, and its id is new; a finalize task has taken its first step before it is
  cancelled. Workers may be cancelled at any await and any number of times, and the pool may cancel a computation at any
  time; both are more than the source can do.
- Process: the runtime's validator is the one whose budgets `start` has just fixed; it is never removed. `start`
  (src/api_migration_proxy/proxy/runtime.py:257-262) reads the snapshot and stores its budgets a few lines later without the
  lock of `ConfigManager`; the model takes it as one step with respect to `apply`.
- Bodies: a message is read from the client only while the input is not done.
- Engine: content decoding, the UTF-8 decoder, and what the JSON reader of the standard library finds in a text are
  arbitrary functions; `Parser.ParseIsExact` alone assumes that the reader reads the text at hand as its grammar says. The
  reader reports in the order of the text, and hands only grammatical numbers to the hook.
  Header names are compared without regard to the case of ASCII letters.
- Retention: a query reads the clock once for the rows and once, not earlier, for what it shows. Which rows a LIMIT without
  an order picks is left open.
- Coverage: each call is atomic, as its locks make it.
- Routing: the UTF-8 encoder and SHA-256 are arbitrary functions, the digest having 32 bytes. A slot of 53 bits and the
  ratio are compared exactly, which the double format guarantees.

## Where the code differs from what one might expect

- In `collector.py` the counters `dropped_expired` and `dropped_shutdown` are shared by refused submits and by settled
  events (lines 96, 113 and 155). The model keeps the history of both apart, and states the counters as their sum.
- In `runtime.py` the default reason `storage_failure` of the outcome callback (line 193) is never used: the outcomes of the
  collector are the five that the table and the two tests before it name.
- The pipeline's default reason `queue_full` (pipeline.py line 281) is only reached through the capacity counter
  (`WorkTheorems.OffersAreNew`), because an event is offered once.
- The difference in the tolerance test needs one digit less than the context provides (`Decimals.ToleranceIsExact`).

## Model

| member | source | states |
|---|---|---|
| BoundedCollectorObject.BoundedCollector.Submit | src/api_migration_proxy/collection/collector.py:84-125 | submit moves the fields as the model says: silent refusal of an event already offered, then closed, unserialisable, over capacity, too old, each with its own counter; True exactly when accepted |
| BoundedCollectorObject.BoundedCollector.Finish | src/api_migration_proxy/collection/collector.py:146-167 | settling an event does nothing the second time, keeps its memory while a write is outstanding and frees it otherwise, counts and notifies one outcome, and gives up completeness on ack_unknown |
| BoundedCollectorObject.BoundedCollector.WriteDone | src/api_migration_proxy/collection/collector.py:169-180 | the done-callback releases every event of its write in turn and frees those already settled |
| BoundedCollectorObject.BoundedCollector.TakeBatch | src/api_migration_proxy/collection/collector.py:184-188 | the worker takes the oldest events, at most a batch |
| BoundedCollectorObject.BoundedCollector.DropAged | src/api_migration_proxy/collection/collector.py:202-211 | the loop that removes aged events in place settles exactly those, doubtful ones as ack_unknown, and leaves the others in order |
| BoundedCollectorObject.BoundedCollector.BeginAttempt | src/api_migration_proxy/collection/collector.py:202-221 | an attempt settles aged events and, if any event is left, starts one write that reserves all of them |
| BoundedCollectorObject.BoundedCollector.TimeOut | src/api_migration_proxy/collection/collector.py:226-231 | a write that outlives its wait settles the whole batch as ack_unknown |
| BoundedCollectorObject.BoundedCollector.ReadAnswers | src/api_migration_proxy/collection/collector.py:242-253 | the loop over the answers settles cleanly acknowledged events as stored, keeps the rest in order, and marks every contradictory or missing answer as doubtful |
| BoundedCollectorObject.BoundedCollector.ReadResult | src/api_migration_proxy/collection/collector.py:232-266 | a finished write is read and counted; what is not acknowledged sleeps for another attempt while there is one, as CollectorVerdicts.StepSettlesExactly states without this function |
| BoundedCollectorObject.BoundedCollector.EndRun | src/api_migration_proxy/collection/collector.py:192-196 | when the worker leaves, whatever is still pending is settled as dropped_shutdown and the queue is cleared |
| BoundedCollectorObject.BoundedCollector.Cancel | src/api_migration_proxy/collection/collector.py:267-278 | a cancelled worker settles its batch as ack_unknown where a write was in doubt and as dropped_shutdown elsewhere, and gives up completeness |
| CollectorInvariant.FinishKeepsCore | src/api_migration_proxy/collection/collector.py:146-167 | settling one event keeps the byte count equal to the sum of the sizes held, the sets nested, and every counter exact |
| CollectorInvariant.ReleaseKeepsCore | src/api_migration_proxy/collection/collector.py:176-180 | releasing one event of a finished write keeps the same account |
| CollectorInvariant.FinishAllSettles | src/api_migration_proxy/collection/collector.py:204-277 | settling a list in a loop changes exactly the open events of the list, each once, and nothing else of the state |
| CollectorSteps.SubmitKeepsInv | src/api_migration_proxy/collection/collector.py:84-125 | submit keeps the memory limits, the partition of pending events and the truth of all outcomes |
| CollectorSteps.AttemptKeepsInv | src/api_migration_proxy/collection/collector.py:202-221 | so does the start of an attempt, with outstanding writes kept disjoint |
| CollectorSteps.ReadKeepsInv | src/api_migration_proxy/collection/collector.py:232-266 | so does reading any answer, contradictory ones included |
| CollectorSteps.CancelKeepsInv | src/api_migration_proxy/collection/collector.py:190-196 | so does cancelling the worker at an await |
| CollectorSteps.WriteDoneKeepsInv | src/api_migration_proxy/collection/collector.py:169-180 | so does the callback, before or after the worker has read the result |
| CollectorSteps.PersistKeepsInv | src/api_migration_proxy/collection/collector.py:28-31 | so does a write that lands at any time, even after its timeout |
| CollectorSteps.StepKeepsInv | src/api_migration_proxy/collection/collector.py:84-310 | every atomic step between two awaits, and every move of an adversarial store, keeps the whole invariant |
| CollectorTheorems.RunKeepsInv | src/api_migration_proxy/collection/collector.py:84-310 | the invariant holds in every state of every run |
| CollectorTheorems.VerdictsAreFinalAndTrue | src/api_migration_proxy/collection/collector.py:146-278 | in every run an outcome never changes; a stored event is in the store and a dropped one is not and never will be, whatever late writes land |
| CollectorTheorems.EveryEventIsAccountedFor | src/api_migration_proxy/collection/collector.py:146-167 | accepted events are exactly the notified outcomes plus the events still in the collector |
| CollectorTheorems.UnsettledAreHere | src/api_migration_proxy/collection/collector.py:182-198 | an event without an outcome is in the queue or in the worker's batch |
| CollectorTheorems.IdleMeansSettled | src/api_migration_proxy/collection/collector.py:182-196 | when the worker is gone every accepted event has its outcome |
| CollectorTheorems.CompleteWhenIdleIsExact | src/api_migration_proxy/collection/collector.py:127-144 | if completeness_known still holds when idle, the store holds exactly the events counted as stored |
| CollectorTheorems.NormalExitDropsNothing | src/api_migration_proxy/collection/collector.py:192-196 | a worker that runs out of events drops none in its finally |
| CollectorTheorems.CapacityHolds | src/api_migration_proxy/collection/collector.py:106-121 | in every run both capacity limits hold and the byte count is the sum of the sizes held |
| CollectorTheorems.ReleasedOnlyAfterTheWriteEnds | src/api_migration_proxy/collection/collector.py:146-180 | an event leaves memory only when no write that names it is still running |
| CollectorTheorems.OutstandingWritesAreDisjoint | src/api_migration_proxy/collection/collector.py:217-221 | two outstanding writes have no event in common |
| CollectorTheorems.PopsNeverMiss | src/api_migration_proxy/collection/collector.py:176-180 | the pops of the done-callback find every key they look for |
| CollectorTheorems.RetriesAreBounded | src/api_migration_proxy/collection/collector.py:202-266 | in every run no event is given to the store more often than max_attempts |
| CollectorVerdicts.StepSettlesExactly | src/api_migration_proxy/collection/collector.py:182-278 | every step settles exactly the events that its history owes an outcome: by their age, by the acknowledgement, by the number of attempts made and by whether each of them was cleanly refused; the other events of a batch are written, or kept for another attempt, in their order |
| CollectorVerdicts.RunSettlesExactly | src/api_migration_proxy/collection/collector.py:202-266 | in every run, at every read, an event without a clean acknowledgement that has attempts left gets no outcome and is in the batch of a sleeping worker |
| CollectorVerdicts.GivenUpAfterAllAttempts | src/api_migration_proxy/collection/collector.py:254-266 | in every run an event is dropped_retry_exhausted only after exactly max_attempts attempts, each of them cleanly refused |
| CollectorCounts.AdmissionIsExact | src/api_migration_proxy/collection/collector.py:93-121 | a new event is accepted exactly when no test is against it, and a refusal counts the first test that is, changing nothing else |
| CollectorCounts.OfferedOnce | src/api_migration_proxy/collection/collector.py:93-94 | an event offered before is refused without a trace |
| CollectorCounts.BatchIsOldest | src/api_migration_proxy/collection/collector.py:184-188 | a batch is a prefix of the queue, as long as batch_size and the queue allow |
| CollectorCounts.StepCountsExactly | src/api_migration_proxy/collection/collector.py:226-257 | write_failures, ack_unknown_attempts and retries move exactly with failed writes, answers in doubt and events kept for another attempt |
| CollectorCounts.CompletenessIsExact | src/api_migration_proxy/collection/collector.py:146-167 | completeness_known is given up exactly when an acknowledgement becomes unknown, the worker is cancelled at work, or close runs out of time |
| CollectorTheorems.WorkerIsNeverStuck | src/api_migration_proxy/collection/collector.py:182-278 | a live worker can always move, or the callback it waits for can run, with nothing more from the store and without being cancelled, unless the store itself cancelled its write |
| CollectorProgress.StepMovesRank | src/api_migration_proxy/collection/collector.py:182-278 | each step of the worker lowers a rank that only an accepted event raises |
| CollectorProgress.WorkerStepsAreBounded | src/api_migration_proxy/collection/collector.py:182-278 | in every run the worker makes at most 3 * max_attempts + 3 steps for each accepted event, whatever the store and the clock do |
| CollectorProgress.EveryEventCanBeSettled | src/api_migration_proxy/collection/collector.py:280-310 | from every reachable state the worker's own steps and the callbacks due to it lead, without new events and without cancelling the worker unless the store cancelled its write, to a worker that has ended and an outcome for every accepted event |
| ComparisonPipelineObject.ComparisonPipeline.Submit | src/api_migration_proxy/proxy/pipeline.py:117-149 | a job is charged its bodies, headers, summary and allowances, refused when closed or over the job or byte limit, and otherwise accounted for before it is queued |
| ComparisonPipelineObject.Measure | src/api_migration_proxy/proxy/pipeline.py:130-136 | the loop over both responses adds up what the job is charged, which JobsAreCharged explains |
| ComparisonPipelineObject.JobsAreCharged | src/api_migration_proxy/proxy/pipeline.py:130-136 | a job is charged the length of everything it keeps, both bodies, the summary and every header, plus 128 for each header and 4096 for itself |
| PipelineMemory.KeptFitsTheLimit | src/api_migration_proxy/proxy/pipeline.py:130-149 | in every run the bytes really kept by all queued and held jobs, with 4096 for each job, never exceed the account, nor compare_max_bytes |
| PipelineMemory.StepFrom | src/api_migration_proxy/proxy/pipeline.py:117-149 | jobs enter the pipeline only from finalized pairs and are not altered in it |
| ComparisonPipelineObject.ComparisonPipeline.Put | src/api_migration_proxy/proxy/pipeline.py:147-149 | put_nowait is only reached with room in the queue |
| ComparisonPipelineObject.ComparisonPipeline.Take | src/api_migration_proxy/proxy/pipeline.py:190-206 | a worker takes the oldest job and drops it as queue_expired when it is too old |
| ComparisonPipelineObject.ComparisonPipeline.CompareTimesOut | src/api_migration_proxy/proxy/pipeline.py:214-218 | a comparison that takes too long is dropped as timeout while the job stays accounted for |
| ComparisonPipelineObject.ComparisonPipeline.CompareEnds | src/api_migration_proxy/proxy/pipeline.py:221-288 | a finished comparison is offered to the collector, goes on to its details, or is dropped when it raised or was cancelled |
| ComparisonPipelineObject.ComparisonPipeline.OfferEvent | src/api_migration_proxy/proxy/pipeline.py:267-284 | an offered event is accepted or counted under one reason read off the collector's counters |
| ComparisonPipelineObject.FindReason | src/api_migration_proxy/proxy/pipeline.py:269-282 | the search through the table of counters returns the first that moved, and queue_full otherwise |
| ComparisonPipelineObject.ComparisonPipeline.DetailTimesOut | src/api_migration_proxy/proxy/pipeline.py:265-284 | when the details take too long the summary is offered without them and the job stays accounted for |
| ComparisonPipelineObject.ComparisonPipeline.DetailEnds | src/api_migration_proxy/proxy/pipeline.py:260-284 | when the details end, well or with an exception, the summary is offered |
| ComparisonPipelineObject.ComparisonPipeline.WaitEnds | src/api_migration_proxy/proxy/pipeline.py:217-220 | the slot of a settled job is given back when its computation ends |
| ComparisonPipelineObject.ComparisonPipeline.Cancel | src/api_migration_proxy/proxy/pipeline.py:292-306 | a cancelled worker settles its job once and keeps the slot until the computation is done |
| ComparisonPipelineObject.ComparisonPipeline.DrainQueue | src/api_migration_proxy/proxy/pipeline.py:343-348 | close drops every queued job as shutdown and leaves the held ones counted |
| WorkSteps.FinalizeKeepsInv | src/api_migration_proxy/proxy/runtime.py:732-775 | the end of a pair keeps the account of slots, jobs, bytes and losses |
| WorkSteps.CancelKeepsInv | src/api_migration_proxy/proxy/pipeline.py:292-318 | so does cancelling a worker anywhere, any number of times |
| WorkSteps.RefusalIsNamed | src/api_migration_proxy/proxy/pipeline.py:267-283 | for an event the collector has not seen, the reason reported is the test that refused it |
| WorkSteps.DrainKeepsInv | src/api_migration_proxy/proxy/pipeline.py:343-348 | so does draining the queue, which ends empty |
| WorkSteps.StepKeepsInv | src/api_migration_proxy/proxy/pipeline.py:117-350 | every step of requests, workers, pool, close and collector keeps the whole invariant |
| WorkTheorems.RunKeepsInv | src/api_migration_proxy/proxy/pipeline.py:117-350 | the invariant holds in every state of every run |
| WorkTheorems.WorkFitsItsLimits | src/api_migration_proxy/proxy/pipeline.py:129-149 | _jobs and _job_bytes are exactly what is queued or held, never exceed their limits, and the bounded queue is never full when a job is put |
| WorkTheorems.RunningComputationsAreCounted | src/api_migration_proxy/proxy/pipeline.py:292-318 | a computation that still runs, even for a cancelled worker, keeps its job counted; there are never more of them than jobs held, nor than compare_workers |
| WorkTheorems.SlotsHold | src/api_migration_proxy/proxy/runtime.py:617-626 | in every run the shadow slots are the pairs that reserved one, at most shadow_max_inflight |
| WorkTheorems.SlotsAreFreedAfterTheShadow | src/api_migration_proxy/proxy/runtime.py:732-775 | a slot is given back only by the finalize step of the pair that holds it, once, after its shadow has ended |
| WorkTheorems.InFlightAreHere | src/api_migration_proxy/proxy/pipeline.py:117-318 | a selected request without a fate is in its own task, in the queue, or held unsettled by a worker |
| ProxyRuntimeObject.ProxyRuntime.OnOutcome | src/api_migration_proxy/proxy/runtime.py:182-198 | one call of the callback counts a dropped outcome under its reason and leaves the metric alone for the others: counts exact for the notices so far are exact with the new one |
| WorkTheorems.CallbackCountsEveryDrop | src/api_migration_proxy/proxy/runtime.py:182-198 | called as the collector settles events, the callback has in every reachable state counted exactly the events that ended as dropped, each once and under the reason of its own outcome |
| WorkTheorems.EveryReasonIsExact | src/api_migration_proxy/proxy/runtime.py:182-198 | for every reason collection_dropped_total is the number of requests lost under it, before the collector or inside it |
| WorkTheorems.EveryRequestIsAccountedFor | src/api_migration_proxy/proxy/runtime.py:552-553 | in every reachable state selected = stored + ack_unknown + collection_dropped_total over all reasons + requests still on their way |
| WorkTheorems.FatesAreFinalAndTrue | src/api_migration_proxy/proxy/runtime.py:732-775 | in every run a request is settled at most once: a loss stays that loss and is never stored, an accepted event keeps its true outcome |
| WorkMoves.StepMovesExactly | src/api_migration_proxy/proxy/pipeline.py:117-348 | in every reachable state a step loses a request under a reason, queues it, hands it to a worker or has it accepted exactly when the cause of that holds of that very request: its age, the room for its size, its own computation, the test of the collector that fails first |
| WorkMoves.QueueIsFair | src/api_migration_proxy/proxy/pipeline.py:147-206 | jobs leave the queue in the order in which their pairs were handed over |
| WorkMoves.WorkersStayAtWork | src/api_migration_proxy/proxy/pipeline.py:188-318 | in every run no worker is lost to a failure, a timeout or a late answer; only cancellation, or a computation abandoned by the pool, sends one away |
| WorkTheorems.OffersAreNew | src/api_migration_proxy/proxy/pipeline.py:267-283 | the collector never refuses a pipeline event without moving a counter |
| WorkTheorems.QuietMeansReleased | src/api_migration_proxy/proxy/pipeline.py:310-318 | when nothing is left to do every job, byte and slot has been given back and every request has a fate |
| WorkTheorems.CompleteShutdownIsExact | src/api_migration_proxy/proxy/runtime.py:290-317 | after a quiet shutdown that still claims completeness, selected = rows written to the store + collection_dropped_total |
| WorkProgress.WorkerStepsAreBounded | src/api_migration_proxy/proxy/pipeline.py:188-318 | in every run the workers make at most six steps for each finalized pair and one each to leave |
| WorkProgress.JobsAreNeverStuck | src/api_migration_proxy/proxy/pipeline.py:188-318 | while a job is queued or held, a worker can move without being cancelled and without anything raising, its computation can end, or a closed pipeline can drop jobs that are queued, unless it is open and every worker has left |
| WorkProgress.EveryShutdownCanFinish | src/api_migration_proxy/proxy/runtime.py:290-317 | from every reachable state, closing can bring pairs, queue, workers, pool and collector to rest without new requests, exceptions or cancellations other than one by the store: jobs, bytes and slots are all given back and every selected request has its fate, which is all that CompleteShutdownIsExact asks for but the claim of completeness |
| Process.StartHoldsToBudgets | src/api_migration_proxy/proxy/runtime.py:257-262 | starting the runtime binds its validator to the budgets of the current snapshot |
| Process.SlotsFollowTheConfiguration | src/api_migration_proxy/proxy/runtime.py:617-626 | however configuration replacements and request steps interleave, the slots given out are the pairs that hold one and never exceed shadow_max_inflight of the current snapshot |
| ProxyRuntimeObject.ProxyRuntime.Select | src/api_migration_proxy/proxy/runtime.py:617-626 | a slot is reserved exactly when fewer than shadow_max_inflight are out |
| ProxyRuntimeObject.ProxyRuntime.Finalize | src/api_migration_proxy/proxy/runtime.py:732-775 | finalize hands the pair over or counts comparison_dropped, and frees its own slot once |
| Bodies.RequestInput.ReadChunk | src/api_migration_proxy/proxy/runtime.py:62-78 | a read chunk is captured up to the limit, the capture is given up for good beyond it, and the last chunk completes the input |
| Bodies.RequestInput.StreamTo | src/api_migration_proxy/proxy/runtime.py:80-85 | the stream hands every part to serving, in order, and stops once the input is done |
| Bodies.RequestInput.TakeForShadow | src/api_migration_proxy/proxy/runtime.py:573-583 | the shadow gets the capture only of a complete input that was not oversized |
| Bodies.ShadowBodyIsExact | src/api_migration_proxy/proxy/runtime.py:62-85 | a dispatched shadow receives exactly the concatenation of the parts streamed to serving, never a prefix; it is dispatched exactly when the whole body arrived and fits the limit, whatever messages come after |
| Bodies.CaptureResponse | src/api_migration_proxy/proxy/runtime.py:364-380 | a response body is offered for comparison exactly when it was selected, ended properly and fits the limit, and then it is whole; received bytes are counted in any case |
| Walk.WalkPair | src/api_migration_proxy/comparison/engine.py:403-457 | the explicit-stack walk terminates and records exactly what the recursive preorder difference does, early stop included |
| Walk.Visit | src/api_migration_proxy/comparison/engine.py:415-457 | one popped pair contributes its difference or its rule, and pushes its children |
| Walk.PopPush | src/api_migration_proxy/comparison/engine.py:431-444 | popping a pair and pushing its children reversed keeps preorder, and the work left shrinks |
| Positions.DifferencesAreExact | src/api_migration_proxy/comparison/engine.py:403-456 | the list of differences, said of the documents alone: one for each position that is reached by no ignored path and where the values that its keys lead to differ, with the reason of how they differ, each once, in preorder: v1's key order, then v2's other keys, array indices by number, common elements of arrays of unequal length included |
| Positions.RulesAreExact | src/api_migration_proxy/comparison/engine.py:403-456 | a rule is reported exactly when it suppresses a difference, or ignores a subtree, at some reached position; of two rules for one path the last counts |
| Positions.PrecedesIsStrict | src/api_migration_proxy/comparison/engine.py:431-444 | the order of positions is strict, so there is one order in which the differences can be listed |
| Differences.DifferenceRecord.Add | src/api_migration_proxy/comparison/engine.py:385-397 | one difference is added to the saturating record |
| Differences.RecordDescribes | src/api_migration_proxy/comparison/engine.py:375-397 | for any list of differences the count is min(N, max_differences), limited exactly when N exceeds it, the reason is the first one's, the paths are the first allowed ones in order, the others redacted |
| Agreement.WalkDescribes | src/api_migration_proxy/comparison/engine.py:403-457 | a walk's record describes all differences in preorder; its applied rules are those met before the limit, all of them when it was not exceeded |
| Agreement.CleanIffAgree | src/api_migration_proxy/comparison/engine.py:403-457 | the walk finds no difference exactly when the two documents are related by the policy's ignores and tolerances, read over the rationals |
| Agreement.CountsNothingIffAgree | src/api_migration_proxy/comparison/engine.py:590-594 | the count is zero exactly when the documents agree |
| Agreement.RawAgreementIsSame | src/api_migration_proxy/comparison/engine.py:583-586 | without rules agreement is equality of JSON values, keys in any order and numbers by value |
| Agreement.AgreementIsSymmetric | src/api_migration_proxy/comparison/engine.py:403-457 | agreement does not depend on which side is v1 |
| Agreement.AgreementRespectsSame | src/api_migration_proxy/comparison/engine.py:403-457 | agreement depends on the values only, not on key order or number spelling |
| Decimals.ToleranceIsExact | src/api_migration_proxy/comparison/engine.py:169-173 | for numbers within the limits the difference needs at most 2E + D + 1 digits and its exponent stays in the context's range, so the tolerance test never rounds, overflows or underflows |
| Decimals.TolerateIsRational | src/api_migration_proxy/comparison/engine.py:446-456 | the tolerance test agrees with exact rational arithmetic |
| Decimals.NumEqIsRational | src/api_migration_proxy/comparison/engine.py:445 | equality of numbers is equality of rationals |
| Pointer.DecodeEncode | src/api_migration_proxy/comparison/engine.py:241-252 | decoding the path of any key sequence gives the keys back |
| Pointer.EncodeDecode | src/api_migration_proxy/comparison/engine.py:241-252 | encoding what a valid path decodes to gives the path back |
| Pointer.SamePathSameKeys | src/api_migration_proxy/comparison/engine.py:415-424 | a walked path equals a policy path exactly when their keys are equal |
| Pointer.PrefixIsKeyPrefix | src/api_migration_proxy/comparison/engine.py:195-198 | one path extends another as text, at a slash, exactly when its keys extend the other's keys |
| Indices.SelectIsExact | src/api_migration_proxy/comparison/engine.py:464-470 | the digit-length guard on array indices never rejects an index in range and never passes one out of range |
| Indices.SelectIsInjective | src/api_migration_proxy/comparison/engine.py:464-470 | two tokens that select the same element are the same token |
| Indices.SelectReadsNatText | src/api_migration_proxy/comparison/engine.py:438-444 | a token selects an element exactly when it is the text of its index, so what the walk writes into a path for an element is what the mappings read back |
| FieldMappings.CheckOverlap | src/api_migration_proxy/comparison/engine.py:195-198 | the nested loop accepts exactly the path lists without an overlap |
| FieldMappings.OverlapCheckIsPrefixFreeness | src/api_migration_proxy/comparison/engine.py:188-198 | the overlap check accepts exactly the mappings in which no key path is a prefix of another |
| FieldMappings.MappingParent | src/api_migration_proxy/comparison/engine.py:460-473 | the loop finds the dictionary that holds the last key, through dictionaries and array indices, or nothing |
| FieldMappings.MapFields | src/api_migration_proxy/comparison/engine.py:476-490 | the loop applies the mappings in turn and stops at the first conflict |
| FieldMappings.MapFromIsMoveAll | src/api_migration_proxy/comparison/engine.py:476-490 | mapping a document moves fields of its tree; key order plays no part |
| FieldMoves.MovesCommute | src/api_migration_proxy/comparison/engine.py:476-490 | two prefix-free moves give the same tree or the same conflict in either order |
| FieldMoves.OrderDoesNotMatter | src/api_migration_proxy/comparison/engine.py:476-490 | prefix-free mappings give the same tree, or conflict, in every order |
| FieldMoves.MovesCanBeUndone | src/api_migration_proxy/comparison/engine.py:476-490 | the opposite mappings restore the document |
| Leaves.MappingKeepsLeaves | src/api_migration_proxy/comparison/engine.py:476-490 | mapping conserves every JSON leaf: none is lost, made or changed |
| FieldMappings.MappingMovesFields | src/api_migration_proxy/comparison/engine.py:476-490 | for mappings without overlap: they fail exactly when one of them conflicts in the document as it came; otherwise each value at a v2 path is afterwards at its v1 path and nothing is at the v2 path, and every other field is as it was |
| FieldMappings.MappingsAreReported | src/api_migration_proxy/comparison/engine.py:478-490 | a mapping is reported exactly when its v2 path has a value |
| FieldMappings.RenamedDocumentsAgree | src/api_migration_proxy/comparison/engine.py:476-490 | a v2 document in which each v1 path of v1's document has become its v2 path is mapped back and agrees, with and without rules |
| Scanner.ScanDepth | src/api_migration_proxy/comparison/engine.py:307-325 | the loop fails exactly when the peak depth exceeds the limit |
| Scanner.ScannerMeasuresNesting | src/api_migration_proxy/comparison/engine.py:307-325 | on every grammatical JSON text the peak depth is the nesting of the value, and the scan ends at depth zero outside strings; brackets and escaped quotes in strings never count |
| Nodes.CountNodes | src/api_migration_proxy/comparison/engine.py:361-371 | the explicit-stack count terminates and fails exactly when the recursive size exceeds the limit |
| Parser.NumbersAreAccepted | src/api_migration_proxy/comparison/engine.py:327-338 | the number hook accepts a number exactly when its written digits and exponent are within the limits and the decimal type holds it; the digit test of the converted value never refuses more |
| Parser.ObjectPairs | src/api_migration_proxy/comparison/engine.py:340-346 | the loop fills a dictionary in order and fails exactly when a key occurs twice |
| Parser.BuildIsExact | src/api_migration_proxy/comparison/engine.py:351-358 | a document is built exactly of a text without syntax errors, constants, numbers beyond the limits and repeated keys; it denotes the text and has as many nodes as the text writes values |
| Parser.ParseBody | src/api_migration_proxy/comparison/engine.py:301-372 | decoding, depth scan, reader with its hooks, and node count, in this order, each with its own reason |
| Parser.ParsedIsComparable | src/api_migration_proxy/comparison/engine.py:301-372 | every document that is returned has unique keys, numbers within the limits and no more nodes than the limit |
| Parser.ParseIsExact | src/api_migration_proxy/comparison/engine.py:301-372 | a grammatical JSON text is accepted exactly when it nests no deeper, writes no more values, and has only acceptable numbers and keys; the document is then what the text says |
| Readings.NumberIsAsWritten | src/api_migration_proxy/comparison/engine.py:327-338 | the decimal made of a number is the rational that its sign, digits, fraction and exponent write |
| Readings.ExponentIsRead | src/api_migration_proxy/comparison/engine.py:327-338 | the exponent is read with either mark and any sign |
| Readings.FirstComplaint | src/api_migration_proxy/comparison/engine.py:327-358 | a text is refused exactly when a number, a constant, a key or its syntax gives cause, and for the first cause in the order of the text |
| Readings.RefusalIsFirst | src/api_migration_proxy/comparison/engine.py:301-372 | the reason of a refusal: encoding, nesting, the first complaint, text after the value, too many values, in this order |
| Compare.LadderIsClear | src/api_migration_proxy/comparison/engine.py:538-575 | no precondition fails exactly when both outcomes are http_response, both classes success or expected_rejection, both statuses known, both bodies complete and captured (or empty where that is allowed), and all three context flags true |
| Compare.LadderIsOrdered | src/api_migration_proxy/comparison/engine.py:538-575 | a refusal is of the gravest kind there is cause for, and within a kind v1's is reported before v2's and both before the context's |
| Results.LadderIsTable | src/api_migration_proxy/comparison/engine.py:535-575 | the refusal is that of the first test that fails in one flat table of all preconditions, each with its own reason |
| Results.MetadataIsExact | src/api_migration_proxy/comparison/engine.py:493-511 | the metadata contribute one difference for the class, one for a status without a registered pair, and one for each required header that is missing or has other values, in this order; header names ignore the case of ASCII letters; the first registered pair is reported |
| Compare.CompareMetadata | src/api_migration_proxy/comparison/engine.py:493-511 | class, status and header mismatches are recorded in order; a registered status pair is applied instead of recorded |
| Compare.CompareResponses | src/api_migration_proxy/comparison/engine.py:514-606 | the whole comparison: raw record before the mappings, normalised record after them |
| Compare.RecordedDescribes | src/api_migration_proxy/comparison/engine.py:589-606 | the result describes all differences, metadata before documents, saturating as stated above |
| Compare.MatchedExactly | src/api_migration_proxy/comparison/engine.py:535-606 | the verdict is matched exactly when the roles are valid, both responses usable and the context certain, both bodies readable, no mapping conflicts, the metadata agree and the mapped documents agree under the policy |
| Results.DocumentsAreTable | src/api_migration_proxy/comparison/engine.py:576-582 | both bodies are decoded before either is parsed, v1 before v2, and the first failure is the refusal |
| Results.ResultIsExact | src/api_migration_proxy/comparison/engine.py:583-606 | the whole result: refused exactly when a mapping conflicts; otherwise class, verdict, record of all differences, and exactly the rules that apply to a mapped field, to the statuses or at a position |
| Results.VerdictIsExact | src/api_migration_proxy/comparison/engine.py:535-606 | roles, then the table of preconditions, then the bodies, then the result |
| Results.MappedFieldIsPosition | src/api_migration_proxy/comparison/engine.py:460-473 | the keys of a mapping lead to the same value as the keys of a walked position, inside an object |
| Results.DictionariesKeepOrder | src/api_migration_proxy/comparison/engine.py:489 | popping a key leaves the others in their order, and a key that is assigned anew comes last |
| Compare.RawCountsDescribe | src/api_migration_proxy/comparison/engine.py:583-586 | the raw counts describe the documents before any mapping, ignore or tolerance |
| Compare.RenamedResponsesMatch | src/api_migration_proxy/comparison/engine.py:583-594 | responses whose documents differ only in renamed fields are matched |
| EventStoreObject.EventStore.WriteBatch | src/api_migration_proxy/collection/sqlite.py:103-148 | a committed batch ignores duplicates and holds every event it acknowledges |
| EventStoreObject.EventStore.AskQuery | src/api_migration_proxy/collection/sqlite.py:169-249 | the loop over the fetched rows answers as the model of the query does |
| EventStoreObject.EventStore.PurgeExpired | src/api_migration_proxy/collection/sqlite.py:268-298 | a purge reports what it deleted and how many expired events are left, fewer than before unless none |
| StoreContract.AnswerIsHonest | src/api_migration_proxy/collection/sqlite.py:103-148 | the answer after a commit is one that the collector allows its store: everything acknowledged has been stored |
| StoreContract.MovesAreAllowed | src/api_migration_proxy/collection/sqlite.py:76-148 | commits, answers, failures and purges appear to the collector as moves that its theorems allow a store, so all of them hold with this store |
| StoreContract.TableIsKept | src/api_migration_proxy/collection/sqlite.py:117-146 | in every run of collector, transactions and purges each row is that of a persisted event, and each persisted event has its row until a purge reaches its summary expiry, its detail until one reaches the detail expiry |
| StoreContract.StoredUntilItExpires | src/api_migration_proxy/collection/sqlite.py:274-285 | an event settled as stored has its row from then on until a purge at or after its expiry, whatever late writes and purges happen; one settled as dropped never has a row |
| StoreContract.StoredIsFound | src/api_migration_proxy/collection/sqlite.py:183-227 | a stored event is selected by a query before its expiry exactly when it matches the query, if no purge ran ahead of the query's clock |
| StoreContract.CompleteTableIsExact | src/api_migration_proxy/collection/collector.py:127-144 | after a shutdown that still claims completeness the table holds the events counted as stored and no other, except those that a purge has reached |
| Retention.WritesArePersistent | src/api_migration_proxy/collection/sqlite.py:117-146 | a write holds all its events, changes no row that was there and adds no other |
| Retention.RetriesAreIdempotent | src/api_migration_proxy/collection/sqlite.py:124-145 | writing a batch a second time changes nothing, at whatever time |
| Retention.WritesAreSound | src/api_migration_proxy/collection/sqlite.py:121-145 | every row with a detail says stored and has an expiry |
| Retention.OrderedIsSorted | src/api_migration_proxy/collection/sqlite.py:218-227 | rows come once each, ordered by creation time and then by id |
| Retention.AnswerIsExact | src/api_migration_proxy/collection/sqlite.py:183-249 | an answer holds only visible rows, all of them when the limit leaves room, and a detail only where it is allowed and unexpired |
| Queries.FiltersAreExact | src/api_migration_proxy/collection/sqlite.py:183-217 | each filter narrows a query by exactly its own fact; the filters on backends ask that one backend has both the role and the deployment |
| Queries.IntervalsAdjoin | src/api_migration_proxy/collection/sqlite.py:185-187 | two adjoining half-open intervals select what the whole one does, each event once |
| Queries.RefusalsAreExact | src/api_migration_proxy/collection/sqlite.py:169-180 | a query is denied, limited or invalid exactly as its routes, period, rows and backend filters say, in this order |
| Queries.AnswersKeepToAccess | src/api_migration_proxy/collection/sqlite.py:169-249 | whatever is asked, an answer shows only the routes, period, rows and details that the access allows, and each row as it is stored |
| Queries.AnswerIsFirstRows | src/api_migration_proxy/collection/sqlite.py:218-227 | an answer is in order of time and id, and the limit cuts it off only at its end |
| Retention.PurgeIsInvisible | src/api_migration_proxy/collection/sqlite.py:274-298 | a query at a time not before the purge gives the same rows, details and detail states before and after it |
| Retention.PurgeRunIsInvisible | src/api_migration_proxy/collection/sqlite.py:274-298 | so does any run of purges |
| Retention.PurgeSparesTheUnexpired | src/api_migration_proxy/collection/sqlite.py:278-285 | a purge touches no unexpired row and no unexpired detail |
| Retention.PurgeMakesProgress | src/api_migration_proxy/collection/sqlite.py:278-289 | each purge at one fixed time strictly reduces the expired events |
| Retention.PurgesFinish | src/api_migration_proxy/collection/sqlite.py:278-293 | as many purges as there are expired events leave none, whichever rows the database picks |
| CohortWindowObject.CohortWindow.Begin | src/api_migration_proxy/observability/coverage.py:69-81 | a request is registered exactly when the window is open and its route, epoch and start belong to it |
| CohortWindowObject.CohortWindow.Close | src/api_migration_proxy/observability/coverage.py:88-93 | a window closes exactly when its interval is over and nothing is pending |
| CohortWindowObject.PipelineObservation.Advance | src/api_migration_proxy/observability/coverage.py:133-148 | a stage is counted once, after its prerequisite, on an open observation |
| CohortWindowObject.PipelineObservation.Compared | src/api_migration_proxy/observability/coverage.py:162-196 | a verdict is fixed once, and only one that fits the stages seen; its nested stage can no longer be refused |
| CohortWindowObject.PipelineObservation.Stored | src/api_migration_proxy/observability/coverage.py:198-203 | an acknowledgement is counted once, after a verdict |
| CohortWindowObject.PipelineObservation.Finish | src/api_migration_proxy/observability/coverage.py:205-234 | an observation is finished once, with its executions ended and its storage known, unless the loss is declared |
| Coverage.StepKeepsInv | src/api_migration_proxy/observability/coverage.py:69-234 | every call, rejected or not, keeps the counts equal to the observations that passed each stage |
| Coverage.RaisedChangesNothing | src/api_migration_proxy/observability/coverage.py:133-234 | a call that raises changes nothing |
| Coverage.CountsAreChained | src/api_migration_proxy/observability/coverage.py:133-234 | E >= S >= D >= T >= C, C = M + X and W <= S after any calls |
| Coverage.StagesAreExact | src/api_migration_proxy/observability/coverage.py:133-160 | a stage is reported once, and the first time raises exactly when the observation is finished or lacks what the stage needs |
| Coverage.VerdictsAreExact | src/api_migration_proxy/observability/coverage.py:162-196 | a verdict is fixed once and raises exactly when something is against it: the stages, the class, the labels |
| Coverage.FinishIsExact | src/api_migration_proxy/observability/coverage.py:205-234 | an observation is finished once, and raises exactly when an execution or its storage is open without being declared lost |
| Coverage.BeginIsExact | src/api_migration_proxy/observability/coverage.py:69-81 | a request belongs to the open window of its route and epoch whose half-open interval holds its start |
| Coverage.WindowsAdjoin | src/api_migration_proxy/observability/coverage.py:69-81 | of two adjoining windows exactly one takes a request that starts in either |
| Coverage.CloseIsExact | src/api_migration_proxy/observability/coverage.py:88-93 | a window closes exactly when its interval is over and every observation is finished |
| Coverage.ReportIsExact | src/api_migration_proxy/observability/coverage.py:95-121 | each ratio of a report is that of the observations it names, or says why there is none |
| Coverage.CompletenessIsExact | src/api_migration_proxy/observability/coverage.py:83-86 | a window is complete until it is marked unknown or an observation is finished with its end unknown |
| Coverage.RunKeepsInv | src/api_migration_proxy/observability/coverage.py:69-234 | the invariant holds after any sequence of calls, and pending is the number of unfinished observations |
| Coverage.ReportNeverRaises | src/api_migration_proxy/observability/coverage.py:35-46 | no ratio of a report raises, and known ratios lie between nought and one |
| Coverage.ClosedStaysFixed | src/api_migration_proxy/observability/coverage.py:88-93 | the counts of a closed window never change |
| Coverage.ClosedAndCompleteIsTerminal | src/api_migration_proxy/observability/coverage.py:205-234 | in a closed and complete window D = T |
| Templates.TemplateParts | src/api_migration_proxy/routing/configuration.py:109-131 | a template is accepted exactly when it is an absolute path of plain segments and whole-segment parameters, each name once |
| Templates.BracedIsParameter | src/api_migration_proxy/routing/selection.py:41-44 | among accepted segments the brace test of matching finds exactly the parameters |
| Templates.OverlapIsExact | src/api_migration_proxy/routing/configuration.py:345-354 | the overlap check holds of two templates exactly when some request path matches both |
| Routing.CheckRoutes | src/api_migration_proxy/routing/configuration.py:331-354 | the validation loop accepts exactly the routes with distinct ids, allowed backends, agreeing groups and no ambiguous pair |
| Routing.UnambiguousIsExact | src/api_migration_proxy/routing/configuration.py:346-354 | the check rejects two routes exactly when some method and path would match both |
| Routing.MatchRoute | src/api_migration_proxy/routing/selection.py:33-48 | the nested loops return the first route that takes the request, with the value of every parameter |
| Routing.MatchIgnoresOrder | src/api_migration_proxy/routing/selection.py:33-48 | in an accepted snapshot at most one route matches, so every order of the routes gives the same answer |
| Routing.CapturesAreExact | src/api_migration_proxy/routing/selection.py:40-47 | every parameter has the value of its own segment and nothing else is captured |
| Routing.ParametersAreNamed | src/api_migration_proxy/routing/selection.py:40-47 | a match hands on each parameter under its bare name |
| Routing.RewriteKeepsParameters | src/api_migration_proxy/routing/selection.py:131-140 | the rewritten path carries every raw parameter unchanged, even values that look like a parameter |
| Routing.RewriteMatchesMapping | src/api_migration_proxy/routing/selection.py:131-140 | the rewritten path matches the mapping template exactly when no raw parameter is empty |
| Routing.RewriteBack | src/api_migration_proxy/routing/selection.py:131-140 | mapping back restores the raw path exactly when its plain segments are the registered ones |
| Routing.MappedPathRoundTrip | src/api_migration_proxy/routing/selection.py:128-140 | for an accepted route a matching path is mapped to the backend's template and back again |
| Cohorts.DigestInput | src/api_migration_proxy/routing/selection.py:55-59 | the loop feeds the digest the length-prefixed serialisation |
| Cohorts.ParseSerialized | src/api_migration_proxy/routing/selection.py:56-59 | the serialisation can be read back |
| Cohorts.SerializeIsInjective | src/api_migration_proxy/routing/selection.py:56-59 | different cohort fields never give the digest the same input |
| Cohorts.SlotInRange | src/api_migration_proxy/routing/selection.py:60-61 | the bucket is always in [0, 1) |
| Cohorts.SlotHasEqualShare | src/api_migration_proxy/routing/selection.py:60-61 | a slot is the number made of the first 53 bits of the digest, so each has an equal share of digests |
| Cohorts.EverySlotIsReached | src/api_migration_proxy/routing/selection.py:60-61 | every one of the 2 to the 53 slots is the slot of some digest |
| Cohorts.FirstOctetCounts | src/api_migration_proxy/routing/selection.py:60-61 | octets are read with the first as the most significant |
| Cohorts.FieldLayout | src/api_migration_proxy/routing/selection.py:56-59 | each field is fed as eight octets of its length and then itself |
| Cohorts.AssignmentIsExact | src/api_migration_proxy/routing/selection.py:64-92 | with rollout and a usable key the bucket is that of a digest input that holds algorithm, serialization, group, key and salt, and v2 serves exactly when it lies below the ratio |
| Cohorts.AssignedToV1 | src/api_migration_proxy/routing/selection.py:79-92 | without rollout or a usable key v1 serves, with the reason |
| Cohorts.KeysAreToldApart | src/api_migration_proxy/routing/selection.py:55-61 | two requests of one cohort with different keys give the digest different inputs |
| Cohorts.RatioIsExact | src/api_migration_proxy/routing/selection.py:92 | exactly the ceiling of ratio times 2 to the 53 of the 53-bit values go to v2 |
| Cohorts.RaisingKeepsV2 | src/api_migration_proxy/routing/selection.py:92 | raising the ratio keeps every value that went to v2 |
| Cohorts.RaisingKeepsAssignments | src/api_migration_proxy/routing/selection.py:64-92 | raising a route's ratio moves no request from v2 back to v1 |
| Cohorts.GroupsAssignAlike | src/api_migration_proxy/routing/configuration.py:341-344 | routes of one group in an accepted snapshot assign every request alike |
| Configuration.ConfigManager.Apply | src/api_migration_proxy/routing/configuration.py:438-482 | apply checks the actor, the expected revision, reuse, capacity and every validator, in that order, and changes nothing when one refuses |
| Configuration.ConfigManager.AddValidator | src/api_migration_proxy/routing/configuration.py:484-489 | a validator is registered only if the current snapshot passes it |
| Configuration.ReplaceExtends | src/api_migration_proxy/routing/configuration.py:473-481 | an applied change appends its record; the bounded history never evicts one |
| Configuration.RefusedChangesNothing | src/api_migration_proxy/routing/configuration.py:459-470 | apply changes the manager exactly when it does not refuse |
| Configuration.RefusalIsExact | src/api_migration_proxy/routing/configuration.py:455-473 | a change is refused exactly when the actor is blank, a revision is stale or used, the history is full or a validator objects, and for the first of these |
| Configuration.PassingIsExact | src/api_migration_proxy/proxy/runtime.py:200-216 | the runtime's validator passes exactly the snapshots with its budgets, metered routes and registered policies |
| Configuration.HistoryIsAChain | src/api_migration_proxy/routing/configuration.py:459-482 | over any run revisions never repeat and the history is an unbroken chain, only growing, that ends at the current snapshot |
| Configuration.BudgetsAreFixed | src/api_migration_proxy/proxy/runtime.py:200-202 | once the runtime has started no replacement changes the budgets |
| Configuration.SelectedHasPolicy | src/api_migration_proxy/proxy/runtime.py:699-701 | the comparison policy of a selected request is always found |

## Left out

- HTTP transport, duplex upload and response framing (`proxy/transport.py`, `proxy/_duplex.py`, `deliver` in `runtime.py`):
  they depend on the HTTP client and server libraries.
- Applications, server, command line, environment and file loading (`app.py`, `server.py`, `cli.py`, `environment.py`,
  `settings.py`): wiring and input validation.
- Gzip and deflate decoding, the syntax analysis of `json.loads`, SHA-256 and UTF-8: arbitrary functions here.
- `collection/postgresql.py`: its table behaves as the modelled one; driver, locking and reconnection are not modelled.
- `observability/metrics.py`: labels and histograms; the counters that the conservation law needs are multisets.
- `rollout/policy.py`, `collection/retention.py` and the masking of `collection/events.py`: decision lists and field filters.
- The collector's `notification_failed` counter and its `on_stored` callback: they change no other field.
- `flush`, `join` and the deadlines of `close`: when waiting ends is not modelled, only what is true whenever it does.
- An observation without a cohort, which only reports metrics.
- Rounding of ratios and ages, time zones, logging, and the release of exception frames.
- Upper-case letters other than ASCII in header names.
- FieldMappings.MapFields: rebuilds the document at each move instead of editing the dictionaries in place, so aliasing inside
  a parsed document, which the parser does not create, is not modelled.
- Routing.CheckRoutes: takes templates that are already accepted; the checks of ids, owners, backend origins, the ASCII
  text of a mapping and the other scalar fields of a route are not modelled.
- Routing.MappedPathRoundTrip: the raw path must match the template segment by segment; a raw path with encoded slashes or an
  encoding of a plain segment is covered by `Routing.RewriteBack` instead.
- EventStoreObject.EventStore.AskQuery: receives the rows that the database returns in order; the SQL text is not interpreted.

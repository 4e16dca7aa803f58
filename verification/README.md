# Verified model of the pycloud control plane

This project models, in Dafny, the parts of `pycloud_parallel` that keep state which must stay
correct over every run, and proves what they promise.

- **Executor** (`ExecutorTables`, `ExecutorSteps`, `ExecutorInvariants`, `ExecutorRuns`,
  `ExecutorStops`, `ExecutorStreams`, `ExecutorHistories`, `ExecutorAnswers`, `ExecutorVerdicts`,
  `ExecutorCores`): `ExecutorCore` as a
  state with the atomic steps of the host (requests and the three sweeps of a poll) and of the
  workers (a future finishes, a stream item is put). Runs are arbitrary sequences of steps. The
  class `ExecutorCore` has the fields and loops of the original, each method proved equal to
  its step.
- **Mailbox** (`ExecutorMailbox`): `ExecutorHostClient`, its reader thread and its consumers.
- **Object store** (`SegmentStore`, `SegmentGc`, `SegmentDeletions`, `SegmentLayout`,
  `SegmentSurvival`, `SegmentCollector`): the object part of `pycloudctl gc`: deletion of metas, of orphan
  segments, and compaction.
- **Multipart** (`MultipartReader`, `MultipartParts`, `MultipartUpload`, `MultipartHeaders`,
  `MultipartRoundTrip`, `MultipartVerdicts`, `MultipartExact`, `MultipartGateway`): the gateway's streaming parser of
  multipart/form-data bodies (section 5.1.1 of RFC 2046, section 4 of RFC 7578) over
  arbitrarily fragmented reads, and the client's printer.
- **Payload rewriting** (`PayloadRewrite`, `PayloadTexts`, `PayloadDryRun`): placeholders and `file_map` paths,
  first as a dry run and then for real.
- **Connection pool** (`ConnectionPool`, `ConnectionPoolClass`) and **HTTP server**
  (`BoundedServer`): allocators shared by threads; every locked region is one atomic step.
- **Route cache and failover** (`RouteRefresh`, `RouteReservations`, `Failover`,
  `ConcurrentCalls`).
- **Import closure** (`ImportClosure`): the fixpoint over import roots and the package inits.

`Prelude` holds `Option` and the text functions that several modules use. Spec functions carry
the behaviour of the code; methods with loops and fields are proved equal to them; lemmas state
what the behaviour guarantees. What lies outside the modelled files (process pools, sockets,
clocks, JSON and AST decoding, the scheduler, error classification) enters as parameters or as
steps of an environment that may do anything.

`dafny verify dfyconfig.toml` checks the project.

## Where the code keeps less than one might expect

Each of these is a theorem with the exact condition.

- `stop_service` and `stop_task_pool` match in-flight work with the stripped id, but their
  tables with the id as given: they stop exactly their resource if and only if the id has no
  outer white space (`StopIsExactIffTrimmed`, `StopPoolIsExactIffTrimmed`).
- A part body read stops at its first delimiter for every fragmentation if and only if the
  delimiter is already buffered or at most eight bytes follow it
  (`StopsForEveryFragmentationIffSafe`).
- An upload as the client prints it is received for every fragmentation that begins with a
  given first read if and only if that read reaches the end of the delimiter before the last
  file (`ReceivedForEveryFragmentationIffReached`).
- The mark of an expired request stays in the mailbox for good if and only if the host has
  replied or the stream has overflowed (`MarkStaysIffNoReplyTakesIt`); a consumer that leaves
  without a reply after either leaves such a mark (`LateLeavingMarksForGood`).
- An object keeps its bytes in every store and under every policy that leaves its meta and
  does not delete its file with another meta, if and only if its meta is preservable
  (`KeptIffPreservable`): in a segment, its path must be written as the file system resolves
  it, it must have an id, and the collector and the reader must agree on its length; a file of
  its own must not lie among the segments; a path that leads out of the segments must not read
  like the path of a segment, or there must be nothing to read. Where the recorded length is
  not positive but the size is, collector and reader disagree, and all bytes are lost
  (`UnrecordedLengthLosesTheObject`).
- Which metas a collection deletes is decided before it runs, but not by their age alone: an
  undated meta whose file goes with an earlier one counts as new and stays
  (`TheDoomedAreDeleted`), although its object is gone with the file
  (`CollectionPreservesSurvivors`).
- A segment file survives a collection exactly when some meta that stays spells its path the
  way the file system resolves it (`SweepKeepsTheNamedSegments`,
  `ReadableIffItsSegmentIsNamed`).
- A collection ends well if and only if no segment that it must compact has a row out of range
  or a leftover temporary file beside it (`SweepEndsWell`).
- After a successful dry run the rewrite succeeds if and only if no `file_map` path runs through
  a substituted position (`DryRunPredictsTheRewrite`, `CrossingPathPassesTheDryRun`).
- A connection constructor that raises leaves the count of its origin raised: the count is the
  idle and checked-out connections plus the failed constructors (`ConnectionsAreAccountedFor`),
  and as many failures as the limit make the origin unusable
  (`FailedConstructorsExhaustAnOrigin`), which a run from the empty pool reaches
  (`FailedConstructorsReachTheLimit`).
- A forced refresh that joins after the owner's store and before its finish raises although the
  owner succeeded; a woken waiter returns if and only if something was stored after it joined
  (`WaiterReturnsIffStoredSince`, `LateWaiterRaises`).
- In the failover loop a locator step that raises after a success releases the route a second
  time; the reservations of a call balance if and only if that never happens
  (`Failover.Call`, with `RaisingCall` as the input). Among concurrent calls the reservation of
  another call is then no longer counted (`StrayReleaseHidesAnotherCall`); where no locator
  raises, counters are exact until a refresh prunes (`CountersOfConcurrentCalls`).

## Model

| member | source | states |
|---|---|---|
| ExecutorTables.SubmitKeepsTable | src/pycloud_parallel/controlplane/executor_core.py:444-522 | submitting with the spawn fallback and the rebuilds leaks no process pool and registers no resource |
| ExecutorTables.SubmissionIsAcceptedIff | src/pycloud_parallel/controlplane/executor_core.py:444-522 | a submission is accepted if and only if there is a pool, or one comes up for a registered key, and the first attempt is taken, or finds the pool broken, the pool comes up again and the second attempt is taken |
| ExecutorTables.SubmissionTouchesOnlyItsKey | src/pycloud_parallel/controlplane/executor_core.py:444-522 | no submission touches the pool of another key, and an accepted one without a fallback touches none |
| ExecutorTables.BackgroundSucceedsIff | src/pycloud_parallel/controlplane/executor_core.py:524-572 | background submissions succeed if and only if every one is taken |
| ExecutorTables.BackgroundKeepsTable | src/pycloud_parallel/controlplane/executor_core.py:524-572 | warm-up and preload submissions leak no process pool and register nothing |
| ExecutorTables.CreateKeepsTable | src/pycloud_parallel/controlplane/executor_core.py:422-442 | creating or re-creating a resource registers it and leaks no process pool |
| ExecutorTables.StopKeepsTable | src/pycloud_parallel/controlplane/executor_core.py:599-625 | stopping removes both entries of a resource and closes its process pool |
| ExecutorRuns.RunsAreConsistent | src/pycloud_parallel/controlplane/executor_core.py:273-293 | in every reachable state executor keys are worker-count keys, no process pool is leaked, streams mirror in-flight calls, finished futures wait in the queue |
| ExecutorRuns.ExactlyOnce | src/pycloud_parallel/controlplane/executor_core.py:574-955 | over every interleaving the replies and done events owed for a key are held in flight or emitted, each once; at most two futures are ever tracked for each |
| ExecutorRuns.CompleteCounts | src/pycloud_parallel/controlplane/executor_core.py:819-924 | collecting a finished future either answers for it or tracks one retry, and a retried one is never retried again |
| ExecutorRuns.PollsAreBalanced | src/pycloud_parallel/controlplane/executor_core.py:815-955 | the stream sweep and the timeout sweep answer for exactly what they take out |
| ExecutorRuns.FailuresAreBalanced | src/pycloud_parallel/controlplane/executor_core.py:295-347 | failing the work of a stopped resource answers for exactly what it takes out |
| ExecutorStops.FailServiceEffect | src/pycloud_parallel/controlplane/executor_core.py:295-320 | exactly the in-flight calls of the service are taken out, everything else is untouched |
| ExecutorStops.FailPoolEffect | src/pycloud_parallel/controlplane/executor_core.py:322-347 | exactly the in-flight work of the pool is taken out, everything else is untouched |
| ExecutorStops.StopIsExactIffTrimmed | src/pycloud_parallel/controlplane/executor_core.py:599-607 | stopping a service stops it and nothing else, for every state, if and only if its id is trimmed |
| ExecutorStops.StopPoolIsExactIffTrimmed | src/pycloud_parallel/controlplane/executor_core.py:617-625 | the same for task pools |
| ExecutorStops.StopMakesGone | src/pycloud_parallel/controlplane/executor_core.py:599-625 | after stopping a trimmed id the resource is not registered, has no process pool and nothing in flight |
| ExecutorStops.StopIsFinal | src/pycloud_parallel/controlplane/executor_core.py:574-955 | no later step of any kind brings a stopped resource back until it is created again |
| ExecutorStreams.StreamsAreFaithful | src/pycloud_parallel/controlplane/executor_core.py:349-371 | over every run no item follows the reply, and emitted plus queued items are what the workers put, in order and numbered, unless retried |
| ExecutorStreams.StreamIsCompleteAtTheReply | src/pycloud_parallel/controlplane/executor_core.py:819-880 | one completion, from a state that keeps the stream invariants: the reply of a successful stream is emitted last, after exactly the items the worker put; rests on the drain bound matching the queue capacity |
| ExecutorHistories.RunsAreDelivered | src/pycloud_parallel/controlplane/executor_core.py:815-880 | those invariants hold in every reachable state, and there every answered stream call is complete |
| ExecutorHistories.CompletionsAreComplete | src/pycloud_parallel/controlplane/executor_core.py:819-880 | in every reachable state, the completion of a returned stream call answers after exactly the items put |
| ExecutorHistories.StreamsAreComplete | src/pycloud_parallel/controlplane/executor_core.py:349-371 | over every run, the items emitted before the successful reply of a stream call are exactly those put into its stream, in order, and none comes behind it |
| ExecutorStreams.LastDrainEmitsAll | src/pycloud_parallel/controlplane/executor_core.py:285-371 | the final drain empties the queue |
| ExecutorAnswers.AnswersAreTrue | src/pycloud_parallel/controlplane/executor_core.py:819-880 | every reported result was returned by a worker for that very request |
| ExecutorAnswers.PoolAckMeansTracked | src/pycloud_parallel/controlplane/executor_core.py:745-764 | corollary of the step: a pool submission is acknowledged exactly when it is tracked and owes a done event |
| ExecutorAnswers.RuntimeAckMeansTracked | src/pycloud_parallel/controlplane/executor_core.py:714-728 | corollary of the step: the same for runtime submissions |
| ExecutorAnswers.ExpireEffect | src/pycloud_parallel/controlplane/executor_core.py:926-955 | a timeout sweep takes out exactly the calls past their deadline |
| ExecutorCores.ExecutorCore.FailServiceInflight | src/pycloud_parallel/controlplane/executor_core.py:295-320 | the loop over the in-flight table equals its step |
| ExecutorCores.ExecutorCore.FailPoolInflight | src/pycloud_parallel/controlplane/executor_core.py:322-347 | the loop over the in-flight table equals its step |
| ExecutorCores.ExecutorCore.DrainStreamMeta | src/pycloud_parallel/controlplane/executor_core.py:349-371 | at most 32 items are taken and emitted, numbered by the worker or by the counter |
| ExecutorCores.ExecutorCore.DrainStreamQueues | src/pycloud_parallel/controlplane/executor_core.py:815-817 | every tracked stream is drained once |
| ExecutorCores.ExecutorCore.RecoverOrFailFuture | src/pycloud_parallel/controlplane/executor_core.py:882-924 | equals its step, and, spelled out: a retry if and only if the pool broke, it is the first one and the resubmission is accepted, otherwise one failure answer |
| ExecutorCores.ExecutorCore.DrainCompletedFutures | src/pycloud_parallel/controlplane/executor_core.py:819-880 | the completion queue is emptied in order |
| ExecutorCores.ExecutorCore.ExpireServiceTimeouts | src/pycloud_parallel/controlplane/executor_core.py:926-955 | collecting the expired futures first and expiring them after equals one sweep, and takes out exactly the calls whose age exceeds their timeout |
| ExecutorCores.ExecutorCore.PollOnce | src/pycloud_parallel/controlplane/executor_core.py:809-813 | a poll is the three sweeps in order |
| ExecutorCores.ExecutorCore.CallService | src/pycloud_parallel/controlplane/executor_core.py:627-672 | calls and stream calls: refused, or tracked under their request |
| ExecutorCores.ExecutorCore.SubmitPoolTask | src/pycloud_parallel/controlplane/executor_core.py:745-764 | pool submissions, with their refusals |
| ExecutorCores.ExecutorCore.SubmitRuntimeTask | src/pycloud_parallel/controlplane/executor_core.py:714-728 | runtime submissions |
| ExecutorCores.ExecutorCore.HandleRequest | src/pycloud_parallel/controlplane/executor_core.py:574-807 | every request equals its step; an exception becomes a refusal |
| ExecutorVerdicts.RetriedIffThePoolBroke | src/pycloud_parallel/controlplane/executor_core.py:882-924 | a failed future is tracked anew, under its own meta with one recovery more, if and only if its error said that the pool is broken, it was never retried and the resubmission was accepted; otherwise it is answered with one infrastructure failure |
| ExecutorVerdicts.CompletionDecides | src/pycloud_parallel/controlplane/executor_core.py:819-924 | the same for the head of the completion queue, by its outcome: the result, one retry or one infrastructure failure, and nothing else is taken out or tracked |
| ExecutorVerdicts.EveryEventHasItsCause | src/pycloud_parallel/controlplane/executor_core.py:574-955 | over every run each event that is emitted was caused: a result by a future that returned it, an infrastructure failure by a future whose worker raised, whose second try crashed or whose resubmission was refused, a stop or a timeout by the stop or the sweep that hit it |
| ExecutorVerdicts.SecondTriesFollowBrokenPools | src/pycloud_parallel/controlplane/executor_core.py:882-924 | over every run, of two futures tracked for a key that is owed one answer, the first ended with a broken pool and is no longer in flight |
| ExecutorVerdicts.ExpiryIsExact | src/pycloud_parallel/controlplane/executor_core.py:926-955 | the timeout sweep takes out exactly the calls whose age exceeds their timeout, where a start of zero has no age, and closes exactly the process pools of their services |
| ExecutorVerdicts.CallIsAcceptedIff | src/pycloud_parallel/controlplane/executor_core.py:627-672 | a call is tracked, with its start and its timeout (60 by default, at least 0.1), if and only if its service is registered, its stream comes up and its pool takes it; otherwise it is refused |
| ExecutorVerdicts.PoolTaskIsAcceptedIff | src/pycloud_parallel/controlplane/executor_core.py:745-764 | a pool task is acknowledged and tracked if and only if its pool is registered and takes it |
| ExecutorVerdicts.RuntimeTaskIsAcceptedIff | src/pycloud_parallel/controlplane/executor_core.py:714-728 | a runtime task is acknowledged and tracked if and only if the runtime pool takes it |
| ExecutorVerdicts.ServiceIsCreated | src/pycloud_parallel/controlplane/executor_core.py:591-597 | creating a service registers it with at least one worker; it gets a new process pool and is acknowledged if and only if that comes up, and nothing else changes |
| ExecutorVerdicts.PoolIsCreated | src/pycloud_parallel/controlplane/executor_core.py:609-615 | the same for task pools |
| ExecutorVerdicts.WarmingAnswers | src/pycloud_parallel/controlplane/executor_core.py:674-712 | warming up is answered with the number of submissions if there is a pool and it takes them all, and refused otherwise |
| ExecutorVerdicts.ServiceStopIsAnswered | src/pycloud_parallel/controlplane/executor_core.py:599-607 | a stop is answered with the number of calls in flight for the stripped id |
| ExecutorVerdicts.PoolStopIsAnswered | src/pycloud_parallel/controlplane/executor_core.py:617-625 | a stop is answered with the number of tasks in flight for the stripped id |
| ExecutorVerdicts.DrainIsDecided | src/pycloud_parallel/controlplane/executor_core.py:349-371 | one drain emits the oldest items, at most 32, in order, each under the number its worker gave it or the next one |
| ExecutorMailbox.Mailbox.NewRequest | src/pycloud_parallel/controlplane/executor_host.py:327-341 | every request gets a number of its own |
| ExecutorMailbox.Mailbox.StoreResponse | src/pycloud_parallel/controlplane/executor_host.py:179-188 | a response is dropped for an overflowed or expired request, otherwise stored |
| ExecutorMailbox.Mailbox.StoreItem | src/pycloud_parallel/controlplane/executor_host.py:189-206 | a stream item is dropped for an overflowed or expired request, buffered and counted where it fits into 8 MiB and 128 items, or turns into one overflow reply |
| ExecutorMailbox.Mailbox.Take | src/pycloud_parallel/controlplane/executor_host.py:548-558 | a consumer takes the next item, else the response |
| ExecutorMailbox.Mailbox.TimeOutStream | src/pycloud_parallel/controlplane/executor_host.py:540-545 | a stream consumer past its deadline marks its request expired |
| ExecutorMailbox.Mailbox.Leave | src/pycloud_parallel/controlplane/executor_host.py:570-576 | the clean-up of a stream consumer |
| ExecutorMailbox.Mailbox.TimeOutWait | src/pycloud_parallel/controlplane/executor_host.py:343-372 | a plain request past its deadline |
| ExecutorMailbox.RequestsDoNotInterfere | src/pycloud_parallel/controlplane/executor_host.py:151-208 | a step about one request changes nothing of another |
| ExecutorMailbox.BuffersAreMeasuredAndBounded | src/pycloud_parallel/controlplane/executor_host.py:189-206 | the byte counter is the sum of the queued sizes; at most 8 MiB and 128 items |
| ExecutorMailbox.OverflowsIffItDoesNotFit | src/pycloud_parallel/controlplane/executor_host.py:189-206 | in every reachable state an item is queued if and only if it fits into 8 MiB and 128 items; otherwise the queue is given up and the error waits for the caller |
| ExecutorMailbox.TimesOutIffNothingIsThere | src/pycloud_parallel/controlplane/executor_host.py:532-545 | a deadline counts if and only if the caller waits with nothing to take |
| ExecutorMailbox.NothingRemainsAfterLeaving | src/pycloud_parallel/controlplane/executor_host.py:524-577 | once a stream consumer has left, nothing of its request remains or is stored again |
| ExecutorMailbox.NothingRemainsAfterAWait | src/pycloud_parallel/controlplane/executor_host.py:343-372 | once a plain request is released, no response of it is there at any later time, and until the host has replied it stays marked |
| ExecutorMailbox.MarkStaysIffNoReplyTakesIt | src/pycloud_parallel/controlplane/executor_host.py:179-206 | in every reachable state, the mark of an expired request is there at all later times if and only if the host has replied or the stream has overflowed |
| ExecutorMailbox.LateLeavingMarksForGood | src/pycloud_parallel/controlplane/executor_host.py:570-576 | a stream consumer that leaves without a reply after the host's reply or an overflow leaves a permanent mark |
| ExecutorMailbox.OneReplyAfterAllItems | src/pycloud_parallel/controlplane/executor_host.py:532-577 | a consumer gets at most one reply: the overflow error, or the host's after all its items in order |
| ExecutorMailbox.ListenersLoseNothing | src/pycloud_parallel/controlplane/executor_host.py:151-208 | while a caller listens, what it took and what is queued is all that arrived |
| SegmentCollector.CollectRefIds | src/pycloud_parallel/controlplane/ctl.py:2420-2436 | the stack traversal finds exactly the ids of data refs that a path reaches without passing through another one |
| SegmentCollector.GroupRows | src/pycloud_parallel/controlplane/ctl.py:2491-2512 | the dictionary of rows, grouped by path and sorted by (offset, id) |
| SegmentGc.RefsAreTheReferringMetas | src/pycloud_parallel/controlplane/ctl.py:2491-2512 | the rows of a segment are those of the metas that name it, each once |
| SegmentLayout.SortSorts | src/pycloud_parallel/controlplane/ctl.py:2510-2511 | rows come in (offset, id) order and none is lost |
| SegmentLayout.RowsOfASegment | src/pycloud_parallel/controlplane/ctl.py:2491-2512 | the rows of a segment, field by field: one for each meta that is a segment's, has an id and spells the path, with negative numbers as zero and a missing length as the size, sorted by offset and id |
| SegmentLayout.BytesOfAnObject | src/pycloud_parallel/controlplane/node/results.py:260-276 | what a reader gets: the bytes from the offset on, as many as the positive recorded length or else the size says, fewer where the file ends |
| SegmentLayout.SegmentStaysIffNamed | src/pycloud_parallel/controlplane/ctl.py:2699-2713 | a swept segment stays if and only if a listed meta with an id names it |
| SegmentCollector.CompactionPlan | src/pycloud_parallel/controlplane/ctl.py:2515-2533 | live and wasted bytes; compaction is needed if and only if there are rows and they do not fill the file or one of them does not start where those before it end |
| SegmentCollector.ObjectDirectory.CompactSegmentFile | src/pycloud_parallel/controlplane/ctl.py:2536-2566 | the copying loop with its failure path |
| SegmentCollector.ObjectDirectory.DeleteExpired | src/pycloud_parallel/controlplane/ctl.py:2646-2695 | the deletion loop: a meta goes if and only if it is expired, spelled out as in `ExactlyTheExpiredGo`; a dated one if and only if its id is in neither set and its date lies before the cutoff |
| SegmentCollector.ObjectDirectory.SweepSegments | src/pycloud_parallel/controlplane/ctl.py:2697-2733 | the loop over the segments: orphans deleted, the others compacted |
| SegmentCollector.ObjectDirectory.CollectGarbage | src/pycloud_parallel/controlplane/ctl.py:2646-2733 | the whole object part: exactly the expired metas go (a dated one if and only if its id is in neither set and its date lies before the cutoff), the others are moved at most, and every preservable one that stays keeps its bytes if and only if its file is spared |
| SegmentGc.CompactionLaysOut | src/pycloud_parallel/controlplane/ctl.py:2549-2559 | new offsets are prefix sums, the new size is the live bytes even for overlapping rows, every row's bytes are at its new offset |
| SegmentGc.CopyEndsWell | src/pycloud_parallel/controlplane/ctl.py:2550-2554 | copying fails exactly on a row that is out of range |
| SegmentGc.CollectionPreservesSurvivors | src/pycloud_parallel/controlplane/ctl.py:2646-2733 | a finished collection creates no meta, deletes exactly those that go by what was there before, and a preservable object whose meta stays reads what it read before if and only if its file does not go with a doomed meta |
| SegmentGc.DeletionsAreDoomed | src/pycloud_parallel/controlplane/ctl.py:2649-2695 | what is deleted is doomed, the others stay as they are; `ExactlyTheExpiredGo` says without `Doomed` which those are |
| SegmentGc.TheDoomedAreDeleted | src/pycloud_parallel/controlplane/ctl.py:2649-2695 | a listed meta is deleted if and only if it is doomed and, where it has no date, no earlier doomed meta is backed by its file; a step to `ExactlyTheExpiredGo` |
| SegmentDeletions.NormalizeFindsTheDigest | src/pycloud_parallel/data/ref.py:18-24 | an id is accepted if and only if it is, between white space and in either case, sha256: and 64 hexadecimal digits; the result is that digest in lower case |
| SegmentDeletions.ExactlyTheExpiredGo | src/pycloud_parallel/controlplane/ctl.py:2649-2695 | a listed meta is deleted if and only if its id names a digest in neither set, and its date lies before the cutoff, or, without a date, the date of its file does, which no meta deleted earlier took along; the others stay unchanged |
| SegmentDeletions.DatedObjects | src/pycloud_parallel/controlplane/ctl.py:2649-2695 | a dated meta stays if and only if its id is live or active or its date is at or after the cutoff |
| SegmentDeletions.UndatedObjects | src/pycloud_parallel/controlplane/ctl.py:2658-2669 | an undated meta stays where there is no file to date it; with a file of its own it stays if and only if it is in use or the file is recent |
| SegmentDeletions.UnreadableIdStays | src/pycloud_parallel/controlplane/ctl.py:2651-2657 | a meta whose id names no digest is never deleted |
| SegmentDeletions.FilesGoWithTheExpired | src/pycloud_parallel/controlplane/ctl.py:2688-2695 | a file is deleted if and only if a meta that it backs is |
| SegmentDeletions.CollectionTakesTheExpired | src/pycloud_parallel/controlplane/ctl.py:2646-2733 | the same after the sweep: the expired metas are gone, every other is there, with nothing changed but its place |
| SegmentLayout.SweepEndsWell | src/pycloud_parallel/controlplane/ctl.py:2697-2733 | a sweep ends well if and only if the segments to compact are in range and free of leftovers |
| SegmentLayout.SweepKeepsTheNamedSegments | src/pycloud_parallel/controlplane/ctl.py:2699-2713 | a segment file stays if and only if a meta spells out its path |
| SegmentLayout.ReadableIffItsSegmentIsNamed | src/pycloud_parallel/controlplane/ctl.py:2699-2713 | an object that stays can be read if and only if a meta that stays names its segment as it is resolved |
| SegmentSurvival.KeptIffPreservable | src/pycloud_parallel/controlplane/ctl.py:2491-2733 | for every meta, name and path resolution: every finished collection of every store that leaves the meta and spares its file keeps the object's bytes, if and only if the meta is preservable |
| SegmentSurvival.OrphanIsLost | src/pycloud_parallel/controlplane/ctl.py:2699-2713 | for every meta in a segment that no row of its own names, a store whose collection deletes that segment |
| SegmentSurvival.UnrecordedLengthLosesTheObject | src/pycloud_parallel/controlplane/node/results.py:260-276 | for every meta whose row and reader lengths differ: a recorded length that is not positive beside a positive size, and a collection that leaves nothing of what was read |
| SegmentSurvival.ObjectOutsideIsExchanged | src/pycloud_parallel/controlplane/ctl.py:2549-2559 | for every meta whose path reads like a segment's but leads elsewhere, a collection that moves its offset and not its bytes |
| SegmentLayout.CompactionIsDoneOnce | src/pycloud_parallel/controlplane/ctl.py:2515-2566 | after compacting, planning over the re-read and re-sorted rows finds nothing to do |
| MultipartGateway.UploadReader.Read | src/pycloud_parallel/controlplane/gateway_upload.py:44-59 | a limited read returns what is there, never beyond the body, and nothing only at the end |
| MultipartGateway.UploadReader.ReadLineOnce | src/pycloud_parallel/controlplane/gateway_upload.py:83-95 | the line loop equals its function |
| MultipartReader.LinesAreExact | src/pycloud_parallel/controlplane/gateway_upload.py:83-95 | lines do not depend on the fragmentation, and no byte is lost |
| MultipartGateway.UploadReader.ReadPartHeaders | src/pycloud_parallel/controlplane/gateway_upload.py:98-110 | the header loop with its two failures |
| MultipartReader.HeadersAreExact | src/pycloud_parallel/controlplane/gateway_upload.py:98-110 | headers do not depend on the fragmentation |
| MultipartGateway.UploadReader.StreamPartBody | src/pycloud_parallel/controlplane/gateway_upload.py:127-177 | the part loop equals its function; the counter is what was sunk, within the limit on success; the buffer is bounded |
| MultipartParts.TerminateIsExact | src/pycloud_parallel/controlplane/gateway_upload.py:147-165 | what follows a delimiter is read the same way for every fragmentation |
| MultipartParts.PartsConserveBytes | src/pycloud_parallel/controlplane/gateway_upload.py:127-177 | old buffer and input are sunk bytes, delimiter, terminator, new buffer and new input |
| MultipartParts.PartsAreBounded | src/pycloud_parallel/controlplane/gateway_upload.py:136-177 | the buffer is bounded, success is within the limit, an overshoot is at most one buffer |
| MultipartParts.StopsForEveryFragmentationIffSafe | src/pycloud_parallel/controlplane/gateway_upload.py:138-177 | a part ends at its first delimiter for every fragmentation if and only if the delimiter is buffered or at most eight bytes follow it |
| MultipartParts.SafePartsStop | src/pycloud_parallel/controlplane/gateway_upload.py:138-177 | under that condition content, outcome and rest are those of an unfragmented read |
| MultipartParts.LargePartsAreRefused | src/pycloud_parallel/controlplane/gateway_upload.py:141-177 | a part whose first delimiter lies beyond the limit is refused for every fragmentation |
| MultipartGateway.UploadReader.ParsePart | src/pycloud_parallel/controlplane/gateway_upload.py:220-287 | one round of the parser: headers, disposition, staged file or decoded text |
| MultipartGateway.UploadReader.ParseParts | src/pycloud_parallel/controlplane/gateway_upload.py:214-299 | at most 64 parts, then the payload and a file are demanded |
| MultipartGateway.ParseUploadCall | src/pycloud_parallel/controlplane/gateway_upload.py:188-299 | equals `Parse`, and, spelled out for every input and fragmentation: over the total limit it is refused; what is accepted has 1 to 63 files with non-empty names and distinct non-empty slots, each within the limit, a payload that decodes and a file map that does, each within the text limit |
| MultipartVerdicts.AcceptedIsSound | src/pycloud_parallel/controlplane/gateway_upload.py:188-299 | whatever was sent and however it arrived: the same of every accepted upload |
| MultipartVerdicts.PrintedPartsAreDecided | src/pycloud_parallel/controlplane/gateway_upload.py:188-299 | for every list of printed parts, a last part of any length and every fragmentation whose first read reaches the delimiter before it: accepted if and only if it is within the total limit, has at most 64 parts, every part fits (a free slot, its limit, texts that decode), and there are a payload and a file; then the last payload, the last file map and all files are received |
| MultipartVerdicts.OtherDispositionIsRefused | src/pycloud_parallel/controlplane/gateway_upload.py:221-223 | at any part, a disposition of another kind than form-data is refused, with parameters or without, whatever follows |
| MultipartVerdicts.OtherDispositionIsRefusedAtOnce | src/pycloud_parallel/controlplane/gateway_upload.py:188-223 | the same for whole uploads |
| MultipartVerdicts.UndisposedPartIsRefused | src/pycloud_parallel/controlplane/gateway_upload.py:113-226 | at any part, a disposition that does not parse, is not form-data or has no name is refused |
| MultipartVerdicts.BadHeadersAreRefused | src/pycloud_parallel/controlplane/gateway_upload.py:98-110 | at any part, a header line without a colon is refused, and so is a body that ends before the empty line |
| MultipartVerdicts.PreambleIsExact | src/pycloud_parallel/controlplane/gateway_upload.py:206-208 | empty lines before the boundary are skipped, for every fragmentation |
| MultipartVerdicts.OtherPreambleIsRefused | src/pycloud_parallel/controlplane/gateway_upload.py:206-211 | what does not begin with the boundary and a line end is refused |
| MultipartHeaders.FileDisposition | src/pycloud_parallel/controlplane/gateway_upload.py:113-124 | the printed disposition of a file part is read back |
| MultipartHeaders.SlotOfField | src/pycloud_parallel/controlplane/gateway_upload.py:180-185 | the slot of a bracketed field name is read back |
| MultipartHeaders.SlotOfOtherFields | src/pycloud_parallel/controlplane/gateway_upload.py:180-185 | the slot of the other bracketed spelling and of a field without brackets |
| MultipartHeaders.HeadIsRead | src/pycloud_parallel/controlplane/gateway_client.py:394-403 | the printed header lines are read back, and the content is what is behind them |
| MultipartRoundTrip.FirstDelimiter | src/pycloud_parallel/controlplane/gateway_upload.py:135-139 | a content without the delimiter ends at the delimiter that is printed behind it |
| MultipartRoundTrip.PartsAreRead | src/pycloud_parallel/controlplane/gateway_upload.py:219-287 | the parts are read back in order, once the delimiter before the last of them is buffered |
| MultipartRoundTrip.RoundTrip | src/pycloud_parallel/controlplane/gateway_client.py:445-510 | an upload with plain names, distinct slots, at most 64 parts and no boundary inside is read back exactly, for a last file of any length and any fragmentation whose first read reaches the end of the delimiter before the last file |
| MultipartExact.TrickledUploadIsSpoilt | src/pycloud_parallel/controlplane/gateway_upload.py:138-177 | for every such upload and every first read that ends before: a fragmentation under which it is refused or other files are received |
| MultipartExact.ReceivedForEveryFragmentationIffReached | src/pycloud_parallel/controlplane/gateway_upload.py:188-299 | for every upload and every length of the first read: received for all fragmentations that begin with that read, if and only if the rest is no more than the last part |
| MultipartGateway.ContentLength | src/pycloud_parallel/controlplane/gateway_client.py:417-442 | the announced length is the length of the printed body |
| MultipartGateway.UploadConnection.SendBody | src/pycloud_parallel/controlplane/gateway_client.py:483-510 | what is sent is the printed upload, as long as announced |
| MultipartGateway.UploadConnection.SendFile | src/pycloud_parallel/controlplane/gateway_client.py:500-508 | sending in pieces sends the file |
| PayloadRewrite.RewriteWithRefs | src/pycloud_parallel/controlplane/gateway_upload.py:415-457 | placeholders first, then the file map in order, each with its failures |
| PayloadTexts.PlaceholdersAreFound | src/pycloud_parallel/controlplane/gateway_upload.py:423-443 | a node is replaced if and only if it is a text behind the sentinel, or a dictionary of the kind of uploaded files with a slot |
| PayloadTexts.MappedSlotIs | src/pycloud_parallel/controlplane/gateway_upload.py:447-450 | the slot of a mapping, between white space, with the sentinel before it or not |
| PayloadTexts.PathIsReadBack | src/pycloud_parallel/controlplane/gateway_upload.py:385-394 | every path of keys and indices is read back from its text |
| PayloadTexts.SetPathSets | src/pycloud_parallel/controlplane/gateway_upload.py:392-412 | setting a path succeeds if and only if it is not empty and leads to a container that accepts its last step, and then it leads to what was set |
| PayloadTexts.SetPathSetsNothingElse | src/pycloud_parallel/controlplane/gateway_upload.py:395-412 | every path that parts from it leads to what it led to before |
| PayloadDryRun.RewriteFills | src/pycloud_parallel/controlplane/gateway_upload.py:423-445 | rewriting succeeds exactly when every named slot has a ref, and then fills the skeleton |
| PayloadDryRun.SetPathFills | src/pycloud_parallel/controlplane/gateway_upload.py:385-412 | setting a path that crosses no substituted position commutes with filling |
| PayloadDryRun.CrossingFails | src/pycloud_parallel/controlplane/gateway_upload.py:395-412 | a path into an uploaded reference is not found |
| PayloadDryRun.DryRunPredictsTheRewrite | src/pycloud_parallel/controlplane/gateway_http.py:231-241 | after a successful dry run the rewrite succeeds if and only if no path crosses a substituted position; then both fill one skeleton and report the same slots |
| PayloadDryRun.DryRunMissesNothing | src/pycloud_parallel/controlplane/gateway_http.py:827-852 | a call that can be rewritten passes the dry run with the same slots |
| PayloadDryRun.CrossingPathPassesTheDryRun | src/pycloud_parallel/controlplane/gateway_upload.py:460-476 | a file map that passes the dry run and fails the rewrite |
| ConnectionPool.ExpiryIsExact | src/pycloud_parallel/controlplane/http_connection_pool.py:145-148 | the scan from the front finds exactly the expired connections |
| ConnectionPool.AcquiredIsUsable | src/pycloud_parallel/controlplane/http_connection_pool.py:137-166 | a reused connection was idle for less than the time to live, a retry never gets one, nothing expired stays idle |
| ConnectionPool.RoundIsDecided | src/pycloud_parallel/controlplane/http_connection_pool.py:137-163 | what a round comes to, from the queue it finds: the newest connection if it has not expired and no new one is demanded; else a new one if one is evicted or the limit leaves room; only with nothing idle at the limit a wait, or at the deadline a timeout |
| ConnectionPool.RoundSplitsTheQueue | src/pycloud_parallel/controlplane/http_connection_pool.py:145-155 | a round takes the expired connections from the front, for a retry the oldest of the others, and the one it hands out from the back; the rest stays in order |
| ConnectionPool.EvictingRoundReturns | src/pycloud_parallel/controlplane/http_connection_pool.py:140-163 | a round that evicts never waits or times out |
| ConnectionPool.EvictedAreClosed | src/pycloud_parallel/controlplane/http_connection_pool.py:164-165 | evicted connections are closed unless the constructor raised |
| ConnectionPool.AcquireStepIsTheRound | src/pycloud_parallel/controlplane/http_connection_pool.py:139-166 | the ledger records what the round did to the pool and what it handed out |
| ConnectionPool.ConnectionsAreAccountedFor | src/pycloud_parallel/controlplane/http_connection_pool.py:81-193 | in every reachable state counts are idle plus checked out plus failed constructors within the limits, unknown origins have nothing out, and every connection is in one place |
| ConnectionPool.ClosedPoolDrains | src/pycloud_parallel/controlplane/http_connection_pool.py:119-128 | after closing nothing is handed out and what comes back is closed |
| ConnectionPool.RestedSinceItsRelease | src/pycloud_parallel/controlplane/http_connection_pool.py:168-193 | in every run a connection that rests was given back for reuse at the time since when it rests, by the one who had it, and has rested ever since |
| ConnectionPool.ReusedWasGivenBack | src/pycloud_parallel/controlplane/http_connection_pool.py:137-193 | in every run a connection that is handed out again was last given back for reuse, for the same origin, less than the time to live ago |
| ConnectionPool.FailedConstructorsExhaustAnOrigin | src/pycloud_parallel/controlplane/http_connection_pool.py:156-163 | as many failed constructors as the limit make an origin unusable |
| ConnectionPool.FailedConstructorsReachTheLimit | src/pycloud_parallel/controlplane/http_connection_pool.py:156-163 | from the empty pool, that many acquires whose constructor raises lead to such a state, with no connection open, and no acquire gets anything there |
| ConnectionPoolClass.LimitsOf | src/pycloud_parallel/controlplane/http_connection_pool.py:46-54 | the checks and the clamps of the constructor |
| ConnectionPoolClass.HttpConnectionPool.AcquireRound | src/pycloud_parallel/controlplane/http_connection_pool.py:139-163 | one round under the lock equals its step |
| ConnectionPoolClass.HttpConnectionPool.ReleaseConnection | src/pycloud_parallel/controlplane/http_connection_pool.py:168-193 | a release equals its step; spelled out: queued with its time where it is reusable, the pool open and there is room, otherwise counted off, and closed unless it was reusable in a closed pool |
| ConnectionPoolClass.HttpConnectionPool.CloseAll | src/pycloud_parallel/controlplane/http_connection_pool.py:119-126 | closing equals its step |
| ConnectionPoolClass.Request | src/pycloud_parallel/controlplane/http_connection_pool.py:79-117 | every connection taken is given back once before the next, at most one retry and only after a connection error, with a new connection; it is given back for reuse if and only if it served a response below 400, whose body did not exceed the limit, and neither the server nor the Connection header closes it |
| ConnectionPoolClass.ReusedAfterAGoodResponse | src/pycloud_parallel/controlplane/http_connection_pool.py:79-193 | in every run of the pool under requests, a connection that is handed out again was given back, less than the time to live ago, by an attempt that served such a response, and has rested since |
| BoundedServer.SlotsAreConserved | src/pycloud_parallel/controlplane/bounded_http_server.py:70-135 | free slots, queued requests and requests at a worker or the drain add up; each admitted request releases its slot once; the semaphore is never over-released |
| BoundedServer.AdmittedIffASlotIsFree | src/pycloud_parallel/controlplane/bounded_http_server.py:70-79 | over every run, an arriving request is queued if and only if closing has not begun and fewer requests than slots are queued or at a worker; otherwise it is rejected and its connection closed |
| BoundedServer.NothingIsAdmittedAfterClose | src/pycloud_parallel/controlplane/bounded_http_server.py:70-79 | none is admitted once closing has started |
| BoundedServer.EverySentinelReachesOneWorker | src/pycloud_parallel/controlplane/bounded_http_server.py:128-129 | one sentinel for every worker; with an empty queue all have stopped and all slots are back |
| BoundedServer.ShutdownClosesEverythingInFlight | src/pycloud_parallel/controlplane/bounded_http_server.py:109-112 | the shutdown snapshot misses no request in flight |
| BoundedServer.BoundedThreadPoolHTTPServer.ProcessRequest | src/pycloud_parallel/controlplane/bounded_http_server.py:70-79 | admission equals its step, and every field is spelled out for both outcomes |
| BoundedServer.BoundedThreadPoolHTTPServer.GetItem | src/pycloud_parallel/controlplane/bounded_http_server.py:81-88 | a worker takes the next request or stops at its sentinel |
| BoundedServer.BoundedThreadPoolHTTPServer.FinishRequest | src/pycloud_parallel/controlplane/bounded_http_server.py:97-101 | the end of a request equals its two steps |
| BoundedServer.BoundedThreadPoolHTTPServer.ServerClose | src/pycloud_parallel/controlplane/bounded_http_server.py:103-129 | only the first call closes; it empties the queue and leaves one sentinel for each worker |
| RouteRefresh.RefreshIsSingleFlight | src/pycloud_parallel/controlplane/discovery_route_cache.py:98-153 | at most one thread refreshes, and the event is registered exactly while one does |
| RouteRefresh.SnapshotsMoveForward | src/pycloud_parallel/controlplane/discovery_route_cache.py:133-139 | each store is newer than the snapshot before |
| RouteRefresh.WaiterReturnsIffStoredSince | src/pycloud_parallel/controlplane/discovery_route_cache.py:115-122 | a woken waiter returns if and only if something was stored after it joined, and returns that |
| RouteRefresh.SnapshotWasStored | src/pycloud_parallel/controlplane/discovery_route_cache.py:124-139 | in every run, the rows of the snapshot were fetched by some owner at the time it is stamped with and stored later, and nothing was stored after that |
| RouteRefresh.ReturnsAtOnceOnlyWhatIsFresh | src/pycloud_parallel/controlplane/discovery_route_cache.py:102-106 | in every run, a thread that returns as it joins did not insist, and its rows were fetched less than the interval before, by the last owner that stored any |
| RouteRefresh.JoinIsDecided | src/pycloud_parallel/controlplane/discovery_route_cache.py:102-113 | how a thread joins, spelled out: it returns, fetches or waits |
| RouteRefresh.ReturnedWasFetched | src/pycloud_parallel/controlplane/discovery_route_cache.py:98-153 | in every run, whatever a thread returns was fetched by some owner |
| RouteRefresh.LateWaiterRaises | src/pycloud_parallel/controlplane/discovery_route_cache.py:115-153 | a run in which the owner succeeds and its waiter raises |
| RouteRefresh.RouteSnapshots.EnterRefresh | src/pycloud_parallel/controlplane/discovery_route_cache.py:102-113 | the first region, spelled out: fresh rows if and only if not forced and the snapshot is younger than the interval, and then the snapshot's; otherwise the owner if and only if no event is registered, else a waiter with that event and the date it saw |
| RouteRefresh.RouteSnapshots.StoreSnapshot | src/pycloud_parallel/controlplane/discovery_route_cache.py:138-139 | the region of an owner that fetched: the snapshot is replaced, the event stays |
| RouteRefresh.RouteSnapshots.FinishRefresh | src/pycloud_parallel/controlplane/discovery_route_cache.py:150-153 | the last region of every owner: the event goes, the snapshot stays |
| RouteRefresh.RouteSnapshots.LeaveWait | src/pycloud_parallel/controlplane/discovery_route_cache.py:118-122 | the region of a woken waiter: the rows of a snapshot with another date than the one it saw, or none |
| RouteReservations.CountersNeverExceedReservations | src/pycloud_parallel/controlplane/discovery_route_cache.py:138-148 | through any interleaving with pruning refreshes a counter is positive and at most what is outstanding, exact while nothing was pruned or released twice |
| RouteReservations.RouteCounters.ReserveRoute | src/pycloud_parallel/controlplane/discovery_route_cache.py:394-398 | a reservation adds one where both names are there |
| RouteReservations.RouteCounters.ReleaseRoute | src/pycloud_parallel/controlplane/discovery_route_cache.py:400-409 | a release takes one, and the last one removes the entry |
| RouteReservations.RouteCounters.PruneService | src/pycloud_parallel/controlplane/discovery_route_cache.py:145-148 | a refresh keeps a counter if and only if it is another service's or its route is still there |
| RouteReservations.RouteCounters.SelectRoundRobin | src/pycloud_parallel/controlplane/discovery_route_cache.py:262-276 | the rotation picks the candidate at the index, in the order of node and id, moves the index and reserves |
| RouteReservations.RoundRobinIsFair | src/pycloud_parallel/controlplane/discovery_route_cache.py:269-276 | n consecutive selections over the same n candidates, in any order, pick each once from any starting index |
| RouteReservations.PickIsByNodeThenId | src/pycloud_parallel/controlplane/discovery_route_cache.py:269-276 | the choice is the one at the index in any list of the candidates that is sorted by node and, within a node, by id |
| Failover.Call | src/pycloud_parallel/controlplane/discovery_client.py:360-418 | the offered ids are invoked in turn, none twice; the log is that of the attempts, each selected, invoked and released; the loop goes on exactly while an attempt failed over and another id is offered; each selected route is released once, and once more only after a locator failure, so that the reservations of the call balance if and only if no locator step raised |
| Failover.RaisingCall | src/pycloud_parallel/controlplane/discovery_client.py:394-418 | the call whose one route succeeds and whose locator step raises releases that route once more than it reserved it |
| Failover.BalancedIffLocatorNeverRaises | src/pycloud_parallel/controlplane/discovery_client.py:394-418 | no invoked route has a stray release if and only if no attempt ended in the locator step |
| ConcurrentCalls.CallIsProper | src/pycloud_parallel/controlplane/discovery_client.py:360-418 | a call never holds two reservations, ends with none, and makes as many second releases as attempts ended in the locator step |
| ConcurrentCalls.ConcurrentCallsAreRuns | src/pycloud_parallel/controlplane/discovery_route_cache.py:394-409 | the logs of calls, interleaved in any way and with pruning refreshes between them, are runs of the counters: what is outstanding is what the calls have reserved, the stray releases are their second ones |
| ConcurrentCalls.CountersOfConcurrentCalls | src/pycloud_parallel/controlplane/discovery_route_cache.py:138-148 | at any time a counter is at most the number of calls that have reserved its route, exactly that while nothing was pruned and no locator raises; when all calls are over the stray releases are the attempts that ended in the locator step, and no counter is left |
| ConcurrentCalls.StrayReleaseHidesAnotherCall | src/pycloud_parallel/controlplane/discovery_client.py:394-418 | two calls on one route, the locator of one raises: the other's reservation is not counted |
| ImportClosure.CollectRoots | src/pycloud_parallel/controlplane/dependency.py:1094-1108 | the roots that the entries name |
| ImportClosure.RootsAreNamed | src/pycloud_parallel/controlplane/dependency.py:1127-1167 | which roots the imports of a file name, spelled out: the part of a module or name before its first dot; for a relative import the outermost package of the file, or where it leaves none the first part of the module or the name |
| ImportClosure.ClosedMeans | src/pycloud_parallel/controlplane/dependency.py:1085-1125 | closed means: every file of every root outside the standard library that an import of a source names |
| ImportClosure.ExpandOnce | src/pycloud_parallel/controlplane/dependency.py:1093-1125 | one round adds the files of every new root, or finds the entries closed |
| ImportClosure.ExpandWithImportRoots | src/pycloud_parallel/controlplane/dependency.py:1085-1125 | the loop ends; originals stay, every root outside the standard library that an import of an entry names has all its files, and nothing is there that any such closure could do without |
| ImportClosure.ClosureIsUnique | src/pycloud_parallel/controlplane/dependency.py:1085-1125 | corollary of minimality: the result does not depend on the order of the roots |
| ImportClosure.InitsAreComplete | src/pycloud_parallel/controlplane/dependency.py:360-372 | the pass keeps the entries, adds exactly missing inits, and leaves every package above any entry with one |
| ImportClosure.InitsAreIdempotent | src/pycloud_parallel/controlplane/dependency.py:352-372 | doing it twice changes nothing |
| ImportClosure.SynthesizePackageInits | src/pycloud_parallel/controlplane/dependency.py:352-372 | the two loops equal the completion of the deduplicated entries: of entries with one name the last one counts, every package above an entry has its init, and what is new is an init |

## Left out

- Executor: process pools, pickling, the spawn fallback's start method and the worker-pid events are environment choices; the runtime executor is a table with one key; a poll's current time and every submission's outcome are parameters.
- Executor streams: worker queues hold items only, and a stream manager that outlives a failed submission is not followed.
- Executor streams: a stream call without a request id is never drained; the stream theorems exclude the empty id.
- Mailbox: `drain_events`, worker-pid bookkeeping and process termination.
- Object store: dry runs and reports, the `codes` scope, JSON that does not decode, integer fields that are no integers, and which of several candidate names a file-backed object has; what a path resolves to is a parameter, so paths with `..` and links that lead into the segments from outside are covered by its being arbitrary; symbolic links inside the segment directory are not, since the listing then has a resolved path twice and the code unlinks the link and not its target.
- Object store: compaction is followed to its end or its failure; what an interrupted process leaves behind is not part of this model, because metas are rewritten before the file is swapped.
- SegmentCollector.CollectRefIds: the walk through `current.json`, manifests and value files that feeds it is not modelled.
- Multipart: JSON and UTF-8 decoding are parameters, names are plain in the round trip, and `Path(filename).name` is not applied.
- MultipartGateway.ParseUploadCall: the boundary is given, because in the server the header object of the standard library extracts it; stage files are their contents, so that failures of the stage directory and its clean-up do not occur.
- PayloadRewrite.RewriteWithRefs: the tree is a value, so one marker dictionary shared by several positions of a dry run is not aliased; this shows only where a path runs through a marker, which the theorems name.
- ConnectionPoolClass.HttpConnectionPool.AcquireRound: one round under the lock; the wait between two rounds, and which thread a notification wakes, belong to the environment, so no progress is claimed.
- BoundedServer: handlers and sockets; joining the workers at shutdown.
- BoundedServer.BoundedThreadPoolHTTPServer.ServerClose: the method runs alone; interleavings with workers are the business of the state machine.
- Route cache: breaker transitions, scheduler scoring and endpoint conflicts only decide which candidates there are, and are arbitrary; `least_inflight` and `predicted_busy` choices are not modelled.
- Failover.Call: error classification and the cached-route probe are one arbitrary choice per attempt; the streaming call and `GatewayRouteCache` are not modelled.
- Import closure: reading and parsing sources, directory walking, and resolving paths are parameters; the archive is a map, not its sorted list.

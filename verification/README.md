# Verified model of the metrics agent and server

The repository is a metrics collection system in Go: an agent reports gauges and counters over
HTTP or gRPC, a server keeps them in memory (with a file) or in PostgreSQL. This project models
the parts where the behaviour is decided by interleavings, partial failures and retries, and
proves what they keep. `dafny verify dfyconfig.toml` checks all of it. Nothing here runs the
Go program.

## How the model is organised

| file | contents |
|---|---|
| `Model.dfy` | metrics, gauge values with a finiteness test, Go's wrapping 64-bit addition |
| `Storage.dfy` | the in-memory store as a class, its operations as a replayed log of updates, and the laws of whole runs |
| `Snapshot.dfy`, `Persist.dfy` | `saveMetrics` and `loadMetrics`: listing a store in any map order, encoding, loading back; the loops and file steps as methods |
| `SyncMachine.dfy`, `SyncInvariant.dfy`, `SyncPersist.dfy`, `SyncProgress.dfy` | `syncStorage` as interleaved atomic steps with a crash possible after each: the machine, its invariant, safety over whole runs, and that every call comes back |
| `Retry.dfy`, `Postgres.dfy` | the two retry loops and the transaction they repeat, against a database that may fail anywhere, also after committing |
| `Agent.dfy`, `AgentCalls.dfy` | reporter, job channel and worker pool with shutdown; how each call of a worker ends |
| `EndToEnd.dfy`, `GaugeOrder.dfy` | what the agent's jobs amount to in the server's store, and for which agents its gauges are right on every schedule |
| `Delivery.dfy` | HTTP handlers, gRPC conversion and server: three ways for one snapshot to reach the store |
| `Audit.dfy` | the audit fan-out queue |
| `ResetGen.dfy`, `ResetSource.dfy` | the Reset generator: compiler, semantics of the statements over an aliasing memory, and correctness; which statements it emits for the declared names |
| `GzipWriter.dfy`, `Wire.dfy`, `Transport.dfy` | the compressing response writer, the encrypted wire format, and a request's way from `post` through the middleware chain |
| `Collector.dfy` | the agent's send buffer |
| `ExitCheck.dfy` | the linter's positional test against nesting in the syntax tree |

Objects whose methods change fields are classes whose methods are proved against functions on
values; the theorems are about those functions. Concurrent protocols are step relations: one
action is one atomic step of the Go program (a critical section, a channel operation, a file
operation), runs are arbitrary sequences of enabled actions, and the theorems quantify over all
of them.

## Hypotheses

Library code enters as function parameters whose laws are preconditions, never as axioms:

* `Codec.Lawful` (Snapshot): `encoding/json` refuses a list of metrics exactly when it holds an
  infinity or a NaN, and otherwise writes something and reads back what it wrote. This holds for names that are valid
  Unicode; other bytes are replaced by the encoder.
* `Library.Lawful` (Transport): gzip (RFC 1952) restores what it compressed; an HMAC (RFC 2104)
  in hexadecimal is never the empty string. Of other input nothing is assumed: decompression may
  refuse it, or yield some bytes and then an error.
* `Primitives.Lawful` (Wire): RSA-OAEP (section 7.1 of RFC 8017) and AES-GCM (NIST SP 800-38D)
  invert themselves, and an RSA ciphertext is shorter than 65536 bytes.
* Crashes are crashes of the process. The source does not call fsync, so nothing is claimed for
  a loss of power. `os.CreateTemp` hands out a name that no temporary file has.
* HTTP answers, database faults, context cancellations, the choice among ready `select`
  branches, map iteration order and which thread moves next are all arbitrary.

## Where the code differs from its comments

The model follows the code; the lemmas named in brackets exhibit the difference.

* The final snapshot on shutdown takes no part in the saving lock and does not wait for running
  requests, so it can replace a newer file (`SyncPersist.FinalSaveLosesAcknowledged`). It is
  right once the requests have drained (`SyncPersist.FinalSaveAfterDraining`); in general the file
  is memory exactly when the calls it misses cancel out (`SyncPersist.FileIsMemoryWhen`).
* `BatchUpdate` is documented as atomic. In memory a batch with an unknown type applies its
  valid prefix, and in sync mode that prefix is not saved (`SyncPersist.FailedBatchIsNotSaved`).
* A commit whose outcome is unknown (code 08007) is retried, which can count a batch twice
  (`Postgres.UnknownResolutionCountsTwice`).
* A signal in the middle of a dispatch drops the rest and skips the final flush
  (`Agent.InterruptedDispatchLoses`); nothing else does (`Agent.FinalFlush`).
* A batch that the server refuses with 4xx on a retry leaves the collector's buffer as if it had
  been delivered (`Collector.RefusedBatchIsDropped`); `Collector.LostWhen` says exactly when a
  batch is lost.
* With several workers an older value of a gauge can overwrite a newer one
  (`GaugeOrder.StaleGaugeWins`). No schedule does so if and only if there is one worker or no gauge
  is ever reported with two values (`GaugeOrder.RightOnEverySchedule`).
* After a 200 the collector still enters its retry loop and posts an empty batch
  (`Collector.SuccessPostsEmptyBatch`).
* `drainCtx` starts when the process starts (cmd/agent/main.go:87), not at the signal as the
  comment in lines 30-32 says. After 30 s of running the final flush may drop everything
  (`Agent.ExpiredFlushLoses`); what it guarantees needs the context to be unexpired.
* The comments speak of three attempts (internal/agent/sender.go:4, internal/agent/util.go:19);
  both retry loops make up to four calls (`Retry.AttemptBounds`), and four when all fail
  (`Retry.FourCalls`).
* Generated Reset methods recurse for ever on cyclic structures, and on no others
  (`ResetGen.CyclesNeverFinish`, `ResetGen.FinishesIffAcyclic`).

## Model

| member | source | states |
|---|---|---|
| SyncInvariant.StepKeepsInv | cmd/server/main.go:47-69 | every step of every thread (update, lock, snapshot, create, partial write, close, rename, failure, return) keeps the invariant: memory is the replay of all calls, every snapshot in flight and the main file are the state after some prefix, temporary files are not shared |
| SyncInvariant.SnapshotHolds | cmd/server/main.go:275-291 | a snapshot that encodes is a file from which exactly the current memory is recovered; encoding fails exactly when memory holds a non-finite gauge |
| SyncInvariant.SyncedGrows | cmd/server/main.go:49-51 | no step shrinks what the saves under the lock cover, and only the lock's holder can move it |
| SyncPersist.CrashRecovery | cmd/server/main.go:244-315 | after a crash at any point of any interleaving, loading the main file gives exactly memory after some prefix of the calls, or the file the server had found |
| SyncPersist.StartKept | cmd/server/main.go:108-116 | memory is the calls so far applied to what was restored, or to nothing without Restore |
| SyncPersist.AcknowledgedIsCovered | cmd/server/main.go:47-69 | a call whose save succeeded is covered by the file unless a save outside the lock has put an older snapshot there |
| SyncPersist.AcknowledgedIsDurable | cmd/server/main.go:47-69 | with finite gauges, no I/O error and only locked saves, every call that returned is in the file, whatever the interleaving and crash point |
| SyncPersist.CoverageGrows | cmd/server/main.go:275-315 | one step never shrinks the prefix held by the file while all saves hold the lock |
| SyncPersist.FileNeverGoesBack | cmd/server/main.go:275-315 | nor does any run |
| SyncPersist.FileIsMemoryWhen | cmd/server/main.go:47-69 | in every reachable state, after saves with or without the lock, the file equals memory if and only if the calls it misses cancel out name by name |
| SyncPersist.QuiescentFile | cmd/server/main.go:61-69 | at rest, with locked saves that worked, the calls the file misses are failed batches, so it equals memory if those applied nothing |
| SyncPersist.CrashAfterCrash | cmd/server/main.go:108-116 | through any number of crashes and restarts the restored store is the first one with a prefix of each life's calls applied, life after life |
| SyncPersist.DurableAfterCrashes | cmd/server/main.go:108-120 | through any number of lives without faults or lockless saves, every call that returned is among those prefixes |
| SyncPersist.FinalSaveLosesAcknowledged | cmd/server/main.go:232-239 | a run in which an acknowledged update is in memory and absent from the file after the final save |
| SyncPersist.FinalSaveAfterDraining | cmd/server/main.go:232-239 | from a state with no request running, saves without the lock leave the file equal to memory once one of them renames, and untouched or equal to memory in any case |
| SyncPersist.FailedBatchIsNotSaved | cmd/server/main.go:61-69 | a failing batch changes memory and is not in the file |
| SyncProgress.SaveReturns | cmd/server/main.go:47-69 | from any stage of a save, also after a failure, its thread can finish by its own steps: it comes back, gives the lock back, and its call has returned, with success exactly when the snapshot can be encoded and no fault has struck |
| SyncProgress.FaultReturns | cmd/server/main.go:294-313 | a fault at any file operation leaves the main file as it was, and the call returns and frees the lock all the same |
| SyncProgress.WaitingReturns | cmd/server/main.go:48-51 | a call that waits for the lock can always be served, and then succeeds exactly if memory is finite |
| SyncProgress.UpdatesNeverWait | cmd/server/main.go:48 | whoever holds the saving lock, a request reaches memory at once |
| SyncProgress.NoLitter | cmd/server/main.go:300-313 | in every run in which removals work, each temporary file is in use by a save, so that none is left at rest |
| SyncProgress.NotStuck | cmd/server/main.go:47-69 | in every state that keeps the invariant, unless all threads are idle, a begun request or save can go on without a fault |
| SyncProgress.StepDecreases | cmd/server/main.go:275-315 | every step of a begun request or save brings its thread nearer its end and leaves the others alone |
| SyncProgress.ComesToRest | cmd/server/main.go:47-69 | however threads interleave and faults strike, once no new requests come the server comes to rest with every call that did not fail returned |
| Persist.SaveMetrics | cmd/server/main.go:275-315 | succeeds exactly when the gauges are finite and every file step is; then the main file recovers the whole store, otherwise it is untouched; no temporary file stays behind |
| Persist.ReplaceFile | cmd/server/main.go:293-314 | the new content replaces the file whole or not at all, under every combination of failing file steps |
| Persist.LoadMetrics | cmd/server/main.go:244-271 | the loop leaves the store that recovery defines; a missing file is no error, an unreadable or undecodable one is and changes nothing |
| Persist.SyncStorage.UpdateGauge | cmd/server/main.go:47-52 | memory takes the update, and the file follows it exactly when the store is finite and I/O works |
| Persist.SyncStorage.UpdateCounter | cmd/server/main.go:54-59 | the same for counters |
| Persist.SyncStorage.BatchUpdate | cmd/server/main.go:61-69 | on an unknown type memory keeps the valid prefix and the file stays as it was; otherwise the file follows |
| Snapshot.ListMetrics | cmd/server/main.go:276-286 | the two appending loops list each gauge and counter once, in some order of the two maps |
| Snapshot.LoadSnapshot | cmd/server/main.go:258-269 | loading a listing of s overlays any store with it: gauges overwritten, counters added, whatever the order and even when a gauge and a counter share a name |
| Snapshot.SnapshotEncodable | cmd/server/main.go:288-291 | a listing can be encoded if and only if every gauge is finite |
| Snapshot.SaveThenLoad | cmd/server/main.go:244-315 | saving then loading restores an empty store exactly and overlays any other |
| Model.WrapMeaning | internal/storage/storage.go:94 | Go's int64 addition differs from the sum by a multiple of 2^64 and is exact in range |
| Model.WrapAdd | internal/storage/storage.go:94 | wrapping after each addition or once at the end gives the same counter |
| Storage.MetricsStorage.UpdateGauge | internal/storage/storage.go:85-89 | sets one gauge, keeps every other entry |
| Storage.MetricsStorage.UpdateCounter | internal/storage/storage.go:91-95 | adds with wrap-around, starting from zero, keeps every other entry |
| Storage.MetricsStorage.BatchUpdate | internal/storage/storage.go:51-70 | applies the longest prefix of known types, reports the first unknown type, and fails if and only if there is one |
| Storage.MetricsStorage.GetGauge | internal/storage/storage.go:97-105 | the value, or not found exactly when absent |
| Storage.MetricsStorage.GetCounter | internal/storage/storage.go:107-115 | the value, or not found exactly when absent |
| Storage.MetricsStorage.GetAllMetrics | internal/storage/storage.go:117-133 | copies of both maps, equal to the state |
| Storage.CopyMap | internal/storage/storage.go:124-130 | copying entry by entry in any order copies the map |
| Storage.BatchStop | internal/storage/storage.go:55-68 | the index at which the loop stops decides what the batch did and what it reports |
| Storage.CounterAfterCalls | internal/storage/storage.go:26-27 | after any calls each counter is the mathematical sum of its applied deltas reduced to 64 bits, and exists exactly if it did or was counted |
| Storage.GaugeAfterCalls | internal/storage/storage.go:24-25 | after any calls each gauge is the last value applied to it, or unchanged if none was |
| Storage.CountersOrderFree | internal/storage/storage.go:21-29 | counters depend on neither the order of the updates nor their grouping into calls |
| Storage.BatchSplits | internal/storage/storage.go:51-70 | a batch is its two parts one after the other, the second only if the first succeeded, errors included |
| Storage.NoChange | internal/storage/storage.go:51-95 | a log of updates leaves a store as it was if and only if each name's sum vanishes and its last gauge repeats the old value |
| Retry.WithRetry | internal/storage/postgresql.go:217-234 | makes the calls and returns the result of the common specification of both loops |
| Retry.RetryOnConnErr | internal/agent/util.go:21-35 | the same, so both loops agree on calls, delays and results for equal predicates and answers |
| Retry.AttemptBounds | internal/storage/postgresql.go:218-231 | one to four calls, the delays of 1, 3 and 5 s and no more than 9 s of them; an early error is final and a success is not retried |
| Retry.LastCall | internal/storage/postgresql.go:217-234 | the loop stops at the first call that succeeds, fails for good, is the fourth or after which the context is done, in that call's state and with its own result or, in the last case, the context's error |
| Retry.RetriesClass08 | internal/storage/postgresql.go:236-252 | an error is retried exactly if PostgreSQL reports a connection exception, class 08 |
| Retry.FourCalls | internal/agent/util.go:17-34 | if every call fails with a retriable error there are four, over 9 s |
| Retry.RetriedEffects | internal/storage/postgresql.go:217-234 | an all-or-nothing action ends up applied once per silent success, and once more if the loop reports success |
| Postgres.PostgresStorage.BatchUpdateTx | internal/storage/postgresql.go:181-215 | the loop performs the specified attempt for every fault; without one it succeeds if and only if every metric is storable |
| Postgres.PostgresStorage.BatchUpdate | internal/storage/postgresql.go:172-179 | the transaction under the retry loop |
| Postgres.FaultlessAttempt | internal/storage/postgresql.go:181-215 | without faults the batch commits if and only if each metric has a known type and, with a payload, a name of at most 255 characters without a zero and, for a counter, a sum with all deltas before it within BIGINT; otherwise the error is that of the first metric that has not |
| Postgres.FaultsReported | internal/storage/postgresql.go:182-214 | a begin, statement or commit that fails ends the attempt with exactly its error, and only a commit can have taken effect |
| Postgres.TxSumsExactly | internal/storage/postgresql.go:188-201 | committed counters are exact sums: nothing wraps in BIGINT |
| Postgres.BackendsAgree | internal/storage/postgresql.go:181-215 | on batches of storable metrics both backends reach the same state; on others the database is unchanged while memory holds the longest valid prefix |
| Postgres.OneAttempt | internal/storage/postgresql.go:181-215 | one attempt under any fault applies all or nothing, and which of them is decided by its error and the fate of its commit |
| Postgres.AppliedHowOften | internal/storage/postgresql.go:172-234 | for every fault script the batch is applied u times on error and 1 + u times on success, u being the failed commits that took effect; each counter moves by exactly that many net deltas |
| Postgres.ExactlyOnceOrNotAtAll | internal/storage/postgresql.go:172-234 | once on success and not at all on error, if every failed commit rolled back |
| Postgres.FailureIsHarmless | internal/storage/postgresql.go:172-234 | an error means an unchanged database if and only if no commit went unnoticed or the batch changes no name however often it is applied |
| Postgres.RetryIsHarmless | internal/storage/postgresql.go:172-234 | success means exactly one application's state if and only if no commit went unnoticed or the batch moves no counter |
| Postgres.UnknownResolutionCountsTwice | internal/storage/postgresql.go:246-248 | a delta of 5 counted as 10 |
| Agent.RunKeepsInv | cmd/agent/main.go:165-228 | every run of reporter and workers keeps conservation, the bounded buffer, one close and no send after it, and the reporter's account |
| Agent.JobsAreConserved | cmd/agent/main.go:167-227 | at most 2 * RateLimit queued; each job is queued, in exactly one worker's hands or finished, once; SendMetric at most once each; no send on or second close of a closed channel |
| Agent.AllJobsSent | cmd/agent/main.go:213-227 | when all have exited every enqueued job had exactly one SendMetric call, which returned |
| AgentCalls.HowCallsEnd | cmd/agent/main.go:217-225 | in every run a call of SendMetric ends exactly when a post is answered for good, when its fourth post fails, or when it is broken off because its context is over |
| AgentCalls.InterruptedWhen | cmd/agent/main.go:218-221 | between two posts a call can be broken off if and only if drainCtx has expired, for a call begun after the signal, or the signal has come, for any other; it can always go on |
| AgentCalls.DrainedCallsEndByThemselves | cmd/agent/main.go:85-88 | while drainCtx lasts no call begun after the signal is broken off |
| AgentCalls.PostsEndEitherWay | internal/agent/util.go:21-32 | a post under way can fail and can be answered, in every state |
| AgentCalls.TickTakes | cmd/agent/main.go:192-198 | a report with nothing to send changes nothing, any other is dispatched whole; a tick may come even after the signal |
| AgentCalls.BlocksWhenFull | cmd/agent/main.go:167 | the channel takes 2 * RateLimit jobs while nobody receives, and then the reporter blocks |
| Agent.FinalFlush | cmd/agent/main.go:179-206 | when the reporter has left: a final snapshot was taken if and only if cancellation never cut a dispatch short, everything taken was enqueued if and only if moreover drainCtx never cut the flush short, and then the final snapshot is in the channel whole and in order |
| Agent.IdleCancellationFlushes | cmd/agent/main.go:177-191 | a reporter that is idle and takes no further tick takes its final snapshot, and with drainCtx unexpired enqueues all of it |
| Agent.InterruptedDispatchLoses | cmd/agent/main.go:199-204 | a run in which a signal drops a snapshot without a flush |
| Agent.ExpiredFlushLoses | cmd/agent/main.go:184-190 | a run in which drainCtx expired before the signal and the whole final snapshot is dropped |
| Agent.NotStuck | cmd/agent/main.go:171-227 | after cancellation some step is enabled in every reachable state until all have exited |
| Agent.StepDecreases | cmd/agent/main.go:171-227 | every step but a tick decreases the reporter's phase or, within it, the work left |
| Agent.Exits | cmd/agent/main.go:235-241 | however the selects choose, an agent that stops taking ticks exits |
| EndToEnd.ArrivalsCounted | cmd/agent/main.go:217-225 | with requests lost or repeated by retries, in any order, a counter moves by each delta times the arrivals of its job |
| EndToEnd.DrainedCounters | cmd/agent/main.go:210-227 | after shutdown, if each call arrived once, the counters are those of one batch of everything enqueued, for any number of workers |
| EndToEnd.OneWorkerKeepsOrder | cmd/agent/main.go:213-227 | with RateLimit 1 the whole store, gauges included, is that of the one batch |
| EndToEnd.RightIffLastArrivalsAgree | cmd/agent/main.go:213-227 | of one order of arrivals, once each: the store is that of the one batch if and only if for every gauge the last arrival carries the last value enqueued |
| EndToEnd.ArrivalsOfOneCall | internal/agent/sender.go:96-104 | one SendMetric call makes its job arrive at most four times, and once plus the lost answers if it succeeds |
| GaugeOrder.HeldBackRun | cmd/agent/main.go:165-241 | for any jobs and at least two workers, a run from start to exit that calls SendMetric for a chosen job after all the others |
| GaugeOrder.RightOnEverySchedule | cmd/agent/main.go:165-241 | on every schedule the jobs leave the store of one batch, if and only if RateLimit is 1 or no two jobs report one gauge with different values |
| GaugeOrder.StaleGaugeWins | cmd/agent/main.go:213-227 | with at least two workers some run leaves the older of two values of a gauge in the store |
| Delivery.Handlers.UpdateMetricJSON | internal/handler/handlers.go:195-236 | 400 exactly without an applicable payload; otherwise the update is applied and the reply is the request with the stored total or value, read after any other requests in between; 500 exactly when that value, or one sent along with a counter, is not finite |
| Delivery.Handlers.BatchUpdateMetrics | internal/handler/handlers.go:165-193 | the status tells empty, accepted and failed batches apart, and a failed one has applied its valid prefix |
| Delivery.ConvertAll | internal/agent/grpcsender.go:43-60 | one protobuf entry per metric, in order |
| Delivery.ConversionRoundTrip | internal/agent/grpcsender.go:62-77 | converting there and back restores a metric if and only if it is named and carries exactly its type's payload and no hash |
| Delivery.SentAs | internal/agent/grpcsender.go:62-77 | any named metric arrives over gRPC as one of its type with a missing payload read as zero, and one of another type as a gauge |
| Delivery.EntryMeaning | internal/grpcserver/server.go:43-61 | an entry is accepted if and only if it is named and of one of the two types, and then sets or adds exactly what was sent |
| Delivery.MetricsServer.UpdateMetrics | internal/grpcserver/server.go:28-61 | all or nothing over memory: an invalid entry anywhere leaves the store untouched, otherwise the whole batch is applied and cannot fail |
| Delivery.AnyOrderIsTheBatch | internal/agent/collector.go:115-137 | posting one snapshot's metrics singly in any order gives the store of one batch: the snapshot overlaid |
| Delivery.GrpcIsTheBatch | internal/grpcserver/server.go:28-61 | so does the gRPC batch, which is accepted if and only if no metric has the empty name |
| Audit.Subject.Notify | internal/audit/audit.go:64-70 | enqueues or drops without blocking; drops exactly when 256 events wait |
| Audit.Subject.DispatchOne | internal/audit/audit.go:55-59 | takes the oldest event and appends it to every observer's log |
| Audit.Subject.Close | internal/audit/audit.go:74-77 | closes the channel and changes nothing else |
| Audit.RunKeepsInv | internal/audit/audit.go:53-77 | every interleaving keeps each log equal to the accepted events up to what that observer has seen, and the queue the newest rest |
| Audit.NotifiedSplits | internal/audit/audit.go:64-70 | in every run the events passed to Notify, in order, are those offered, and each is accepted or dropped exactly as often as it was passed |
| Audit.LogsArePrefixes | internal/audit/audit.go:53-60 | each log is a prefix of the accepted events in order, and a later observer lags an earlier one by at most one event |
| Audit.DropsOnlyWhenFull | internal/audit/audit.go:62-70 | an event is dropped if and only if 256 are queued, and then every observer is at least 256 behind |
| Audit.CloseDrains | internal/audit/audit.go:72-77 | once the dispatcher has gone every observer has every accepted event, in order |
| Audit.CloseReturns | internal/audit/audit.go:72-77 | after the close the dispatcher is never stuck, and every possible step brings its exit nearer |
| Audit.AllDelivered | internal/audit/audit.go:53-60 | before the close as after it, the dispatcher alone can bring every accepted event to every observer |
| Audit.DeliverAll | internal/audit/audit.go:55-59 | the interleaved deliveries of one event add up to the loop over the observers |
| ResetGen.GenerateField | cmd/reset/main.go:182-186 | the loop over a field's names emits the statements of its members |
| ResetGen.GenerateLines | cmd/reset/main.go:181-187 | the loop over the fields emits the statements of all members in order |
| ResetSource.GenerateSource | cmd/reset/main.go:177-195 | the output holds one statement for every declared name that calls for one, names sharing a type and embedded types included, in source order, and nothing else |
| ResetSource.OutputResets | cmd/reset/main.go:177-195 | running the output on a struct declared by these fields resets the variable of every declared name |
| ResetSource.EmbeddedName | cmd/reset/main.go:213-223 | an embedded T, pkg.T or pointer to one is a field called T, and nothing else embedded has a name |
| ResetSource.SkippedTypes | cmd/reset/main.go:243-256 | without a statement are exactly the fields of fixed arrays and of types the generator does not know |
| ResetSource.TableIsRight | cmd/reset/main.go:27-36 | the table holds exactly Go's predeclared numeric types, bool and string, with their zero values |
| ResetGen.ResetMeets | cmd/reset/main.go:226-269 | for every well-typed memory, however pointers alias, the generated method never dereferences nil and ends with exactly the touched variables cleared, or exceeds the call depth |
| ResetGen.MembersMeet | cmd/reset/main.go:177-195 | the same for any list of members, statement after statement |
| ResetGen.MemberIsReset | cmd/reset/main.go:226-269 | field by field, for the receiver and every struct that delegation reaches: zero, empty over the same backing array, cleared map, nil, zeroed pointee; a field of any other type (pointer, fixed array, named type without Reset, unsupported type) keeps its value |
| ResetGen.DelegatesTo | cmd/reset/main.go:232-248 | delegation goes to every member of a named type that has a Reset, of this package or another, and to what a non-nil pointer to one points to |
| ResetGen.TouchedMayChange | cmd/reset/main.go:226-269 | nothing is ever written but map objects and variables of a primitive, slice, interface, channel or function type |
| ResetGen.ResetTwice | cmd/reset/main.go:226-269 | a second call ends exactly where the first did and changes nothing |
| ResetGen.FinishesIffAcyclic | cmd/reset/main.go:47-55 | the method, on a receiver that may be nil, finishes if and only if no chain of delegations from it comes back to a struct it has passed, nested no deeper than there are variables; on nil it changes nothing, and it never panics |
| ResetGen.CyclesNeverFinish | cmd/reset/main.go:262-269 | where a chain of delegations meets a struct twice, no call depth lets the call finish |
| GzipWriter.GzipResponseWriter.WriteHeader | internal/httpmw/gzip.go:26-28 | only remembers the code |
| GzipWriter.GzipResponseWriter.Write | internal/httpmw/gzip.go:30-46 | the first write decides about compression and sends the status, before any body byte |
| GzipWriter.GzipResponseWriter.Close | internal/httpmw/gzip.go:48-55 | ends the stream if there is one and sends the status if nothing was written |
| GzipWriter.Serve | internal/httpmw/gzip.go:70-73 | for every Accept-Encoding header and sequence of handler operations the underlying writer gets the specified response |
| GzipWriter.CompressibleMeaning | internal/httpmw/gzip.go:34-35 | compressed are exactly the responses whose type contains application/json or text/html |
| GzipWriter.ClosedIsResponse | internal/httpmw/gzip.go:26-55 | fields folded over any sequence of operations and then closed give that response |
| GzipWriter.ResponseMeaning | internal/httpmw/gzip.go:30-55 | one status, first, equal to the last code set before the first write or 200; the body wholly raw or wholly one gzip stream of everything written; Content-Encoding gzip only in the second case |
| Collector.Collector.AddMetric | internal/agent/collector.go:146-154 | appends and asks for a send exactly from BatchSize on |
| Collector.Collector.SendBatch | internal/agent/collector.go:156-212 | the first request and the retry loop, with the buffer truncated where the code does |
| Collector.BufferConserves | internal/agent/collector.go:146-212 | over any run, what was added is the cleared batches in order followed by the buffer, and each cleared batch was carried whole by a request that settled it |
| Collector.ClearedWhen | internal/agent/collector.go:181-211 | the buffer is emptied if and only if the first answer is 200, or another status and some retry is answered below 500 after nothing but timeouts and answers from 500 on |
| Collector.LostWhen | internal/agent/collector.go:188-211 | a batch is emptied without any successful answer if and only if the first answer is an unsuccessful status and the retry that settles is unsuccessful too |
| Collector.FivePosts | internal/agent/collector.go:181-211 | a batch that is never settled is posted whole five times and stays in the buffer |
| Collector.StuckForGood | internal/agent/collector.go:164-168 | once the buffer holds an infinity or a NaN nothing is ever posted or cleared again, and it only grows |
| Collector.RefusedBatchIsDropped | internal/agent/collector.go:252-255 | a batch refused with 400 twice is dropped |
| Collector.SuccessPostsEmptyBatch | internal/agent/collector.go:188-211 | a 200 is followed by a request with an empty list |
| Wire.CopyInto | internal/crypto/crypto.go:122-126 | writes the source at the offset and leaves the rest |
| Wire.Assemble | internal/crypto/crypto.go:121-127 | the four copies produce prefix, key, nonce and ciphertext in sequence |
| Wire.ParseOfFrame | internal/crypto/crypto.go:121-162 | parsing undoes assembling if and only if the encrypted key is shorter than 65536 bytes |
| Wire.FrameOfParse | internal/crypto/crypto.go:132-162 | assembling undoes parsing |
| Wire.FrameLayout | internal/crypto/crypto.go:4-7 | two bytes of length, most significant first, the encrypted key, 12 bytes of nonce, the ciphertext |
| Wire.MalformedWhen | internal/crypto/crypto.go:132-161 | which length check a malformed message fails |
| Wire.CutOff | internal/crypto/crypto.go:132-162 | every prefix ending before the ciphertext is rejected, every longer one parses with a cut ciphertext |
| Wire.Encrypt | internal/crypto/crypto.go:93-128 | the frame of the encrypted key, the nonce and the sealed text, failing exactly when RSA fails |
| Wire.DecryptMeaning | internal/crypto/crypto.go:131-169 | decryption yields a text if and only if the message parses and both ciphers accept its parts |
| Wire.DecryptFailsWith | internal/crypto/crypto.go:132-167 | which error a message that does not decrypt gets: lengths up to the key, RSA, the AES key, the nonce, GCM, in this order |
| Wire.DecryptOfEncrypt | internal/crypto/crypto.go:92-169 | decryption undoes encryption |
| Transport.Post | internal/agent/sender.go:123-147 | the request sent is compressed, perhaps encrypted, and signed over the plain body |
| Transport.DecryptMiddleware | internal/httpmw/decrypt.go:23-59 | passes on the decrypted, decompressed body without its encoding header, or answers 400 |
| Transport.GzipMiddleware | internal/httpmw/gzip.go:59-68 | passes on the decompressing reader without the encoding header, or answers 400 for a bad gzip header; later damage stays in the stream |
| Transport.Receive | cmd/server/main.go:171-184 | the middleware in the installed order, then the handler's reading of the body, which undoes no second encoding; with a key, of any message only a body read to its end with the hash of exactly these bytes gets there |
| Transport.ChainMeaning | cmd/server/main.go:171-184 | for any message: what the chain answers with each encoding, where the address is checked between decryption and decompression |
| Transport.DecodesAlone | internal/handler/handlers.go:148-160 | without the middleware decodeBody decompresses a gzip body itself and takes any other as it is |
| Transport.RoundTrip | cmd/server/main.go:171-184 | for every body and choice of signing and encryption: 403 for an address outside the subnet, else 400 unless the hash matches, else exactly the bytes given to post, with no encoding left to undo twice |
| ExitCheck.RunExitCheck | cmd/linter/analyzer/exit_check.go:29-91 | the two traversals report the calls that the positional test flags, and nothing outside package main |
| ExitCheck.Report | cmd/linter/analyzer/exit_check.go:75-88 | the loop over names reports a forbidden call once |
| ExitCheck.MainOfTree | cmd/linter/analyzer/exit_check.go:38-44 | the traversal finds a main function if and only if one is declared |
| ExitCheck.PositionAgreesWithNesting | cmd/linter/analyzer/exit_check.go:46-97 | in every well-nested package with at most one main, the calls flagged by position are exactly those not nested in its body, once each and in order |
| ExitCheck.ExitAnalyzer | cmd/linter/analyzer/exit_check.go:12-33 | so with the linter's own table of forbidden calls |
| ExitCheck.ForbiddenIsDistinct | cmd/linter/analyzer/exit_check.go:24-27 | that table holds exactly os.Exit and the three log.Fatal functions |

## Left out

- PostgreSQL's own behaviour beyond a transaction on two maps: SQL parsing, migrations, connection pools, isolation between concurrent batches, single updates and queries.
- Postgres.BackendsAgree: the two backends differ on overflow (an error instead of wrap-around), on names longer than 255 characters and on names with a zero character; the condition `Storable` says exactly where. Names are taken to be valid Unicode, as decoded JSON and protobuf strings are.
- Agent.Exits: assumes that ticks stop being taken; Go's `select` is only probabilistically fair between a ready tick and a cancelled context.
- EndToEnd.OneWorkerKeepsOrder: takes a request to be over on the server before the next begins, so a request that timed out and is still being handled is not covered.
- EndToEnd.DrainedCounters: takes each SendMetric call to have arrived once; `ArrivalsCounted` says what any other number of arrivals does. The collector never resets PollCount, so the claim is about delivered deltas, not about polls.
- Audit.Subject.Notify: requires an open channel; in Go a Notify after Close panics.
- Audit.Subject.DispatchOne: one event without interruption; interleaved with Notify and Close it is the steps of the same module, joined by `DeliverAll`.
- ResetGen.ResetMeets: the depth bound stands for Go's call stack; `FinishesIffAcyclic` says when some bound suffices. A type has Reset exactly if it is declared for generation: hand-written and promoted Reset methods, whose effect is arbitrary, are not modelled. A type is its expression: one that is written differently in two packages (`Event` and `audit.Event`) counts as two.
- ResetGen.GenerateLines: statements are trees; their printing, the file template, gofmt, blank fields (for which the generated code does not compile) and embedded generic types are not modelled.
- Collector.Collector.SendBatch: holds the mutex throughout, as the source does; backoff delays and the flusher's ticker are left out.
- Transport.RoundTrip: where the agent encrypts, the server has the matching private key; the CIDR test of the address is a parameter.
- Transport.Receive: stops where the JSON decoder begins to read.
- Wire.Encrypt: random bytes and the RSA seed are parameters; only RSA can fail.
- ExitCheck.RunExitCheck: resolving an alias to its import path is done in the tree's construction; each call carries the path.
- Delivery.Handlers.UpdateMetricJSON: over the in-memory store; the PostgreSQL backend's single updates and reads are not modelled.
- SyncPersist.CrashRecovery: the disk loses nothing that was renamed; a half-written temporary file may stay behind after a crash and is never read.
- The final and the periodic save are one kind of thread that saves without the lock; when they happen is arbitrary, so the interval is not modelled.
- GaugeOrder.RightOnEverySchedule: takes the server to handle requests in the order of the calls, one of the orders it may choose with several workers, and snapshots to be arbitrary lists of metrics.
- The gRPC reporting goroutine of the agent and the two collecting goroutines, reading of runtime and system metrics.
- The hard exit after `shutdownTimeout`, panics caught by the recovery middleware, graceful stop of the gRPC server.
- Configuration layering, flags, PEM loading, logging, the object pool, the HTML page, URL routing, text handlers, generated protobuf code.
- The second linter rule (calls of panic): a single branch.

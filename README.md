# Telemetry aggregator: snapshot builder, cluster utilities, retry helper

A Dafny model of the core of a Service Fabric telemetry aggregator. The
aggregator keeps a reliable store of named FIFO queues:

- one queue per cluster node, for that node's samples;
- one queue for cluster-wide samples;
- one snapshot history queue.

One aggregation attempt works like this:

- It computes the watermark: the least head timestamp across the node queues
  and the cluster queue, or -1 when no queue has a non-null head.
- It takes the cluster head and each node head that passes the alignment
  predicate `CheckTime` against the watermark.
- It emits a snapshot only when it took cluster data and at least one node
  sample.

The run loop drains while the cluster queue and every node queue hold more
than one item. After each attempt, the oldest snapshot is evicted if the
history is over capacity.

Beside the aggregator, the model covers four more parts:

- grouping the replicas deployed on a node by host process;
- counting the ready replicas and instances in the cluster;
- deciding how a failed cluster-client call is handled, and retrying it;
- converting drive sizes from bytes to gigabytes in a machine record.

Files:

- `wrappers.dfy`: `Option`.
- `snapshot_model.dfy` (module `SnapshotModel`): the payloads and the queue
  store. It also holds the specification functions of one attempt (`Watermark`,
  `Aligned`, `SnapshotOf`, `AfterAttempt`, `Attempted`), of one round of the
  drain loop (`Produced`, `Prune`, `Round`), of a drain (`Rounds`, `DrainOf`)
  and of a run (`Run`), with the lemmas about them.
- `aggregator.dfy` (module `Aggregation`): class `Aggregator`. Its `store`
  field holds the queues. Its methods are the queue primitives, the attempt,
  retention, the drain loop and the remote API. Each method is proved against
  the functions of `SnapshotModel`.
- `sf_utilities.dfy` (module `SFUtilities`): `GetDeployedProcesses` and
  `GetDeployedCounts`. Each is proved against a reference definition.
- `retry_helper.dfy` (module `FabricClientRetryHelper`): the failure
  classification and the retry loop.
- `data.dfy` (module `AggregatorData`): the machine record `Data` and its
  drive-size conversion.

One might expect an attempt that finds the cluster queue empty to leave the
node data queued. The code still dequeues every node head that passes
`CheckTime` (Aggregator/Aggregator.cs:154-171) and then emits nothing; the
model does the same (`ClusterlessAttemptConsumesNodes`).

The node list is read afresh by every gate check (Aggregator/Aggregator.cs:205)
and by every attempt (Aggregator/Aggregator.cs:120), so membership can change
between the gate and the attempt and from round to round. The model gives
each round of the drain loop its own pair of node lists (`RoundLists`).

## Model

| member | source | states |
|---|---|---|
| SnapshotModel.MinHead | Aggregator/Aggregator.cs:239-271 | The watermark scan from -1 yields -1 iff no head is present. Otherwise it yields a head timestamp that is at most every present head. |
| SnapshotModel.WatermarkMeaning | Aggregator/Aggregator.cs:239-271 | The watermark is -1 iff neither the cluster queue nor any node queue has a non-null head. Otherwise it is the timestamp of one of those heads and at most all of them. |
| Aggregation.Aggregator.MinTimeStampInQueue | Aggregator/Aggregator.cs:239-271 | The node-then-cluster scan returns exactly `Watermark` of the store. |
| SnapshotModel.SnapshotOf | Aggregator/Aggregator.cs:118-183 | A snapshot is emitted iff all of these hold: the watermark exists, the cluster head exists and passes CheckTime, and some node head passes. The snapshot carries the watermark, the cluster head and a non-empty list of node samples. Every one of those samples passes CheckTime. |
| SnapshotModel.AlignedBounds | Aggregator/Aggregator.cs:154-171 | The attempt collects at most one sample per node. Every collected sample passes CheckTime against the watermark. |
| SnapshotModel.AlignedNonEmpty | Aggregator/Aggregator.cs:154-173 | The collected node list is non-empty iff some node head is node data that passes CheckTime. |
| SnapshotModel.AlignedMembers | Aggregator/Aggregator.cs:154-171 | A node sample is collected iff it is the passing head of one of the listed node queues. |
| Aggregation.Aggregator.CreateSnapshot | Aggregator/Aggregator.cs:118-183 | Returns `SnapshotOf` the old store. Every queue afterwards equals `AfterAttempt`: the cluster head and each node head is removed iff it passed, whether or not a snapshot is emitted. With watermark -1, nothing changes. |
| SnapshotModel.ReflexiveCheckConsumes | Aggregator/Aggregator.cs:118-171 | With a reflexive CheckTime, an attempt on a store with any head strictly shortens some queue: the one whose head is the watermark. |
| SnapshotModel.SnapshotTimestampIsMergedMinimum | Aggregator/Aggregator.cs:118-183 | With a reflexive CheckTime, the snapshot timestamp is at most the cluster sample and every merged node sample, and equals one of them. |
| SnapshotModel.ClusterlessAttemptConsumesNodes | Aggregator/Aggregator.cs:133-171 | With the cluster queue empty, no snapshot is emitted, yet a node head that passes CheckTime is still dequeued. |
| SnapshotModel.WindowedAttemptExample | Aggregator/Aggregator.cs:118-183 | A concrete attempt under a 50 ms window: cluster heads 100 and 200, node n1 at 110, node n2 at 150. The snapshot is taken at 100 with n1's sample. n2's sample stays queued. |
| Aggregation.Aggregator.ProduceSnapshot | Aggregator/Aggregator.cs:185-200 | The new store is `Produced`: the history gains exactly the snapshot the attempt emits, if any, and every other queue equals `AfterAttempt`. |
| SnapshotModel.ProducedQueues | Aggregator/Aggregator.cs:185-200 | After producing, the history is the old history plus exactly the emitted snapshot, and every other queue is as the attempt leaves it. |
| Aggregation.Aggregator.GetMinQueueCount | Aggregator/Aggregator.cs:202-232 | The least item count over the node queues and the cluster queue, starting from long.MaxValue. It is greater than 1 iff the drain gate is open. |
| Aggregation.Aggregator.GetQueueCount | Aggregator/Aggregator.cs:274-285 | The item count of the named queue; a missing queue counts 0. |
| Aggregation.Aggregator.TryPrune | Aggregator/Aggregator.cs:287-295 | The new store is `Prune`: exactly the oldest snapshot is removed iff the history exceeds capacity, and other queues are unchanged. A history at most one over capacity ends within capacity. |
| Aggregation.Aggregator.ProduceAndPrune | Aggregator/Aggregator.cs:45-46 | One round of the drain loop leaves exactly `Round` of the old store. |
| SnapshotModel.RoundQueues | Aggregator/Aggregator.cs:45-46 | After one round, every queue but the history is as the attempt leaves it. The history is the old history plus the emitted snapshot, cut back by its oldest entry when that takes it over capacity. |
| SnapshotModel.RoundHistoryBound | Aggregator/Aggregator.cs:45-46 | A round never takes the history over capacity, and never lengthens a history already over it. |
| SnapshotModel.RoundsHistoryBound | Aggregator/Aggregator.cs:43-47 | Any number of rounds keeps that bound. |
| SnapshotModel.DrainOfRounds | Aggregator/Aggregator.cs:43-47 | A drain leaves exactly what its rounds up to the first closed gate leave. |
| Aggregation.Aggregator.Drain | Aggregator/Aggregator.cs:43-47 | Round `j` ran only behind a gate that was open, checked against that round's own node list. The new store is exactly what the rounds that ran leave, and equals `DrainOf` the old store. A drain that stops before the lists run out stopped at a closed gate. The history never goes over capacity, and one already over it never grows. |
| Aggregation.Aggregator.RunAsync | Aggregator/Aggregator.cs:35-49 | One drain per wake-up. The new store is exactly `Run` of the old store over the wake-ups. A history within capacity stays within it, and one already over it never grows. |
| Aggregation.Aggregator.AddData | Aggregator/Aggregator.cs:298-318 | Appends the item at the tail of the named queue; a missing queue is created. Nothing else changes, and the store stays well-typed. |
| Aggregation.Aggregator.PeekFirst | Aggregator/Aggregator.cs:320-334 | Returns the head of the queue, or null for an empty queue. A non-null result has the type the queue's reader casts to. |
| Aggregation.Aggregator.Dequeue | Aggregator/Aggregator.cs:336-351 | Returns the old head, or null for an empty queue. It removes exactly that head, and an empty queue is left as it was. |
| Aggregation.Aggregator.GetData | Aggregator/Aggregator.cs:353-383 | Returns none for a null name. Otherwise returns the queue's non-null items, oldest first. |
| SnapshotModel.NonNull | Aggregator/Aggregator.cs:366-378 | A full read contains exactly the non-null items of the queue. |
| Aggregation.Aggregator.PutDataRemote | Aggregator/Aggregator.cs:51-54 | Appends to the named queue; no other queue changes. |
| Aggregation.Aggregator.GetDataRemote | Aggregator/Aggregator.cs:56-59 | The same result as GetData. |
| Aggregation.Aggregator.PutThenGet | Aggregator/Aggregator.cs:51-59 | A put on an empty queue, then a read, returns exactly the one item put. |
| Aggregation.Aggregator.GetSnapshotsRemote | Aggregator/Aggregator.cs:61-97 | Returns the snapshots with lo <= timestamp <= hi, in queue order. The history is not changed. |
| SnapshotModel.InRange | Aggregator/Aggregator.cs:61-97 | A snapshot is in the range result iff it is in the history with its timestamp between the bounds. |
| Aggregation.Aggregator.DeleteAllSnapshotsRemote | Aggregator/Aggregator.cs:104-116 | Empties the history; no other queue changes. |
| SFUtilities.GetDeployedProcesses | Aggregator/SFUtilities.cs:111-165 | The keys are exactly the host process ids of the replicas. Each record equals the reference grouping `Expected`: its service names in order, its counters, and the child processes of the first replica seen. |
| SFUtilities.ToInt32 | Aggregator/SFUtilities.cs:137 | The `(int)` cast of a process id: the result is in the 32-bit range and agrees with the input modulo 2^32. |
| SFUtilities.ProcessCountsConsistent | Aggregator/SFUtilities.cs:117-163 | In every record: count equals the number of replicas hosted; replicas plus instances equals count; primaries are at most replicas; there is one service name per replica. |
| SFUtilities.HostedNonEmpty | Aggregator/SFUtilities.cs:117-163 | A process hosts some replica iff its id is a key. |
| SFUtilities.ReplicaFiled | Aggregator/SFUtilities.cs:117-163 | Every replica's service name is filed under its host process. |
| SFUtilities.ExpectedAbsent | Aggregator/SFUtilities.cs:144-154 | A process that hosts no replica has the fresh, all-zero record. |
| SFUtilities.ExpectedSnoc | Aggregator/SFUtilities.cs:139-159 | Adding one replica updates only its host's record. The update extends the service names and counters; child processes are copied only when the record is created. |
| SFUtilities.RoleSplit | Aggregator/SFUtilities.cs:119-135 | Each replica counts as exactly one of stateful replica or stateless instance. |
| SFUtilities.PrimariesAreStateful | Aggregator/SFUtilities.cs:123-130 | Primaries are counted only among stateful replicas. |
| SFUtilities.GetDeployedCounts | Aggregator/SFUtilities.cs:59-99 | The primary count is the number of partitions of stateful services. The replica and instance counts are the ready replicas of stateful and of stateless services. The total equals their sum and equals all ready replicas. |
| SFUtilities.ReadyKindsSplit | Aggregator/SFUtilities.cs:80-97 | Ready stateful replicas plus ready stateless instances make up all ready replicas. |
| FabricClientRetryHelper.HandleException | TelemetryLib/FabricClientRetryHelper.cs:92-138 | A failure is handled iff it is listed as retryable, listed as success, of the transient type, or wraps a COM code listed as success. It retries iff it is listed as retryable, or is transient and not listed as success. An unhandled failure never retries. |
| FabricClientRetryHelper.ToUInt32 | TelemetryLib/FabricClientRetryHelper.cs:129 | The `(uint)` cast of the HRESULT: in range, and congruent to the input modulo 2^32. |
| FabricClientRetryHelper.ExecuteWithRetry | TelemetryLib/FabricClientRetryHelper.cs:45-90 | The run keeps `RetryRun`. There is no pause before the first call and one pause before each later call. No call is made once cancellation is requested, at the top of an iteration or during its pause. Every call but the last ended in a retry within the timeout. The loop stops on one of these: a returned value; the default for a success-class failure; a rethrow of an unhandled failure, or of a retry-class failure after the timeout; or a cancellation, seen at the top of an iteration or thrown by the pause. |
| FabricClientRetryHelper.RetryRunUnique | TelemetryLib/FabricClientRetryHelper.cs:45-90 | The loop's promise determines the run: two runs over the same trace that both keep it have the same result, the same calls and the same schedule. |
| FabricClientRetryHelper.RunMakesDueCalls | TelemetryLib/FabricClientRetryHelper.cs:55-84 | A run makes every call that is due: when the first iterations are not cancelled and all their calls but the last retry, it made at least that many calls. |
| FabricClientRetryHelper.ExecuteWithDefaultTimeout | TelemetryLib/FabricClientRetryHelper.cs:20-35 | The same promise, `RetryRun`, with the two-minute timeout. |
| AggregatorData.TruncDiv | Aggregator/Data.cs:39-40 | C# long division by a positive divisor truncates toward zero. |
| AggregatorData.BytesToGbIsFloorDivision | Aggregator/Data.cs:39-40 | For a size of zero or more bytes, three successive divisions by 1024 equal floor division by 2^30. |
| AggregatorData.BytesToGbNegate | Aggregator/Data.cs:39-40 | A negative size converts to the negated conversion of its magnitude. |
| AggregatorData.Data.constructor | Aggregator/Data.cs:29-44 | Stores the figures unchanged. Converts every drive, in order, to its name and its sizes in whole gigabytes. |

## Left out

- The reliable-state transactions, the dictionary of queues and concurrency are not modelled. Each queue operation is one atomic step on a `map` from queue name to contents.
- The creation of a queue on first use, including the `GetOrAdd` retry loop in AddDataAsync, is not modelled. A missing queue reads as empty, and AddData creates it in one step.
- Serialisation to byte arrays is not modelled. Queue slots hold the deserialised payloads, and `Null` stands for a null byte array.
- The casts after deserialisation are assumed to succeed. `Valid()` says every queue holds only its reader's type, so the paths where a failed cast is caught and logged are left out.
- The catch blocks are not modelled, so neither are the partial failures they hide. They are in ProduceSnapshotAsync (Aggregator/Aggregator.cs:196), GetSnapshotsRemote (91), DeleteAllSnapshotsRemote (112), GetDataAsync (377) and the `GetOrAdd` loop of AddDataAsync (309).
- DeleteAllSnapshotsRemote: the clear is modelled as emptying the history. The source's own comment (Aggregator/Aggregator.cs:99-101) says the queue's `ClearAsync` is not implemented. If it throws, the catch at line 112 swallows the exception and the history is left as it was; that outcome is not modelled.
- Timestamps are natural numbers; the source stores them as doubles.
- `CheckTime`, the queue capacity and the two reserved queue names are defined outside the modelled files. CheckTime and the capacity are fixed constructor parameters. The queue names are constants.
- The node lists that GetNodeListAsync returns are parameters. A list an attempt reads must be duplicate-free and must not use a reserved queue name.
- Drain: its rounds are bounded by the finite sequence of node lists it is given. With an arbitrary CheckTime, the source's drain loop need not terminate. A drain that ends because the lists run out models a longer source drain cut short.
- RunAsync: each wake-up is the sequence of node lists its drain reads. The interval delay is not modelled. Cancellation ends the run after the given wake-ups; a cancellation that interrupts the delay mid-wake-up is not modelled.
- GetDeployedProcesses: the replica list that the fabric client returns is a parameter. Each iteration's counters start at zero and are raised to one exactly on the source's branch, written without branches; the values are the same.
- GetDeployedCounts: the query manager's lists (applications, services, partitions, replica statuses) are the input, given as nested sequences.
- The counters use unbounded integers, and 32-bit overflow is not modelled.
- ExecuteWithRetry: the operation, the stopwatch and the cancellation token are replaced by a finite trace of attempts. `TraceExhausted` marks the end of that trace, not a way the source's loop ends. The five-second delay is a `Wait` event. A cancellation during the delay is a flag on the attempt: the delay throws and no call is made.
- ExecuteWithDefaultTimeout: takes the retry lists as a parameter. The default contents of `FabricClientRetryErrors` are defined outside the modelled files.
- Data.constructor: the CPU and memory-percentage figures are single and double precision floating point in the source; here they are reals, stored unchanged.

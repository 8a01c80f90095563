# Verified model of the driverless taxi system

This project models the three services of the system whose correctness is a statement about
every graph or every run, and proves those statements with Dafny 4.11. `dafny verify dfyconfig.toml`
checks all of it.

**Routing and vehicle selection** (`RoadNetwork`, `Routing`, `Reopening`, `Selection`, `RidePlan`). The graph is
any finite undirected graph, not the 21-node file, and the distance any metric on coordinates, passed
as a parameter; haversine is one. Edge lengths and the heuristic are straight lines, so consistency of
the heuristic is derived from the triangle inequality. `Routing.AStar` keeps the loops of `aStar`:
the scan of an insertion-ordered open set, no closed set, relaxation on strict `<`, the walk back over
`cameFrom`. One invariant (`AtLoopHead`, and `MidRelax` inside the inner loop) carries optimality,
single expansion, termination within the number of nodes, and path reconstruction. `Reopening` runs the
same loops with an arbitrary heuristic, when a popped node may be improved and opened again: termination
by using up simple walks, optimality from admissibility alone, and an error bound for a heuristic that is
off by some slack.

**Telemetry ingestion** (`Packets`, `LastWriteWins`, `Batching`, `QueueConsumer`, `Ingestion`,
`DeleteAfterFlush`, `Documents`, `SingleInstance`, `LateUpserts`, `Convergence`, `HistoryRecords`, `Draining`).
`Packets` gives the generated upsert and MongoDB's evaluation of it; `Batching` and `QueueConsumer` are
the classes of `batcher.js` and of the queue branch of the service's `index.js`, split at their awaits;
`Ingestion` is the protocol in which any number of instances interleave those stretches with single
database writes taking effect, failures and crashes. The upserts of a bulk write given up, through a
reported failure or a crash, stay adrift in the protocol and may still be carried out later.
A packet's `delivery` field stands for the identity of the object in memory and of the queue message it
came from; it is never written. Fields named as records of the past (`log`, `committed`, `winner`,
`written`, `arrived`, `lost`) exist for the statements only and decide no step; `owner` only keeps the
deliveries apart.

**Dispatch under concurrency** (`Dispatch`, `DispatchProgress`, `FleetStore`, `RideService`). Ride
requests interleave over the primary database with row locks, a lagging replica, a cache with expiry and
the position documents. `Dispatch` is the protocol; `FleetStore` is the store's code between two awaits,
each method proved to be a step of it, with the calls `availableCandidates` and `assignTrip` as chains of
those steps. `RideService` joins it with the choice and the routes into a whole ride. `version`, `seen`,
`stamp` and `clearedAt` are records for the statements.

**Delivery** (`Simulator`). The actuator's dispatch and stop commands and the tick of the simulated
vehicle, composed with selection: from a dispatch to arrival at the pickup.

## Where the code and its documentation disagree

- The header of the telemetry service (services/telemetry-service/src/index.js:15-18) and the top-level
  README.md:23-25 state delete-after-flush without conditions. The code does not enforce it: the timer
  starts `flushAndAck` without waiting for the previous call, and `flush` returns normally while another
  flush runs, so receipts taken during a long flush are deleted while their packets are only in memory.
  `DeleteAfterFlush.StartIsSafeExactly` gives the exact condition, `UnsafeStartCanLose` a run that loses a
  packet from every state that violates it, `UnsafeStartIsReachable` a run that gets there,
  `DeletedImpliesDurable` the claim for all other runs, `DeletedIsAccountedFor` what holds of all runs.
- The guard of the upsert treats a missing timestamp as `Number.MIN_SAFE_INTEGER`, so a vehicle's first
  packet with a smaller timestamp is not stored (`Packets.FirstPacketStored`). The shared schema's minimum
  of 0 keeps such packets out, and the protocol takes that as given.
- An upsert never removes a field, so a document is exactly the accepted packet only if it held no field
  that the packet lacks (`Packets.AcceptedExactly`); with one field set per vehicle it always is
  (`Documents.DocumentsAreWholePackets`).
- batcher.js:5-7 promises that out-of-order packets never regress a stored state. Timestamps never do
  (`Convergence.TimestampsNeverRegress`), but the guard lets equal ones through: an upsert given up and
  carried out late can put an earlier arrival back over a later one of the same timestamp.
  `LateUpserts.LateUpsertRegressesExactly` gives the exact condition for the stored packet,
  `LateUpsertShowsExactly` for the fields of the document, `LateUpsertCanRegress` runs that meet it.
- index.js:180 announces a final flush on shutdown. `flush` returns at once while another is in flight, so
  there is none then: what is buffered is not written (`Batching.StopEmptiesExactly`), and in queue mode its
  receipts are deleted nevertheless (`DeleteAfterFlush.UnsafeStartCanLose`).

## Model

| member | source | states |
|---|---|---|
| RoadNetwork.LoadGraph | services/dispatch-service/src/graph.js:28-39 | loading fails exactly when an edge names an unknown node; otherwise the roads are exactly the listed pairs in both directions, each arc as long as the distance between its ends, and the graph is valid |
| RoadNetwork.LinkRoads | services/dispatch-service/src/graph.js:32-37 | the adjacency loop yields exactly the listed roads, symmetric, with metric lengths |
| RoadNetwork.NodeMapMeaning | services/dispatch-service/src/graph.js:30 | of nodes with a repeated id the last one counts |
| RoadNetwork.NodeOrderMeaning | services/dispatch-service/src/graph.js:30 | the nodes are iterated in the order of their first occurrences in the file |
| RoadNetwork.NearestNode | services/dispatch-service/src/graph.js:62-73 | the nearest landmark, the earliest in iteration order among equals; null exactly for an empty graph |
| RoadNetwork.NearestMeans | services/dispatch-service/src/graph.js:62-73 | the landmark chosen is no farther than any other and nearer than every one before it |
| RoadNetwork.CostByHop | services/dispatch-service/src/graph.js:103 | the length of a walk is the sum of the distances between its consecutive nodes |
| RoadNetwork.StraightIsShortest | services/dispatch-service/src/graph.js:80 | the heuristic is admissible: no walk is shorter than the straight line between its ends |
| RoadNetwork.RoadDistanceSymmetric | services/dispatch-service/src/graph.test.js:56-60 | road distance is the same in both directions |
| RoadNetwork.RoadDistanceTriangle | services/dispatch-service/src/graph.js:76-113 | road distance obeys the triangle inequality over any third node, and reachability is transitive |
| RoadNetwork.RoadDistanceAboveStraight | services/dispatch-service/src/graph.test.js:43-54 | road distance is at least the straight line, and zero from a node to itself |
| Routing.Scan | services/dispatch-service/src/graph.js:85-93 | over a non-empty open set the scan always finds a node, one of least f |
| Routing.ExitBound | services/dispatch-service/src/graph.js:84-111 | every walk to a node not yet popped passes an open node whose f is at most the walk's length plus the straight line from its end |
| Routing.PopIsExact | services/dispatch-service/src/graph.js:84-101 | a node popped with least f already carries its exact road distance from the start |
| Routing.ClosedNeverImproves | services/dispatch-service/src/graph.js:101-110 | a popped node is never improved again, so the code needs no closed set |
| Routing.PopKeeps | services/dispatch-service/src/graph.js:101 | popping keeps the invariant: exact distances, f never decreasing, acyclic trails |
| Routing.ImproveKeeps | services/dispatch-service/src/graph.js:104-109 | relaxing an arc that improves its end keeps the invariant |
| Routing.SkipKeeps | services/dispatch-service/src/graph.js:103-104 | an arc that does not improve its end may be passed over |
| Routing.RelaxArcs | services/dispatch-service/src/graph.js:102-110 | the inner loop relaxes every arc of the popped node and keeps the invariant |
| Routing.Reconstruct | services/dispatch-service/src/graph.js:96-97 | following cameFrom back terminates, zero-length roads included, and yields the walk whose length g records |
| Routing.ExhaustedMeansAllPopped | services/dispatch-service/src/graph.js:84-112 | with nothing left open every reachable node has been popped and the goal is unreachable |
| Routing.PopExplored | services/dispatch-service/src/graph.js:84-99 | when a node is popped, every node whose walk plus straight line is below its f has been popped |
| Routing.AStar | services/dispatch-service/src/graph.js:76-113 | a route is a simple walk of roads from start to goal whose length is the returned cost and at most that of every walk; null exactly when the goal is unreachable; each node is popped at most once, at its exact distance, in order of f; a TypeError exactly on distinct ends one of which is unknown |
| Reopening.AStarWith | services/dispatch-service/src/graph.js:76-113 | with any heuristic the loops end, find a route exactly if there is one, and return a simple walk no longer than the cost; an admissible one makes it a shortest route at exactly that cost, and one that overestimates by at most some slack makes the cost exceed no walk by more than that slack |
| Reopening.StraightLineAdmissible | services/dispatch-service/src/graph.js:80 | the code's own heuristic is admissible, so the above covers it without consistency |
| Reopening.GoalIsMinimal | services/dispatch-service/src/graph.js:84-99 | when the goal has least f, no walk to it is shorter than g by more than the heuristic's slack, whatever has been reopened |
| Reopening.ImproveKeeps | services/dispatch-service/src/graph.js:104-109 | improving an open, new or already popped node keeps cameFrom a forest and every g the length of a simple walk |
| Reopening.ChainIsWalk | services/dispatch-service/src/graph.js:96-97 | following cameFrom back gives a simple walk no longer than g, even after nodes on it were improved again |
| Reopening.ImprovementUsesWalk | services/dispatch-service/src/graph.js:84-111 | each improvement uses up one of the finitely many simple walks, so the search ends |
| Selection.NearestUnique | services/dispatch-service/src/graph.js:62-73 | the landmark a position snaps to is unique |
| Selection.ScoreIsLeast | services/dispatch-service/src/select.js:31-44 | a candidate's score uses its true shortest road distance: no walk from its landmark gives a lower one |
| Selection.ChoiceByCase | services/dispatch-service/src/select.js:37-44 | a choice's score is its shortest road distance, plus the low, the middle or no battery penalty by its level, plus the charging penalty exactly when charging, plus a penalty for each unused seat; with the default configuration 5 below 20%, 2 below 40%, 8 and 0.25 |
| Selection.PenaltiesByCase | services/dispatch-service/src/select.js:37-42 | the penalties case by case for any candidate and configuration; charging adds exactly its penalty to that of the same candidate parked |
| Selection.Score | services/dispatch-service/src/select.js:31-44 | one candidate: skipped only if it cannot reach the pickup, else scored by shortest road distance plus battery and size penalties |
| Selection.SelectVehicle | services/dispatch-service/src/select.js:26-60 | the choice has the least true score over all candidates and is the earliest of those; null exactly when none can reach the pickup |
| RidePlan.PlanRide | services/dispatch-service/src/index.js:116-135 | on a connected graph a non-empty candidate list always gives a best vehicle and an optimal trip; each other outcome has its own reason: an empty list, no vehicle that can reach the pickup, or one that can but a drop-off that cannot be reached |
| RidePlan.ConnectedReaches | services/dispatch-service/src/select.js:31-33 | on a connected graph every candidate can reach the pickup |
| Packets.BuildUpsert | services/telemetry-service/src/batcher.js:27-40 | the loop guards every state field of the packet, its timestamp included, with the same comparison |
| Packets.UpsertStoresEveryField | services/telemetry-service/src/batcher.js:21-40 | an accepted packet is stored with every field it has but _id, each with its value, and no other field or document changes; a rejected one changes nothing |
| Packets.DocumentFields | services/telemetry-service/src/batcher.js:21-23 | a packet's document has exactly its own fields but _id, its vehicle and its timestamp |
| Packets.GuardMeans | services/telemetry-service/src/batcher.js:28 | the guard lets a packet through exactly if its timestamp is at least the stored one, or at least -9007199254740991 over none |
| Packets.UpsertIsAllOrNothing | services/telemetry-service/src/batcher.js:25-40 | an upsert writes all of its packet or none of it, because every field is guarded by the timestamp from before the update |
| Packets.AppliedOver | services/telemetry-service/src/batcher.js:25-40 | over a packet with the same fields, the newer or equal one replaces the document whole and an older one leaves it untouched |
| Packets.AcceptedExactly | services/telemetry-service/src/batcher.js:25-40 | an accepted packet's document is exactly the packet if and only if the old one held no further field |
| Packets.FirstPacketStored | services/telemetry-service/src/batcher.js:28 | a vehicle's first packet is stored if and only if its timestamp is at least MIN_SAFE_INTEGER |
| Packets.UpsertIdempotent | services/telemetry-service/src/batcher.js:27-40 | repeating an upsert changes nothing, so a retried batch is harmless |
| Packets.EachItsOwn | services/telemetry-service/src/batcher.js:97-98 | in a bulk write with one operation per vehicle each document is its own operation's result, and no other is touched |
| Packets.BulkOrderIrrelevant | services/telemetry-service/src/batcher.js:97-98 | an unordered bulk write leaves the same documents in every order of its operations |
| LastWriteWins.NewestMeaning | services/telemetry-service/src/batcher.js:60-65 | the merge keeps the last packet to arrive among those of maximal timestamp |
| LastWriteWins.NewestConcat | services/telemetry-service/src/batcher.js:118-123 | the newest of two logs end to end is the merge of the newest of each |
| Batching.AddKeepsIndex | services/telemetry-service/src/batcher.js:56-66 | add keeps the buffer an exact per-vehicle index of the packets received |
| Batching.PutBackKeepsIndex | services/telemetry-service/src/batcher.js:118-125 | after a failed flush the buffer is the exact index of the restored batch followed by what arrived meanwhile |
| Batching.BuildOps | services/telemetry-service/src/batcher.js:97 | exactly one generated upsert per vehicle of the batch |
| Batching.PutBackAll | services/telemetry-service/src/batcher.js:120-123 | the restore loop merges the batch under the buffer, whatever the order of iteration |
| Batching.TelemetryBatcher.Add | services/telemetry-service/src/batcher.js:56-66 | history, buffer unless an older packet, and the counters of received and dropped packets after one packet |
| Batching.TelemetryBatcher.BeginFlush | services/telemetry-service/src/batcher.js:81-97 | does nothing exactly when a flush runs or both buffers are empty; otherwise takes both buffers and leaves empty ones |
| Batching.TelemetryBatcher.FinishFlush | services/telemetry-service/src/batcher.js:113-128 | the whole new state after a successful flush |
| Batching.TelemetryBatcher.FailFlush | services/telemetry-service/src/batcher.js:118-128 | the whole new state after a failed flush, packets added during it kept |
| Batching.TelemetryBatcher.Stop | services/telemetry-service/src/batcher.js:75-79 | the whole new state after the last flush, whatever arrives during it and however it ends |
| Batching.StopEmptiesExactly | services/telemetry-service/src/batcher.js:75-84 | stop leaves nothing buffered if and only if nothing was, or no flush is in flight, its own succeeds and nothing arrives during it; and nothing in a flight either only if none was in flight |
| Batching.StopKeepsUnwritten | services/telemetry-service/src/batcher.js:118-125 | after a stop whose flush fails, wherever it fails, the history buffer is the old one followed by the arrivals and the buffer its index; after one that succeeds, the arrivals alone; with the counters |
| QueueConsumer.SqsConsumer.Take | services/telemetry-service/src/index.js:106-120 | the packets of exactly the well-formed messages of a response join the history buffer, and their receipts the pending ones, in order |
| QueueConsumer.WellFormedExactly | services/telemetry-service/src/index.js:108-117 | exactly the messages that parse and are packets are kept, in their order |
| QueueConsumer.TakenInMeans | services/telemetry-service/src/index.js:118-119 | the packets taken in are appended to log and history buffer, their receipts to the pending ones, and nothing else of the instance's flight or loops changes |
| QueueConsumer.SqsConsumer.BeginFlushAndAck | services/telemetry-service/src/index.js:61-65 | the protocol's flushAndAck step: the receipts wait for the flush, or go straight to deletion when flush returned at once |
| QueueConsumer.SqsConsumer.FlushFailed | services/telemetry-service/src/index.js:77-83 | the protocol's failure step: batch, history and receipts return in front of what arrived meanwhile |
| QueueConsumer.SqsConsumer.BulkWriteReturned | services/telemetry-service/src/batcher.js:98-100 | the protocol's step for a completed bulk write |
| QueueConsumer.SqsConsumer.InsertManyReturned | services/telemetry-service/src/batcher.js:107-117 | the protocol's step for a completed flush |
| QueueConsumer.DeleteAll | services/telemetry-service/src/index.js:66-76 | whatever part of each chunk of ten the queue accepts, the receipts deleted are exactly those accepted, and the loop takes the protocol's deletion steps until none is left |
| QueueConsumer.StepReceipts | services/telemetry-service/src/index.js:59-84 | no receipt goes astray: every step keeps those held, but that a message adds its own, a batch delete takes its chunk of at most ten and a crash forgets all; a completed flush hands on exactly those that awaited it |
| Ingestion.StepKeeps | services/telemetry-service/src/index.js:59-122 | every step keeps the instance invariant and the database invariant, and takes back nothing stored |
| Ingestion.UpsertedKeeps | services/telemetry-service/src/batcher.js:27-40 | each document carries the timestamp of the packet last let through |
| DeleteAfterFlush.StepAligned | services/telemetry-service/src/index.js:59-84 | pending receipts match the history buffer, awaiting ones the batch in flight, through swap, failure and restore |
| DeleteAfterFlush.GuardedReach | services/telemetry-service/src/index.js:59-120 | guarded runs reach only states in which receipts and packets are aligned and deliveries are told apart |
| DeleteAfterFlush.GuardedRunSafe | services/telemetry-service/src/index.js:59-120 | in a guarded run everything deleted or being deleted is stored |
| DeleteAfterFlush.DeletedImpliesDurable | services/telemetry-service/src/index.js:15-18 | in every run in which no flushAndAck starts with receipts pending during a flush, a deleted message's packet is in the history collection and its vehicle's document is at least as new |
| DeleteAfterFlush.DeletedIsAccountedFor | services/telemetry-service/src/index.js:59-88 | in every run a deleted message's packet is stored, in memory, or was in memory at a crash |
| DeleteAfterFlush.StartIsSafeExactly | services/telemetry-service/src/index.js:61-88 | after any guarded run, starting flushAndAck leaves only stored packets to be deleted if and only if no flush is in flight or no receipt is pending |
| DeleteAfterFlush.UnsafeStartCanLose | services/telemetry-service/src/index.js:124-127 | after any guarded run that fails that condition, the deletion of a pending receipt and the exit of the process, as at a shutdown, lose a packet: its message is deleted and it is neither stored nor held by any instance |
| DeleteAfterFlush.UnsafeStartIsReachable | services/telemetry-service/src/index.js:86-88 | such a state is reached from the start by receive, flush, receive |
| LastWriteWins.NewestJoined | services/telemetry-service/src/batcher.js:28 | when a packet joins a set of packets written, it is the last arrival of maximal timestamp if newer, or of the same timestamp and arrived later |
| SingleInstance.SingleStep | services/telemetry-service/src/batcher.js:81-129 | every step of a single instance keeps: what is in memory are the last arrivals in order, nothing buffered has been sent while a flush is in flight, and of what arrived earlier the newest not lost is the newest written |
| SingleInstance.ExpectedInParts | services/telemetry-service/src/batcher.js:118-125 | what should be stored is the newest written of the earlier arrivals merged with what is in memory |
| LateUpserts.StoredStep | services/telemetry-service/src/batcher.js:27-40 | every step keeps the stored packet the newest written, unless it is a late upsert that regresses it |
| LateUpserts.LastWriteWinsAlways | services/telemetry-service/src/batcher.js:5-12 | at every point of every single-instance run, through partial writes, failures, retries, crashes and late writes, in which no late upsert has regressed it: the document shows the last arrival of maximal timestamp of all packets written, and merged with those in flight and buffered gives that of all packets no crash lost; said of packets, or of the documents they are stored as |
| LateUpserts.LastWriteWinsPromptly | services/telemetry-service/src/batcher.js:5-12 | with no late upserts the stored packet is that very packet; and if no crash lost any, that of all packets that have arrived |
| LateUpserts.DrainedHoldsNewest | services/telemetry-service/src/batcher.js:5-12 | once drained, the database holds of each vehicle exactly that packet's document when its field set is fixed, every field of it with its value otherwise, and nothing of a vehicle of which no packet was kept or written |
| LateUpserts.StaysRight | services/telemetry-service/src/batcher.js:27-40 | from every reachable state in which the stored packet is right, however reached, it stays right until a late upsert regresses it |
| LateUpserts.NewerWriteRepairs | services/telemetry-service/src/batcher.js:28 | a regressed document is right again as soon as the instance writes a packet at least as new |
| LateUpserts.PromptRunIsOrderly | services/telemetry-service/src/batcher.js:95-100 | a run in which no given-up upsert lands late is among those these theorems cover |
| LateUpserts.LateUpsertRegressesExactly | services/telemetry-service/src/batcher.js:28 | a late upsert keeps the stored packet right if and only if it does not tie with the newest packet written, or arrived after it, or is the same |
| LateUpserts.LateUpsertShowsExactly | services/telemetry-service/src/batcher.js:28 | it leaves the document showing every field of the newest packet written if and only if it does not tie with that one, or arrived after it, or agrees with it on the fields both have |
| LateUpserts.LateUpsertReplacesExactly | services/telemetry-service/src/batcher.js:28 | with a fixed field set it leaves exactly that packet's document under the condition for the stored packet, documents compared |
| LateUpserts.LateUpsertHarmsExactly | services/telemetry-service/src/batcher.js:28 | it keeps stored and yet to be upserted together right if and only if moreover that newest packet is not itself yet to be upserted |
| LateUpserts.CrashExposes | services/telemetry-service/src/index.js:180 | after a crash both together are right if and only if what was stored was |
| LateUpserts.MemoryMakesUp | services/telemetry-service/src/batcher.js:118-125 | from every reachable state in which both together are right they stay right, whether or not the document alone is, as long as no late upsert meets that condition and no crash comes while the document alone is wrong |
| LateUpserts.LateUpsertCanRegress | services/telemetry-service/src/batcher.js:118-125 | runs, with and without a restart before the landing, in which a late upsert leaves a drained document with an earlier arrival's value in every field in which the two packets of one timestamp differ |
| Documents.DocumentsShowOnePacket | services/telemetry-service/src/batcher.js:25-40 | whatever fields packets carry, in every run of any number of instances each document holds every field of one packet with its value, vehicle and timestamp included: the last to be let through |
| Documents.DocumentsAreWholePackets | services/telemetry-service/src/batcher.js:25-40 | with one field set per vehicle each document is exactly one received packet in every run of any number of instances |
| Convergence.Converges | terraform/sqs.tf:1-4 | with any number of instances, redelivery and late writes, once drained each packet received and not lost is in the history collection and its vehicle's document at least as new, with the timestamp of a received packet |
| Convergence.ConvergesExactly | terraform/sqs.tf:1-4 | once drained, exactly the vehicles of which a packet was not lost, or written nevertheless, have a document, with exactly the greatest timestamp of those packets; if none was lost, of all received |
| Convergence.TimestampsNeverRegress | services/telemetry-service/src/batcher.js:5-7 | along every run no document's timestamp decreases |
| Draining.CanDrain | services/telemetry-service/src/batcher.js:81-129 | from every reachable state of any number of instances, a run of flush steps, each flush started only when none is in flight, ends with nothing in memory, and nothing is lost, given up or deleted on the way |
| Draining.DrainedStateExists | services/telemetry-service/src/index.js:15-18 | and there every packet received and not lost before is in the history collection and its vehicle's document at least as new |
| HistoryRecords.HistoryConserved | services/telemetry-service/src/batcher.js:56-129 | in every run flushed, in-flight and buffered packets are the received sequence in order, the counters agree, none is lost, and the buffer indexes the history buffer |
| HistoryRecords.HistoryExactlyOnce | services/telemetry-service/src/batcher.js:107-125 | if failed inserts write nothing and no instance crashes, then in every run of any number of instances, in the middle of an insert too, the history collection and what is yet to be written are together the packets received, each exactly once |
| Dispatch.StepBooks | services/dispatch-service/src/store.js:114-144 | every step keeps each vehicle on at most one ride and the fleet balanced |
| Dispatch.StepLocking | services/dispatch-service/src/store.js:117-134 | a row lock belongs to exactly the transaction that updated the row and ends with it |
| Dispatch.Reached | services/dispatch-service/src/store.js:72-144 | every reachable state satisfies the invariant: fleet balance, locking, exact candidate lists, a ride for every success, entries cleared by invalidation |
| Dispatch.NoDoubleDispatch | services/dispatch-service/src/store.js:112-144 | over all interleavings, stale caches, replica lag and rollbacks, no vehicle is on two rides, and the initially available vehicles are the still available ones plus the rides |
| Dispatch.SafeWhateverIsCached | services/dispatch-service/src/store.js:17-21 | from any state with balanced books and consistent row locks, whatever the caches hold and the requests were offered, no run puts a vehicle on two rides, and the rides it adds are a run of the atomic specification |
| Dispatch.StepRefines | services/dispatch-service/src/store.js:17-21 | each step is invisible or takes a vehicle available at that moment; "just taken" is answered only for a vehicle no longer available |
| Dispatch.RunRefines | services/dispatch-service/src/store.js:17-21 | every stretch of a run is a run of the atomic "take an available vehicle" specification |
| Dispatch.DispatchRefines | services/dispatch-service/src/store.js:17-21 | the committed rides of every run are a run of that specification from the same vehicles, so staleness costs retries and nothing else |
| Dispatch.ListsComplete | services/dispatch-service/src/store.js:72-110 | every list, from cache, replica or primary, holds only vehicles that seat the party and every such vehicle still available whose document its Mongo read saw |
| Dispatch.RowsReadAreCurrent | services/dispatch-service/src/store.js:81-86 | a request reads exactly the vehicles with enough seats that are on none of the rides visible to it; without a replica, exactly those available at that moment |
| Dispatch.CachedListIsServed | services/dispatch-service/src/store.js:73-79 | a cached list is served exactly within 3 seconds of its writing, and an empty one answers that none is available |
| Dispatch.CacheChanges | services/dispatch-service/src/store.js:109 | a list built is cached under its party size from that moment on; a successful deletion removes exactly the lists for 1 to 7 seats |
| Dispatch.NoneAvailableIsTrue | services/dispatch-service/src/index.js:116-119 | "no available vehicle" is never answered while one with enough seats and a visible document is available |
| Dispatch.AssignedSeatsTheParty | services/dispatch-service/src/index.js:130-139 | a successful request has its own committed ride on a vehicle with enough seats |
| Dispatch.InvalidationRace | services/dispatch-service/src/store.js:134-136 | for a vehicle of at most 7 seats whose invalidation succeeded, a cached list still holds it only if written after the deletion from a read that missed its ride |
| Dispatch.StaleEntryExpires | services/dispatch-service/src/store.js:21-27 | from 3 seconds after an entry was written every list served under its key was written later |
| Dispatch.ClearedVehicleReturns | services/dispatch-service/src/store.js:73-109 | for every vehicle a party of one can be offered, a run of two requests after which the vehicle is on a ride, its invalidation has succeeded, and a live cached list offers it |
| Dispatch.LateFillRestores | services/dispatch-service/src/store.js:81-109 | a list being cached holds a vehicle if and only if it seats the party, its document was seen and its ride was not visible to the read |
| DispatchProgress.NobodyIsStuck | services/dispatch-service/src/index.js:116-139 | in every reachable state each unanswered request has a step of its own that is no failure, or waits for a row lock whose holder has one |
| DispatchProgress.OwnStepsBounded | services/dispatch-service/src/index.js:116-139 | in every run a request takes at most nine steps of its own |
| DispatchProgress.CanBeAnswered | services/dispatch-service/src/store.js:114-144 | from every consistent state each request can be answered without a failure within eleven steps, the release of a lock it waits for included |
| FleetStore.WithSeats | services/dispatch-service/src/store.js:81-86 | the query selects exactly the available rows with enough seats |
| FleetStore.WithoutKeys | services/dispatch-service/src/store.js:135-136 | the deletion removes exactly the keys for 1 to 7 seats |
| FleetStore.Store.GetCached | services/dispatch-service/src/store.js:73-79 | a protocol step: a hit serves the live entry's list, a failed or expired get is a miss |
| FleetStore.Store.SelectRows | services/dispatch-service/src/store.js:81-90 | a protocol step: the rows visible where candidate lists are read |
| FleetStore.Store.FindDocuments | services/dispatch-service/src/store.js:92-106 | a protocol step: exactly the rows with a position document |
| FleetStore.Store.SetCached | services/dispatch-service/src/store.js:88-109 | a protocol step: the list is cached for 3 seconds, or not at all when Redis fails |
| FleetStore.Store.GuardedUpdate | services/dispatch-service/src/store.js:118-125 | a protocol step: one row exactly when the vehicle is still available |
| FleetStore.Store.CommitTrip | services/dispatch-service/src/store.js:126-134 | a protocol step: status and ride change together |
| FleetStore.Store.DeleteKeys | services/dispatch-service/src/store.js:135-136 | a protocol step: the invalidation after a commit |
| FleetStore.Store.AvailableCandidates | services/dispatch-service/src/store.js:72-110 | one uninterrupted call is a run of the protocol: a live entry's list, or else exactly the readable rows with enough seats and a document, then cached |
| FleetStore.Store.AssignTrip | services/dispatch-service/src/store.js:114-144 | one uninterrupted call is a run of the protocol: null exactly when the vehicle is no longer available; on a failed insert nothing changes; otherwise the ride is recorded, the vehicle taken and keys 1 to 7 cleared |
| FleetStore.Store.Replay | services/dispatch-service/src/store.js:8-10 | a protocol step of the environment: candidate lists read the rides replayed so far |
| RideService.HandleRide | services/dispatch-service/src/index.js:116-154 | a whole ride with nobody else about is a run of the protocol: each plan has its answer, a planned ride is booked exactly if its vehicle is still available and the insert works, that vehicle has the least true score of all vehicles of the very list served, it alone changes status and gets one ride, and exactly then it is sent its route |
| Simulator.Vehicle.Dispatch | node-red/flows.json:346 | the route without its first node exactly when that is the vehicle's own, progress zero, nothing else changed |
| Simulator.Vehicle.Tick | node-red/flows.json:93 | the whole new state after a tick, driving or idle |
| Simulator.TickDrives | node-red/flows.json:93 | a driving tick goes speed / 120 km along a road of at least 0.001 km; short of the end the vehicle reports the point of the line as far along as its progress says, otherwise it is at the next node, parked if that is the last |
| Simulator.TickIdles | node-red/flows.json:93 | an idle tick leaves it at its node, charging exactly if the battery is low and parked otherwise |
| Simulator.TickProgress | node-red/flows.json:93 | edge progress stays in [0,1) and each tick at no less than the minimum speed brings arrival at least one tick nearer |
| Simulator.StaysOnRoute | node-red/flows.json:93 | without further commands the vehicle visits the nodes of its route in order, one by one: its place on the path starts at 0 and each tick keeps it or raises it by one |
| Simulator.DrivingMeansRoute | node-red/flows.json:93 | after a tick the vehicle is driving exactly while it has a route, and its position is on the line of its current road at its progress, or at its node |
| Simulator.Arrives | node-red/flows.json:93 | it stays on its path, and is at its end within a number of ticks computed from road lengths and minimum speed |
| Simulator.BoundIsTight | node-red/flows.json:93 | at a constant speed it is at the end of its path after exactly the ticks computed for that speed, and not before |
| Simulator.SnapsHome | services/dispatch-service/src/select.js:31-32 | a vehicle at a landmark is snapped to that landmark when landmarks lie more than twice the reporting error apart |
| Simulator.DispatchStaysOnRoad | node-red/flows.json:346 | after a dispatch every hop is a road if and only if the route is empty, starts at the vehicle's node or starts next to it |
| Simulator.Delivers | services/dispatch-service/src/index.js:143-154 | a parked vehicle that is chosen and dispatched drives a shortest path of roads from its own node, node by node in order, and parks at the pickup within the computed number of ticks |
| Simulator.StopReturns | node-red/flows.json:346 | after a stop and any number of ticks the vehicle is back at the last node it reached, not driving; it is where it was stopped if and only if it stood at that node |
| Simulator.RedispatchAfterStop | node-red/flows.json:346 | a stopped vehicle can be dispatched again, at once or however long it waited: it drives the new route in order to its end within the computed ticks, although stop leaves its edge progress behind |

## Left out

- The haversine formula and floating-point rounding: distances are real-valued and only assumed to be a metric.
- Landmark names, `idByName`, ETA and rounding in responses, request parsing and the 400 and 404 answers: direct checks with no interaction.
- Client mechanics of MQTT, HTTP, SQS, Redis, Postgres and MongoDB: kept as steps that take effect or fail.
- Ingestion.StepService: a failed flush restores the batcher and the receipts in one step; between the two catch blocks no timer can fire, and a message received there commutes with the restore.
- Ingestion.StepService: a history insert given up by its instance writes nothing afterwards; only upserts may land late. A late insert would add one more copy of a history record and touch no document.
- HistoryRecords.HistoryExactlyOnce: leaves out crashes, after which redelivery stores a packet a second time.
- Ingestion.StepService: a response of up to ten messages may be split between steps, which allows more interleavings than the code.
- LateUpserts.LastWriteWinsAlways: leaves out the stretch of a run after a late upsert has regressed the vehicle's document, where it is false (`LateUpserts.LateUpsertRegressesExactly`), until a write repairs it (`LateUpserts.NewerWriteRepairs`, `LateUpserts.StaysRight`). Packets that a crash lost do not count; they come back by redelivery, as packets of their own.
- The MQTT branch of the telemetry service has no receipts; what is proved of the batcher and the database covers it.
- Concurrent first upserts of one vehicle: the unique index makes one of them fail and the batch be retried; upserts are taken as atomic.
- String values beginning with `$`, and the order of non-number timestamps beyond text and documents lying above numbers.
- The event router's validator: only its minimum for timestamps is used.
- Dispatch.NoDoubleDispatch: assumes that nothing else makes a vehicle available again; no code in the repository does.
- Candidates in `Dispatch` are vehicle ids; position, battery and score are in `Selection`, and any listed vehicle may be the choice.
- The simulator's battery, seats, doors, heading, bus loop, load-test vehicles and change filter; a tick takes its speed and whether the battery is low as inputs.
- Terraform, Docker, SQL seeds and replication scripts: only replica lag, redelivery and several instances are used.

# A verified model of redis-rust

This project models the parts of redis-rust where a Redis-compatible server can go wrong in ways that no
single function shows: the wire format under arbitrary read boundaries, commands scattered over shards,
transactions with other clients running in between, reply slots shared by concurrent requests, and replicas
that exchange updates over a network that loses, repeats and reorders them. `dafny verify dfyconfig.toml`
checks everything.

Where the source works on values, the model is functions. Where it updates objects, the model is a class
whose methods are proved to do what a specification function says, and the theorems are about those
functions and about runs of them.

- **Wire format** (`Numbers`, `Resp`, `RespVerdicts`, `RespReference`, `RespBuffers`, `Session`, `FastPath`).
  Exactly which inputs the decoder rejects, waits on or panics on, and which of those it waits on it waits on in
  vain. A verdict other than "incomplete" never changes when more bytes arrive. From that: round trip, unique
  decoding, and the exact condition under which the way a stream is cut into reads does not matter. The
  zero-copy codec refines the simple parser. The in-place fast path slices what the codec reads when it is
  given the header's true length; with the length in the code, exactly what it leaves to the codec.
- **Shards** (`Executor`, `ShardedStore`, `ShardedFront`, `Interleaving`). Routing, fan-out and reassembly
  give the replies and the state of one store, for every order in which the shards serve their messages.
  Runs over the string path and the byte path do so exactly when the two hashes agree, and an MGET beside an
  MSET exactly when no two shared keys lie on shards that serve the two in different orders.
- **Transactions** (`Transactions`, `Isolation`). The session's hidden state is what a client can read from
  its own replies; EXEC runs what was answered QUEUED; and it is isolated exactly when nobody else changes
  its keys.
- **Reply slots** (`ResponsePool`, `SlotProtocol`). A state machine of callers, shard actors, wake-ups,
  cancellations and failing actors, in which every request gets its own answer and no wake-up is lost.
- **Replication** (`Lattice`, `Replica`, `Convergence`, `Recovery`, `Merkle`, `AntiEntropy`, `SyncRounds`,
  `Reached`). Exactly when the merge laws hold, when the executor agrees with the replicated state,
  convergence of whole runs with restarts, what equal digests mean, what selective synchronisation achieves,
  and when repeated rounds get stuck short of the merge.
- **Hot keys and simulated time** (`HotKeys`, `HotKeyCounts`, `HotKeyIntervals`, `SimTime`, `Timers`). What the
  counters hold after a run and so which keys are promoted, exactly which settings keep hot keys tracked, what
  a skewed clock shows, and that timers fire once and on time.

## What turned out false

The model follows the code. Each of these has an exact condition and a concrete input that fails it, named
in brackets and listed in the table below.

- README.md:99 says that merging replicated values is commutative, associative and idempotent. It is
  idempotent. It is associative among values of one kind, and in general exactly under
  `Lattice.GroupingHarmless` (`MergeAssociativeIff`, `MixedKindsNotAssociative`). It commutes exactly when
  both outer stamps carry one replica id and stamps identify writes, because the merged stamp keeps the
  receiver's id (`MergeCommutesIff`, `OwnIdShows`).
- For the same reason two replicas that have exchanged everything can report each other as divergent for
  ever, although no further exchange changes anything (`ExchangeSettlesIff`, `ExchangeNeverSettles`).
- Fetching only the divergent buckets does not reach the join of the whole states: digests do not cover
  register stamps, expiries, tombstones or hash fields. It reaches it exactly when the skipped values are
  already covered (`SelectiveSyncIsFullIff`, `SelectiveSyncMissesRegister`, reached by `BlindPairReached`).
- Rounds cut off at the key limit can get stuck. Each round names the divergent buckets afresh, so a bucket
  that has caught up makes room for the next; a run stays short of the merge exactly when from some round on
  all that is sent is covered while some key is not (`NeverReachesIff`). Two keys in two buckets both arrive
  one at a time (`SplitReaches`); two keys in one bucket do not (`JointStalls`).
- A state listed in two iteration orders is reported as divergent from itself (`DigestsEqualIff`,
  `FalseAlarmExists`).
- A refused `SET NX`, an `MSET` and a `FLUSHDB` are not recorded as what they did (`LocalAgreesIff`,
  `UnrecordedShows`).
- A local write replaces a key's expiry and a delta merges it, so replicas can keep different expiries
  (`ExpiryFollowsIff`, `ExpiryStays`).
- A replica restarts with its clock at zero, so its next writes can reuse or fall behind its own stamps.
  The cluster then no longer converges, exactly for the writes and deletes that do not land
  (`RecordingSettlesIff`, `RestartDiverges`).
- README.md:95 says that transactions work correctly across shards. A write by another client between the
  last WATCH comparison and the queued commands goes unnoticed (`ExecIsolatedIff`, `WatchMissesLateWrite`),
  and an MGET can show half of an MSET (`AtomicIff`, `TornRead`).
- The byte path and the string path hash keys differently, so a GET on one does not see a SET on the other
  (`MixedRunsAgreeIff`, `SplitKeyShows`).
- With the header length in the code, the fast path leaves every GET and SET to the codec unless the item
  after the name is a simple string or an error that starts with `$`; such a GET it reads past its end
  (`DeclinesIff`, `FastPathDeclines`, `FastPathMisreads`).
- The high-throughput preset reaches a state that its own invariant forbids, as does every setting outside
  `HotKeyIntervals.Safe` (`AlwaysCoveredIff`, `HighThroughputBreaks`).
- A caller whose pooled request was in the mailbox of an actor that ended waits for ever (`AnswerableIff`,
  `AbandonedWaits`).
- Bytes that follow a protocol error in the same read are dropped, and are decoded when they come in the next
  (`ChunkingIff`, `SplitShows`).

## Model

| member | source | states |
|---|---|---|
| `Numbers.ParseFormat` | src/redis/resp_optimized.rs:63-71 | every i64 printed in decimal is parsed back |
| `Resp.ParseStable` | src/redis/resp_optimized.rs:30-133 | a value, an error or a panic on a prefix is the verdict on every longer input |
| `Resp.RoundTrip` | src/redis/resp_optimized.rs:30-181 | the printed form of any nested value without CR in its text, followed by anything, decodes to that value and exactly its printed length |
| `Resp.RoundTripIff` | src/redis/resp_optimized.rs:45-61 | the round trip holds exactly for the values without CR in their text |
| `Resp.StrictPrefixIncomplete` | src/redis/resp_optimized.rs:30-43 | every strict prefix of a printed value asks for more bytes |
| `Resp.UniqueDecoding` | src/redis/resp_optimized.rs:141-181 | equal streams that start with printed values start with the same value and continue alike |
| `RespVerdicts.InvalidIff` | src/redis/resp_optimized.rs:30-132 | the codec rejects its input exactly when the type byte is unknown, the first line after `:`, `$` or `*` is no i64, or the first array item that does not decode is rejected |
| `RespVerdicts.IncompleteIff` | src/redis/resp_optimized.rs:30-132 | it waits exactly when there is nothing yet, the first line has not ended, a payload has not all arrived, or the first array item that does not decode is waited for |
| `RespVerdicts.CrashIff` | src/redis/resp_optimized.rs:73-123 | it panics exactly on a count below -1, a length below -1 whose end offset overflows, or such an array item |
| `RespVerdicts.WaitsInVainIff` | src/redis/resp_optimized.rs:30-132 | input it waits on can still become a value exactly when the open line has no lone CR and can become a large enough number, a payload is short, or the item waited for is such input |
| `RespBuffers.ParseArrayLoop` | src/redis/resp_optimized.rs:97-122 | the array loop over offset and elements gives the decoder's verdict on every input |
| `RespBuffers.Buffer.EncodeInto` | src/redis/resp_optimized.rs:141-181 | appends exactly the printed form to what the buffer held |
| `RespBuffers.Buffer.EncodeEach` | src/production/connection_optimized.rs:1422-1491 | the element loop appends the printed elements in order |
| `RespReference.FindCrlfLoop` | src/redis/resp.rs:111-118 | finds the first CR that a LF follows, or none |
| `RespReference.SearchesAgree` | src/redis/resp_optimized.rs:124-133 | the two line-end searches stop at the same place whenever the first CR is followed by LF |
| `RespReference.CodecRefines` | src/redis/resp.rs:20-109 | what the codec accepts, the simple parser accepts with the same value and length |
| `RespReference.CodecAcceptsClean` | src/redis/resp.rs:20-109 | what the simple parser reads without CR in its text, the codec reads alike, except that a count below -1 anywhere makes it panic |
| `RespReference.ParsersAgreeIff` | src/redis/resp_optimized.rs:97-133 | on what the simple parser accepts, the codec agrees exactly when no text holds a CR and no array count is below -1 |
| `RespReference.RejectsAlike` | src/redis/resp.rs:20-118 | what the codec rejects, the simple parser rejects for the same reason |
| `RespReference.ParsersDiffer` | src/redis/resp_optimized.rs:97-133 | two inputs on which the parsers differ: a stray CR in a simple string, and a count of -2 |
| `Session.Connection.Parse` | src/redis/resp_optimized.rs:15-28 | decodes one value and advances past exactly its bytes |
| `Session.Connection.OnRead` | src/bin/server_persistent.rs:904-925 | appending a read and parsing until nothing comes out adds the drained events and leaves the drained rest |
| `Session.SplitsAgreeIff` | src/bin/server_persistent.rs:904-925 | for any steady decoder, no split of a stream into reads matters exactly when no strict prefix raises a protocol error |
| `Session.ChunkingIff` | src/bin/server_persistent.rs:904-925 | the same for the RESP codec |
| `Session.SplitShows` | src/bin/server_persistent.rs:904-925 | a stream that decodes differently in one read and in two |
| `Session.ChunkingIndependence` | src/bin/server_persistent.rs:904-925 | a stream that decodes without protocol error gives the same values and leftover under every split |
| `Session.StreamDecodes` | src/bin/server_persistent.rs:904-925 | printed values and part of another, cut into reads in any way, are decoded to exactly those values in order, and the part is kept |
| `Session.StreamFails` | src/bin/server_persistent.rs:904-925 | rejected input after printed values gives the values, then the error, and keeps nothing |
| `FastPath.FastGetAgrees` | src/production/connection_optimized.rs:1286-1338 | with the true header length, GET slices the key and consumes the bytes that the codec does, unless the length is written with a minus sign |
| `FastPath.FastSetAgrees` | src/production/connection_optimized.rs:1342-1417 | the same for SET with both of its fields |
| `FastPath.DeclinesIff` | src/production/connection_optimized.rs:1263-1417 | with the header length in the code, a buffer that starts like a GET or SET is left to the codec exactly when byte 14 is not `$` or a length is refused |
| `FastPath.FastPathDeclines` | src/production/connection_optimized.rs:1263-1289 | in a command the codec accepts, byte 14 is `$` exactly when the item after the name is a simple string or an error that starts with `$`; every other GET and SET is declined |
| `FastPath.TakenReadsOn` | src/production/connection_optimized.rs:1286-1338 | a GET that is taken is read past its end: the key and a line end are no part of the command the codec reads |
| `FastPath.FastPathMisreads` | src/production/connection_optimized.rs:1286-1338 | a concrete buffer of that kind |
| `FastPath.FastExtends` | src/production/connection_optimized.rs:1286-1417 | what the fast path takes from a buffer it takes from every longer one, for any header length |
| `FastPath.FastNeverEarly` | src/production/connection_optimized.rs:1286-1417 | part of a command it would take whole is never executed |
| `Executor.PutAllAt` | src/redis/executor/string_ops.rs:244-268 | MSET stores each key's last value and keeps the other keys |
| `Executor.RemovedIsDrop` | src/redis/executor/key_ops.rs:19-57 | DEL's count is the number of keys that disappear, repeated keys included |
| `Isolation.ReadYourWrite` | src/redis/executor/string_ops.rs:11-165 | a SET that applies is what GET shows after any run of commands that keep away from the key |
| `Executor.ErrorsChangeNothing` | src/redis/executor/string_ops.rs:38-205 | every command that answers with an error leaves the store as it was |
| `Executor.TypeErrorIff` | src/redis/executor/string_ops.rs:11-205 | GET, GETSET, APPEND and INCRBY answer a type error exactly when the key holds no string |
| `Executor.MGetIsGets` | src/redis/executor/string_ops.rs:225-242 | position i of MGET is GET's answer when that is a string, and nil otherwise |
| `Executor.SetAppliesIff` | src/redis/executor/string_ops.rs:39-165 | SET stores exactly when NX finds no key by EXISTS, XX finds one, and GET would not be a type error |
| `Executor.AppendAnswersLength` | src/redis/executor/string_ops.rs:168-185 | APPEND answers the length of what GET then shows, the old text and the new one |
| `Executor.IncrAnswersIff` | src/redis/executor/string_ops.rs:543-586 | INCRBY answers a number exactly when GET shows nothing or an i64, and the sum is an i64 |
| `Executor.SizeIsExists` | src/redis/executor/mod.rs:881-884 | DBSIZE is EXISTS of any list that names every key once |
| `Executor.IncrThenGet` | src/redis/executor/string_ops.rs:543-586 | an INCRBY that answers a number leaves exactly that number, the old one plus the step |
| `Executor.IncrTwice` | src/redis/executor/string_ops.rs:543-586 | two increments that answer numbers do what one by their sum does |
| `Executor.AppendTwice` | src/redis/executor/string_ops.rs:168-205 | two APPENDs are one APPEND of both texts; GETSET answers as GET and stores as SET |
| `ShardedStore.WholeAt` | src/production/sharded_actor.rs:428-441 | with every key on its hash shard, the whole store holds a key exactly as that shard does |
| `ShardedStore.RoutedCommand` | src/production/sharded_actor.rs:1394-1404 | a one-key command on its shard answers and acts as on the whole store |
| `ShardedStore.MsetRefines` | src/production/sharded_actor.rs:1223-1267 | per-shard batches leave the whole store as one MSET, the last of repeated keys winning |
| `ShardedStore.DelRefines` | src/production/sharded_actor.rs:1338-1352 | per-shard DELs leave the whole store as one DEL |
| `ShardedStore.DelCounts` | src/production/sharded_actor.rs:1353-1366 | the per-shard counts add up to the count of the whole DEL |
| `ShardedStore.FrontRefines` | src/production/sharded_actor.rs:1155-1404 | with every key on its shard, every modelled command has the reply and the effect of a single store and leaves every key on its shard |
| `ShardedStore.MixedRunRefines` | src/production/sharded_actor.rs:428-459 | a run over the string path and the byte path has the replies and the whole store of one map when the two routes agree on the keys the byte path touches |
| `ShardedStore.MixedRunsAgreeIff` | src/production/sharded_actor.rs:428-459 | from empty shards every run over both paths answers like one map exactly when the routes agree on every key the byte path may touch |
| `ShardedStore.SplitKeyShows` | src/production/sharded_actor.rs:428-459 | a SET on the byte path and a GET on the string path of a key the two hash apart: the GET shows nothing |
| `ShardedStore.Group` | src/production/sharded_actor.rs:1186-1196 | groups the elements by shard in their original order |
| `ShardedFront.WriteBack` | src/production/sharded_actor.rs:960-966 | puts every answer at the position its key came from and leaves the others |
| `ShardedFront.ShardedActorState.Dispatch` | src/production/sharded_actor.rs:1347-1354 | whatever the serving order, each shard runs its own command once and its reply is kept |
| `ShardedFront.ShardedActorState.Delete` | src/production/sharded_actor.rs:1338-1366 | for every serving order, the shards and the summed count are those of the front end's specification |
| `ShardedFront.ShardedActorState.CountExisting` | src/production/sharded_actor.rs:1368-1392 | one request per key, repeated keys counted every time |
| `ShardedFront.ShardedActorState.Size` | src/production/sharded_actor.rs:1283-1300 | DBSIZE is the sum of the shards' sizes |
| `ShardedFront.ShardedActorState.Clear` | src/production/sharded_actor.rs:1155-1164 | FLUSHDB empties every shard for every serving order |
| `ShardedFront.ShardedActorState.ListKeys` | src/production/sharded_actor.rs:1166-1179 | the joined listings hold every matching key of the whole store exactly once |
| `ShardedFront.ShardedActorState.Execute` | src/production/sharded_actor.rs:1155-1404 | for every serving order any modelled command meets the front end's specification; with every key on its shard it is a single store's command |
| `ShardedFront.ShardedActorState.Gather` | src/production/sharded_actor.rs:929-969 | position i of the result answers key i, for every key list, route and serving order |
| `ShardedFront.ShardedActorState.FastBatchGet` | src/production/sharded_actor.rs:929-969 | position i answers key i as its shard on the byte route shows it |
| `ShardedFront.ShardedActorState.FastBatchSet` | src/production/sharded_actor.rs:978-1025 | the shards are as after the same SETs one by one on the byte route, each answered OK |
| `Interleaving.ShardsAreSerial` | src/production/sharded_actor.rs:1181-1267 | however the parts of concurrent fan-outs are interleaved, each shard holds and answers what serving its own parts in order gives |
| `Interleaving.ShardOrdersDecide` | src/production/sharded_actor.rs:1181-1267 | two interleavings with the same order at every shard have the same stores and answers |
| `Interleaving.WholeShows` | src/production/sharded_actor.rs:1181-1267 | beside an MSET, each position of the reassembled MGET shows the whole store before or after the MSET, as the key's shard serves the read first or last |
| `Interleaving.WritesLand` | src/production/sharded_actor.rs:1223-1267 | whatever the interleaving, the MSET ends with the effect it has on one store, and every key on its shard |
| `Interleaving.AtomicIff` | src/production/sharded_actor.rs:1181-1267 | an MGET beside an MSET answers as on one store before or after it, for every placed store, exactly when no two shared keys lie on shards that serve the two commands in different orders |
| `Interleaving.TornRead` | src/production/sharded_actor.rs:1181-1267 | an MGET beside an MSET of the same two keys that shows one old and one new value, which one store never does |
| `Transactions.RespEqualIff` | src/production/connection_optimized.rs:1527-1539 | the recursive reply comparison is equality |
| `Transactions.ConnectionHandler.HandleRequest` | src/production/connection_optimized.rs:343-456 | the connection's fields, reply and store after any request are those of the transaction state machine |
| `Transactions.ConnectionHandler.ExecuteTransaction` | src/production/connection_optimized.rs:345-383 | EXEC compares snapshots in order, stops at the first difference, else runs the queue in order |
| `Transactions.ConnectionHandler.Snapshot` | src/production/connection_optimized.rs:442-451 | WATCH appends one snapshot per key, each taken when that key is read |
| `Transactions.ServeFaithful` | src/production/connection_optimized.rs:343-553 | after any requests with anything in between: the hidden queue and error flag are what the client reads from its replies, the watched list holds the keys it knows it watches with what they showed then, and queueing has left the store alone |
| `Transactions.TakeAt` | src/production/connection_optimized.rs:442-451 | each snapshot is what its key shows at the moment it is read |
| `Transactions.ExecOutcome` | src/production/connection_optimized.rs:345-383 | EXEC aborts exactly when a request since MULTI was flagged, is nil exactly when a watched key no longer shows what it did, and otherwise the executor runs the others' commands interleaved with the requests answered QUEUED, each of which gets the executor's reply for the store at that point; inside MULTI it leaves nothing open or watched |
| `Transactions.ExecAlone` | src/production/connection_optimized.rs:345-383 | with nobody else about, EXEC of plain commands leaves the store that running them in order leaves, and answer j is the executor's reply to command j |
| `Transactions.ServedAlone` | src/production/connection_optimized.rs:343-553 | whatever a lone client sends, the store is what the executor makes of exactly the commands its log says have run, in that order |
| `Transactions.RefusalsTell` | src/production/connection_optimized.rs:386-456 | inside MULTI each kind of refusal has a reply of its own |
| `Transactions.CheckStore` | src/production/connection_optimized.rs:359-370 | comparing snapshots runs nothing but other clients' commands |
| `Transactions.CheckIff` | src/production/connection_optimized.rs:359-370 | the comparison passes exactly when every watched key shows its snapshot when it is read again |
| `Isolation.QueueIsolated` | src/production/connection_optimized.rs:374-382 | undisturbed, a queue answers as if alone and every other key is as if only the others had run |
| `Isolation.QueueIsolatedIff` | src/production/connection_optimized.rs:374-382 | every queue over some keys answers as if alone, from every store, exactly when nothing the others run changes one of the keys |
| `Isolation.PoliteHarmless` | src/production/connection_optimized.rs:374-382 | other clients' reads, and their commands on other keys, change none of the keys |
| `Isolation.ExecIsolatedIff` | src/production/connection_optimized.rs:345-383 | every EXEC over some keys, whatever it watches and has queued, replies as if undisturbed and leaves that store followed by the others' commands, exactly when nothing the others run changes one of the keys |
| `Isolation.WatchMissesLateWrite` | src/production/connection_optimized.rs:359-382 | a connection that watches a key, queues a GET and runs EXEC: the key matches its snapshot and the answer is another client's later write |
| `ResponsePool.ResponseSlot.Send` | src/production/response_pool.rs:69-79 | stores the value and takes the waker in one step |
| `ResponsePool.ResponseSlot.Poll` | src/production/response_pool.rs:115-126 | takes the value, or leaves the caller's waker |
| `ResponsePool.ResponsePool.constructor` | src/production/response_pool.rs:142-154 | a pool of distinct empty slots, as many as asked for up to its capacity |
| `ResponsePool.ResponsePool.Acquire` | src/production/response_pool.rs:160-164 | the oldest pooled slot or a new one; empty and no longer pooled if the pool was in order |
| `ResponsePool.ResponsePool.Release` | src/production/response_pool.rs:171-177 | resets the slot and queues it unless the pool is full |
| `SlotProtocol.StepKeeps` | src/production/sharded_actor.rs:336-371 | every step of every caller, actor, wake-up and cancellation keeps the ownership invariant |
| `SlotProtocol.OwnAnswer` | src/production/sharded_actor.rs:336-371 | in every reachable state, a request that returned a value returned its own answer |
| `SlotProtocol.NoSharing` | src/production/response_pool.rs:160-177 | no two requests share a slot, pooled slots are empty, unused and within capacity, and a cancelled request's slot never returns |
| `SlotProtocol.NoStaleMessage` | src/production/sharded_actor.rs:242-257 | an actor never holds a message whose slot is pooled or belongs to another request |
| `SlotProtocol.NoLostWakeup` | src/production/response_pool.rs:69-126 | an unanswered parked request has its waker in its slot; an answered one is running or has its wake-up on the way |
| `SlotProtocol.WakesToAnswer` | src/production/response_pool.rs:69-126 | unless its actor ended, at most the answer and one wake-up stand between a waiting request and a poll that returns its own answer |
| `SlotProtocol.AnswerableIff` | src/production/sharded_actor.rs:336-371 | a waiting request can still be answered exactly when it was not in the mailbox of an actor that ended |
| `SlotProtocol.AbandonedWaits` | src/production/sharded_actor.rs:336-371 | a run that ends with a caller that no continuation answers |
| `SlotProtocol.PoolSuffices` | src/production/response_pool.rs:142-182 | while no more requests are out at once than slots were made at the start, no run makes or throws away a slot |
| `SlotProtocol.FailedPostFinishes` | src/production/sharded_actor.rs:336-371 | a request whose post fails ends without an answer and its slot goes back to the pool |
| `Lattice.JoinLaws` | src/replication/lattice.rs:60-136 | register merge is idempotent and associative, never goes back, and commutes exactly when equal stamps mean equal registers |
| `Lattice.MergeLaws` | src/replication/state/replicated_value.rs:100-130 | value merge is idempotent, and associative among values of one kind |
| `Lattice.MergeAssociativeIff` | src/replication/state/crdt_value.rs:102-128 | for values of any kinds and stamps, merge is associative exactly under a condition on the stamps and on what the dropped value would have changed |
| `Lattice.MergeAssociativeByTime` | src/replication/state/crdt_value.rs:102-128 | with three different outer times, grouping matters in four cases only: the middle time belongs to the value of the other kind and the dropped value would have changed the kept one |
| `Lattice.MergeCommutesIff` | src/replication/state/replicated_value.rs:100-130 | merge commutes exactly when the outer replica ids are equal and stamps identify writes, or for different kinds the outer times differ |
| `Lattice.OwnIdShows` | src/replication/state/replicated_value.rs:100-130 | two writes of different replicas whose merges differ |
| `Lattice.MergeCommutesForReaders` | src/replication/state/replicated_value.rs:100-130 | when stamps identify writes, both merge orders give the same registers and outer time |
| `Lattice.MixedKindsNotAssociative` | src/replication/state/crdt_value.rs:102-128 | three values with distinct stamps whose merge depends on the grouping |
| `Replica.ShardReplicaState.RecordWrite` | src/replication/state/shard_state.rs:39-64 | a write ticks the clock, replaces register and expiry, and queues its delta |
| `Replica.ShardReplicaState.RecordDelete` | src/replication/state/shard_state.rs:66-77 | a delete of a known string buries it under the next tick and queues its delta |
| `Replica.ShardReplicaState.ApplyRemoteDelta` | src/replication/state/shard_state.rs:208-218 | the clock passes the delta's stamp, and the value is merged or adopted |
| `Replica.PendingIsNewest` | src/replication/state/shard_state.rs:233-243 | over any mutations, the capped queue holds exactly the newest deltas of all that were produced |
| `Replica.JustQueued` | src/replication/state/shard_state.rs:39-80 | the value a mutation leaves is the last in the queue, however full that is |
| `Replica.ReplicatedShardActor.Execute` | src/production/replicated_shard_actor.rs:215-222 | executes, then records what the command left behind; the delta handed back is the recorded state |
| `Replica.ReplicatedShardActor.RecordEach` | src/production/replicated_shard_actor.rs:341-348 | DEL records every key and hands back the last key's delta only |
| `Replica.ReplicatedShardActor.ApplyRemoteDelta` | src/production/replicated_shard_actor.rs:445-528 | merges the delta and brings the executor into line, for strings and for hashes |
| `Replica.ReplicatedShardActor.ApplyRecoveredState` | src/production/replicated_shard_actor.rs:254-286 | takes the value as it is, leaves the clock, and writes live data through |
| `Replica.ReplicatedShardActor.Recover` | src/production/replicated_state.rs:503-514 | start-up from any checkpoint, of strings and hashes, in any key order gives exactly its replicated values, what is live of them in the executor, and a clock at zero |
| `Replica.RecoveredShows` | src/production/replicated_shard_actor.rs:254-286 | after recovery the executor shows every hash's live fields and every live string without expiry or with one of at least a second |
| `Replica.LocalAgreesIff` | src/production/replicated_shard_actor.rs:297-365 | a command keeps executor and registers in agreement exactly when it is not a refused SET NX with another value, nor an MSET or FLUSHDB that changes something |
| `Replica.UnrecordedShows` | src/production/replicated_shard_actor.rs:297-365 | a refused SET NX, an MSET and a FLUSHDB after which executor and registers disagree |
| `Replica.RemoteAgreesIff` | src/production/replicated_shard_actor.rs:445-528 | a remote delta keeps the agreement exactly when the executor does not ignore the merged register, or already shows it |
| `Replica.HashThroughIff` | src/production/replicated_shard_actor.rs:458-513 | after a merged hash is written through, the executor shows its live fields exactly when the key held no string and no field the merged hash does not know |
| `Replica.StaleDeltaIgnored` | src/production/replicated_shard_actor.rs:445-548 | a delta no newer than the register changes neither the register nor the executor |
| `Replica.ExpiryShowsIff` | src/production/replicated_shard_actor.rs:445-528 | a merged string with an expiry reaches the executor exactly when the expiry is at least a second and fits |
| `Replica.ExpiryFollowsIff` | src/replication/state/replicated_value.rs:109-114 | a peer that receives all of a writer's deltas for a key, in any order and number, ends with the writer's expiry exactly when the last one is the latest of all |
| `Replica.ExpiryStays` | src/replication/state/replicated_value.rs:109-114 | a write with an expiry and then one without: the peer keeps the expiry |
| `Convergence.StepKeeps` | src/replication/state/shard_state.rs:39-77 | every delivery, offer and restart, and every command whose writes land, keeps: stamps identify the writes to a key, and each replica holds the latest write it has seen |
| `Convergence.RecordedIsLocal` | src/production/replicated_shard_actor.rs:297-365 | the network step of a command is what the shard actor records |
| `Convergence.SameWritesSameRegister` | src/replication/state/shard_state.rs:208-218 | replicas that have seen the same writes to a key hold the same register for it |
| `Convergence.RunAgrees` | src/production/replicated_shard_actor.rs:297-528 | over any such run of faithfully recorded commands, every executor agrees with its registers |
| `Convergence.Converge` | src/production/replicated_shard_actor.rs:254-528 | after any run whose writes land, with losses, duplicates, reordering and restarts, replicas that have seen the same writes hold the same registers, and the same store if every command was recorded faithfully |
| `Convergence.SteadyRunLands` | src/replication/state/shard_state.rs:39-77 | without restarts every write lands, so every such run converges |
| `Convergence.NeverStepsBack` | src/replication/state/shard_state.rs:208-218 | no run takes a key away from a replica that does not restart, or lowers its register's stamp |
| `Recovery.RecordingSettlesIff` | src/production/replicated_state.rs:503-518 | after any recorded write or delete, however the cluster settles, whoever has seen all that another has seen holds the same register or a later one, exactly when the write landed |
| `Recovery.SettlesIffLands` | src/replication/state/shard_state.rs:39-64 | the same for a write |
| `Recovery.BurialSettlesIffLands` | src/replication/state/shard_state.rs:66-80 | the same for a delete of a known key |
| `Recovery.RestartedWriteLandsIff` | src/production/replicated_state.rs:503-518 | the first write or delete of a key after a restart lands exactly when the recovered register is strictly behind tick one and that tick was not used for the key before |
| `Recovery.RestartDiverges` | src/production/replicated_state.rs:503-518 | a run in which a replica restarts from its checkpoint and writes again: both replicas have seen the same writes and answer differently |
| `Merkle.SortIntoBuckets` | src/replication/anti_entropy.rs:166-174 | one pass puts every key's digest into its bucket, in iteration order |
| `Merkle.HashBucket` | src/replication/anti_entropy.rs:103-122 | a bucket's node: hash, count and newest time of its digests, or the empty node |
| `Merkle.FromState` | src/replication/anti_entropy.rs:160-201 | the digest of a state |
| `Merkle.DivergentBuckets` | src/replication/anti_entropy.rs:209-236 | lists, in increasing order, exactly the buckets that differ or that only one side has filled |
| `Merkle.RootsEqualIff` | src/replication/anti_entropy.rs:124-139 | through the fold and its empty-node shortcut, two roots are equal exactly when every bucket hashed the same words |
| `Merkle.BucketsByBits` | src/replication/anti_entropy.rs:160-181 | a digest of depth d has 2^d buckets, and two keys share one exactly when the lowest d bits of their hashes agree |
| `Merkle.SummaryTells` | src/replication/anti_entropy.rs:103-206 | the root counts the keys and carries the newest outer time |
| `Merkle.NoneDivergesIff` | src/replication/anti_entropy.rs:209-236 | digests of any depths name no bucket exactly when they agree with empty buckets added to the shorter one |
| `AntiEntropy.BucketSameIff` | src/replication/anti_entropy.rs:56-80 | a bucket hashes alike exactly when it lists the same keys in the same order with the same outer stamps and visible strings |
| `AntiEntropy.DigestsEqualIff` | src/replication/anti_entropy.rs:160-206 | without collisions, two roots are equal exactly when the states agree on keys, stamps, visible strings and bucket order |
| `AntiEntropy.OrderRaisesFalseAlarm` | src/replication/anti_entropy.rs:169-174 | one state listed in two bucket orders has two different roots |
| `AntiEntropy.FalseAlarmExists` | src/replication/anti_entropy.rs:169-174 | a concrete state, hash and pair of orders of that kind |
| `AntiEntropy.DigestSeesOnlySigs` | src/replication/anti_entropy.rs:56-75 | whatever the hash functions, states that differ only in expiry, tombstones, register stamps or hash fields have equal digests |
| `AntiEntropy.DifferenceIsLocated` | src/replication/anti_entropy.rs:204-236 | with equally many buckets, differing roots always name a bucket |
| `AntiEntropy.SelectKeys` | src/replication/anti_entropy.rs:369-387 | the requested keys in iteration order, cut at the limit |
| `AntiEntropy.RoundIsPartial` | src/replication/anti_entropy.rs:361-403 | any round leaves each key as it was or fully merged, and within the limit merges exactly the requested keys |
| `AntiEntropy.FullRound` | src/replication/anti_entropy.rs:381-387 | an unlimited request for everything is the full merge |
| `AntiEntropy.ViewIsShown` | src/replication/anti_entropy.rs:56-75 | the string a digest covers is what an executor that recovers the value shows |
| `AntiEntropy.QuietBucket` | src/replication/anti_entropy.rs:209-218 | a bucket with equal nodes holds the same keys, stamps and visible strings on both sides |
| `AntiEntropy.SelectiveSyncSuffices` | src/replication/anti_entropy.rs:361-421 | fetching only the divergent buckets shows readers what merging the whole peer would |
| `AntiEntropy.SelectiveExchangeAgrees` | src/replication/anti_entropy.rs:361-421 | selective sync in both directions leaves both replicas with the keys and visible values of the full merge |
| `AntiEntropy.SelectiveSyncIsFullIff` | src/replication/anti_entropy.rs:361-421 | fetching only the divergent buckets gives the full merge of the whole states exactly when our values cover the peer's in the skipped buckets |
| `AntiEntropy.SelectiveExchangeIsFullIff` | src/replication/anti_entropy.rs:361-421 | in both directions it takes both replicas to the join of their whole states exactly when they hold the very same values in the skipped buckets |
| `AntiEntropy.SecondPullFromUpdated` | src/replication/anti_entropy.rs:361-421 | pulling second from the already updated replica gives the same state |
| `AntiEntropy.SelectiveSyncMissesRegister` | src/replication/anti_entropy.rs:56-75 | for every hash and depth, two states that no digest tells apart, so that a newer register is never fetched |
| `AntiEntropy.RoundsReachIff` | src/replication/anti_entropy.rs:369-387 | while the request stays the same, as one for all keys does, any number of capped rounds against an idle peer brings every requested key exactly when the peer has nothing new beyond the limit |
| `AntiEntropy.ExchangeAgrees` | src/replication/anti_entropy.rs:361-403 | a full exchange, simultaneous or one after the other, gives both replicas the same registers and is a fixed point |
| `AntiEntropy.ExchangeSettlesIff` | src/replication/anti_entropy.rs:204-206 | after that exchange the digests match exactly when every shared key had equal outer replica ids and the bucket orders agree |
| `SyncRounds.RoundStallsIff` | src/replication/anti_entropy.rs:323-403 | a round that names the divergent buckets afresh changes nothing exactly when every key it is sent is held and covered |
| `SyncRounds.RoundProgress` | src/replication/anti_entropy.rs:323-403 | every other round leaves strictly fewer of the peer's keys uncovered |
| `SyncRounds.RoundKeepsGoal` | src/replication/anti_entropy.rs:361-403 | no round changes what merging the whole peer would give |
| `SyncRounds.StalledLeaves` | src/replication/anti_entropy.rs:369-387 | a key that a stalled round leaves uncovered is beyond the limit or in a bucket that is not named |
| `SyncRounds.BusyBounded` | src/replication/anti_entropy.rs:323-403 | in any run of rounds, no more rounds change anything than there were uncovered keys |
| `SyncRounds.NeverReachesIff` | src/replication/anti_entropy.rs:323-403 | a run of rounds never reaches the full merge exactly when from some round on every round is stalled with keys uncovered |
| `SyncRounds.SplitReaches` | src/simulator/multi_node.rs:347-374 | two keys in two buckets, sent one at a time: two rounds bring both |
| `SyncRounds.JointStalls` | src/replication/anti_entropy.rs:369-387 | two keys in one bucket, sent one at a time: one arrives and then nothing, for ever |
| `Reached.ExchangeNeverSettles` | src/replication/anti_entropy.rs:204-206 | a run after which the two replicas exchange everything and their digests still differ |
| `Reached.BlindPairReached` | src/replication/state/shard_state.rs:208-218 | a run that reaches the two states that no digest tells apart |
| `AntiEntropy.AntiEntropyManager.ProcessPeerDigest` | src/replication/anti_entropy.rs:323-340 | a peer is divergent exactly while its last root differs, and the answer lists the divergent buckets |
| `AntiEntropy.AntiEntropyManager.CreateSyncRequest` | src/replication/anti_entropy.rs:343-358 | asks for the buckets; the peer is due again exactly when the interval has passed, a clock that went back counting as almost 2^64 ahead, and no other peer's schedule moves |
| `AntiEntropy.AntiEntropyManager.HandleSyncRequest` | src/replication/anti_entropy.rs:361-403 | answers with our digest and at most the limit of requested keys, and learns where the requester stands |
| `AntiEntropy.AntiEntropyManager.OnPartitionHealed` | src/replication/anti_entropy.rs:424-430 | with automatic sync the peer is divergent and due at every time; otherwise, and for every other peer, nothing changes |
| `AntiEntropy.AntiEntropyManager.PeersNeedingSync` | src/replication/anti_entropy.rs:433-446 | exactly the divergent peers and those synced with before that are due again |
| `HotKeys.HotKeyDetector.RecordAccess` | src/production/hotkey.rs:125-141 | cleans up when due, then counts the access or starts tracking within the limit |
| `HotKeys.HotKeyDetector.GetHotKeys` | src/production/hotkey.rs:152-164 | exactly the tracked keys at or above the threshold rate |
| `HotKeys.AdaptiveReplicationManager.Recalculate` | src/production/adaptive_replication.rs:163-188 | overrides become those of the hot keys, and the counters move by the keys gained and lost |
| `HotKeys.AdaptiveReplicationManager.Observe` | src/production/adaptive_replication.rs:136-144 | records the access, then recalculates when due |
| `HotKeys.RunUniform` | src/production/adaptive_replication.rs:84-116 | on any run the tracking limit holds and every override is the hot factor |
| `HotKeys.RunFactors` | src/production/adaptive_replication.rs:150-155 | on any run a key's factor is the hot one or the base one, and not below the base in an orderly configuration |
| `HotKeys.EqualIntervalsCover` | src/production/adaptive_actor.rs:420-425 | with equal intervals, on any run and any clock, hot keys are tracked keys and never outnumber them |
| `HotKeys.RunBalanced` | src/production/adaptive_replication.rs:163-188 | on every run promotions less demotions is the number of overrides plus those that clears threw away |
| `HotKeys.CountersTellIff` | src/production/adaptive_replication.rs:209-229 | the counters give the number of overrides exactly on the runs whose clears found none |
| `HotKeys.HighThroughputBreaks` | src/production/adaptive_replication.rs:31-43 | a run of that preset that ends with two hot keys and one tracked key |
| `HotKeyCounts.RunCounts` | src/production/hotkey.rs:26-33 | over any run that keeps a key, its read and write counts grow by its reads and writes, saturating; its first time stays and its last is the run's |
| `HotKeyCounts.EntersIff` | src/production/hotkey.rs:125-141 | after an access a key is tracked exactly when it was found or there was room, and a key that enters has this access alone |
| `HotKeyCounts.CountsSinceFirst` | src/production/hotkey.rs:17-33 | a key kept since its first access has exactly the run's reads, writes, first and last times |
| `HotKeyCounts.PromotedIff` | src/production/adaptive_replication.rs:136-188 | such a key is promoted by a recalculation exactly when its accesses of both kinds, over the time since the first, reach the threshold |
| `HotKeyIntervals.AlwaysCoveredIff` | src/production/adaptive_actor.rs:420-425 | over every run of accesses on a forward clock, hot keys stay tracked exactly when recalculation is due every millisecond, the intervals are equal, nothing is tracked, or one access is never hot and nothing outlives its millisecond |
| `HotKeyIntervals.Presets` | src/production/adaptive_replication.rs:18-58 | so the default and low-latency presets keep hot keys tracked and the high-throughput one does not |
| `SimTime.LocalTimeMonotoneIff` | src/io/simulation.rs:284-290 | a skewed clock never runs back exactly when it drifts by at least -1,000,000 ppm or stands at zero from the start |
| `SimTime.FixedOffset` | src/io/simulation.rs:284-290 | at the anchor, and without drift at all times, a clock is ahead by its fixed offset, stopped at zero |
| `SimTime.FixedApart` | src/io/simulation.rs:284-290 | clocks that differ in the fixed offset alone stay apart by that difference |
| `SimTime.DriftIsExact` | src/io/simulation.rs:284-290 | what a running clock has drifted by is the exact drift, to the millisecond towards zero |
| `Timers.SimulationContext.AddTimer` | src/io/simulation.rs:175-184 | queues the timer under a new id |
| `Timers.SimulationContext.ProcessTimers` | src/io/simulation.rs:187-199 | pops and wakes timers while the earliest is due |
| `Timers.TimersFireOnceOnTime` | src/io/simulation.rs:137-199 | over any run no timer fires early, and the timers added are the waiting and the fired ones, without repetition |
| `Timers.SweepFiresAllDue` | src/io/simulation.rs:187-199 | a sweep leaves no due timer waiting and fires in order of wake time and id |
| `Timers.SleepEndsIff` | src/io/simulation.rs:187-199 | a timer set for d milliseconds has fired at a sweep e milliseconds later exactly when e is at least d, and waits otherwise |

## Left out

- FastPath.DeclinesIff: lengths near 2^64, where the offset sums would overflow, are not modelled.
- FastPath.TakenReadsOn: speaks of GET; a SET that is taken is only shown to have such an item after its name.
- Resp.ParseStable: a positive array count too large for the element vector makes the code panic; the model has unbounded memory and waits for the elements instead.
- ShardedFront.ShardedActorState.Execute: counts beyond the i64 range are excluded; what concurrent fan-outs do to each other is stated in `Interleaving`, not here.
- Lattice.MixedKindsNotAssociative: a witness; the exact condition is `Lattice.MergeAssociativeIff`.
- Convergence.Converge: string commands without expiry; hash commands and the multi-key routing of the replicated front end are not part of it.
- Transactions.ExecOutcome: a queued multi-key command is one operation on the store, although the source awaits one message per shard; what that does to an MGET beside an MSET is stated in `Interleaving`.
- Transactions.ConnectionHandler.HandleRequest: the same holds for a multi-key command outside a transaction.
- Transactions.ConnectionHandler.ExecuteTransaction: as for `Transactions.ExecOutcome`, other clients run between queued commands, not inside one.
- Interleaving.AtomicIff: one MGET beside one MSET; an EXISTS, DEL or DBSIZE beside another fan-out, and more than two commands at once, only have `Interleaving.ShardsAreSerial`.
- Recovery.RecordingSettlesIff: checkpoints may hold any of the writes that have reached the replica, not only a state it once held.
- SyncRounds.NeverReachesIff: one replica pulls from a peer that does not change; two that pull from each other are in `AntiEntropy.SelectiveExchangeIsFullIff`.
- AntiEntropy.SelectiveSyncSuffices: speaks of visible values; for the whole state see `AntiEntropy.SelectiveSyncIsFullIff`.
- HotKeyIntervals.AlwaysCoveredIff: the threshold must be within reach of the u64 counters over one window and one interval of each kind. Rates are exact, not floating point.
- SimTime.LocalTimeMonotoneIff: integers are unbounded; overflow of the i64 product and sums is not modelled.
- Hash functions, hash-map iteration orders, serving orders, clocks and other clients' commands are parameters; collision freedom is assumed only for the inputs that two compared digests hash at the same place.
- Vector clocks, replication factors inside values, counters and sets as replicated types, and the u64 limit of Lamport clocks.
- Key expiry in the executor, and values other than strings and replicated hashes beyond the fact that string commands reject them.
- Access control, metrics, sockets, the write-ahead log, streaming persistence, Lua, SCAN, RENAME and the other commands that run on the first key's shard only.
- The collectors that gather pipelined GETs and SETs before a batch, the drop handler of pooled responses, the gossip peer numbering and the load balancer.
- `get_keys_in_buckets`, which would only repeat members that are here.

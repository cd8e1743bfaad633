# whirl core, modelled in Dafny

whirl is a deterministic simulator for distributed programs. Every node is a
simulated server with its own step queue, clocks and heap, and the whole
world is driven by one global virtual time. This project models the
sequential core of the simulator and proves what those components promise:

- the two versions of the simulated server's lifecycle:
  - `EngineServer` is the newer explicit state machine Initial/Running/Paused/Crashed;
  - `LegacyServer` is the older version, built on a `paused` flag.
  - Both rely on an abstract time-ordered step queue (`StepQueues`), and Resume is proved to leave no step in the past.
- the arena allocator's intrusive free list and its per-size-class cache (`BlockAllocator`), and the scoped "current heap" guard (`HeapScopes`);
- the per-server monotonic clock (`MonotonicClocks`) and the TrueTime interval answers (`TrueTime`);
- the key-value example's last-writer-wins replica, its most-recent selection and its majority quorums (`KvReplica`);
- the brute-force linearizability checker (`LinCheck`). It is proved to search exactly the backtracking definition, to restore its state after every step, and to be sound: when it answers yes, a legal real-time-respecting linearization exists.
- the RPC service method table (`RpcServices`);
- the history-recording channel (`HistoryChannels`) and the random channel (`RandomChannels`), both over a stand-in channel interface (`Channels`);
- the database write-ahead log (`WriteAheadLog`);
- the log column formatter (`LogWidth`).

Global virtual time, random draws, the time model's clock values and the
current trace id come into the model as parameters. The drift of a clock,
the real-time order of calls, the sequential model of the checker, the
digest calculator, RPC invokers and the serializer are function values
about which nothing is assumed unless a lemma says so. A fatal
`WHEELS_VERIFY` check is a precondition.

## Model

| member | source | states |
|---|---|---|
| EngineServer.Server.constructor | whirl/engines/matrix/server/server.cpp:29-33 | a new server is Initial, has no step queue, an empty heap and no endpoints |
| EngineServer.Server.IsAlive | whirl/engines/matrix/server/server.cpp:48-50 | alive iff the state is Running or Paused |
| EngineServer.Server.Crash | whirl/engines/matrix/server/server.cpp:52-72 | requires a server that has not crashed; afterwards it is Crashed, with no endpoints, no step queue and an empty heap |
| EngineServer.Server.Start | whirl/engines/matrix/server/server.cpp:118-142 | requires Initial or Crashed; the clock is reset so that it reads drift(0) + the time model's value, a fresh empty step queue is installed, the heap grows by what the queue, services and node allocate, the transport gains the endpoints the node opens, and the state is Running |
| EngineServer.Server.FastReboot | whirl/engines/matrix/server/server.cpp:74-79 | Crash then Start: Running over a fresh empty queue with the clock reset; the heap holds exactly what the new node allocated and the transport exactly the endpoints it opened, nothing from before the crash |
| EngineServer.Server.Pause | whirl/engines/matrix/server/server.cpp:81-86 | requires a server that is not Paused (Initial and Crashed are allowed); it becomes Paused and nothing else changes |
| EngineServer.Server.Resume | whirl/engines/matrix/server/server.cpp:88-105 | requires Paused; the queue becomes Resumed(old queue, now); no step is dated before now, and the number of steps is unchanged; the state is Running; the loop terminates because the count of overdue steps still to be requeued decreases |
| EngineServer.Server.IsRunnable | whirl/engines/matrix/server/server.cpp:144-152 | runnable iff Running and the step queue is non-empty |
| EngineServer.Server.NextStepTime | whirl/engines/matrix/server/server.cpp:154-158 | the time of the head step, which no queued step precedes |
| EngineServer.Server.Step | whirl/engines/matrix/server/server.cpp:160-164 | removes exactly the earliest step and returns its action for the caller to run |
| EngineServer.Server.Shutdown | whirl/engines/matrix/server/server.cpp:166-170 | ends Crashed; it crashes (clearing heap and endpoints) only when not already crashed, so an earlier crash's state is kept |
| EngineServer.Server.ComputeDigest | whirl/engines/matrix/server/server.cpp:172-181 | 0 for a crashed server, otherwise the combination of heap bytes and database digest |
| EngineServer.ShutdownTwice | whirl/engines/matrix/server/server.cpp:35-38 | after Shutdown twice the server is Crashed and may be destroyed (CanDestroy, the destructor's check, holds); heap and endpoints are those the first Shutdown left: kept if it had already crashed, cleared otherwise |
| StepQueues.RequeueOverdue | whirl/matrix/server/server.hpp:65-68 | the loop both Resume versions run: while the earliest step is dated before now it is taken and added back at now; the queue ends as Resumed(old queue, now), with no step before now and the same number of steps |
| StepQueues.ResumedNotInPast | whirl/engines/matrix/server/server.cpp:93-102 | after the resume requeueing the queue is still ordered and no step is dated before now |
| StepQueues.ResumedKeepsSteps | whirl/engines/matrix/server/server.cpp:93-102 | the resume keeps the number of steps; every overdue step reappears at exactly now with its action, and every other step is unchanged |
| LegacyServer.MakeName | whirl/matrix/server/server.hpp:118-120 | the name is "Server-" followed by decimal digits that read back as the id |
| LegacyServer.DecimalRoundTrip | whirl/matrix/server/server.hpp:118-120 | the decimal digits of an id read back as the id |
| LegacyServer.NamesAreUnique | whirl/matrix/server/server.hpp:118-120 | distinct ids give distinct server names |
| LegacyServer.Server.constructor | whirl/matrix/server/server.hpp:26-33 | the server is named MakeName(id), unpaused, with an empty event queue, no endpoints, and a created node whose allocation is all the heap holds |
| LegacyServer.Server.Create | whirl/matrix/server/server.hpp:124-130 | the node exists afterwards and the heap grows by what the services and node allocate; the pause flag and endpoints are unchanged |
| LegacyServer.Server.Start | whirl/matrix/server/server.hpp:77-82 | requires a created node; the network gains the endpoints the node opens as it starts; the node, pause flag and heap are unchanged |
| LegacyServer.Server.Pause | whirl/matrix/server/server.hpp:54-57 | requires not paused; sets paused and changes nothing else |
| LegacyServer.Server.Resume | whirl/matrix/server/server.hpp:59-71 | requires paused; the queue becomes Resumed(old queue, now), with no event before now and the same number of events; the flag is cleared |
| LegacyServer.Server.IsRunnable | whirl/matrix/server/server.hpp:94-100 | runnable iff not paused and the event queue is non-empty |
| LegacyServer.Server.NextStepTime | whirl/matrix/server/server.hpp:102-105 | the time of the earliest pending event |
| LegacyServer.Server.Step | whirl/matrix/server/server.hpp:107-111 | removes exactly the earliest event and returns its action |
| LegacyServer.Server.Crash | whirl/matrix/server/server.hpp:132-148 | the event queue is empty, the node is gone, heap and endpoints are cleared, and the server is unpaused |
| LegacyServer.Server.Reboot | whirl/matrix/server/server.hpp:48-52 | Crash, Create and Start: an unpaused server with a node and an empty queue, whose heap holds exactly the new node's allocation and whose endpoints are exactly those the new node opened |
| LegacyServer.Server.Shutdown | whirl/matrix/server/server.hpp:113-115 | the same end state as Crash |
| LegacyServer.Server.Destroy | whirl/matrix/server/server.hpp:39-42 | the destructor crashes the server: the same end state as Crash |
| BlockAllocator.BlockList.Push | whirl/matrix/memory/allocator.hpp:18-21 | the block becomes the head, with the old head as its next; the list's content is the block followed by the old content |
| BlockAllocator.BlockList.TryPop | whirl/matrix/memory/allocator.hpp:23-30 | on an empty list it returns null and the list stays empty; otherwise it returns the most recently pushed block and removes exactly it |
| BlockAllocator.PushThenPop | whirl/matrix/memory/allocator.hpp:18-30 | Push(b) then TryPop() returns b and restores the list's head and content |
| BlockAllocator.BlockCache.constructor | whirl/matrix/memory/allocator.hpp:36-44 | MaxClassIndex + 1 = 11 distinct, empty lists |
| BlockAllocator.BlockCache.TryAcquire | whirl/matrix/memory/allocator.hpp:36-44 | pops from the given class exactly as TryPop does; every other class is unchanged |
| BlockAllocator.BlockCache.Release | whirl/matrix/memory/allocator.hpp:9-14 | requires a power-of-two block size; pushes the block onto its class and leaves every other class unchanged; every cached header keeps a power-of-two size |
| HeapScopes.HeapScopeGuard.constructor | whirl/matrix/common/allocator.hpp:14-17 | saves the current heap and installs the given one |
| HeapScopes.HeapScopeGuard.Global | whirl/matrix/common/allocator.hpp:33-37 | saves the current heap and installs the global (null) heap |
| HeapScopes.HeapScopeGuard.ParentScopeHeap | whirl/matrix/common/allocator.hpp:19-21 | the heap that was current when the guard was made |
| HeapScopes.HeapScopeGuard.Release | whirl/matrix/common/allocator.hpp:23-25 | the saved heap is current again |
| HeapScopes.NestedScopes | whirl/matrix/common/allocator.hpp:12-29 | inside nested guards the innermost heap is current; after they are released in reverse order the original heap is current |
| MonotonicClocks.MonotonicClock.constructor | whirl/engines/matrix/clocks/monotonic.hpp:12-14 | the drift is fixed at construction, and the clock starts reading drift(0) + init |
| MonotonicClocks.MonotonicClock.Reset | whirl/engines/matrix/clocks/monotonic.hpp:16-19 | the last reset is the current global time and init is the time model's value, so the clock reads drift(0) + init at once; the drift is a constant |
| MonotonicClocks.MonotonicClock.ElapsedSinceLastReset | whirl/engines/matrix/clocks/monotonic.hpp:32-34 | the last reset plus the elapsed time is the global time |
| MonotonicClocks.MonotonicClock.Now | whirl/engines/matrix/clocks/monotonic.hpp:21-23 | the reading is never below the reset value, and at the moment of the reset it is drift(0) + init |
| MonotonicClocks.NowNeverRegresses | whirl/engines/matrix/clocks/monotonic.hpp:21-23 | with a drift that never runs backwards, Now never decreases between resets |
| MonotonicClocks.SleepDependsOnlyOnDrift | whirl/engines/matrix/clocks/monotonic.hpp:26-28 | two clocks with the same drift give the same sleep, whatever their reset history or the global time |
| MonotonicClocks.MonotonicClock.AfterGlobalTime | whirl/engines/matrix/server/runtime/time.hpp:50-52 | a sleep or timeout of d started at global time g fires at g plus the drift's length of d, never before g |
| TrueTime.NotBothAfterAndBefore | whirl/services/true_time.hpp:15-37 | for an interval with earliest <= latest, After(t) and Before(t) are never both true |
| TrueTime.AnswersAreSound | whirl/services/true_time.hpp:29-37 | when the interval brackets true time, After(t) means t has passed and Before(t) means it has not arrived |
| TrueTime.AnswersAreMonotone | whirl/services/true_time.hpp:29-37 | After(t) implies After(u) for every u <= t, and Before(u) implies Before(t) for every t >= u |
| KvReplica.NoValue | examples/kv/main.cpp:68-70 | the default value has value 0 and timestamp 0 |
| KvReplica.Replica.LocalWrite | examples/kv/main.cpp:196-210 | the store becomes AfterWrite(old store, key, value): the last-writer-wins rule |
| KvReplica.WriteKeepsNewest | examples/kv/main.cpp:196-210 | an absent key takes the write; a present key takes it only for a strictly larger timestamp; the stored timestamp never decreases |
| KvReplica.WriteIsIdempotent | examples/kv/main.cpp:205-208 | repeating a write changes nothing |
| KvReplica.WriteIsLocal | examples/kv/main.cpp:217-220 | a write changes no other key |
| KvReplica.WritesCommute | examples/kv/main.cpp:196-210 | writes with distinct timestamps give the same store in either order |
| KvReplica.Replica.LocalRead | examples/kv/main.cpp:212-214 | the stored value, or NoValue for an absent key |
| KvReplica.ReadAfterWrite | examples/kv/main.cpp:196-214 | a read after a write sees a timestamp at least that of the write and at least that read before |
| KvReplica.Replica.Update | examples/kv/main.cpp:217-220 | stores the value under the key and changes no other key |
| KvReplica.MostRecentIndex | examples/kv/main.cpp:165-171 | the position of the first element whose timestamp no element exceeds |
| KvReplica.FindMostRecent | examples/kv/main.cpp:165-171 | on a non-empty input, an element of the input whose timestamp is at least every other's |
| KvReplica.Majority | examples/kv/main.cpp:174-176 | more than half of the nodes and, when there are nodes, no more than all of them |
| KvReplica.QuorumsIntersect | examples/kv/main.cpp:174-176 | two majorities of the same nodes share a node |
| LinCheck.Without | whirl/matrix/history/checker/brute.hpp:84-86 | swapping a call to the end of the remaining calls and dropping it removes exactly that call |
| LinCheck.LinearizableChoice | whirl/matrix/history/checker/brute.hpp:25-64 | the search succeeds iff the history is empty or some remaining call is a successful first choice: a candidate that no remaining call precedes, either skipped (if incomplete) or applied with the recorded result |
| LinCheck.ChoiceFromWitness | whirl/matrix/history/checker/brute.hpp:32-61 | the loop over positions i.. finds a successful choice iff one exists at some position from i on |
| LinCheck.LinearizableHasWitness | whirl/matrix/history/checker/brute.hpp:25-95 | when the search succeeds there is a linearization: the model accepts it with the recorded results, it respects real-time order, and it holds every completed call |
| LinCheck.LinChecker.constructor | whirl/matrix/history/checker/brute.hpp:15-16 | the calls are the history in order, every call is remaining, and nothing is linearized |
| LinCheck.LinChecker.Check | whirl/matrix/history/checker/brute.hpp:18-20 | searches the whole history from the initial state, and restores calls, count and linear |
| LinCheck.LinChecker.Search | whirl/matrix/history/checker/brute.hpp:25-64 | returns exactly whether the remaining calls are linearizable from the state; the calls array, count and linear are as on entry; throughout, the calls array is a permutation of the history and the sizes of linear and the remaining prefix add up to the history's size |
| LinCheck.LinChecker.StepInto | whirl/matrix/history/checker/brute.hpp:82-95 | returns whether the rest is linearizable after choosing call i; calls (element order), count and linear are restored |
| LinCheck.LinCheckBrute | whirl/matrix/history/checker/brute.hpp:99-103 | the answer is Linearizable(history); an empty history is linearizable; a yes comes with a linearization witness |
| RpcServices.RegisteredIff | whirl/rpc/service_base.hpp:43-62 | a name is registered after a run of registrations iff it was before or one of them names it |
| RpcServices.RegisteredStays | whirl/rpc/service_base.hpp:61 | a registered invoker survives any later registrations |
| RpcServices.FirstRegistrationWins | whirl/rpc/service_base.hpp:61 | a new name keeps the invoker of the first registration naming it |
| RpcServices.Service.constructor | whirl/rpc/service_base.hpp:67 | a new service has no methods |
| RpcServices.Service.Invoke | whirl/rpc/service_base.hpp:28-35 | requires a registered name; the output is the registered invoker applied to the input |
| RpcServices.Service.RegisterRPCMethod | whirl/rpc/service_base.hpp:47-62 | adds the invoker only when the name is not registered yet |
| RpcServices.Service.Initialize | whirl/rpc/service_base.hpp:37-39 | the table becomes RegisterAll of the service's registrations, in order |
| RpcServices.HasAfterInitialize | whirl/rpc/service_base.hpp:24-26 | on a fresh service initialised with some registrations, Has(name) is true iff one of the registrations names it |
| RpcServices.DefaultServiceHasNoMethods | whirl/rpc/service_base.hpp:37-45 | after initialization with the default registrations, Has is false for every name |
| HistoryChannels.OutcomeClassifies | whirl/matrix/channels/history.cpp:54-68 | exactly one of completed (with the value, iff ok), lost (iff a transport or execution error) or removed (iff any other error) is recorded, for the right call |
| HistoryChannels.HistoryChannel.Call | whirl/matrix/channels/history.cpp:32-43 | records the start under a new cookie, then forwards the call unchanged to the inner channel |
| HistoryChannels.RecordCallResult | whirl/matrix/channels/history.cpp:46-63 | appends the label (iff there is a current trace id), then the outcome |
| HistoryChannels.RecordedShape | whirl/matrix/channels/history.cpp:50-62 | what is appended is at most one label, present iff there is a trace id and placed before exactly one outcome, which comes last |
| HistoryChannels.HistoryChannel.Close | whirl/matrix/channels/history.cpp:24-26 | closes the inner channel and does nothing else |
| HistoryChannels.HistoryChannel.Peer | whirl/matrix/channels/history.cpp:28-30 | the inner channel's peer |
| RandomChannels.RandomChannel.constructor | whirl/engines/matrix/channels/random.cpp:16-17 | wraps the given channels |
| RandomChannels.RandomChannel.Call | whirl/engines/matrix/channels/random.cpp:23-28 | requires a non-empty list and a drawn index in range; forwards the call to exactly that channel |
| RandomChannels.RandomChannel.Peer | whirl/engines/matrix/channels/random.cpp:12-32 | always "Random" |
| RandomChannels.RandomChannel.Close | whirl/engines/matrix/channels/random.cpp:34-39 | closes every channel once, in order, then empties the list |
| RandomChannels.CloseEach | whirl/engines/matrix/channels/random.cpp:35-37 | the loop of Close: closes each channel once, in list order |
| RandomChannels.ClosedAll | whirl/engines/matrix/channels/random.cpp:34-39 | one close per channel, in list order |
| RandomChannels.RandomChannel.Destroy | whirl/engines/matrix/channels/random.cpp:19-21 | the destructor has the effect of Close |
| RandomChannels.CloseTwice | whirl/engines/matrix/channels/random.cpp:34-39 | a second Close closes nothing more |
| WriteAheadLog.WalWriter.Put | whirl/engines/matrix/db/wal.hpp:24-26 | appends exactly one frame, holding {key, value, Put} |
| WriteAheadLog.WalWriter.Delete | whirl/engines/matrix/db/wal.hpp:28-30 | appends exactly one frame, holding {key, none, Delete} |
| WriteAheadLog.WalWriter.Append | whirl/engines/matrix/db/wal.hpp:33-36 | appends one frame, the serialized mutation, and leaves earlier frames unchanged |
| WriteAheadLog.WalReader.Next | whirl/engines/matrix/db/wal.hpp:52-58 | none when no frame remains; otherwise the next frame deserialized, and the cursor advances by one |
| WriteAheadLog.Encoded | whirl/engines/matrix/db/wal.hpp:33-36 | the log holds one frame per mutation, in order |
| WriteAheadLog.Decoded | whirl/engines/matrix/db/wal.hpp:52-58 | the reader yields one mutation per frame, in order |
| WriteAheadLog.DecodeEncoded | whirl/engines/matrix/db/wal.hpp:24-58 | when deserialization undoes serialization, the reader returns the writer's mutations in the order written |
| WriteAheadLog.WriteAll | whirl/engines/matrix/db/wal.hpp:24-36 | one Put or Delete per mutation appends exactly Encoded(mutations) to the log, after the frames already there |
| WriteAheadLog.ReadAll | whirl/engines/matrix/db/wal.hpp:52-58 | Next until none returns Decoded of the frames after the reader's cursor, in order, and leaves the cursor after the last frame |
| WriteAheadLog.WriteThenReadAll | whirl/engines/matrix/db/wal.hpp:18-58 | when deserialization undoes serialization, mutations written by a writer to an empty log and read back from the start by a reader are exactly the mutations written, in order |
| WriteAheadLog.PutDeleteReadBack | whirl/engines/matrix/db/wal.hpp:24-58 | a Put then a Delete, read back, give the Put, then the Delete, then none |
| LogWidth.ToWidth | whirl/matrix/log.cpp:11-16 | the result has exactly the width; a longer string is cut to its first width characters; a shorter one is kept and padded with spaces |
| LogWidth.ExactWidthUnchanged | whirl/matrix/log.cpp:15 | a string already of the width is returned unchanged |
| LogWidth.ToWidthIdempotent | whirl/matrix/log.cpp:11-16 | applying ToWidth twice gives the same as once |
| LogWidth.ToWidthKeepsPrefix | whirl/matrix/log.cpp:11-16 | every character of the input that fits in the width stays at its position |

## Left out

- Fibers, futures, the RPC call machinery and the cereal serializer are not modelled. Replies are not modelled: a channel call is one recorded effect, and the serializer is a pair of function values.
- The step queue's own implementation is not part of this model. It is an ordered sequence, and Add places a step after every step dated no later than it.
- The node factory, node services, fiber resource release, the transport's port table and the database digest are not modelled. They are represented only by the endpoint set and the heap's byte count, which starting a node adds to and a crash resets. What the node allocates and which ports it opens are parameters of Start, Create and the reboots.
- EngineServer.Server.Resume: requires a step queue. A server paused from Initial or Crashed has none, and the source would dereference a null queue there.
- LegacyServer.Server.Start: what the node does as it starts is not modelled; only the endpoints it opens are.
- LegacyServer.Server.Create: resetting the monotonic clock and the contents of the node services are not modelled; Create marks the node as present and adds its allocation to the heap.
- BlockAllocator.BlockCache.Release: takes the block's size class as an extra argument instead of deriving it from the block's size, because the size-to-class mapping lives in the allocator's implementation file, which is not part of this model. TryAcquire takes the class index, as declared. The MemoryAllocator bodies, the arena's mapping, zero-filling and pointer arithmetic are not part of this model either.
- MonotonicClocks: Drift is uninterpreted. Now requires that global time is not before the last reset, which global time's monotonicity guarantees.
- TrueTime: the service's Now() is not modelled; its interval is a parameter.
- KvReplica: the coordinator's Set/Get, RPC calls, mutexes and the quorum futures are not modelled.
- LinCheck.LinearizableHasWitness: proves soundness only. Completeness (every linearizable history is found) is not proved.
- LinCheck.LinChecker.Check: searches from the model's initial state, given to the checker, instead of a default-constructed State. PrecedesInRealTime and Model::Apply are function values.
- HistoryChannels: the recorder's storage is a log of records. The current trace id is a parameter of RecordCallResult.
- RandomChannels.RandomChannel.Call: the random index is a parameter standing for the global generator's draw. The call context passed along with the call is not modelled.
- WriteAheadLog: the file system and framing are not modelled. A log file is its sequence of complete frames.
- WriteAheadLog.WriteAll and WriteAheadLog.ReadAll are not functions of the writer and reader: they stand for a client issuing one Put or Delete per mutation, and for a recovery loop that calls Next until it returns none.
- LogWidth: logging to the console (LogMessage, Logger::Log) is output only and not modelled.

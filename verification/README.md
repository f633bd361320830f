# Verified models of the concurrency and storage demos

A Dafny 4.11 project that models seven programs of the repository and proves what they promise
on every run: the threaded counters, the ack-based message queue, the condition-variable pool,
the two bounded-queue connection pools, and the key-value store with its replica routing.
`dafny verify dfyconfig.toml` checks all of it.

| file | models |
|---|---|
| `RacyCounter.dfy`, `LockedCounter.dfy` | `python-deep-dive/01-threads-and-locks.py` |
| `MessageQueue.dfy`, `SimpleQueue.dfy` | the queue of `python-deep-dive/03-simple-message-queue.py`: specification and class |
| `QueueRuns.dfy`, `QueueTiming.dfy`, `QueueReceipts.dfy`, `QueueDrain.dfy` | its whole runs: order and accounting, the clock, whose delivery an acknowledgement retires, draining |
| `QueueThreads.dfy`, `QueueCalls.dfy`, `QueueSchedules.dfy` | the same queue under threads, statement by statement; what its callers see; which runs can happen |
| `ConditionPool.dfy`, `PoolCalls.dfy` | `python-deep-dive/02-condition-variables.py` under threads; what its callers see |
| `PoolSpec.dfy`, `FifoPools.dfy`, `PoolWorkers.dfy` | one specification for all pools; `connection-pooling/pool.py` and `pool.go`; their demo |
| `KvStore.dfy`, `KvRuns.dfy`, `KvBacklog.dfy` | `kv-store/app/main.py`: statements and class, whole logs, the cleanup backlog |
| `ReplicaRouter.dfy`, `KvReplication.dfy` | `kv-store/app/db.py`, and reads from lagging replicas |
| `Prelude.dfy` | shared definitions |

Objects that the programs mutate are classes proved against a specification function
(`SimpleQueue`, `Server`, `Database`, `ConnectionPool`, `Pool`, `Connection`); a ghost history in each
ties the object to the theorems about runs. Threads are step systems: a configuration, the steps a
thread can take from it, and every interleaving of them. Constants are parameters throughout: the
number of iterations, threads, connections, workers and replicas, the batch size and the timeouts.

Clock readings, generated message ids, probe outcomes and the rows picked by a `LIMIT` are parameters
of the operations. Times in the queue are real numbers, epoch seconds in the store are integers. Each
SQL statement is one atomic step on the table; a replica is a prefix of the primary's log.

Where the code and the notes beside it differ, the model follows the code.

- The notes show consumers acknowledging a receipt (`python-deep-dive/03-simple-message-queue.md:59-64`),
  but `ack` takes a message id. An acknowledgement retires the delivery it answers if and only if since
  that delivery no scan has read an overdue clock for it and nobody has acknowledged the message
  (`AckRetiresOwnIffUntouched`). Otherwise it fails or retires somebody else's: in `StaleAckRetiresAnother`
  a late consumer retires the second delivery, and in `RobbedConsumerFails` the consumer of that
  delivery, never overdue, gets a KeyError.
- `db.py` says load is evenly distributed across replicas. That holds if and only if all of them are
  healthy or none is (`EvenIffAllAlike`); otherwise a replica behind d dead ones gets 1 + d shares
  (`LoadLaw`; `OneDeadOfThree` is an uneven case).
- `borrow` says "No connection available" without looking again after a timed-out wait. It can
  raise beside an idle connection if and only if there are connections but fewer than threads
  (`TimeoutBesideIdleIff`; `TimeoutBesideIdle` builds such a run).
- A `ttl` of minus the current epoch second stores the sentinel 0 and makes a key that never expires; a
  `ttl` is honoured if and only if the deadline misses the sentinel (`TtlHonouredIffDistinct`).

## Model

| member | source | states |
|---|---|---|
| RacyCounter.FinalValueInRange | python-deep-dive/01-threads-and-locks.py:15-34 | Every complete interleaving of the reads and writes of k unlocked threads of n iterations ends between min(n, 2) and k * n (with one thread, at n). |
| RacyCounter.EveryValueReached | python-deep-dive/01-threads-and-locks.py:15-34 | For every value in that range a schedule exists that ends with it. |
| RacyCounter.ExactFinalValues | python-deep-dive/01-threads-and-locks.py:15-34 | A value is a possible final value of the unlocked counter if and only if it lies in that range; for two threads of two or more iterations, 2 .. 2n. |
| LockedCounter.LockedCounterIsExact | python-deep-dive/01-threads-and-locks.py:43-59 | Every maximal interleaving of the locked threads takes 4kn steps and ends with exactly kn and the lock free. |
| LockedCounter.SomeoneCanMove | python-deep-dive/01-threads-and-locks.py:46-50 | A configuration is stuck exactly when every thread has finished: the lock cannot deadlock. |
| LockedCounter.LockedRunIsRacyRun | python-deep-dive/01-threads-and-locks.py:46-50 | Dropping the lock operations from a locked run leaves a run of the unlocked counter with the same value: the lock only removes interleavings. |
| LockedCounter.UnlockedIsExactOnlyWithoutRivals | python-deep-dive/01-threads-and-locks.py:15-34 | All interleavings of the unlocked counter give the sequential sum if and only if there is one thread or no iteration. |
| IsolatedCounter.IncrementIsolated | python-deep-dive/01-threads-and-locks.py:68-72 | The thread body stores n in its own slot of the shared list and touches no other. |
| IsolatedCounter.IsolatedCounterIsExact | python-deep-dive/01-threads-and-locks.py:68-82 | However the isolated threads interleave, once none can move the slots add up to exactly kn. |
| SimpleQueueClass.SimpleQueue.constructor | python-deep-dive/03-simple-message-queue.py:28-33 | A new queue is empty with nothing in flight. |
| SimpleQueueClass.SimpleQueue.Publish | python-deep-dive/03-simple-message-queue.py:35-41 | Appends the message and returns its id. |
| SimpleQueueClass.SimpleQueue.Receive | python-deep-dive/03-simple-message-queue.py:43-54 | None only for an empty queue; otherwise the front message moves to the end of the in-flight dict with the time it was handed out (its key is never already there). |
| SimpleQueueClass.SimpleQueue.Ack | python-deep-dive/03-simple-message-queue.py:56-59 | Succeeds exactly when the id is in flight, then removes just that entry; otherwise fails and changes nothing. |
| SimpleQueueClass.SimpleQueue.RequeueExpired | python-deep-dive/03-simple-message-queue.py:62-72 | The two loops leave reverse(expired in hand-out order) before the old queue and the survivors in order, with the clock read anew for every entry. |
| SimpleQueueClass.SimpleQueue.Scan | python-deep-dive/03-simple-message-queue.py:64-69 | The first loop moves the overdue messages to the front and collects their ids. |
| SimpleQueueClass.SimpleQueue.Purge | python-deep-dive/03-simple-message-queue.py:70-71 | The second loop deletes the collected ids one by one. |
| MessageQueue.WithoutRemovesOne | python-deep-dive/03-simple-message-queue.py:59 | Deleting a key takes out exactly its entry, leaves the others in order, and the key is gone. |
| MessageQueue.PurgeLeavesSurvivors | python-deep-dive/03-simple-message-queue.py:66-71 | Those deletions leave exactly the entries that were not overdue. |
| SimpleQueueClass.GoodConsumer | python-deep-dive/03-simple-message-queue.py:99-105 | With the queue to itself a good consumer receives everything waiting in order, every acknowledgement succeeds, and it ends on an empty queue. |
| QueueRuns.FirstDeliveriesInPublishOrder | python-deep-dive/03-simple-message-queue.py:35-72 | On every run first deliveries follow publish order, and the queue is messages delivered before followed by exactly the never-delivered ones in publish order. |
| QueueRuns.DeliveryAccounting | python-deep-dive/03-simple-message-queue.py:37-71 | On every run each published message is in exactly one of queue, in flight and acknowledged, and its deliveries are its requeues plus its acknowledgements plus one if in flight. |
| QueueTiming.Provenance | python-deep-dive/03-simple-message-queue.py:52-53 | Every in-flight entry was put there by one receive and has been in flight, unacknowledged, ever since. |
| QueueTiming.AckRetiresLatestDelivery | python-deep-dive/03-simple-message-queue.py:56-59 | A successful acknowledgement retires the most recent delivery of the message, whoever sends it. |
| QueueReceipts.AckRetiresOwnIffUntouched | python-deep-dive/03-simple-message-queue.py:56-71 | An acknowledgement after a delivery retires that delivery, with no other in between, if and only if since then no scan read for it a clock more than the timeout past its hand-out and nobody acknowledged the message. |
| QueueReceipts.StaleAckRetiresAnother | python-deep-dive/03-simple-message-queue.py:52-71 | For every timeout there is a run (publish, receive, overdue requeue, receive, ack) in which the acknowledgement of the first delivery retires the second. |
| QueueReceipts.RobbedConsumerFails | python-deep-dive/03-simple-message-queue.py:52-71 | That run goes on with the second consumer acknowledging its delivery, which no scan found overdue: it fails. |
| QueueTiming.RequeuedIffOverdue | python-deep-dive/03-simple-message-queue.py:66-71 | On every run a scan returns a delivery to the queue if and only if the clock read for it is more than the timeout past its hand-out, and otherwise leaves it in flight. |
| QueueTiming.InFlightSorted | python-deep-dive/03-simple-message-queue.py:53 | Under a clock that never runs backwards the in-flight dict stays sorted by hand-out time. |
| QueueTiming.OneReadingTakesAPrefix | python-deep-dive/03-simple-message-queue.py:62-71 | Then a scan with one clock reading takes exactly a prefix of the dict to the front of the queue, last handed out first, and leaves the rest of both as it was. |
| QueueTiming.TimelyAcksGiveExactlyOnce | python-deep-dive/03-simple-message-queue.py:52-71 | If every delivery is acknowledged no later than hand-out plus timeout, and consumers acknowledge each delivery once, nothing is requeued, nothing is delivered twice and no acknowledgement fails. |
| QueueDrain.ReceivesConserved | python-deep-dive/03-simple-message-queue.py:43-72 | Once publishing stops, receives equal the shrinkage of the queue plus the requeues. |
| QueueDrain.DrainBound | python-deep-dive/03-simple-message-queue.py:43-72 | Once publishing stops with M messages outstanding, each abandoned at most c more times, at most (c + 1) * M receives succeed. |
| QueueDrain.WorkDecreases | python-deep-dive/03-simple-message-queue.py:43-72 | Every operation that moves a message uses up a measure that no other operation changes. |
| QueueDrain.DrainTerminates | python-deep-dive/03-simple-message-queue.py:43-72 | So at most 2 * (c + 1) * M further operations move a message. |
| QueueDrain.DrainEndsEmpty | python-deep-dive/03-simple-message-queue.py:43-72 | And a run that keeps moving messages while any are left has emptied the queue and the in-flight dict after 2 * (c + 1) * M operations. |
| QueueDrain.DrainedIffLastDeliveriesAcked | python-deep-dive/03-simple-message-queue.py:43-72 | At any point of any run queue and in-flight dict are empty if and only if every published message was delivered and the last of its deliveries acknowledged. |
| QueueThreads.ThreadsRunSequentially | python-deep-dive/03-simple-message-queue.py:35-72 | Under any interleaving, whenever the lock is free the state is that of the committed operations run one after another, and if a receiver is asleep the queue is empty. |
| QueueCalls.CallsTakeEffectOnce | python-deep-dive/03-simple-message-queue.py:35-72 | On every run the calls of a thread take effect one by one in the order it makes them, each as an operation that does what the call asks for (the body published, the id acknowledged), and each returns what the sequential queue replies to that operation. |
| QueueCalls.CommittedIsAllEffects | python-deep-dive/03-simple-message-queue.py:35-72 | The sequential run consists of the effects of the threads' calls, in their order, and of nothing else. |
| QueueSchedules.EverySequentialRunHappens | python-deep-dive/03-simple-message-queue.py:35-72 | Conversely, for every sequential run there is a schedule of the threads with the same calls, the same replies and the same final queue and dict. |
| QueueSchedules.SleepingReceiverIsServed | python-deep-dive/03-simple-message-queue.py:35-54 | A receiver asleep on the empty queue returns the message another thread publishes, with no timer or spurious wakeup. |
| QueueThreads.LockIsReleased | python-deep-dive/03-simple-message-queue.py:35-72 | On every run the thread holding the lock always has a step to take, and it takes fewer than a computed number of them before the lock is free, whatever other threads do. |
| QueueThreads.StuckIffAllAtRest | python-deep-dive/03-simple-message-queue.py:35-72 | On every run a step that is no new call, timer or spurious wakeup can be taken if and only if some thread is inside a method and not asleep on an empty queue. |
| QueueThreads.ThreadsKeepTheClockInOrder | python-deep-dive/03-simple-message-queue.py:52-71 | If the clock readings of the threads never go back, the sequential run they commit has a monotone clock. |
| QueueThreads.ThreadedTimelyAcks | python-deep-dive/03-simple-message-queue.py:35-72 | So timely acknowledgements give exactly-once delivery under any interleaving as well. |
| QueueThreads.NoneMeansEmpty | python-deep-dive/03-simple-message-queue.py:45-51 | A receive returns None only while holding the lock and with the sequential queue empty. |
| QueueCalls.NoneOnlyAfterSleep | python-deep-dive/03-simple-message-queue.py:45-51 | And only after the thread itself has slept. |
| ConditionPool.NoLostWakeup | python-deep-dive/02-condition-variables.py:32-43 | Whenever the lock is free and a thread sleeps in `borrow`, idle connections are at most the notified threads not yet resumed; so beside an idle connection some notified thread can run. |
| ConditionPool.LockIsReleased | python-deep-dive/02-condition-variables.py:32-43 | On every run the thread holding the lock has a step to take and frees the lock with its third at the latest. |
| ConditionPool.NoDeadlock | python-deep-dive/02-condition-variables.py:32-43 | On a pool with connections, while any thread waits for one or has one, a step can be taken that is no timeout, no spurious wakeup and no new call. |
| ConditionPool.RaisesOnlyAfterTimeOut | python-deep-dive/02-condition-variables.py:34-37 | A thread raises TimeoutError only after its own wait has timed out; being notified, or woken for no reason, and finding the list empty is not enough. |
| ConditionPool.SeeksUntilPopOrTimeOut | python-deep-dive/02-condition-variables.py:32-38 | Until it pops a connection or its wait times out a thread stays in `borrow`, however often it is woken. |
| ConditionPool.WokenWaitsAgain | python-deep-dive/02-condition-variables.py:34-35 | A woken thread that finds the list empty goes back to sleep. |
| ConditionPool.BargedBorrowerWaitsAgain | python-deep-dive/02-condition-variables.py:32-43 | A run in which a thread is notified of a return, another takes the connection first, and the notified one waits again. |
| ConditionPool.SleeperMayBarge | python-deep-dive/02-condition-variables.py:34-38 | A sleeper may wake for no reason and take an idle connection. |
| ConditionPool.WokenAtMostNotifies | python-deep-dive/02-condition-variables.py:40-43 | `notify` wakes one thread: no run has more notified threads not yet resumed than notifications. |
| PoolCalls.CallsEndOnce | python-deep-dive/02-condition-variables.py:32-43 | On every run each call ends at most once, `borrow` with a connection or TimeoutError; a thread returns exactly the connection its last `borrow` got, and uses no other. |
| ConditionPool.TimeoutBesideIdleIff | python-deep-dive/02-condition-variables.py:32-43 | Some run raises TimeoutError while the list is not empty if and only if there are connections but fewer than threads. |
| ConditionPool.TimeoutBesideIdle | python-deep-dive/02-condition-variables.py:34-43 | Such a run for every pool with fewer connections than threads: the wait times out, a connection comes back, and the list is not looked at again. |
| ConditionPool.ReturnedLastIssuedFirst | python-deep-dive/02-condition-variables.py:38-42 | The list is last in, first out: a returned connection is issued once all those returned after it are out again, before any that was idle at its return. |
| ConditionPool.StepRefines | python-deep-dive/02-condition-variables.py:28-43 | Popping refines the abstract borrow, appending the abstract return, and no other statement touches a connection. |
| ConditionPool.LifoPoolConserves | python-deep-dive/02-condition-variables.py:28-43 | On every run idle plus held is a permutation of the initial connections and no connection has two holders. |
| PoolSpec.StepKeepsInv | connection-pooling/pool.py:88-108 | Borrowing and returning keep idle and held a partition of the connections with one holder each. |
| PoolSpec.Conservation | connection-pooling/pool.py:14-20 | Idle plus held count all connections, so a holder's return finds room in a queue bounded by their number. |
| FifoOrder.FifoLaw | connection-pooling/pool.py:88-108 | What was handed out followed by what is idle is what was idle at first followed by what was returned. |
| FifoOrder.ReissuedAfterThoseIdle | connection-pooling/pool.go:107-126 | A released connection is reissued only after all those idle at its release, in their order. |
| FifoOrder.HolderFindsRoom | connection-pooling/pool.py:106-110 | For callers that return no more than they were handed, idle plus out is a permutation of the initial connections and a return never finds the queue full. |
| FifoOrder.NoTwoHolders | connection-pooling/pool.py:88-108 | For such callers no connection has two holders, and none is held and idle at once. |
| FifoOrder.DisciplineKeepsDistinct | connection-pooling/pool.py:106-117 | For such callers no connection is in the queue twice, so a close closes each once. |
| Connections.Connection.Close | connection-pooling/pool.py:50-52 | Marks the connection closed. |
| PythonPool.NewPool | connection-pooling/pool.py:70-84 | Rejects a size that is not positive; otherwise prefills the queue with that many distinct open connections, numbered consecutively. |
| PythonPool.ConnectionPool.GetConn | connection-pooling/pool.py:88-104 | Hands out the front of the queue, or times out exactly when it is empty. |
| PythonPool.ConnectionPool.ReleaseConn | connection-pooling/pool.py:106-110 | Appends to the queue, or blocks exactly when it is full. |
| PythonPool.ConnectionPool.Close | connection-pooling/pool.py:112-117 | Drains the queue and closes each connection as often as it is in it: exactly once if callers returned no more than they were handed. |
| PythonPool.Worker | connection-pooling/pool.py:123-133 | Alone on the pool: gives up only on an empty pool, fails only on a closed connection, and otherwise moves its connection from the front of the queue to the back without blocking, all callers holding what they held. |
| GoPool.NewPool | connection-pooling/pool.go:84-98 | Panics on a negative size; otherwise prefills the channel with that many distinct open connections, numbered consecutively. |
| GoPool.Pool.Get | connection-pooling/pool.go:107-118 | Hands out the front of the channel unless the timer wins; times out on an empty channel; panics on the nil of a closed one. |
| GoPool.Pool.Release | connection-pooling/pool.go:122-126 | Appends, blocks exactly when the channel is full, panics exactly when it is closed. |
| GoPool.Pool.Close | connection-pooling/pool.go:129-135 | Closes the channel and then each connection as often as it is in it: exactly once if callers returned no more than they were handed; a second close panics. |
| GoPool.Worker | connection-pooling/pool.go:141-160 | The same, but a fired timer may win over a ready connection and a closed channel panics. |
| PoolWorkers.GetRefines | connection-pooling/pool.py:95-99 | Taking the front of the queue refines the abstract borrow and keeps the invariant of the workers. |
| PoolWorkers.ReleaseRefines | connection-pooling/pool.py:106-108 | Putting a connection back refines the abstract return and keeps it too. |
| PoolWorkers.RunsAreFifo | connection-pooling/pool.py:123-133 | On every run connections leave the queue in the order they entered it, so the laws of the bounded queue hold of the demo. |
| PoolWorkers.RunsAreSafe | connection-pooling/pool.py:123-133 | On every run of the workers each connection is idle, held by one worker or closed, no return blocks, and no `execute` ever sees a closed connection. |
| PoolWorkers.NoDeadlock | connection-pooling/pool.go:141-160 | While a worker is unfinished some worker can get, execute or release, even if no wait ever times out. |
| PoolWorkers.AllInUseAtOnce | connection-pooling/pool.py:123-133 | As many workers as there are connections can use one at the same time. |
| PoolWorkers.EveryRunEndsClosed | connection-pooling/pool.py:145-155 | Every run takes at most 3W + P steps, and one that cannot continue ends with every worker done or timed out and every connection closed exactly once, after exactly 3W + P - 2G steps when G workers gave up. |
| PoolWorkers.BoundIsAttained | connection-pooling/pool.go:141-188 | For any number of workers and connections some run takes 3W + P steps. |
| PoolWorkers.AllIdleAtTheEnd | connection-pooling/pool.go:178-188 | When the last worker has finished and before the close, all connections are idle. |
| KvStore.Server.PutKey | kv-store/app/main.py:154-194 | Upserts the row with the absolute deadline, or 0 for no ttl or ttl 0, and leaves every other row alone. |
| KvStore.Server.GetKey | kv-store/app/main.py:205-242 | Returns the value of a row that never expires or has not expired; otherwise not found. |
| KvStore.Server.DeleteKey | kv-store/app/main.py:249-283 | Marks a visible row deleted and keeps its value; a missing, expired or deleted key is not found and nothing changes. |
| KvStore.Server.CleanupOnce | kv-store/app/main.py:85-98 | Removes exactly min(limit, collectable) rows, all collectable, whichever they are, and reports the number. |
| KvRuns.ErasedAreTheRequests | kv-store/app/main.py:85-96 | Erasing drops exactly the cleanups of a log, and a client sees one response for each remaining request. |
| KvRuns.ResponseToEach | kv-store/app/main.py:154-283 | The response seen for a request is the table's answer at that point of the log. |
| KvRuns.CleanupIsUnobservable | kv-store/app/main.py:85-96 | Erasing all cleanups from any log leaves every response unchanged, for any batches, if no GET or DELETE clock is behind an earlier cleanup's. |
| KvRuns.ProvisoIsExact | kv-store/app/main.py:230-283 | That condition is exact, for GET and for DELETE: a cleanup at clock c is never noticed by a read at clock t if and only if c <= t, or c = 0 and t = -1. |
| KvRuns.TtlHonouredIffDistinct | kv-store/app/main.py:172-174 | A ttl, negative ones included, is honoured at every clock if and only if the deadline does not fall on the sentinel 0. |
| KvRuns.RefinesStep | kv-store/app/main.py:183-192 | Every operation on the sentinel table is the same operation on a plain timed map, with the same response. |
| KvRuns.TableRefinesTimedMap | kv-store/app/main.py:154-283 | Over whole logs clients of the table see what clients of a timed map see. |
| KvRuns.OrdinaryTableRefinesTimedMap | kv-store/app/main.py:154-283 | In particular for every log with clocks from the epoch on, no negative ttl, and no read behind a cleanup. |
| KvRuns.FoundUntilDeadline | kv-store/app/main.py:218-242 | A key put with a ttl and not written since is found exactly while now < deadline, cleanups or not; without a ttl, always. |
| KvRuns.OrdinaryFoundUntilDeadline | kv-store/app/main.py:218-242 | In particular for every log with clocks from the epoch on and no negative ttl. |
| KvBacklog.CleanupTakesOnlyDeadRows | kv-store/app/main.py:72-96 | At any clock a row is visible or collectable, not both; a cleanup touches no visible row and leaves max(0, dead - limit) dead ones. |
| KvBacklog.BacklogStep | kv-store/app/main.py:60-98 | From cycle to cycle dead rows are at most max(0, dead - limit) plus the newly dead. |
| KvBacklog.BacklogBound | kv-store/app/main.py:60-98 | With at most n deaths per cycle and batches of n + room rows the backlog sheds room rows per cycle until at most n are left. |
| KvBacklog.TableAtIsRun | kv-store/app/main.py:60-98 | The table a cycle finds is what the log of all statements before it, cleanups included, makes of the first. |
| KvBacklog.NewlyDeadWereWrittenOrExpired | kv-store/app/main.py:85-96 | A row newly dead at the next cycle was written in between or its deadline passed in between; what a cleanup took does not come back. |
| KvBacklog.BacklogVanishes | kv-store/app/main.py:60-98 | While nothing is written and no deadline passes, D dead rows are gone after ceil(D / limit) cycles. |
| KvBacklog.CeilingVanishes | kv-store/app/main.py:60-98 | The same under traffic that leaves no row newly dead. |
| KvBacklog.GoneIffEnoughCycles | kv-store/app/main.py:60-98 | And on an idle table not a cycle sooner. |
| KvBacklog.BacklogStaysBounded | kv-store/app/main.py:60-98 | With at most limit deaths per cycle the backlog stays at most max(D, limit). |
| ReplicaRouter.Database.InitPools | kv-store/app/db.py:61-89 | Opens the primary and adds one pool per configured replica to those already open, with the cycle at 0. |
| ReplicaRouter.Database.ClosePools | kv-store/app/db.py:92-108 | Forgets all pools and the cycle. |
| ReplicaRouter.Database.GetReplicaPool | kv-store/app/db.py:124-162 | Advances the cycle by one and returns the first healthy replica from there, the primary when there is none, an error when that is not open. |
| ReplicaRouter.FallbackOnlyWhenAllDead | kv-store/app/db.py:147-162 | The fallback happens if and only if every replica fails its probe. |
| ReplicaRouter.ChosenIsFirstHealthy | kv-store/app/db.py:145-154 | A call returns replica r if and only if r is the first healthy one from the cycle's position on, going round. |
| ReplicaRouter.LoadLaw | kv-store/app/db.py:145-154 | Over any k * n consecutive calls with fixed health, a healthy replica with d dead ones immediately before it is returned exactly k * (1 + d) times. |
| ReplicaRouter.OneGap | kv-store/app/db.py:147-154 | Every healthy replica has exactly one such d. |
| ReplicaRouter.EvenIffAllAlike | kv-store/app/db.py:139-145 | Over all windows any two replicas are returned equally often, give or take one, if and only if all are healthy or none is. |
| ReplicaRouter.OneDeadOfThree | kv-store/app/db.py:139-154 | With the last of three replicas dead, k full turns return the first 2k times, the second k times and the last never. |
| KvReplication.ReplicaAnswersForItsPrefix | kv-store/app/main.py:213-216 | A replica that has applied any prefix of the log, cleanups included, answers as the timed map after that prefix. |
| KvReplication.RoutedReadAnswersForAPrefix | kv-store/app/main.py:224-242 | Every routed read answers for a prefix of the log: all of it for a consistent read or when every probe failed, otherwise what the first healthy replica from the cycle's position on has applied. |
| KvReplication.ReadGoesToNextHealthy | kv-store/app/db.py:145-154 | While the cycle stands on a healthy replica or on one of the dead ones right before it, a read answers for what that replica has applied. |
| KvReplication.ReadYourWrites | kv-store/app/main.py:207-216 | A consistent read, or a fallback, returns the last value put under the key exactly until it expires. |

## Left out

- Interleaving inside methods: the counters, the threaded queue, the condition-variable pool and the worker demo are step systems on values, because Dafny methods do not interleave. `increment_isolated`, the queue and the bounded-queue pools are also given as methods and classes.
- The loops of `requeue_expired` are two private methods of the class so that each is proved on its own; the lock is held across both.
- How long `borrow` waits in total: its timeout restarts on every wait (python-deep-dive/02-condition-variables.py:34-35).
- CPython's `Condition` and `queue.Queue` and Go's scheduler: a wait enters the waiter set and releases the lock in one step, a timeout leaves the set in one step, an operation on a bounded queue is atomic.
- When exactly a wait for a connection times out: a worker of the demo may give up at any moment, which covers both the Python pool, whose waits time out only on an empty queue, and the Go pool, whose timer may win over a ready connection.
- Real clocks: readings are parameters, and so is the instant of an acknowledgement, which `ack` does not read; for threads it is the instant of the deletion, under the lock.
- `uuid4`: published ids are assumed fresh.
- Probe outcomes that change during one call of `get_replica_pool`.
- Replication itself: that a replica's table is what a prefix of the primary's log makes of an empty table is an assumption (kv-store/app/main.py:213-216).
- Clocks before the epoch, and runs with a ttl whose deadline falls on the sentinel 0; for the latter the exact effect on one key is stated.
- PostgreSQL internals (row addresses, versions, the index), asyncpg, FastAPI routing and validation, task cancellation, and the logging and swallowing of cleanup errors.
- A custom `connect_fn`, connection-open failures, sleeps and printed output.
- `bad_consumer` and the queue's own demo script: any interleaving of their calls is a run of the threaded queue. The pools' `worker` is given alone on its pool as a method and under every interleaving as steps.
- `borrow_busy_wait` and the Kafka programs and select/epoll servers: they would add only easy members.

# Thread pool: a Dafny model

This project models the bookkeeping core of a small C++ thread pool:

- `Any`, a type-erased box for a task's result;
- `Semaphore`, the counting semaphore a `Result` waits on;
- `Result` and `Task`, the one-shot channel from a running task to the client;
- `Thread`'s process-wide id counter;
- `ThreadPool`: its configuration setters, `submitTask`, `start`, the locked
  blocks of the worker function `threadFunc`, and the destructor.

The pool can run in fixed mode, where the thread count is set by `start`, or in
cached mode, where `submitTask` may spawn extra workers up to a threshold and idle
extras reclaim themselves.

The files are:

- `cints.dfy` (`CInts`): the C integer types involved. `SizeT` is the
  `(size_t)` conversion applied to the queue capacity, which wraps a negative
  capacity modulo 2^64.
- `any.dfy` (`AnyValue`): `Any` as a tagged value over the payload types the pool
  and its client use. `Cast` is the checked extraction.
- `semaphore.dfy` (`Semaphores`): `Semaphore` as a class. Each method is one
  atomic step. A `wait` that would block returns `Blocked`.
- `futures.dfy` (`Futures`): the `Task` and `Result` classes and the
  back-reference between them.
- `pool_spec.dfy` (`PoolSpec`): the pool's abstract state and one pure transition
  function per critical section, with the invariants the pool promises.
  - The registry `threads_` is a map from thread id to the phase of that worker:
    `Created` (constructed, not started), `Idle` (waiting for work) or
    `Busy(task)` (running a task outside the lock).
  - The id counter is part of the state.
- `threadpool.dfy` (`ThreadPools`): `IdGenerator` and the `ThreadPool` class.
  - Every method of the class ensures that its new state is the matching
    `PoolSpec` transition of its old state. For `Destroy` this is `BeginShutdown`
    followed by the exit of every worker.
  - Every method that changes the pool requires and preserves the structural
    invariant `Valid()`, which the constructor establishes.
  - `Start` keeps the source's two loops.
  - `Destroy` keeps the destructor's wait for an empty registry, as a loop in
    which one worker exits per pass.
  - Client methods at the end run concrete scenarios.

Threads are modelled by interleaving, with one method call per worker step.

- The steps the source performs under `taskQueMtx_` are taking a task and
  returning from a wait, the latter including reclamation and the exit on
  shutdown.
- Finishing a task (`idleThreadSize_ ++`) and the loop test, with its erase at
  exit, run outside the lock in the source. They are separate atomic steps here.
- A scheduler, here the client code, chooses which worker moves next.

Differences between the code and its documentation (the model follows the code):

- `threadpool.cpp` tests `PoolMode::MODE_CACHE`, but `threadpool.h` declares
  `MODE_CACHED`. Both are treated as the one cached mode `Cached`.
- The documentation says the queue never exceeds its capacity. The capacity setter
  is accepted whenever the pool is stopped, including after tasks were submitted
  before `start`. So the bound is kept only from a state that already satisfies it.
  `CapacityLoweredBelowQueue` exhibits a queue of one task with capacity 0.
- The documentation bounds the running thread count by the configured maximum.
  `start(n)` accepts any `n`, so the bound proved is `Max(initThreadSize_,
  threadSizeThreshHold_)`.
- The documentation says the idle count never exceeds the current thread count.
  In cached mode, a submission before `start` spawns and counts a worker. That
  worker finds the pool stopped and leaves without lowering either counter. Then
  `start(n)` overwrites `curThreadSize_` but adds `n` to `idleThreadSize_`. Both
  exhibits use `StartAsWritten`, the source's `start` with its `threads_[i]` loop.
  - `CachedSpawnBeforeStartOvercountsIdle`: once the worker has left, `start(0)`
    runs the pool with 1 idle worker and a current count of 0. A `start(2)` in
    that state dereferences the missing `threads_[0]` instead.
  - `CachedSpawnBeforeStartUndercountsThreads`: `start(2)` runs before the worker
    has left. Then 3 workers are registered and counted idle against a current
    count of 2.
  - The running invariant, and every bound derived from it, is therefore proved
    only from states that satisfy it, such as the one `start` reaches from a pool
    without workers and with an idle count of 0 (`StartEstablishesRunningInv`).
- On shutdown, a worker that leaves its wait erases its id without lowering
  `idleThreadSize_`, and a busy one raises it when it finishes. `Destroy`'s
  postcondition states the resulting counter values exactly. It describes the
  exits `Destroy` performs, one per worker. Worker steps that never read the
  running flag (taking a task, finishing one, reclamation) can run in the source
  after the flag is cleared. Here they are client calls made before `Destroy`;
  `FlagFreeStepsCommuteWithShutdown` proves that they commute with clearing the flag.

## Model

| member | source | states |
|---|---|---|
| CInts.SizeT | threadpool.cpp:152 | the `(size_t)` conversion: a non-negative capacity is unchanged, a negative one becomes `2^64 + c`, larger than any `int` capacity |
| AnyValue.Cast | threadpool.h:39-50 | extraction succeeds exactly when a value is stored under the requested type, and then returns that value; otherwise it is the "type is unmatch" failure |
| AnyValue.ConstructThenCast | threadpool.h:34-50 | boxing a value and extracting it under its own type gives it back; under any other type extraction fails |
| AnyValue.SentinelCastsOnlyAsCString | threadpool.cpp:26-28 | the `""` returned for a rejected submission extracts successfully only as a C string |
| Semaphores.Semaphore.constructor | threadpool.h:81-84 | the count starts at `limit` and the exit flag is clear |
| Semaphores.Semaphore.Retire | threadpool.h:86-88 | the destructor sets the exit flag and leaves the count unchanged |
| Semaphores.Semaphore.Wait | threadpool.h:91-99 | once retired: returns at once, count unchanged; with a positive count: takes exactly one unit; otherwise: blocks, count unchanged; a non-negative count stays non-negative |
| Semaphores.Semaphore.Post | threadpool.h:102-109 | adds exactly one unit unless retired, when it does nothing |
| Futures.Task.constructor | threadpool.cpp:35-37 | a new task has no bound Result |
| Futures.Task.SetResult | threadpool.cpp:45-48 | binds the given Result |
| Futures.Task.Exec | threadpool.cpp:39-43 | with a bound Result, the produced value reaches its slot and its semaphore is posted once; with none, nothing changes |
| Futures.Result.constructor | threadpool.cpp:9-14 | empty slot, fresh semaphore at 0, the given validity, and the task now points back to this Result whether or not the submission was accepted |
| Futures.Result.SetVal | threadpool.cpp:17-21 | stores the value, then posts the semaphore |
| Futures.Result.Get | threadpool.cpp:24-31 | invalid: the `""` sentinel at once, nothing changes; valid: blocks until a unit is available, then moves the value out and leaves the slot empty |
| Futures.DeliverOnce | threadpool.cpp:17-31 | before `exec` a reader blocks; after it, `get` yields exactly the produced value; a second `get` blocks again |
| Futures.RejectedYieldsSentinel | threadpool.cpp:24-28 | a rejected Result yields the sentinel without waiting, and the sentinel does not extract as the task's result type |
| ThreadPools.IdGenerator.constructor | threadpool.cpp:59 | the counter starts at `first`, which is 0 for the process-wide static |
| ThreadPools.IdGenerator.Generate | threadpool.cpp:52-59 | returns the counter's value and advances it by one |
| PoolSpec.InitDefaults | threadpool.cpp:81-91 | constructor defaults: fixed mode, capacity `INT32_MAX`, thread threshold 10, initial size 10, stopped, empty queue and registry |
| ThreadPools.ThreadPool.constructor | threadpool.cpp:81-91 | the new pool's state is the default state at the current id counter |
| PoolSpec.ConfigurationIgnoredWhileRunning | threadpool.cpp:106-134 | once running, each of the three setters leaves the whole state unchanged |
| PoolSpec.ThreshHoldSetOnlyWhenStoppedAndCached | threadpool.cpp:122-129 | the thread threshold changes, and nothing else does, exactly when the pool is stopped and in cached mode |
| PoolSpec.SettersKeepValid | threadpool.cpp:106-129 | the setters preserve the structural invariant |
| PoolSpec.CapacityLoweredBelowQueue | threadpool.cpp:114-119 | lowering the capacity before `start` can leave more tasks queued than the new capacity allows |
| ThreadPools.ThreadPool.SetMode | threadpool.cpp:106-111 | the new state is the mode setter applied to the old |
| ThreadPools.ThreadPool.SetTaskQueMaxThreshHold | threadpool.cpp:114-119 | the new state is the capacity setter applied to the old |
| ThreadPools.ThreadPool.SetThreadSizeThreshHold | threadpool.cpp:122-129 | the new state is the threshold setter applied to the old |
| PoolSpec.SubmitRejectsWhenFull | threadpool.cpp:151-160 | with no room under the `size_t` capacity, the submission is rejected and nothing changes |
| PoolSpec.SubmitAppends | threadpool.cpp:151-164 | with room, the task is accepted and goes to the back of the queue, the pending count grows by one, and the queue stays within capacity |
| PoolSpec.SubmitSpawnRule | threadpool.cpp:171-189 | the registry changes exactly when the task was accepted in cached mode with more pending tasks than idle workers and fewer threads than the threshold; then one never-used id is registered idle and both thread counts grow by one; otherwise neither count moves |
| PoolSpec.FixedSubmitKeepsThreads | threadpool.cpp:171-173 | in fixed mode a submission never changes the registry, the thread counts or the id counter |
| PoolSpec.SubmitKeepsInvariants | threadpool.cpp:137-192 | submission preserves the structural invariant and the running invariant: thread counts match the registry, within bounds, queue within capacity |
| ThreadPools.ThreadPool.SubmitTask | threadpool.cpp:137-192 | the returned Result is fresh and bound to the task; its validity and the new pool state are those of the submit transition |
| PoolSpec.StartRegistersFreshIds | threadpool.cpp:196-218 | `start(n)` sets the running flag, the floor and the current count to `n`; it registers `max(n,0)` never-used ids, all idle, keeps every earlier entry and the queue, and raises the idle count by the same amount |
| PoolSpec.StartKeepsValid | threadpool.cpp:196-218 | `start` preserves the structural invariant, so no registered worker is left unstarted |
| PoolSpec.StartEstablishesRunningInv | threadpool.cpp:196-218 | from a pool with no workers, an idle count of 0 and the queue within capacity, `start(n)` with `n >= 0` establishes the running invariant |
| ThreadPools.ThreadPool.Start | threadpool.cpp:196-218 | the two loops create, register and start `n` threads; the new state is the start transition of the old |
| PoolSpec.IdleWithinCurrent | threadpool.h:245-248 | in every state satisfying the running invariant, the idle count is between 0 and the current thread count |
| PoolSpec.CachedSpawnBeforeStartOvercountsIdle | threadpool.cpp:171-218 | a cached-mode submission before `start`, then the spawned worker's exit: the source's `start(0)` runs the pool with 1 idle worker and a current count of 0, and its `start(2)` dereferences the missing `threads_[0]` |
| PoolSpec.CachedSpawnBeforeStartUndercountsThreads | threadpool.cpp:171-218 | the same submission followed by the source's `start(2)` before the worker exits: 3 registered workers, 3 counted idle, against a current count of 2 |
| PoolSpec.TakeIsFifo | threadpool.cpp:239-290 | with work queued an idle worker takes the front task and becomes busy with it; the queue loses exactly that task and both the pending and idle counts drop by one; with an empty queue nothing changes |
| PoolSpec.TakeKeepsInvariants | threadpool.cpp:276-290 | taking a task preserves both invariants |
| ThreadPools.ThreadPool.WorkerTake | threadpool.cpp:276-290 | the new state and the task taken are those of the take transition |
| ThreadPools.ThreadPool.WorkerExec | threadpool.cpp:293-297 | running the task changes no pool state; the produced value reaches the task's Result |
| PoolSpec.FinishKeepsInvariants | threadpool.cpp:298 | marking the worker idle again preserves both invariants |
| ThreadPools.ThreadPool.WorkerFinish | threadpool.cpp:298 | the new state is the finish transition of the old |
| PoolSpec.ReclaimKeepsFloor | threadpool.cpp:241-258 | a worker is reclaimed exactly in cached mode after a timed-out wait, idle at least 10 seconds, above the floor; it removes exactly that worker and lowers both counts by one, never below the floor |
| PoolSpec.FixedModeNeverReclaims | threadpool.cpp:261-265 | in fixed mode no wake-up reclaims a worker or changes the thread count |
| PoolSpec.ShutdownExitRemovesOwnId | threadpool.cpp:268-272 | after the running flag is cleared, a waiting worker that is not reclaimed, or one re-testing the loop condition, removes exactly its own id and changes nothing else |
| PoolSpec.WakeKeepsInvariants | threadpool.cpp:239-273 | returning from a wait preserves both invariants |
| ThreadPools.ThreadPool.WorkerWake | threadpool.cpp:239-273 | the new state and outcome are those of the wake transition |
| PoolSpec.LoopCheckKeepsInvariants | threadpool.cpp:226 | the loop test preserves the structural invariant, and while running it keeps the worker and changes nothing |
| ThreadPools.ThreadPool.WorkerLoopCheck | threadpool.cpp:305-307 | the new state and whether the worker stays are those of the loop-test transition: with the flag cleared the worker erases its own id and leaves |
| ThreadPools.ThreadPool.Destroy | threadpool.cpp:93-103 | clears the running flag and returns only once every worker has deregistered: the new state is the old one with the flag cleared, the registry empty and the idle count raised by the number of workers that were busy; everything else (queue, counts, configuration, id counter) is unchanged |
| PoolSpec.FlagFreeStepsCommuteWithShutdown | threadpool.cpp:95 | taking a task, finishing one and reclaiming a worker give the same state and outcome before or after the running flag is cleared |
| ThreadPools.FourWorkersThreeTasks | threadpool.cpp:137-301 | with four fixed workers, three submitted tasks completing in reverse order, each Result yields exactly its own task's value |
| ThreadPools.FullQueueRejects | threadpool.cpp:151-164 | with capacity 1, the first submission is accepted and queued, the second is rejected and its Result yields the sentinel |
| PoolSpec.StartAsWrittenLaunchesCreatedIdsIff | threadpool.cpp:204-217 | the second loop as written starts exactly the threads the first loop created if and only if the id counter stood at 0 when `start` began |
| PoolSpec.StartAsWrittenFromZeroIsStart | threadpool.cpp:196-218 | for a pool with an empty registry and the id counter at 0, the source's `start` and the corrected one give the same state |
| PoolSpec.StartAsWrittenFailsForSecondPool | threadpool.cpp:213-217 | for a pool whose id counter has moved past 0 and whose registry lacks id 0, the source's `start(n)` with `n > 0` looks up a missing thread and dereferences null |
| PoolSpec.StartAsWrittenLeavesThreadUnstarted | threadpool.cpp:171-217 | after a cached-mode submission before `start` has spawned worker 0, the source's `start(2)` never starts worker 2; it stays created and the structural invariant fails |
| PoolSpec.CreatedEntryPersists | threadpool.cpp:102 | a created but unstarted thread stays registered and unstarted through every submission and every step of another worker, so once one is left behind the destructor's wait for an empty registry cannot end |
| PoolSpec.SecondPoolStartsNoneOfItsThreads | threadpool.cpp:59 | a second pool started with 4 threads after a first one gets ids 4..7; the loop as written starts none of them and looks up the missing key 0 |

## Left out

- Real threads, `taskQueMtx_` and the condition variables `notFull_`, `notEmpty_` and `exitCond_` are not modelled. Each critical section is one atomic method call and notifications are implicit, so no blocking or wake-up order is modelled.
- Clocks are not modelled. The one-second `wait_for` in `submitTask` becomes "reject if the queue is full when the decision is taken". The idle timeout in `threadFunc` becomes the parameters `timedOut` and `idleSeconds` of `Wake`.
- Console output (`std::cout`, `std::cerr`) is left out, because it does not affect state.
- `Any` holds a closed set of payload types: `int`, `unsigned long long`, `const char*` and `std::string`. C++ templates and RTTI have no Dafny equivalent. A failed `cast_` is a `TypeMismatch` value rather than a thrown exception.
- `Any`'s deleted copy operations are not modelled; the model only moves values.
- `Semaphore`'s exit flag is read without the mutex in the source. The race between `~Semaphore` and a concurrent `wait` or `post` is not modelled.
- Object lifetimes (`shared_ptr<Task>`, `unique_ptr<Thread>`, the raw `Result*` in `Task`) are not modelled. Dafny objects are never freed, so a dangling `result_` after a `Result` is destroyed cannot arise here.
- `threadFunc_v0` is declared but not part of this model, and neither is the client program `main.cpp`.
- The erase of a worker's id after the loop in `threadFunc` runs outside `taskQueMtx_` in the source, and `idleThreadSize_ ++` relies on the atomic alone. The model treats both as atomic steps, so the data race on `threads_` is not captured.
- `ThreadPools.ThreadPool.Destroy`: a busy worker's remaining `exec` is not part of the loop, which only performs its finish and exit steps. Steps that do not read the running flag are not interleaved after the flag is cleared; they are client calls before `Destroy`.
- `PoolSpec.StartAsWritten`: a thread started twice (a key the second loop visits that was already started) is not distinguished from one started once.
- Counter overflow of `curThreadSize_`, `idleThreadSize_` and `taskSize_` is not modelled, because they are unbounded integers here. The id counter `generateId_` is also unbounded.
- `size_t` is taken to be 64 bits wide.
- `start` takes no lock in the source, and the workers its second loop launches already run while it continues. `ThreadPools.ThreadPool.Start` is one atomic step with no interleaving of worker steps. The setters, which also take no lock, are atomic steps too.
- The default argument of `start`, `std::thread::hardware_concurrency()`, is not modelled; `Start` takes `n` explicitly.
- `ThreadPools.ThreadPool.Start` launches the ids its first loop created, not `threads_[i]` as the source does. That discrepancy is stated under Findings.

## Findings

| source | as written | input that shows it | evidently intended | confidence | as-written member | corrected member |
|---|---|---|---|---|---|---|
| threadpool.cpp:213-217 | the second loop of `start` starts `threads_[i]` for `i` in `0 .. n-1`, but ids come from the process-wide `generateId_`, which does not restart at 0 | a second `ThreadPool` started with 4 threads after a first one: its threads have ids 4..7, none of them is started, and `threads_[0]` default-inserts a null pointer that is then dereferenced; also cached mode with a submit before `start`: if the spawned worker 0 has already left, which is the likely order, `threads_[0]` is again a missing key dereferenced as null; if it has not, worker 2 is never started | start every thread the first loop created, whatever its id | not executed | PoolSpec.StartAsWrittenFailsForSecondPool | PoolSpec.StartRegistersFreshIds |

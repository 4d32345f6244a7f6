/**
 * `Thread` id generation and the `ThreadPool` class of threadpool.cpp.
 * `SubmitTask`, `WorkerTake` and `WorkerWake` are the blocks the source runs under
 * `taskQueMtx_`; the other methods (the setters, `Start`, `WorkerExec`,
 * `WorkerFinish`, `WorkerLoopCheck`) run without the lock in the source and are
 * atomic steps here.  Each postcondition ties the new state to the matching
 * transition of `PoolSpec`, where the invariants are proved.
 */
module ThreadPools {
  import opened CInts
  import opened AnyValue
  import opened PoolSpec
  import opened Futures

  /** `Thread::generateId_`: one counter shared by every pool in the process. */
  class IdGenerator {
    var next: int

    constructor (first: int)
      ensures next == first
    {
      next := first;
    }

    /** `threadId_(generateId_ ++)` in the `Thread` constructor. */
    method Generate() returns (id: int)
      modifies this
      ensures id == old(next) && next == old(next) + 1
    {
      id := next;
      next := next + 1;
    }
  }

  class ThreadPool {
    const ids: IdGenerator
    var threads: map<int, Phase<Task>>
    var initThreadSize: Int32
    var curThreadSize: int
    var idleThreadSize: int
    var threadSizeThreshHold: Int32
    var taskQueue: seq<Task>
    var taskSize: int
    var taskQueMaxThreshHold: Int32
    var poolMode: PoolMode
    var isPoolRunning: bool

    /** The abstract state this object represents. */
    ghost function State(): PoolSpec.State<Task>
      reads this, ids
    {
      PoolSpec.State(taskQueue, taskSize, taskQueMaxThreshHold, initThreadSize, curThreadSize,
                     idleThreadSize, threadSizeThreshHold, poolMode, isPoolRunning, threads, ids.next)
    }

    ghost predicate Valid()
      reads this, ids
    {
      PoolSpec.Valid(State())
    }

    /** `ThreadPool()`. */
    constructor (ids: IdGenerator)
      ensures this.ids == ids
      ensures State() == Init(ids.next) && Valid()
    {
      this.ids := ids;
      initThreadSize := INIT_THREAD_SIZE;
      taskSize := 0;
      curThreadSize := 0;
      idleThreadSize := 0;
      taskQueMaxThreshHold := TASK_MAX_THRESHHOLD;
      threadSizeThreshHold := THREAD_MAX_THRESHHOLD;
      poolMode := Fixed;
      isPoolRunning := false;
      threads := map[];
      taskQueue := [];
    }

    /** `checkRunningState()`. */
    function CheckRunningState(): bool
      reads this
    {
      isPoolRunning
    }

    method SetMode(mode: PoolMode)
      requires Valid()
      modifies this
      ensures State() == PoolSpec.SetMode(old(State()), mode)
      ensures Valid()
    {
      SettersKeepValid(State(), mode, 0);
      if CheckRunningState() {
        return;
      }
      poolMode := mode;
    }

    method SetTaskQueMaxThreshHold(threshhold: Int32)
      requires Valid()
      modifies this
      ensures State() == PoolSpec.SetTaskQueMaxThreshHold(old(State()), threshhold)
      ensures Valid()
    {
      SettersKeepValid(State(), poolMode, threshhold);
      if CheckRunningState() {
        return;
      }
      taskQueMaxThreshHold := threshhold;
    }

    method SetThreadSizeThreshHold(threshhold: Int32)
      requires Valid()
      modifies this
      ensures State() == PoolSpec.SetThreadSizeThreshHold(old(State()), threshhold)
      ensures Valid()
    {
      SettersKeepValid(State(), poolMode, threshhold);
      if CheckRunningState() {
        return;
      }
      if poolMode == Cached {
        threadSizeThreshHold := threshhold;
      }
    }

    /** `submitTask(sp)`: the returned Result is fresh, bound to `sp`, and valid
        exactly when the task was queued. */
    method SubmitTask(sp: Task) returns (res: Result)
      requires Valid()
      modifies this, ids, sp
      ensures fresh(res) && fresh(res.sem)
      ensures res.task == sp && sp.result == res
      ensures res.any == Empty && res.sem.resLimit == 0 && !res.sem.isExit
      ensures (State(), res.isValid) == Submit(old(State()), sp)
      ensures Valid()
    {
      SubmitKeepsInvariants(State(), sp);
      if !(|taskQueue| < SizeT(taskQueMaxThreshHold)) {
        res := new Result(sp, false);
        return;
      }
      taskQueue := taskQueue + [sp];
      taskSize := taskSize + 1;
      if poolMode == Cached && taskSize > idleThreadSize && curThreadSize < threadSizeThreshHold {
        var threadId := ids.Generate();
        threads := threads[threadId := Idle];
        curThreadSize := curThreadSize + 1;
        idleThreadSize := idleThreadSize + 1;
      }
      res := new Result(sp, true);
    }

    /** `start(n)`: the first loop creates and registers `n` threads, the second
        starts them, each becoming an idle worker.  The second loop starts the ids
        the first created (the source indexes `threads_[i]`; see the README). */
    method Start(n: Int32)
      requires Valid()
      modifies this, ids
      ensures State() == PoolSpec.Start(old(State()), n)
      ensures Valid()
    {
      isPoolRunning := true;
      initThreadSize := n;
      curThreadSize := n;
      ghost var first := ids.next;
      ghost var before := threads;
      var count := Iterations(n);
      assert Entries<Task>(first, n, Idle) == Entries<Task>(first, count, Idle);
      var created: seq<int> := [];
      for i := 0 to count
        modifies this`threads, ids
        invariant ids.next == first + i
        invariant |created| == i && forall j :: 0 <= j < i ==> created[j] == first + j
        invariant threads == before + Entries<Task>(first, i, Created)
      {
        var id := ids.Generate();
        UnionUpdate(before, Entries<Task>(first, i, Created), id, Created);
        threads := threads[id := Created];
        created := created + [id];
      }
      assert threads == before + Entries<Task>(first, count, Created) + Entries<Task>(first, 0, Idle);
      for i := 0 to count
        modifies this`threads, this`idleThreadSize
        invariant threads == before + Entries<Task>(first, count, Created) + Entries<Task>(first, i, Idle)
        invariant idleThreadSize == old(idleThreadSize) + i
      {
        UnionUpdate(before + Entries<Task>(first, count, Created), Entries<Task>(first, i, Idle), created[i], Idle);
        threads := threads[created[i] := Idle];
        idleThreadSize := idleThreadSize + 1;
      }
      EntriesOverwrite(before, first, count, Created, Idle);
      StartKeepsValid(old(State()), n);
    }

    /** One pass of the locked block of `threadFunc` by the idle worker `id`. */
    method WorkerTake(id: int) returns (task: Option<Task>)
      requires Valid() && id in threads && threads[id].Idle?
      modifies this
      ensures (State(), task) == Take(old(State()), id)
      ensures Valid()
    {
      TakeKeepsInvariants(State(), id);
      if |taskQueue| == 0 {
        return None;
      }
      idleThreadSize := idleThreadSize - 1;
      var t := taskQueue[0];
      taskQueue := taskQueue[1..];
      taskSize := taskSize - 1;
      threads := threads[id := Busy(t)];
      task := Some(t);
    }

    /** `task->exec()`, outside the lock: the pool's own state is untouched. */
    method WorkerExec(id: int, produced: Any)
      requires id in threads && threads[id].Busy?
      modifies threads[id].task.Bound()
      ensures unchanged(this)
      ensures threads[id].task.result == old(threads[id].task.result)
      ensures threads[id].task.result == null ==> unchanged(threads[id].task.Bound())
      ensures threads[id].task.result != null ==>
        var r := threads[id].task.result;
        && r.any == produced
        && r.sem.isExit == old(r.sem.isExit)
        && r.sem.resLimit == if old(r.sem.isExit) then old(r.sem.resLimit) else old(r.sem.resLimit) + 1
    {
      threads[id].task.Exec(produced);
    }

    /** `idleThreadSize_ ++` once the task has run. */
    method WorkerFinish(id: int)
      requires Valid() && id in threads && threads[id].Busy?
      modifies this
      ensures State() == Finish(old(State()), id)
      ensures Valid()
    {
      FinishKeepsInvariants(State(), id);
      idleThreadSize := idleThreadSize + 1;
      threads := threads[id := Idle];
    }

    /** The idle worker `id` returns from `notEmpty_.wait_for` (cached mode) or
        `notEmpty_.wait` (fixed mode). */
    method WorkerWake(id: int, timedOut: bool, idleSeconds: nat) returns (outcome: WakeOutcome)
      requires Valid() && id in threads && threads[id].Idle?
      modifies this
      ensures (State(), outcome) == Wake(old(State()), id, timedOut, idleSeconds)
      ensures Valid()
    {
      WakeKeepsInvariants(State(), id, timedOut, idleSeconds);
      if poolMode == Cached {
        if timedOut {
          if idleSeconds >= THREAD_MAX_IDLE_TIME && curThreadSize > initThreadSize {
            threads := threads - {id};
            curThreadSize := curThreadSize - 1;
            idleThreadSize := idleThreadSize - 1;
            return Reclaimed;
          }
        }
      }
      if !isPoolRunning {
        threads := threads - {id};
        return ShutdownExit;
      }
      outcome := KeepWaiting;
    }

    /** `while (isPoolRunning_)` and the deregistration after the loop. */
    method WorkerLoopCheck(id: int) returns (stays: bool)
      requires Valid() && id in threads && threads[id].Idle?
      modifies this
      ensures (State(), stays) == LoopCheck(old(State()), id)
      ensures Valid()
    {
      LoopCheckKeepsInvariants(State(), id);
      if isPoolRunning {
        return true;
      }
      threads := threads - {id};
      stays := false;
    }

    /** `~ThreadPool()`: clears the running flag, then waits until the registry is
        empty.  Each pass of the loop is the exit of one worker: a waiting worker is
        woken and deregisters; a busy one finishes its task, sees the flag at the top
        of its loop and deregisters.  Queued tasks stay unexecuted. */
    method Destroy()
      requires Valid()
      modifies this
      ensures State() == BeginShutdown(old(State())).(
                threads := map[],
                idleThreadSize := old(idleThreadSize) + |BusyIds(old(threads))|)
      ensures Valid()
    {
      isPoolRunning := false;
      assert State() == BeginShutdown(old(State()));
      while |threads| > 0
        invariant Valid() && !isPoolRunning
        invariant taskQueue == old(taskQueue) && taskSize == old(taskSize)
        invariant curThreadSize == old(curThreadSize) && initThreadSize == old(initThreadSize)
        invariant poolMode == old(poolMode) && taskQueMaxThreshHold == old(taskQueMaxThreshHold)
        invariant threadSizeThreshHold == old(threadSizeThreshHold) && ids.next == old(ids.next)
        invariant idleThreadSize + |BusyIds(threads)| == old(idleThreadSize) + |BusyIds(old(threads))|
        decreases |threads|
      {
        RegistryHasKey(threads);
        var id :| id in threads.Keys;
        if threads[id].Busy? {
          PhaseUpdate(threads, id, Idle);
          WorkerFinish(id);
          EraseIdle(threads, id);
          var stays := WorkerLoopCheck(id);
        } else {
          EraseIdle(threads, id);
          var outcome := WorkerWake(id, false, 0);
        }
      }
    }
  }

  /** A pool in its default configuration, its id counter at 0, started with `n`
      workers: they have the ids 0 to n - 1 and are all idle. */
  method StartedFixedPool(n: nat) returns (pool: ThreadPool)
    requires n <= INT32_MAX
    ensures fresh(pool) && fresh(pool.ids)
    ensures pool.Valid() && pool.isPoolRunning && pool.poolMode == Fixed
    ensures pool.taskQueue == [] && pool.taskSize == 0 && pool.taskQueMaxThreshHold == INT32_MAX
    ensures forall k :: 0 <= k < n ==> k in pool.threads && pool.threads[k] == Idle
  {
    var gen := new IdGenerator(0);
    pool := new ThreadPool(gen);
    pool.Start(n);
    EntriesAreNewIds<Task>(0, n, Idle);
    NewIdsRange(0, n);
    assert pool.threads == Entries<Task>(0, n, Idle);
  }

  /** One submission to a running fixed-mode pool with room: it is accepted, the
      task is queued at the back and no worker changes. */
  method SubmitWithRoom(pool: ThreadPool, t: Task) returns (r: Result)
    requires pool.Valid() && pool.poolMode == Fixed && |pool.taskQueue| < INT32_MAX
    requires pool.taskQueMaxThreshHold == INT32_MAX
    modifies pool, pool.ids, t
    ensures fresh(r) && fresh(r.sem) && r.isValid && t.result == r
    ensures r.any == Empty && r.sem.resLimit == 0 && !r.sem.isExit
    ensures pool.taskQueue == old(pool.taskQueue) + [t] && pool.threads == old(pool.threads)
    ensures pool.poolMode == Fixed && pool.taskQueMaxThreshHold == INT32_MAX
    ensures pool.Valid()
  {
    ghost var s := pool.State();
    r := pool.SubmitTask(t);
    SubmitAppends(s, t);
    FixedSubmitKeepsThreads(s, t);
  }

  /** An idle worker of a pool with queued work takes the front task and becomes
      busy with it. */
  method TakeFront(pool: ThreadPool, id: int) returns (t: Task)
    requires pool.Valid() && id in pool.threads && pool.threads[id].Idle? && |pool.taskQueue| > 0
    modifies pool
    ensures t == old(pool.taskQueue[0]) && pool.taskQueue == old(pool.taskQueue[1..])
    ensures pool.threads == old(pool.threads)[id := Busy(t)]
    ensures pool.poolMode == old(pool.poolMode)
    ensures pool.Valid()
  {
    ghost var s := pool.State();
    var a := pool.WorkerTake(id);
    TakeIsFifo(s, id);
    t := a.value;
  }

  /** The busy worker `id` runs its task, whose Result is `r`: the value reaches `r`
      and its semaphore gains one permit. */
  method RunTask(pool: ThreadPool, id: int, r: Result, produced: Any)
    requires id in pool.threads && pool.threads[id].Busy? && pool.threads[id].task.result == r
    requires !r.sem.isExit
    modifies r, r.sem
    ensures r.any == produced && r.sem.resLimit == old(r.sem.resLimit) + 1 && !r.sem.isExit
  {
    pool.WorkerExec(id, produced);
  }

  /** Four fixed-mode workers and three tasks: every task is accepted and queued in
      submission order, bound to its own fresh Result, and the workers stay idle. */
  method ThreeTasksQueued() returns (pool: ThreadPool, t1: Task, t2: Task, t3: Task,
                                     r1: Result, r2: Result, r3: Result)
    ensures fresh(pool) && fresh(r1) && fresh(r2) && fresh(r3)
    ensures fresh(r1.sem) && fresh(r2.sem) && fresh(r3.sem)
    ensures r1 != r2 && r1 != r3 && r2 != r3
    ensures r1.sem != r2.sem && r1.sem != r3.sem && r2.sem != r3.sem
    ensures r1.isValid && r2.isValid && r3.isValid
    ensures t1.result == r1 && t2.result == r2 && t3.result == r3
    ensures pool.Valid() && pool.taskQueue == [t1, t2, t3]
    ensures 0 in pool.threads && 1 in pool.threads && 2 in pool.threads
    ensures pool.threads[0] == Idle && pool.threads[1] == Idle && pool.threads[2] == Idle
    ensures !r1.sem.isExit && !r2.sem.isExit && !r3.sem.isExit
    ensures r1.sem.resLimit == 0 && r2.sem.resLimit == 0 && r3.sem.resLimit == 0
  {
    pool := StartedFixedPool(4);
    t1 := new Task();
    t2 := new Task();
    t3 := new Task();
    r1 := SubmitWithRoom(pool, t1);
    r2 := SubmitWithRoom(pool, t2);
    r3 := SubmitWithRoom(pool, t3);
  }

  /** The workers 0, 1 and 2 take the three queued tasks in submission order. */
  method ThreeTasksTaken() returns (pool: ThreadPool, r1: Result, r2: Result, r3: Result)
    ensures fresh(pool) && fresh(r1) && fresh(r2) && fresh(r3)
    ensures fresh(r1.sem) && fresh(r2.sem) && fresh(r3.sem)
    ensures r1 != r2 && r1 != r3 && r2 != r3
    ensures r1.sem != r2.sem && r1.sem != r3.sem && r2.sem != r3.sem
    ensures r1.isValid && r2.isValid && r3.isValid
    ensures pool.Valid() && pool.taskQueue == []
    ensures 0 in pool.threads && pool.threads[0].Busy? && pool.threads[0].task.result == r1
    ensures 1 in pool.threads && pool.threads[1].Busy? && pool.threads[1].task.result == r2
    ensures 2 in pool.threads && pool.threads[2].Busy? && pool.threads[2].task.result == r3
    ensures !r1.sem.isExit && !r2.sem.isExit && !r3.sem.isExit
    ensures r1.sem.resLimit == 0 && r2.sem.resLimit == 0 && r3.sem.resLimit == 0
  {
    var t1, t2, t3;
    pool, t1, t2, t3, r1, r2, r3 := ThreeTasksQueued();
    var a := TakeFront(pool, 0);
    var b := TakeFront(pool, 1);
    var c := TakeFront(pool, 2);
    assert a == t1 && b == t2 && c == t3;
  }

  /** Each Result yields exactly the value its own task produced, whatever the
      order in which the tasks complete: here they complete in reverse order. */
  method FourWorkersThreeTasks(v1: Any, v2: Any, v3: Any) returns (g1: GetOutcome, g2: GetOutcome, g3: GetOutcome)
    ensures g1 == Ready(v1) && g2 == Ready(v2) && g3 == Ready(v3)
  {
    var pool, r1, r2, r3 := ThreeTasksTaken();
    RunTask(pool, 2, r3, v3);
    RunTask(pool, 1, r2, v2);
    RunTask(pool, 0, r1, v1);
    g3 := r3.Get();
    g1 := r1.Get();
    g2 := r2.Get();
  }

  /** Saturating a queue of capacity 1: the second submission is rejected, enqueues
      nothing, and its Result yields the sentinel without waiting. */
  method FullQueueRejects() returns (accepted: bool, rejected: bool, queued: nat, got: GetOutcome)
    ensures accepted && !rejected && queued == 1
    ensures got == Ready(EmptySentinel)
  {
    var gen := new IdGenerator(0);
    var pool := new ThreadPool(gen);
    pool.SetTaskQueMaxThreshHold(1);
    pool.Start(2);
    var t1 := new Task();
    var t2 := new Task();
    var r1 := pool.SubmitTask(t1);
    var r2 := pool.SubmitTask(t2);
    accepted, rejected, queued := r1.isValid, r2.isValid, |pool.taskQueue|;
    got := r2.Get();
  }
}

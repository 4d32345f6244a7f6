/**
 * The one-shot result channel of threadpool.h/.cpp: a `Result` owns the slot for
 * the value and the semaphore that signals it; a `Task` holds a back-reference to
 * the `Result` bound to it (null until bound) and forwards what `run()` produced.
 */
module Futures {
  import opened AnyValue
  import opened Semaphores

  /** What one call of `Result::get` yields in a sequential model: the value, or
      `StillBlocked` when the caller is waiting on the semaphore and no value has
      been posted yet. */
  datatype GetOutcome = Ready(value: Any) | StillBlocked

  class Task {
    var result: Result?

    /** `Task()`: no Result is bound yet. */
    constructor ()
      ensures result == null
    {
      result := null;
    }

    /** The objects that `exec` writes: the bound Result and its semaphore. */
    ghost function Bound(): set<object>
      reads this
    {
      if result == null then {} else {result, result.sem}
    }

    /** `setResult(res)`. */
    method SetResult(res: Result?)
      modifies this
      ensures result == res
    {
      result := res;
    }

    /** `exec()`: `produced` is what the user-defined `run()` returned.  It reaches
        the bound Result through `setVal`, and only if a Result is bound. */
    method Exec(produced: Any)
      modifies Bound()
      ensures result == old(result)
      ensures result == null ==> unchanged(Bound())
      ensures result != null ==>
        && result.any == produced
        && result.sem.isExit == old(result.sem.isExit)
        && result.sem.resLimit ==
             if old(result.sem.isExit) then old(result.sem.resLimit) else old(result.sem.resLimit) + 1
    {
      if result != null {
        result.SetVal(produced);
      }
    }
  }

  class Result {
    var any: Any
    const sem: Semaphore
    const task: Task
    const isValid: bool

    /** `Result(sp, isValid)`: an empty slot, a fresh semaphore at 0, and the Result
        bound to its task, whether or not the submission was accepted. */
    constructor (sp: Task, isValid: bool)
      modifies sp
      ensures task == sp && this.isValid == isValid && any == Empty
      ensures fresh(sem) && sem.resLimit == 0 && !sem.isExit
      ensures sp.result == this
    {
      any := Empty;
      sem := new Semaphore();
      task := sp;
      this.isValid := isValid;
      new;
      sp.SetResult(this);
    }

    /** `setVal(any)`: moves the value into the slot, then posts the semaphore. */
    method SetVal(a: Any)
      modifies this, sem
      ensures any == a
      ensures sem.isExit == old(sem.isExit)
      ensures sem.resLimit == if old(sem.isExit) then old(sem.resLimit) else old(sem.resLimit) + 1
    {
      any := a;
      sem.Post();
    }

    /** `get()`: a rejected Result yields the sentinel at once and touches nothing;
        an accepted one waits for the semaphore and then moves the value out,
        leaving the slot empty. */
    method Get() returns (r: GetOutcome)
      modifies this, sem
      ensures !isValid ==> r == Ready(EmptySentinel) && any == old(any) && unchanged(sem)
      ensures isValid && old(sem.isExit) ==>
        r == Ready(old(any)) && any == Empty && sem.resLimit == old(sem.resLimit)
      ensures isValid && !old(sem.isExit) && old(sem.resLimit) > 0 ==>
        r == Ready(old(any)) && any == Empty && sem.resLimit == old(sem.resLimit) - 1
      ensures isValid && !old(sem.isExit) && old(sem.resLimit) <= 0 ==>
        r == StillBlocked && any == old(any) && sem.resLimit == old(sem.resLimit)
      ensures sem.isExit == old(sem.isExit)
    {
      if !isValid {
        return Ready(EmptySentinel);
      }
      var step := sem.Wait();
      if step == Blocked {
        return StillBlocked;
      }
      r := Ready(any);
      any := Empty;
    }
  }

  /** A Result bound to a task delivers exactly the value the task's `run()`
      produced: before `exec` the reader stays blocked, after it `get` yields the
      value once, and a second `get` blocks again. */
  method DeliverOnce(produced: Any) returns (before: GetOutcome, first: GetOutcome, second: GetOutcome)
    ensures before == StillBlocked
    ensures first == Ready(produced)
    ensures second == StillBlocked
  {
    var t := new Task();
    var r := new Result(t, true);
    before := r.Get();
    t.Exec(produced);
    first := r.Get();
    second := r.Get();
  }

  /** A rejected Result never waits: `get` yields the sentinel even though its task
      never runs, and the sentinel extracts only as a C string. */
  method RejectedYieldsSentinel() returns (got: GetOutcome)
    ensures got == Ready(EmptySentinel)
    ensures Cast(got.value, ULongLongType) == TypeMismatch
  {
    var t := new Task();
    var r := new Result(t, false);
    got := r.Get();
    SentinelCastsOnlyAsCString(ULongLongType);
  }
}

/** The counting `Semaphore` of threadpool.h, one atomic step per call. */
module Semaphores {

  /** How one evaluation of `wait` ends: it consumed a unit, it returned at once
      because the semaphore was retired, or its predicate `resLimit_ > 0` was false
      and the caller stays blocked on the condition variable. */
  datatype WaitStep = Acquired | Retired | Blocked

  class Semaphore {
    var resLimit: int
    var isExit: bool

    /** `Semaphore(int limit = 0)`. */
    constructor (limit: int := 0)
      ensures resLimit == limit && !isExit
    {
      resLimit := limit;
      isExit := false;
    }

    /** The destructor: sets the exit flag and nothing else. */
    method Retire()
      modifies this
      ensures isExit && resLimit == old(resLimit)
    {
      isExit := true;
    }

    /** `wait()`: once retired it returns at once; otherwise it proceeds only when the
        count is positive, and then takes exactly one unit. */
    method Wait() returns (step: WaitStep)
      modifies this
      ensures isExit == old(isExit)
      ensures old(isExit) ==> step == Retired && resLimit == old(resLimit)
      ensures !old(isExit) && old(resLimit) > 0 ==> step == Acquired && resLimit == old(resLimit) - 1
      ensures !old(isExit) && old(resLimit) <= 0 ==> step == Blocked && resLimit == old(resLimit)
      ensures old(resLimit) >= 0 ==> resLimit >= 0
    {
      if isExit {
        return Retired;
      }
      if resLimit > 0 {
        resLimit := resLimit - 1;
        step := Acquired;
      } else {
        step := Blocked;
      }
    }

    /** `post()`: once retired it does nothing; otherwise it adds exactly one unit. */
    method Post()
      modifies this
      ensures isExit == old(isExit)
      ensures resLimit == if old(isExit) then old(resLimit) else old(resLimit) + 1
    {
      if isExit {
        return;
      }
      resLimit := resLimit + 1;
    }
  }
}

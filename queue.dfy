/** The pausable gate in front of the serial request queue (`serialQueue`).
    While paused, `add` refuses a task without running it; otherwise the task
    runs and its result is handed back. The underlying batching queue runs
    tasks one at a time, in submission order, so a task is modelled as a
    function run to completion inside `Add`. */
module Queue {

  /** What `add` resolves to: the task's result, or `false` (`Refused`) when
      the queue was paused. */
  datatype Outcome<T> = Ran(value: T) | Refused

  class SerialQueue {
    /** `ispaused` */
    var isPaused: bool
    /** How many tasks have run so far. */
    ghost var ran: nat

    constructor ()
      ensures !isPaused && ran == 0
    {
      isPaused := false;
      ran := 0;
    }

    method Pause()
      modifies this
      ensures isPaused && ran == old(ran)
    {
      isPaused := true;
    }

    method Resume()
      modifies this
      ensures !isPaused && ran == old(ran)
    {
      isPaused := false;
    }

    /** `add(fn)`: runs `task` unless the queue is paused. A refused task is
        not run, so `ran` does not move; the pause flag is never changed. */
    method Add<T>(task: () -> T) returns (r: Outcome<T>)
      modifies this
      ensures isPaused == old(isPaused)
      ensures old(isPaused) ==> r == Refused && ran == old(ran)
      ensures !old(isPaused) ==> r == Ran(task()) && ran == old(ran) + 1
    {
      if isPaused {
        r := Refused;
      } else {
        r := Ran(task());
        ran := ran + 1;
      }
    }
  }

  /** A fresh queue runs a task and returns its result. */
  method RunWhenFresh<T>(task: () -> T) returns (r: Outcome<T>)
    ensures r == Ran(task())
  {
    var q := new SerialQueue();
    r := q.Add(task);
  }

  /** Pausing a queue makes `add` refuse, and resuming it lets the next task
      run: the first task is never run, the second returns its result. */
  method PauseThenResume<T>(first: () -> T, second: () -> T) returns (r1: Outcome<T>, r2: Outcome<T>, q: SerialQueue)
    ensures r1 == Refused && r2 == Ran(second())
    ensures !q.isPaused && q.ran == 1
  {
    q := new SerialQueue();
    q.Pause();
    r1 := q.Add(first);
    q.Resume();
    r2 := q.Add(second);
  }
}

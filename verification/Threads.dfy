/**
  What the two thread models share: where a timer thread can be, and who can take a step.
 */
module Threads {
  import opened Lifecycle

  /** Until when the thread waits on the condition variable. */
  datatype Deadline = Never | At(time: int)

  /** `Executing(i)`: the lock is released and the first `i` timers of the execution list have
      been checked.  `Woken`: the wait is over, but the lock has not been taken yet. */
  datatype Phase =
    | Stopped
    | Starting
    | Executing(i: nat)
    | Waiting(deadline: Deadline)
    | Woken
    | Finished

  /** Clients start, shut down and join the thread and call the engine; the thread enters its
      loop, checks timers and resumes; a wait also ends by a timeout, or for no reason.  The
      numbers are what is read from the clock. */
  datatype Event<T> =
    | Start
    | Shutdown
    | Join
    | Allocate(unused: T)
    | Call(command: Command<T>)
    | Enter(now: int)
    | Check
    | Resume(clock: int)
    | Timeout(now: int)
    | Spurious

  /** `notify_one` wakes the thread if it waits, and is lost otherwise. */
  function Notified(phase: Phase): Phase {
    if phase.Waiting? then Woken else phase
  }
}

/** What a thread has open while it nests lock calls and critical sections. */
module Nesting {

  /** A lock call, with what it saved, or a critical section of the thread's own.
      Sequences of frames are listed with the last one opened first. */
  datatype Frame<T> = LockFrame(saved: T) | CriticalFrame

  function Locks<T>(open: seq<Frame<T>>): nat {
    if open == [] then 0 else Locks(open[1..]) + (if open[0].LockFrame? then 1 else 0)
  }

  function Criticals<T>(open: seq<Frame<T>>): nat {
    if open == [] then 0 else Criticals(open[1..]) + (if open[0].CriticalFrame? then 1 else 0)
  }

  /** Critical sections that were open before the outermost lock call. */
  function Beneath<T>(open: seq<Frame<T>>): nat {
    if open == [] then 0
    else if open[0].LockFrame? && Locks(open) == 1 then Criticals(open[1..])
    else Beneath(open[1..])
  }
}

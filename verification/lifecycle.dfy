/** The lifecycle flags of `AsyncOperation`, the base class of the
    synchronisation stages: an operation is cancelled or not, starts
    executing, and is finished only when `finish()` is called, which may
    happen during `main()` or later from a callback.

    What a subclass's `main()` does to the flags is captured by a
    `Completion`: either it (eventually) calls `finish()` or it never does. */
module AsyncOperation {

  datatype Flags = Flags(cancelled: bool, executing: bool, finished: bool)

  /** A newly created operation. */
  const Initial: Flags := Flags(false, false, false)

  /** The operation is asynchronous, so the queue waits for `isFinished`
      rather than for `main()` to return. */
  const IsAsynchronous: bool := true

  datatype Completion = CallsFinish | NeverFinishes

  /** The base class's own `main()`: it finishes straight away. */
  const DefaultMain: Completion := CallsFinish

  /** `Operation.cancel()`. */
  function Cancel(f: Flags): (r: Flags)
    ensures r.cancelled
    ensures r.executing == f.executing && r.finished == f.finished
  {
    f.(cancelled := true)
  }

  /** `finish()`: raises `isFinished` and touches nothing else; in particular
      `isExecuting` is never lowered again. */
  function Finish(f: Flags): (r: Flags)
    ensures r.finished
    ensures r.cancelled == f.cancelled && r.executing == f.executing
  {
    f.(finished := true)
  }

  /** `start()`: a cancelled operation finishes without running `main()` and
      without ever executing; otherwise it is marked executing and `main()`
      runs, finishing the operation only if `main()` calls `finish()`. */
  function Start(f: Flags, main: Completion): (r: Flags)
    ensures f.cancelled ==> r == Flags(true, f.executing, true)
    ensures !f.cancelled ==> r.executing && !r.cancelled
    ensures !f.cancelled ==> (r.finished <==> f.finished || main == CallsFinish)
  {
    if f.cancelled then Finish(f)
    else
      var running := f.(executing := true);
      if main == CallsFinish then Finish(running) else running
  }

  /** A new operation using the default `main()` is finished as soon as it
      starts; one cancelled before starting is finished but never executed. */
  lemma StartOutcomes(main: Completion)
    ensures Start(Initial, DefaultMain) == Flags(false, true, true)
    ensures Start(Cancel(Initial), main) == Flags(true, false, true)
    ensures Start(Initial, NeverFinishes) == Flags(false, true, false)
  {
  }

  /** Anything that can happen to an operation. */
  datatype Event = CancelEvent | StartEvent(main: Completion) | FinishEvent

  function Step(f: Flags, e: Event): Flags {
    match e
    case CancelEvent => Cancel(f)
    case StartEvent(main) => Start(f, main)
    case FinishEvent => Finish(f)
  }

  function Run(f: Flags, events: seq<Event>): Flags
    decreases |events|
  {
    if |events| == 0 then f else Run(Step(f, events[0]), events[1..])
  }

  /** Once finished, an operation stays finished whatever happens next; the
      same holds for executing and for cancelled. */
  lemma {:induction false} FlagsAreStable(f: Flags, events: seq<Event>)
    ensures f.finished ==> Run(f, events).finished
    ensures f.executing ==> Run(f, events).executing
    ensures f.cancelled ==> Run(f, events).cancelled
    decreases |events|
  {
    if |events| > 0 {
      FlagsAreStable(Step(f, events[0]), events[1..]);
    }
  }

  /** An operation that is cancelled before anything else happens to it
      never executes, whatever events follow. */
  lemma {:induction false} CancelledNeverExecutes(f: Flags, events: seq<Event>)
    requires f.cancelled && !f.executing
    ensures !Run(f, events).executing
    decreases |events|
  {
    if |events| > 0 {
      CancelledNeverExecutes(Step(f, events[0]), events[1..]);
    }
  }
}

/** A worker thread between two queues. */
module OsThread {
  import opened Common

  datatype Status = Success | Empty | Stopped

  // ----- the operations on the queues, each done under its lock -----

  function Accept<T>(running: bool, inQueue: seq<T>, x: T): (Status, seq<T>) {
    if running then (Success, inQueue + [x]) else (Stopped, inQueue)
  }

  function Output<T>(running: bool, outQueue: seq<T>): (Status, Option<T>, seq<T>) {
    if outQueue != [] then (Success, Some(outQueue[0]), outQueue[1..])
    else (if running then Empty else Stopped, None, outQueue)
  }

  /** Input for the worker, once there is some or the thread is stopped. */
  function Input<T>(running: bool, inQueue: seq<T>): (Option<T>, seq<T>)
    requires inQueue != [] || !running
  {
    if inQueue != [] then (Some(inQueue[0]), inQueue[1..]) else (None, inQueue)
  }

  class Queues<T(==)> {
    var inQueue: seq<T>
    var outQueue: seq<T>
    var running: bool

    constructor ()
      ensures running && inQueue == outQueue == []
    {
      running, inQueue, outQueue := true, [], [];
    }

    method WriteInput(x: T) returns (status: Status)
      modifies this`inQueue
      ensures (status, inQueue) == Accept(running, old(inQueue), x)
      ensures running ==> status == Success && inQueue == old(inQueue) + [x]
      ensures !running ==> status == Stopped && inQueue == old(inQueue)
    {
      if !running {
        return Stopped;
      }
      inQueue := inQueue + [x];
      status := Success;
    }

    method ReadOutput() returns (status: Status, x: Option<T>)
      modifies this`outQueue
      ensures (status, x, outQueue) == Output(running, old(outQueue))
      ensures old(outQueue) != [] ==> status == Success && x.Some? && [x.value] + outQueue == old(outQueue)
      ensures old(outQueue) == [] ==> status == (if running then Empty else Stopped) && x == None && outQueue == []
    {
      if !running && outQueue == [] {
        return Stopped, None;
      }
      if outQueue == [] {
        return Empty, None;
      }
      x := Some(outQueue[0]);
      outQueue := outQueue[1..];
      status := Success;
    }

    method ReadInput() returns (x: Option<T>)
      requires inQueue != [] || !running
      modifies this`inQueue
      ensures (x, inQueue) == Input(running, old(inQueue))
      ensures old(inQueue) != [] ==> x.Some? && [x.value] + inQueue == old(inQueue)
      ensures old(inQueue) == [] ==> x == None && inQueue == []
    {
      if !running && inQueue == [] {
        return None;
      }
      x := Some(inQueue[0]);
      inQueue := inQueue[1..];
    }

    method WriteOutput(x: T)
      modifies this`outQueue
      ensures outQueue == old(outQueue) + [x]
    {
      outQueue := outQueue + [x];
    }
  }

  // ----- the threads, step by step -----

  datatype Worker<T> = Reading | Processing(input: T) | Writing(output: T) | Exited

  /** The destructor takes the locks one after the other, stops the thread, and keeps both while it waits for it. */
  datatype Destructor = NotCalled | HasInLock | Joining | Returned

  datatype State<T> = State(
    inQueue: seq<T>, outQueue: seq<T>, running: bool, worker: Worker<T>, destructor: Destructor,
    accepted: seq<T>, delivered: seq<T>)

  datatype Event<T> =
    | Write(x: T) | Read                       // the users of the thread
    | WorkerRead | WorkerProcess | WorkerWrite // the worker's loop
    | TakeInLock | TakeOutLock | Join          // the destructor

  function Start<T>(): State<T> {
    State([], [], true, Reading, NotCalled, [], [])
  }

  predicate InLockFree<T>(st: State<T>) {
    st.destructor == NotCalled
  }

  predicate OutLockFree<T>(st: State<T>) {
    st.destructor == NotCalled || st.destructor == HasInLock
  }

  /** The state after an event, if the event can happen. */
  function Next<T>(f: T -> T, st: State<T>, ev: Event<T>): Option<State<T>> {
    match ev
    case Write(x) =>
      if !InLockFree(st) then None
      else
        var (status, inQueue) := Accept(st.running, st.inQueue, x);
        Some(st.(inQueue := inQueue, accepted := if status == Success then st.accepted + [x] else st.accepted))
    case Read =>
      if !OutLockFree(st) then None
      else
        var (_, x, outQueue) := Output(st.running, st.outQueue);
        Some(st.(outQueue := outQueue, delivered := if x.Some? then st.delivered + [x.value] else st.delivered))
    case WorkerRead =>
      if !InLockFree(st) || !st.worker.Reading? || (st.inQueue == [] && st.running) then None
      else
        var (x, inQueue) := Input(st.running, st.inQueue);
        Some(st.(inQueue := inQueue, worker := if x.Some? then Processing(x.value) else Exited))
    case WorkerProcess =>
      if st.worker.Processing? then Some(st.(worker := Writing(f(st.worker.input)))) else None
    case WorkerWrite =>
      if !OutLockFree(st) || !st.worker.Writing? then None
      else Some(st.(outQueue := st.outQueue + [st.worker.output], worker := Reading))
    case TakeInLock =>
      if st.destructor == NotCalled then Some(st.(destructor := HasInLock)) else None
    case TakeOutLock =>
      if st.destructor == HasInLock then Some(st.(destructor := Joining, running := false)) else None
    case Join =>
      if st.destructor == Joining && st.worker.Exited? then Some(st.(destructor := Returned)) else None
  }

  function From<T>(f: T -> T, st: State<T>, evs: seq<Event<T>>): Option<State<T>> {
    if evs == [] then Some(st)
    else
      var before := From(f, st, evs[..|evs| - 1]);
      if before.Some? then Next(f, before.value, evs[|evs| - 1]) else None
  }

  function After<T>(f: T -> T, evs: seq<Event<T>>): Option<State<T>> {
    From(f, Start(), evs)
  }

  // ----- the pipeline is a sequential map -----

  function Map<T>(f: T -> T, s: seq<T>): seq<T> {
    seq(|s|, i requires 0 <= i < |s| => f(s[i]))
  }

  /** What the worker has in hand, processed. */
  function InHand<T>(f: T -> T, w: Worker<T>): seq<T> {
    match w
    case Processing(x) => [f(x)]
    case Writing(y) => [y]
    case _ => []
  }

  /** Read by the user, waiting to be read, in hand, and still to come. */
  function Pipeline<T>(f: T -> T, st: State<T>): seq<T> {
    st.delivered + st.outQueue + InHand(f, st.worker) + Map(f, st.inQueue)
  }

  lemma StepRefines<T>(f: T -> T, st: State<T>, ev: Event<T>)
    requires Next(f, st, ev).Some? && Pipeline(f, st) == Map(f, st.accepted)
    ensures Pipeline(f, Next(f, st, ev).value) == Map(f, Next(f, st, ev).value.accepted)
  {
    var st' := Next(f, st, ev).value;
    match ev
    case Write(x) =>
      if st.running {
        assert Map(f, st'.accepted) == Map(f, st.accepted) + [f(x)];
        assert Map(f, st'.inQueue) == Map(f, st.inQueue) + [f(x)];
      }
    case Read =>
      assert st'.delivered + st'.outQueue == st.delivered + st.outQueue;
    case WorkerRead =>
      if st.inQueue != [] {
        assert Map(f, st.inQueue) == [f(st.inQueue[0])] + Map(f, st'.inQueue);
      }
    case WorkerProcess =>
    case WorkerWrite =>
      assert st.delivered + st.outQueue + InHand(f, st.worker) == st'.delivered + st'.outQueue + InHand(f, st'.worker);
    case _ =>
  }

  /** In every interleaving what was read, followed by everything on its way, is the function applied to
      all the inputs accepted, in order: nothing is lost, doubled or overtaken. */
  lemma {:induction false} PipelineRefinesMap<T>(f: T -> T, evs: seq<Event<T>>)
    requires After(f, evs).Some?
    ensures Pipeline(f, After(f, evs).value) == Map(f, After(f, evs).value.accepted)
    ensures After(f, evs).value.delivered <= Map(f, After(f, evs).value.accepted)
    decreases |evs|
  {
    if evs != [] {
      PipelineRefinesMap(f, evs[..|evs| - 1]);
      StepRefines(f, After(f, evs[..|evs| - 1]).value, evs[|evs| - 1]);
    }
    var st := After(f, evs).value;
    assert Pipeline(f, st)[..|st.delivered|] == st.delivered;
  }

  /** A worker that has exited was stopped, and every input accepted is processed and there to be read. */
  ghost predicate DoneWhenExited<T>(f: T -> T, st: State<T>) {
    st.worker.Exited? ==> !st.running && st.inQueue == [] && st.delivered + st.outQueue == Map(f, st.accepted)
  }

  lemma StepDone<T>(f: T -> T, st: State<T>, ev: Event<T>)
    requires Next(f, st, ev).Some? && DoneWhenExited(f, st)
    requires Pipeline(f, Next(f, st, ev).value) == Map(f, Next(f, st, ev).value.accepted)
    ensures DoneWhenExited(f, Next(f, st, ev).value)
  {
    var st' := Next(f, st, ev).value;
    if st'.worker.Exited? {
      assert !st'.running && st'.inQueue == [] && Map(f, st'.inQueue) == [];
      assert Pipeline(f, st') == st'.delivered + st'.outQueue;
    }
  }

  /** From any state of the pipeline, stopped in any way, the worker exits only when all accepted inputs are done. */
  lemma {:induction false} ExitsWhenDone<T>(f: T -> T, st: State<T>, evs: seq<Event<T>>)
    requires Pipeline(f, st) == Map(f, st.accepted) && DoneWhenExited(f, st) && From(f, st, evs).Some?
    ensures var end := From(f, st, evs).value; Pipeline(f, end) == Map(f, end.accepted) && DoneWhenExited(f, end)
    decreases |evs|
  {
    if evs != [] {
      hide Next, Pipeline, DoneWhenExited;
      ExitsWhenDone(f, st, evs[..|evs| - 1]);
      var before := From(f, st, evs[..|evs| - 1]).value;
      StepRefines(f, before, evs[|evs| - 1]);
      StepDone(f, before, evs[|evs| - 1]);
    }
  }

  /** But in no run does it exit: it is only stopped when the destructor has the lock that it needs to see
      that, and so the destructor never returns. */
  lemma {:induction false} DestructorNeverReturns<T>(f: T -> T, evs: seq<Event<T>>)
    requires After(f, evs).Some?
    ensures var st := After(f, evs).value;
            !st.worker.Exited? && st.destructor != Returned && (st.running || !InLockFree(st))
    decreases |evs|
  {
    if evs != [] {
      DestructorNeverReturns(f, evs[..|evs| - 1]);
    }
  }
}

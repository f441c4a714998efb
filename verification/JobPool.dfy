/** Parallel jobs: what a job's task does on each way out, the thread pool that runs the tasks, and the
    loop that collects the results.
*/
module JobPool {
  import opened Common

  // ----- one task -----

  /** The ways in which the program that a task runs can end. */
  datatype Ending =
    | Returned(answer: string)
    | StoppedWith(message: string)
    | Exited
    | VarError
    | StdException
    | UnknownException

  predicate Failed(e: Ending) {
    e.VarError? || e.StdException? || e.UnknownException?
  }

  /** A job's environment; `ans` is what its program leaves as its answer. */
  datatype Env = Env(job: nat, ans: string)

  datatype Promise = Unset | HasValue(env: Env) | HasException

  /** What the answer in the environment is when the program has ended. */
  function Answer(before: string, e: Ending): string {
    match e
    case Returned(answer) => answer
    case StoppedWith(message) => if message != "" then message else before
    case _ => ""
  }

  /** What a task posts when its program has ended: its environment, if it was given a result queue. */
  function Posted(env: Env, hasQueue: bool, e: Ending): (posted: seq<Env>)
    ensures |posted| == if hasQueue then 1 else 0
    ensures hasQueue ==> posted[0].job == env.job
  {
    if hasQueue then [Env(env.job, Answer(env.ans, e))] else []
  }

  /** The task of one job, with the promise and the result queue that it was given, if any. */
  class Task {
    var env: Env
    var promise: Promise
    const hasQueue: bool
    var posted: seq<Env>

    constructor (job: nat, withQueue: bool)
      ensures env == Env(job, "") && promise == Unset && hasQueue == withQueue && posted == []
    {
      env, promise, hasQueue, posted := Env(job, ""), Unset, withQueue, [];
    }

    /** Runs the program and passes its environment on: to the result queue exactly once if there is one,
        and otherwise to the promise unless the program failed. A failure always reaches the promise. */
    method Execute(e: Ending)
      requires promise == Unset
      modifies this
      ensures env == Env(old(env).job, Answer(old(env).ans, e))
      ensures posted == old(posted) + if hasQueue then [env] else []
      ensures posted == old(posted) + Posted(old(env), hasQueue, e)
      ensures promise == if Failed(e) then HasException else if hasQueue then Unset else HasValue(env)
      ensures e.VarError? || e.StdException? || e.UnknownException? <==> promise == HasException
      ensures e.Returned? ==> env.ans == e.answer
      ensures e.StoppedWith? && e.message != "" ==> env.ans == e.message
      ensures e.StoppedWith? && e.message == "" ==> env.ans == old(env).ans
      ensures !e.Returned? && !e.StoppedWith? ==> env.ans == ""
    {
      match e
      case Returned(answer) =>
        env := env.(ans := answer);
        if hasQueue {
          posted := posted + [env];
        } else {
          promise := HasValue(env);
        }
      case StoppedWith(message) =>
        if message != "" {
          env := env.(ans := message);
        }
        if hasQueue {
          posted := posted + [env];
        } else {
          promise := HasValue(env);
        }
      case Exited =>
        env := env.(ans := "");
        if hasQueue {
          posted := posted + [env];
        } else {
          promise := HasValue(env);
        }
      case VarError =>
        env := env.(ans := "");
        if hasQueue {
          posted := posted + [env];
        }
        promise := HasException;
      case StdException =>
        env := env.(ans := "");
        if hasQueue {
          posted := posted + [env];
        }
        promise := HasException;
      case UnknownException =>
        env := env.(ans := "");
        if hasQueue {
          posted := posted + [env];
        }
        promise := HasException;
    }
  }

  // ----- the pool and the collecting loop, step by step -----

  datatype Job = Job(id: nat, hasQueue: bool)

  /** The collecting loop: not running, with so many results still to wait for, or between taking a
      result and counting it off. */
  datatype Collector = Idle | Waiting(left: nat) | Holding(env: Env, left: nat)

  /** `count` is the pool's run count; `unposted` are the jobs that ended without a result queue;
      `accepted` is how many jobs the pool has taken, numbered from 0. */
  datatype Pool = Pool(
    queue: seq<Job>, running: seq<Job>, results: seq<Env>, delivered: seq<Env>, unposted: seq<nat>,
    count: nat, collector: Collector, open: bool, accepted: nat)

  const EMPTY := Pool([], [], [], [], [], 0, Idle, true, 0)

  datatype Event =
    | Enqueue(hasQueue: bool)     // run() or a job made without a manager
    | StartNext                   // a worker takes the first task
    | Finish(k: nat, e: Ending)   // the k-th running task ends
    | Ask(n: nat)                 // the collecting loop starts: at most as many results as the run count
    | Take                        // wait_and_pop returns
    | CountOff                    // the run count goes down, and the result is handed on
    | LeaveLoop                   // the consumer of the results stops, or the loop is over
    | Shutdown                    // returns when all tasks have ended
    | Reset                       // a shutdown, and then a new pool in the same place

  function Drop<T>(s: seq<T>, k: nat): seq<T>
    requires k < |s|
  {
    s[..k] + s[k + 1..]
  }

  /** The pool after an event, if the event can happen. */
  function Next(p: Pool, ev: Event): Option<Pool> {
    match ev
    case Enqueue(hasQueue) =>
      if !p.open then Some(p) // refused: only the promise hears of it
      else Some(p.(queue := p.queue + [Job(p.accepted, hasQueue)], count := p.count + 1, accepted := p.accepted + 1))
    case StartNext =>
      if p.queue == [] then None
      else Some(p.(queue := p.queue[1..], running := p.running + [p.queue[0]]))
    case Finish(k, e) =>
      if k >= |p.running| then None
      else
        var job := p.running[k];
        var posted := Posted(Env(job.id, ""), job.hasQueue, e);
        Some(p.(running := Drop(p.running, k), results := p.results + posted,
                unposted := if posted == [] then p.unposted + [job.id] else p.unposted))
    case Ask(n) =>
      if p.collector == Idle && n <= p.count then Some(p.(collector := Waiting(n))) else None
    case Take =>
      if p.collector.Waiting? && p.collector.left > 0 && p.results != []
      then Some(p.(collector := Holding(p.results[0], p.collector.left), results := p.results[1..]))
      else None
    case CountOff =>
      if p.collector.Holding? && p.collector.left > 0
      then Some(p.(collector := Waiting(p.collector.left - 1), delivered := p.delivered + [p.collector.env],
                   count := if p.count > 0 then p.count - 1 else p.count))
      else None
    case LeaveLoop =>
      if p.collector.Waiting? then Some(p.(collector := Idle)) else None
    case Shutdown =>
      if p.queue == [] && p.running == [] then Some(p.(open := false)) else None
    case Reset =>
      if p.queue == [] && p.running == [] then Some(p.(open := true, count := 0)) else None
  }

  function After(evs: seq<Event>): Option<Pool> {
    if evs == [] then Some(EMPTY)
    else
      var before := After(evs[..|evs| - 1]);
      if before.Some? then Next(before.value, evs[|evs| - 1]) else None
  }

  // ----- exactly once -----

  function JobCount(jobs: seq<Job>, id: nat): nat {
    if jobs == [] then 0 else (if jobs[0].id == id then 1 else 0) + JobCount(jobs[1..], id)
  }

  function EnvCount(envs: seq<Env>, id: nat): nat {
    if envs == [] then 0 else (if envs[0].job == id then 1 else 0) + EnvCount(envs[1..], id)
  }

  function IdCount(ids: seq<nat>, id: nat): nat {
    if ids == [] then 0 else IdCount(ids[..|ids| - 1], id) + if ids[|ids| - 1] == id then 1 else 0
  }

  /** In how many places a job is: queued, running, posted, taken, handed on, or ended unposted. */
  function Places(p: Pool, id: nat): nat {
    JobCount(p.queue, id) + JobCount(p.running, id) + EnvCount(p.results, id)
    + (if p.collector.Holding? && p.collector.env.job == id then 1 else 0)
    + EnvCount(p.delivered, id) + IdCount(p.unposted, id)
  }

  lemma {:induction false} JobCountSplit(a: seq<Job>, b: seq<Job>, id: nat)
    ensures JobCount(a + b, id) == JobCount(a, id) + JobCount(b, id)
  {
    if a == [] {
      assert a + b == b;
    } else {
      JobCountSplit(a[1..], b, id);
      assert (a + b)[1..] == a[1..] + b;
    }
  }

  lemma {:induction false} EnvCountSplit(a: seq<Env>, b: seq<Env>, id: nat)
    ensures EnvCount(a + b, id) == EnvCount(a, id) + EnvCount(b, id)
  {
    if a == [] {
      assert a + b == b;
    } else {
      EnvCountSplit(a[1..], b, id);
      assert (a + b)[1..] == a[1..] + b;
    }
  }

  lemma InThree(jobs: seq<Job>, k: nat)
    requires k < |jobs|
    ensures jobs == jobs[..k] + ([jobs[k]] + jobs[k + 1..])
  {
    assert [jobs[k]] + jobs[k + 1..] == jobs[k..];
  }

  lemma JobCountDrop(jobs: seq<Job>, k: nat, id: nat)
    requires k < |jobs|
    ensures JobCount(jobs, id) == JobCount(Drop(jobs, k), id) + if jobs[k].id == id then 1 else 0
  {
    JobCountSplit(jobs[..k], [jobs[k]] + jobs[k + 1..], id);
    JobCountSplit([jobs[k]], jobs[k + 1..], id);
    JobCountSplit(jobs[..k], jobs[k + 1..], id);
    InThree(jobs, k);
  }

  predicate Accepts(p: Pool, ev: Event) {
    ev.Enqueue? && p.open
  }

  lemma EnqueueMoves(p: Pool, hasQueue: bool, id: nat)
    ensures var p' := Next(p, Enqueue(hasQueue)).value;
            Places(p', id) == Places(p, id) + if id == p.accepted && p.open then 1 else 0
  {
    JobCountSplit(p.queue, [Job(p.accepted, hasQueue)], id);
  }

  lemma StartMoves(p: Pool, id: nat)
    requires p.queue != []
    ensures Places(Next(p, StartNext).value, id) == Places(p, id)
  {
    JobCountSplit(p.running, [p.queue[0]], id);
  }

  lemma FinishMoves(p: Pool, k: nat, e: Ending, id: nat)
    requires k < |p.running|
    ensures Places(Next(p, Finish(k, e)).value, id) == Places(p, id)
  {
    hide Drop, Posted, JobCount, EnvCount, IdCount;
    var job := p.running[k];
    var posted := Posted(Env(job.id, ""), job.hasQueue, e);
    JobCountDrop(p.running, k, id);
    IdCountNext(p.unposted, job.id, id);
    EnvCountSplit(p.results, posted, id);
    PostedCount(Env(job.id, ""), job.hasQueue, e, id);
    assert !job.hasQueue ==> posted == [];
  }

  lemma IdCountNext(ids: seq<nat>, x: nat, id: nat)
    ensures IdCount(ids + [x], id) == IdCount(ids, id) + if x == id then 1 else 0
  {
    assert (ids + [x])[..|ids|] == ids;
  }

  lemma PostedCount(env: Env, hasQueue: bool, e: Ending, id: nat)
    ensures EnvCount(Posted(env, hasQueue, e), id) == if hasQueue && env.job == id then 1 else 0
  {
  }

  lemma TakeMoves(p: Pool, id: nat)
    requires Next(p, Take).Some?
    ensures Places(Next(p, Take).value, id) == Places(p, id)
  {
  }

  lemma CountOffMoves(p: Pool, id: nat)
    requires Next(p, CountOff).Some?
    ensures Places(Next(p, CountOff).value, id) == Places(p, id)
  {
    EnvCountSplit(p.delivered, [p.collector.env], id);
  }

  /** An event moves a job or leaves all jobs where they are; only an accepted one adds a job. */
  lemma NextMoves(p: Pool, ev: Event, id: nat)
    requires Next(p, ev).Some?
    ensures Places(Next(p, ev).value, id) == Places(p, id) + if Accepts(p, ev) && id == p.accepted then 1 else 0
    ensures Next(p, ev).value.accepted == p.accepted + if Accepts(p, ev) then 1 else 0
  {
    match ev
    case Enqueue(hasQueue) => hide Places; EnqueueMoves(p, hasQueue, id);
    case StartNext => hide Places; StartMoves(p, id);
    case Finish(k, e) => hide Places; FinishMoves(p, k, e, id);
    case Take => hide Places; TakeMoves(p, id);
    case CountOff => hide Places; CountOffMoves(p, id);
    case _ =>
  }

  /** In every run each job that the pool took is in exactly one place, once: it is neither lost nor
      posted or delivered twice. */
  lemma {:induction false} JobsOnce(evs: seq<Event>, id: nat)
    requires After(evs).Some?
    ensures Places(After(evs).value, id) == if id < After(evs).value.accepted then 1 else 0
  {
    if evs != [] {
      hide Next, Places;
      JobsOnce(evs[..|evs| - 1], id);
      NextMoves(After(evs[..|evs| - 1]).value, evs[|evs| - 1], id);
    } else {
      assert Places(EMPTY, id) == 0;
    }
  }

  // ----- the run count, and waiting for results -----

  function Busy(p: Pool): nat {
    |p.queue| + |p.running| + |p.results| + (if p.collector.Holding? then 1 else 0) + |p.unposted|
  }

  /** How many results will still come: of the jobs that have a result queue. */
  function Owed(jobs: seq<Job>): nat {
    if jobs == [] then 0 else (if jobs[0].hasQueue then 1 else 0) + Owed(jobs[1..])
  }

  function ToCome(p: Pool): nat {
    Owed(p.queue) + Owed(p.running) + |p.results|
  }

  /** The jobs without a result queue, ended or not. */
  function Queueless(p: Pool): int {
    |p.queue| - Owed(p.queue) + |p.running| - Owed(p.running) + |p.unposted|
  }

  lemma {:induction false} OwedSplit(a: seq<Job>, b: seq<Job>)
    ensures Owed(a + b) == Owed(a) + Owed(b)
  {
    if a == [] {
      assert a + b == b;
    } else {
      OwedSplit(a[1..], b);
      assert (a + b)[1..] == a[1..] + b;
    }
  }

  lemma OwedLast(jobs: seq<Job>, job: Job)
    ensures Owed(jobs + [job]) == Owed(jobs) + if job.hasQueue then 1 else 0
  {
    OwedSplit(jobs, [job]);
  }

  lemma OwedFirst(jobs: seq<Job>)
    requires jobs != []
    ensures Owed(jobs) == Owed(jobs[1..]) + if jobs[0].hasQueue then 1 else 0
  {
  }

  lemma OwedDrop(jobs: seq<Job>, k: nat)
    requires k < |jobs|
    ensures Owed(jobs) == Owed(Drop(jobs, k)) + if jobs[k].hasQueue then 1 else 0
  {
    assert Owed([jobs[k]]) == if jobs[k].hasQueue then 1 else 0;
    hide Owed;
    OwedSplit(jobs[..k], [jobs[k]] + jobs[k + 1..]);
    OwedSplit([jobs[k]], jobs[k + 1..]);
    OwedSplit(jobs[..k], jobs[k + 1..]);
    InThree(jobs, k);
  }

  /** What every step keeps. */
  ghost predicate Inv(p: Pool) {
    && p.count <= Busy(p)
    && (p.collector.Waiting? ==> p.collector.left <= ToCome(p) + Queueless(p))
    && (p.collector.Holding? ==> 0 < p.collector.left <= ToCome(p) + 1 + Queueless(p))
  }

  lemma NextKeepsInv(p: Pool, ev: Event)
    requires Inv(p) && Next(p, ev).Some?
    ensures Inv(Next(p, ev).value)
    ensures ev != Reset && ev != CountOff ==>
      Busy(Next(p, ev).value) - Busy(p) == Next(p, ev).value.count - p.count
    ensures ev == CountOff && p.count > 0 ==>
      Busy(Next(p, ev).value) - Busy(p) == Next(p, ev).value.count - p.count
  {
    hide Owed, Posted;
    match ev
    case Enqueue(hasQueue) => OwedLast(p.queue, Job(p.accepted, hasQueue));
    case StartNext =>
      OwedLast(p.running, p.queue[0]);
      OwedFirst(p.queue);
    case Finish(k, e) => OwedDrop(p.running, k);
    case _ =>
  }

  lemma {:induction false} InvAlways(evs: seq<Event>)
    requires After(evs).Some?
    ensures Inv(After(evs).value)
  {
    if evs != [] {
      InvAlways(evs[..|evs| - 1]);
      hide Inv, Next;
      EmptyInv();
      NextKeepsInv(After(evs[..|evs| - 1]).value, evs[|evs| - 1]);
    }
  }

  lemma EmptyInv()
    ensures Inv(EMPTY)
  {
  }

  predicate NoReset(evs: seq<Event>) {
    Reset !in evs
  }

  /** Without a reset the run count is always the number of jobs queued and running and of results not
      yet counted off, together with the jobs that ended without a result queue. */
  lemma {:induction false} CountIsExact(evs: seq<Event>)
    requires After(evs).Some? && NoReset(evs)
    ensures After(evs).value.count == Busy(After(evs).value)
  {
    if evs != [] {
      var shorter := evs[..|evs| - 1];
      CountIsExact(shorter);
      InvAlways(shorter);
      var p := After(shorter).value;
      assert evs[|evs| - 1] != Reset;
      NextKeepsInv(p, evs[|evs| - 1]);
    }
  }

  predicate AllHaveQueues(evs: seq<Event>) {
    Enqueue(false) !in evs
  }

  ghost predicate HaveQueues(p: Pool) {
    && (forall j :: j in p.queue ==> j.hasQueue) && (forall j :: j in p.running ==> j.hasQueue)
    && Queueless(p) == 0
  }

  lemma QueuesStay(p: Pool, ev: Event)
    requires Next(p, ev).Some? && HaveQueues(p) && ev != Enqueue(false)
    ensures HaveQueues(Next(p, ev).value)
  {
    hide Owed, Posted;
    match ev
    case Enqueue(hasQueue) => OwedLast(p.queue, Job(p.accepted, hasQueue));
    case StartNext =>
      OwedLast(p.running, p.queue[0]);
      OwedFirst(p.queue);
    case Finish(k, e) => OwedDrop(p.running, k);
    case _ =>
  }

  lemma {:induction false} NoneQueueless(evs: seq<Event>)
    requires After(evs).Some? && AllHaveQueues(evs)
    ensures HaveQueues(After(evs).value)
  {
    if evs != [] {
      hide Next, HaveQueues;
      NoneQueueless(evs[..|evs| - 1]);
      QueuesStay(After(evs[..|evs| - 1]).value, evs[|evs| - 1]);
    }
  }

  /** When every job of the pool was given the result queue, the collecting loop never waits for a result
      that cannot come, in any interleaving, even after its consumer stopped early or the pool was reset:
      as many results as it waits for are there or will be posted by jobs queued or running. */
  lemma NeverWaitsInVain(evs: seq<Event>)
    requires After(evs).Some? && AllHaveQueues(evs)
    ensures var p := After(evs).value;
            p.collector.Waiting? ==> p.collector.left <= |p.results| + |p.queue| + |p.running|
  {
    InvAlways(evs);
    NoneQueueless(evs);
    OwedBound(After(evs).value.queue);
    OwedBound(After(evs).value.running);
  }

  lemma {:induction false} OwedBound(jobs: seq<Job>)
    ensures Owed(jobs) <= |jobs|
  {
    if jobs != [] {
      OwedBound(jobs[1..]);
    }
  }

  // ----- the order of the results -----

  /** What the tasks that have ended have posted, in the order in which they ended. */
  function AllPosted(evs: seq<Event>): seq<Env>
    requires After(evs).Some?
  {
    if evs == [] then []
    else
      var p, ev := After(evs[..|evs| - 1]).value, evs[|evs| - 1];
      AllPosted(evs[..|evs| - 1])
      + if ev.Finish? && p.running[ev.k].hasQueue then [Env(p.running[ev.k].id, AnswerText(ev.e))] else []
  }

  /** The answer of a job that started without one. */
  function AnswerText(e: Ending): string {
    match e case Returned(answer) => answer case StoppedWith(message) => message case _ => ""
  }

  function InHand(c: Collector): seq<Env> {
    if c.Holding? then [c.env] else []
  }

  /** In every run the results handed on, with the one in hand and those that wait, are what was posted, in order. */
  lemma {:induction false} ResultsInOrder(evs: seq<Event>)
    requires After(evs).Some?
    ensures var p := After(evs).value; p.delivered + InHand(p.collector) + p.results == AllPosted(evs)
    decreases |evs|
  {
    if evs != [] {
      var shorter, ev := evs[..|evs| - 1], evs[|evs| - 1];
      ResultsInOrder(shorter);
      var p := After(shorter).value;
      var q := Next(p, ev).value;
      assert p.delivered + InHand(p.collector) + p.results == AllPosted(shorter);
      ResultsNext(p, ev);
    }
  }

  lemma ResultsNext(p: Pool, ev: Event)
    requires Next(p, ev).Some?
    ensures var q := Next(p, ev).value;
            q.delivered + InHand(q.collector) + q.results == p.delivered + InHand(p.collector) + p.results
              + if ev.Finish? && p.running[ev.k].hasQueue then [Env(p.running[ev.k].id, AnswerText(ev.e))] else []
  {
    hide Drop;
  }

  /** The tasks are started in the order in which they were accepted. */
  lemma {:induction false} StartsInOrder(evs: seq<Event>)
    requires After(evs).Some?
    ensures var p := After(evs).value;
            |p.queue| <= p.accepted && forall i :: 0 <= i < |p.queue| ==> p.queue[i].id == p.accepted - |p.queue| + i
    decreases |evs|
  {
    if evs != [] {
      StartsInOrder(evs[..|evs| - 1]);
      hide Drop, Posted;
    }
  }

  // ----- when the loop waits for ever -----

  /** The loop waits for more results than are there or will ever be posted by the jobs under way. */
  predicate InVain(p: Pool) {
    (p.collector.Waiting? && p.collector.left > ToCome(p)) || (p.collector.Holding? && p.collector.left > ToCome(p) + 1)
  }

  /** Whether an event brings a further result or ends the loop or starts it. */
  predicate Changes(ev: Event) {
    ev == Enqueue(true) || ev.LeaveLoop? || ev.Ask?
  }

  lemma ToComeNext(p: Pool, ev: Event)
    requires Next(p, ev).Some?
    ensures ev != Enqueue(true) ==> ToCome(Next(p, ev).value) == ToCome(p) - if ev.Take? then 1 else 0
  {
    match ev
    case Enqueue(hasQueue) => OwedLast(p.queue, Job(p.accepted, hasQueue));
    case StartNext =>
      OwedLast(p.running, p.queue[0]);
      OwedFirst(p.queue);
    case Finish(k, e) => OwedDrop(p.running, k);
    case _ =>
  }

  /** Nothing else than a further job with the queue, or the end of the loop, makes waiting in vain end or begin. */
  lemma InVainStays(p: Pool, ev: Event)
    requires Next(p, ev).Some? && !Changes(ev)
    ensures InVain(Next(p, ev).value) <==> InVain(p)
  {
    hide ToCome;
    ToComeNext(p, ev);
  }

  /** A loop started now waits in vain if and only if more jobs that ended or are under way have no result queue
      than there are jobs and results that a reset left uncounted, which without a reset are none. */
  lemma AskInVainIff(evs: seq<Event>)
    requires After(evs).Some? && After(evs).value.collector == Idle
    ensures var p := After(evs).value;
            && Next(p, Ask(p.count)).Some?
            && (InVain(Next(p, Ask(p.count)).value) <==> Queueless(p) > Busy(p) - p.count)
            && Busy(p) - p.count >= 0 && (NoReset(evs) ==> Busy(p) == p.count)
  {
    InvAlways(evs);
    if NoReset(evs) {
      CountIsExact(evs);
    }
  }

  predicate NoChange(evs: seq<Event>) {
    forall i :: 0 <= i < |evs| ==> !Changes(evs[i])
  }

  lemma AfterFront(evs: seq<Event>, more: seq<Event>)
    requires more != []
    ensures (evs + more)[..|evs + more| - 1] == evs + more[..|more| - 1]
    ensures (evs + more)[|evs + more| - 1] == more[|more| - 1]
  {
  }

  /** In every continuation without such a job the loop is still in the middle: it waits in vain for ever, or it
      never does. */
  lemma {:induction false} InVainForEver(evs: seq<Event>, more: seq<Event>)
    requires After(evs).Some? && After(evs + more).Some? && NoChange(more)
    ensures InVain(After(evs + more).value) <==> InVain(After(evs).value)
    decreases |more|
  {
    if more == [] {
      assert evs + more == evs;
    } else {
      hide Next, InVain, Changes;
      AfterFront(evs, more);
      var front := more[..|more| - 1];
      InVainForEver(evs, front);
      assert !Changes(more[|more| - 1]);
      InVainStays(After(evs + front).value, more[|more| - 1]);
    }
  }

  /** Once the results that are to come have been counted off, the loop stands still. */
  predicate Stuck(p: Pool) {
    p.collector.Waiting? && p.collector.left > 0 && ToCome(p) == 0
  }

  lemma StuckStays(p: Pool, ev: Event)
    requires Stuck(p) && Next(p, ev).Some? && !Changes(ev)
    ensures Stuck(Next(p, ev).value) && Next(p, ev).value.collector == p.collector
  {
    ToComeNext(p, ev);
  }

  lemma {:induction false} StuckForEver(evs: seq<Event>, more: seq<Event>)
    requires After(evs).Some? && After(evs + more).Some? && NoChange(more) && Stuck(After(evs).value)
    ensures Stuck(After(evs + more).value) && After(evs + more).value.collector == After(evs).value.collector
    decreases |more|
  {
    if more == [] {
      assert evs + more == evs;
    } else {
      hide Next, Stuck, Changes;
      AfterFront(evs, more);
      var front := more[..|more| - 1];
      StuckForEver(evs, front);
      assert !Changes(more[|more| - 1]);
      StuckStays(After(evs + front).value, more[|more| - 1]);
    }
  }

  /** One job without the result queue is enough to make the loop wait for ever: whatever happens then, unless a
      job with the queue is added or the consumer leaves, it waits for one result. */
  lemma WaitsInVain(e: Ending, more: seq<Event>)
    requires After([Enqueue(false), StartNext, Finish(0, e), Ask(1)] + more).Some? && NoChange(more)
    ensures var p := After([Enqueue(false), StartNext, Finish(0, e), Ask(1)] + more).value;
            p.collector == Waiting(1) && ToCome(p) == 0
  {
    var a, b, c := [Enqueue(false)], [Enqueue(false), StartNext], [Enqueue(false), StartNext, Finish(0, e)];
    var d := [Enqueue(false), StartNext, Finish(0, e), Ask(1)];
    assert a[..0] == [] && b[..1] == a && c[..2] == b && d[..3] == c;
    assert After([]) == Some(EMPTY);
    var pa := After(a).value;
    assert pa == EMPTY.(queue := [Job(0, false)], count := 1, accepted := 1);
    var pb := After(b).value;
    assert pb == pa.(queue := [], running := [Job(0, false)]);
    assert Drop(pb.running, 0) == [];
    assert After(c).Some? && After(c).value == pb.(running := [], unposted := [0]);
    assert After(d) == Some(After(c).value.(collector := Waiting(1)));
    StuckForEver(d, more);
  }
}

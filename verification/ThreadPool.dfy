/**
 The bounded worker pool (src/util/thread_pool.cpp).  Each critical section of the mutex is one atomic
 step; a worker runs its job outside the mutex, between `Take` and `Finish`.
 */
module ThreadPool {
  datatype Worker<T> = Waiting | Running(job: T) | Exited

  /** How far the first call of `shutdown` has come. */
  datatype Phase = Serving | Joining(joined: nat) | Joined | Returned

  /** The pool, with what it ever accepted, started and finished, and what the final swap threw away. */
  datatype Pool<T> = Pool(
    queue: seq<T>, workers: seq<Worker<T>>, stopping: bool, phase: Phase, limit: nat,
    accepted: seq<T>, started: seq<T>, finished: multiset<T>, discarded: seq<T>)

  function AllWaiting<T>(count: nat): seq<Worker<T>> {
    seq(count, _ => Waiting)
  }

  /** The constructor refuses a pool without workers or without room. */
  predicate Creatable(threads: nat, limit: nat) {
    threads > 0 && limit > 0
  }

  function Create<T>(threads: nat, limit: nat): Pool<T> {
    Pool([], AllWaiting(threads), false, Serving, limit, [], [], multiset{}, [])
  }

  datatype Step<T> =
    | Submit(job: T)
    | Take(worker: nat)
    | Finish(worker: nat)
    | Exit(worker: nat)
    | Stop
    | Join
    | Clear
    | Swap

  predicate Enabled<T(==)>(p: Pool<T>, step: Step<T>) {
    match step
    case Submit(_) => true
    case Take(w) => w < |p.workers| && p.workers[w] == Waiting && p.queue != []
    case Finish(w) => w < |p.workers| && p.workers[w].Running?
    case Exit(w) => w < |p.workers| && p.workers[w] == Waiting && p.stopping && p.queue == []
    case Stop => true
    case Join => p.phase.Joining? && p.phase.joined < |p.workers| && p.workers[p.phase.joined] == Exited
    case Clear => p.phase.Joining? && p.phase.joined == |p.workers|
    case Swap => p.phase == Joined
  }

  /** `try_submit` takes a job only before the stop and below the limit. */
  predicate Accepts<T>(p: Pool<T>) {
    !p.stopping && |p.queue| < p.limit
  }

  function Do<T(==)>(p: Pool<T>, step: Step<T>): Pool<T>
    requires Enabled(p, step)
  {
    match step
    case Submit(job) => if Accepts(p) then p.(queue := p.queue + [job], accepted := p.accepted + [job]) else p
    case Take(w) =>
      p.(queue := p.queue[1..], workers := p.workers[w := Running(p.queue[0])], started := p.started + [p.queue[0]])
    case Finish(w) =>
      p.(workers := p.workers[w := Waiting], finished := p.finished + multiset{p.workers[w].job})
    case Exit(w) => p.(workers := p.workers[w := Exited])
    case Stop => if p.stopping then p else p.(stopping := true, phase := Joining(0))
    case Join => p.(phase := Joining(p.phase.joined + 1))
    case Clear => p.(phase := Joined, workers := [])
    case Swap => p.(phase := Returned, discarded := p.queue, queue := [])
  }

  // ----- The invariant -----

  function BusyOne<T>(w: Worker<T>): multiset<T> {
    if w.Running? then multiset{w.job} else multiset{}
  }

  /** The jobs being run. */
  function Busy<T>(workers: seq<Worker<T>>): multiset<T> {
    if workers == [] then multiset{} else Busy(workers[..|workers| - 1]) + BusyOne(workers[|workers| - 1])
  }

  lemma Shuffle<T>(a: multiset<T>, b: multiset<T>, c: multiset<T>, d: multiset<T>, more: multiset<T>)
    requires a + b == c + d
    ensures a + more + b == c + more + d
  {
    assert a + more + b == a + b + more;
    assert c + more + d == c + d + more;
  }

  lemma BusyLast<T>(workers: seq<Worker<T>>)
    requires workers != []
    ensures Busy(workers) == Busy(workers[..|workers| - 1]) + BusyOne(workers[|workers| - 1])
  {
  }

  lemma {:induction false} BusySet<T>(workers: seq<Worker<T>>, i: nat, w: Worker<T>)
    requires i < |workers|
    ensures Busy(workers[i := w]) + BusyOne(workers[i]) == Busy(workers) + BusyOne(w)
    decreases |workers|
  {
    hide Busy, BusyOne;
    var n, workers' := |workers| - 1, workers[i := w];
    BusyLast(workers);
    BusyLast(workers');
    if i == n {
      assert workers'[..n] == workers[..n];
      var front, a, b := Busy(workers[..n]), BusyOne(workers[n]), BusyOne(w);
      assert front + b + a == front + a + b;
    } else {
      assert workers'[..n] == workers[..n][i := w];
      BusySet(workers[..n], i, w);
      Shuffle(Busy(workers[..n][i := w]), BusyOne(workers[i]), Busy(workers[..n]), BusyOne(w), BusyOne(workers[n]));
    }
  }

  lemma {:induction false} NoneBusy<T>(workers: seq<Worker<T>>)
    requires forall i :: 0 <= i < |workers| ==> !workers[i].Running?
    ensures Busy(workers) == multiset{}
    decreases |workers|
  {
    if workers != [] {
      NoneBusy(workers[..|workers| - 1]);
    }
  }

  predicate Inv<T(==)>(p: Pool<T>) {
    && p.accepted == p.started + p.queue + p.discarded
    && |p.queue| <= p.limit
    && multiset(p.started) == p.finished + Busy(p.workers)
    && (p.stopping <==> p.phase != Serving)
    && (forall i :: 0 <= i < |p.workers| && p.workers[i] == Exited ==> p.stopping && p.queue == [])
    && p.discarded == []
    && match p.phase
       case Serving => |p.workers| > 0
       case Joining(joined) =>
         |p.workers| > 0 && joined <= |p.workers| && forall i :: 0 <= i < joined ==> p.workers[i] == Exited
       case Joined => p.workers == [] && p.queue == []
       case Returned => p.workers == [] && p.queue == []
  }

  lemma CreateInv<T>(threads: nat, limit: nat)
    requires Creatable(threads, limit)
    ensures Inv(Create<T>(threads, limit))
  {
    NoneBusy(AllWaiting<T>(threads));
  }

  lemma TakeKeeps<T>(p: Pool<T>, w: nat)
    requires Inv(p) && Enabled(p, Take(w))
    ensures Inv(Do(p, Take(w)))
  {
    hide Busy;
    BusySet(p.workers, w, Running(p.queue[0]));
    assert Busy(Do(p, Take(w)).workers) == Busy(p.workers) + multiset{p.queue[0]};
    assert p.queue == [p.queue[0]] + p.queue[1..];
  }

  lemma FinishKeeps<T>(p: Pool<T>, w: nat)
    requires Inv(p) && Enabled(p, Finish(w))
    ensures Inv(Do(p, Finish(w)))
  {
    hide Busy;
    BusySet(p.workers, w, Waiting);
    assert Busy(Do(p, Finish(w)).workers) + multiset{p.workers[w].job} == Busy(p.workers);
  }

  lemma ExitKeeps<T>(p: Pool<T>, w: nat)
    requires Inv(p) && Enabled(p, Exit(w))
    ensures Inv(Do(p, Exit(w)))
  {
    hide Busy;
    BusySet(p.workers, w, Exited);
    assert forall m: multiset<T> :: m + multiset{} == m;
    assert Busy(Do(p, Exit(w)).workers) == Busy(p.workers);
  }

  /** The workers are let go only when all have exited, so none was running and nothing was queued. */
  lemma ClearKeeps<T>(p: Pool<T>)
    requires Inv(p) && Enabled(p, Clear)
    ensures Inv(Do(p, Clear))
  {
    assert p.workers[0] == Exited;
    NoneBusy(p.workers);
  }

  lemma StepKeeps<T>(p: Pool<T>, step: Step<T>)
    requires Inv(p) && Enabled(p, step)
    ensures Inv(Do(p, step))
  {
    match step {
      case Submit(job) => assert p.started + (p.queue + [job]) + [] == p.started + p.queue + [] + [job];
      case Take(w) => TakeKeeps(p, w);
      case Finish(w) => FinishKeeps(p, w);
      case Exit(w) => ExitKeeps(p, w);
      case Clear => ClearKeeps(p);
      case _ =>
    }
  }

  predicate IsRun<T(==)>(states: seq<Pool<T>>, steps: seq<Step<T>>, threads: nat, limit: nat) {
    && |states| == |steps| + 1 && states[0] == Create(threads, limit)
    && forall i :: 0 <= i < |steps| ==> Enabled(states[i], steps[i]) && states[i + 1] == Do(states[i], steps[i])
  }

  lemma {:induction false} RunInv<T>(states: seq<Pool<T>>, steps: seq<Step<T>>, threads: nat, limit: nat, n: nat)
    requires Creatable(threads, limit) && IsRun(states, steps, threads, limit) && n < |states|
    ensures Inv(states[n]) && states[n].limit == limit
  {
    hide Inv;
    if n == 0 {
      CreateInv<T>(threads, limit);
    } else {
      RunInv(states, steps, threads, limit, n - 1);
      StepKeeps(states[n - 1], steps[n - 1]);
    }
  }

  /** In every run: the jobs started, then the jobs queued, are the jobs accepted, in order, each once. */
  lemma StartedOnceInOrder<T>(states: seq<Pool<T>>, steps: seq<Step<T>>, threads: nat, limit: nat, n: nat)
    requires Creatable(threads, limit) && IsRun(states, steps, threads, limit) && n < |states|
    ensures states[n].started + states[n].queue == states[n].accepted && |states[n].queue| <= limit
    ensures multiset(states[n].started) == states[n].finished + Busy(states[n].workers)
  {
    hide IsRun;
    RunInv(states, steps, threads, limit, n);
  }

  /** In every run a submission is accepted if and only if it comes before the stop and finds room. */
  lemma AcceptedIff<T>(states: seq<Pool<T>>, steps: seq<Step<T>>, threads: nat, limit: nat, n: nat)
    requires Creatable(threads, limit) && IsRun(states, steps, threads, limit) && n < |steps| && steps[n].Submit?
    ensures states[n + 1].accepted == states[n].accepted + [steps[n].job] <==>
            (forall i :: 0 <= i < n ==> steps[i] != Stop) && |states[n].queue| < limit
    ensures states[n + 1].accepted != states[n].accepted ==> states[n + 1].queue == states[n].queue + [steps[n].job]
  {
    RunInv(states, steps, threads, limit, n);
    StoppingIff(states, steps, threads, limit, n);
  }

  lemma {:induction false} StoppingIff<T>(
    states: seq<Pool<T>>, steps: seq<Step<T>>, threads: nat, limit: nat, n: nat)
    requires IsRun(states, steps, threads, limit) && n < |states|
    ensures states[n].stopping <==> exists i :: 0 <= i < n && steps[i] == Stop
  {
    if n > 0 {
      StoppingIff(states, steps, threads, limit, n - 1);
    }
  }

  /** When the first `shutdown` returns, every accepted job has run and the final swap threw nothing away. */
  lemma ShutdownRunsEverything<T>(states: seq<Pool<T>>, steps: seq<Step<T>>, threads: nat, limit: nat, n: nat)
    requires Creatable(threads, limit) && IsRun(states, steps, threads, limit) && n < |states|
    requires states[n].phase == Returned
    ensures states[n].started == states[n].accepted && states[n].finished == multiset(states[n].accepted)
    ensures states[n].discarded == [] && states[n].workers == []
  {
    hide IsRun;
    RunInv(states, steps, threads, limit, n);
  }

  // ----- Draining -----

  function Weight<T>(w: Worker<T>): nat {
    match w
    case Waiting => 1
    case Running(_) => 2
    case Exited => 0
  }

  function Load<T>(workers: seq<Worker<T>>): nat {
    if workers == [] then 0 else Load(workers[..|workers| - 1]) + Weight(workers[|workers| - 1])
  }

  lemma {:induction false} LoadSet<T>(workers: seq<Worker<T>>, i: nat, w: Worker<T>)
    requires i < |workers|
    ensures Load(workers[i := w]) + Weight(workers[i]) == Load(workers) + Weight(w)
    decreases |workers|
  {
    var n := |workers| - 1;
    if i == n {
      assert workers[i := w][..n] == workers[..n];
    } else {
      assert workers[i := w][..n] == workers[..n][i := w];
      LoadSet(workers[..n], i, w);
    }
  }

  /** Steps that a shutdown in progress can still take. */
  function Remaining<T>(p: Pool<T>): nat {
    2 * |p.queue| + Load(p.workers) +
    match p.phase
    case Serving => 0
    case Joining(joined) => if joined <= |p.workers| then |p.workers| - joined + 2 else 0
    case Joined => 1
    case Returned => 0
  }

  /** Once stopping, every step that changes the pool brings the shutdown closer to its end. */
  lemma DrainAdvances<T>(p: Pool<T>, step: Step<T>)
    requires Inv(p) && p.stopping && Enabled(p, step)
    ensures Do(p, step) == p || Remaining(Do(p, step)) < Remaining(p)
  {
    hide Busy;
    match step {
      case Take(w) => LoadSet(p.workers, w, Running(p.queue[0]));
      case Finish(w) => LoadSet(p.workers, w, Waiting);
      case Exit(w) => LoadSet(p.workers, w, Exited);
      case _ =>
    }
  }

  /** ... and until the shutdown has returned there is such a step. */
  lemma DrainNeverStuck<T>(p: Pool<T>) returns (step: Step<T>)
    requires Inv(p) && p.stopping && p.phase != Returned
    ensures Enabled(p, step) && Do(p, step) != p
  {
    hide Busy;
    match p.phase {
      case Joining(joined) =>
        if joined == |p.workers| {
          step := Clear;
        } else {
          match p.workers[joined] {
            case Waiting => step := if p.queue == [] then Exit(joined) else Take(joined);
            case Running(_) => step := Finish(joined);
            case Exited => step := Join;
          }
        }
      case Joined => step := Swap;
    }
  }

  // ----- A second shutdown -----

  predicate Quiet<T>(workers: seq<Worker<T>>) {
    forall i :: 0 <= i < |workers| ==> !workers[i].Running?
  }

  lemma {:induction false} RunningIsBusy<T>(workers: seq<Worker<T>>, i: nat)
    requires i < |workers| && workers[i].Running?
    ensures workers[i].job in Busy(workers)
    decreases |workers|
  {
    var n := |workers| - 1;
    if i < n {
      RunningIsBusy(workers[..n], i);
    }
  }

  lemma BusyIffNotQuiet<T>(workers: seq<Worker<T>>)
    ensures Busy(workers) == multiset{} <==> Quiet(workers)
  {
    hide Busy;
    if Quiet(workers) {
      NoneBusy(workers);
    } else {
      var i :| 0 <= i < |workers| && workers[i].Running?;
      RunningIsBusy(workers, i);
    }
  }

  /**
   In every state of every run that is stopping, a further `shutdown` changes nothing and returns at
   once; everything accepted has then run if and only if nothing is queued and no worker is running.
   */
  lemma SecondShutdownFindsAllDoneIff<T>(states: seq<Pool<T>>, steps: seq<Step<T>>, threads: nat, limit: nat, n: nat)
    requires Creatable(threads, limit) && IsRun(states, steps, threads, limit) && n < |states|
    requires states[n].stopping
    ensures var p := states[n];
            && Enabled(p, Stop) && Do(p, Stop) == p
            && (p.finished == multiset(p.accepted) <==> p.queue == [] && Quiet(p.workers))
  {
    hide IsRun, Busy, Quiet;
    RunInv(states, steps, threads, limit, n);
    var p := states[n];
    BusyIffNotQuiet(p.workers);
    assert p.accepted == p.started + p.queue;
    if p.finished == multiset(p.accepted) {
      assert |p.finished| == |p.finished| + |Busy(p.workers)| + |p.queue| by {
        assert multiset(p.accepted) == p.finished + Busy(p.workers) + multiset(p.queue);
      }
    } else if p.queue == [] {
      assert p.accepted == p.started;
    }
  }

  /** Such a return with work left does happen: one job queued, then two shutdowns. */
  lemma SecondShutdownDoesNotWait<T>(job: T, limit: nat)
    requires limit > 0
    ensures var p := Do(Do(Create(1, limit), Submit(job)), Stop);
            Do(p, Stop) == p && p.queue == [job] && p.finished == multiset{}
  {
  }

  // ----- The object -----

  class WorkerPool<T(==)> {
    const limit: nat
    var jobs: seq<T>
    var stopping: bool
    ghost var rest: Pool<T>

    /** The state of the protocol: the fields, the workers and the histories. */
    ghost function State(): Pool<T>
      reads this
    {
      rest.(queue := jobs, stopping := stopping, limit := limit)
    }

    constructor (threads: nat, limit: nat)
      requires Creatable(threads, limit)
      ensures State() == Create(threads, limit)
    {
      this.limit := limit;
      jobs, stopping := [], false;
      rest := Create(threads, limit);
    }

    method TrySubmit(job: T) returns (accepted: bool)
      modifies this
      ensures State() == Do(old(State()), Submit(job))
      ensures accepted <==> !old(stopping) && |old(jobs)| < limit
      ensures accepted ==> State().accepted == old(State().accepted) + [job] && jobs == old(jobs) + [job]
      ensures !accepted ==> State() == old(State())
    {
      if stopping || |jobs| >= limit {
        return false;
      }
      jobs := jobs + [job];
      rest := rest.(accepted := rest.accepted + [job]);
      return true;
    }

    /** The critical section of `worker_main` once its wait is over: the next job, or none to exit. */
    method NextJob(ghost worker: nat) returns (more: bool, job: seq<T>)
      requires stopping || jobs != []
      requires worker < |State().workers| && State().workers[worker] == Waiting
      modifies this
      ensures more <==> old(jobs) != []
      ensures State() == Do(old(State()), if more then Take(worker) else Exit(worker))
      ensures job == old(jobs[..if more then 1 else 0])
    {
      if stopping && jobs == [] {
        rest := rest.(workers := rest.workers[worker := Exited]);
        return false, [];
      }
      job := [jobs[0]];
      jobs := jobs[1..];
      rest := rest.(workers := rest.workers[worker := Running(job[0])], started := rest.started + job);
      return true, job;
    }

    /** The first critical section of `shutdown`. */
    method BeginShutdown() returns (first: bool)
      modifies this
      ensures State() == Do(old(State()), Stop)
      ensures first <==> !old(stopping)
    {
      if stopping {
        return false;
      }
      stopping := true;
      rest := rest.(phase := Joining(0));
      return true;
    }

    /** The last critical section of `shutdown`: on a pool in order there is nothing left to drop. */
    method DropQueue()
      requires State().phase == Joined
      modifies this
      ensures State() == Do(old(State()), Swap)
      ensures old(Inv(State())) ==> old(jobs) == []
    {
      rest := rest.(discarded := jobs, phase := Returned);
      jobs := [];
    }
  }

  /** The constructor with its two exceptions: no pool without workers or without room. */
  method MakePool<T(==)>(threads: nat, limit: nat) returns (pool: WorkerPool?<T>)
    ensures pool == null <==> threads == 0 || limit == 0
    ensures pool != null ==> fresh(pool) && pool.State() == Create(threads, limit) && Inv(pool.State())
  {
    if threads == 0 || limit == 0 {
      return null;
    }
    pool := new WorkerPool<T>(threads, limit);
    CreateInv<T>(threads, limit);
  }
}

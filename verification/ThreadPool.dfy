/** The thread pool (engine/src/util/thread_pool.cc, engine/include/util/thread_pool.h) as an interleaving
    of atomic steps: workers that wait on the condition variable, callers that check the stop flag, push and
    then notify, and the destructor that sets the flag and then wakes everyone. */
module ThreadPools {
  type Task = nat

  /** `Ready` is awake and about to look at the queue under the lock. */
  datatype Worker = Ready | Asleep | Busy(task: Task) | Exited

  /** `checked` callers have found the stop flag unset and not yet pushed; `notifying` callers have pushed
      and not yet notified; `waking` says that the destructor has set the flag and not yet notified.
      `pushed`, `taken` and `finished` record what happened so far. */
  datatype Pool = Pool(
    workers: seq<Worker>,
    queue: seq<Task>,
    checked: nat,
    notifying: nat,
    stop: bool,
    waking: bool,
    pushed: seq<Task>,
    taken: seq<Task>,
    finished: multiset<Task>)

  predicate Init(p: Pool) {
    && |p.workers| > 0 && (forall w :: 0 <= w < |p.workers| ==> p.workers[w] == Ready)
    && p.queue == [] && p.checked == 0 && p.notifying == 0 && !p.stop && !p.waking
    && p.pushed == [] && p.taken == [] && p.finished == multiset{}
  }

  datatype Step =
    | Check
    | Push(task: Task)
    | NotifyOne(w: nat)
    | NotifyNobody
    | Spurious(w: nat)
    | Look(w: nat)
    | Finish(w: nat)
    | Stop
    | NotifyAll

  predicate Is(p: Pool, w: nat, worker: Worker) {
    w < |p.workers| && p.workers[w] == worker
  }

  predicate NoneAsleep(p: Pool) {
    forall w :: 0 <= w < |p.workers| ==> p.workers[w] != Asleep
  }

  /** The destructor must not run while a caller is still on its way to a push. */
  predicate Enabled(p: Pool, step: Step) {
    match step
    case Check => !p.stop
    case Push(_) => p.checked > 0
    case NotifyOne(w) => p.notifying > 0 && Is(p, w, Asleep)
    case NotifyNobody => p.notifying > 0 && NoneAsleep(p)
    case Spurious(w) => Is(p, w, Asleep)
    case Look(w) => Is(p, w, Ready)
    case Finish(w) => w < |p.workers| && p.workers[w].Busy?
    case Stop => !p.stop && p.checked == 0
    case NotifyAll => p.waking
  }

  function Awake(worker: Worker): Worker {
    if worker == Asleep then Ready else worker
  }

  function Next(p: Pool, step: Step): Pool
    requires Enabled(p, step)
  {
    match step
    case Check => p.(checked := p.checked + 1)
    case Push(t) =>
      p.(checked := p.checked - 1, notifying := p.notifying + 1, queue := p.queue + [t], pushed := p.pushed + [t])
    case NotifyOne(w) => p.(notifying := p.notifying - 1, workers := p.workers[w := Ready])
    case NotifyNobody => p.(notifying := p.notifying - 1)
    case Spurious(w) => p.(workers := p.workers[w := Ready])
    case Look(w) =>
      if p.queue != [] then
        p.(workers := p.workers[w := Busy(p.queue[0])], queue := p.queue[1..], taken := p.taken + [p.queue[0]])
      else if p.stop then p.(workers := p.workers[w := Exited])
      else p.(workers := p.workers[w := Asleep])
    case Finish(w) =>
      p.(workers := p.workers[w := Ready], finished := p.finished + multiset{p.workers[w].task})
    case Stop => p.(stop := true, waking := true)
    case NotifyAll =>
      p.(waking := false, workers := seq(|p.workers|, w requires 0 <= w < |p.workers| => Awake(p.workers[w])))
  }

  // ----- the invariant

  /** How many workers are running this task. */
  function Running(workers: seq<Worker>, t: Task): nat {
    if workers == [] then 0 else Running(workers[1..], t) + if workers[0] == Busy(t) then 1 else 0
  }

  /** Every task taken was finished or is being run, as often as it was taken. */
  ghost predicate Conserved(p: Pool) {
    forall t :: ConservedFor(p, t)
  }

  predicate Working(worker: Worker) {
    worker == Ready || worker.Busy?
  }

  ghost predicate SomeWorking(p: Pool) {
    exists w :: 0 <= w < |p.workers| && Working(p.workers[w])
  }

  ghost predicate PoolOk(p: Pool) {
    && |p.workers| > 0
    && p.pushed == p.taken + p.queue
    && Conserved(p)
    && (p.stop ==> p.checked == 0) && (p.waking ==> p.stop)
    && (forall w :: 0 <= w < |p.workers| && p.workers[w] == Exited ==> p.stop && p.queue == [])
    && (p.stop && !p.waking ==> NoneAsleep(p))
    && (p.queue != [] && p.notifying == 0 && !p.waking ==> SomeWorking(p))
  }

  lemma {:induction false} RunningUpdate(workers: seq<Worker>, w: nat, worker: Worker, t: Task)
    requires w < |workers|
    ensures Running(workers[w := worker], t) ==
      Running(workers, t) + (if worker == Busy(t) then 1 else 0) - (if workers[w] == Busy(t) then 1 else 0)
  {
    var r := workers[w := worker];
    if w == 0 {
      assert r[1..] == workers[1..];
    } else {
      assert r[1..] == workers[1..][w - 1 := worker];
      RunningUpdate(workers[1..], w - 1, worker, t);
    }
  }

  lemma {:induction false} RunningAwake(workers: seq<Worker>, woken: seq<Worker>, t: Task)
    requires |woken| == |workers| && forall w :: 0 <= w < |workers| ==> woken[w] == Awake(workers[w])
    ensures Running(woken, t) == Running(workers, t)
  {
    if workers == [] {
    } else {
      RunningAwake(workers[1..], woken[1..], t);
    }
  }

  /** The balance for one task. */
  ghost predicate ConservedFor(p: Pool, t: Task) {
    multiset(p.taken)[t] == p.finished[t] + Running(p.workers, t)
  }

  lemma LookConserves(p: Pool, w: nat, t: Task)
    requires ConservedFor(p, t) && Enabled(p, Look(w))
    ensures ConservedFor(Next(p, Look(w)), t)
  {
    var q := Next(p, Look(w));
    RunningUpdate(p.workers, w, q.workers[w], t);
    if p.queue != [] {
      assert multiset(q.taken) == multiset(p.taken) + multiset{p.queue[0]};
    }
  }

  lemma ReadyConserves(p: Pool, step: Step, w: nat, t: Task)
    requires ConservedFor(p, t) && Enabled(p, step) && (step == NotifyOne(w) || step == Spurious(w) || step == Finish(w))
    ensures ConservedFor(Next(p, step), t)
  {
    RunningUpdate(p.workers, w, Ready, t);
  }

  lemma AwakeConserves(p: Pool, t: Task)
    requires ConservedFor(p, t) && Enabled(p, NotifyAll)
    ensures ConservedFor(Next(p, NotifyAll), t)
  {
    RunningAwake(p.workers, Next(p, NotifyAll).workers, t);
  }

  lemma StepConserves(p: Pool, step: Step)
    requires Conserved(p) && Enabled(p, step)
    ensures Conserved(Next(p, step))
  {
    forall t
      ensures ConservedFor(Next(p, step), t)
    {
      assert ConservedFor(p, t);
      match step
      case Look(w) => LookConserves(p, w, t);
      case NotifyOne(w) => ReadyConserves(p, step, w, t);
      case Spurious(w) => ReadyConserves(p, step, w, t);
      case Finish(w) => ReadyConserves(p, step, w, t);
      case NotifyAll => AwakeConserves(p, t);
      case _ =>
    }
  }

  lemma TakeOk(p: Pool, w: nat)
    requires PoolOk(p) && Enabled(p, Look(w)) && p.queue != []
    ensures PoolOk(Next(p, Look(w)))
  {
    var q := Next(p, Look(w));
    StepConserves(p, Look(w));
    assert Working(q.workers[w]);
    assert q.taken + q.queue == p.taken + ([p.queue[0]] + p.queue[1..]) == p.pushed;
  }

  /** A worker that finds nothing sleeps, or leaves if the flag is set. */
  lemma IdleOk(p: Pool, w: nat)
    requires PoolOk(p) && Enabled(p, Look(w)) && p.queue == []
    ensures PoolOk(Next(p, Look(w)))
  {
    StepConserves(p, Look(w));
  }

  lemma NextOk(p: Pool, step: Step)
    requires PoolOk(p) && Enabled(p, step)
    ensures PoolOk(Next(p, step))
  {
    var q := Next(p, step);
    StepConserves(p, step);
    match step
    case Look(w) =>
      if p.queue != [] {
        TakeOk(p, w);
      } else {
        IdleOk(p, w);
      }
    case NotifyOne(w) => WakeOk(p, w, step);
    case Spurious(w) => WakeOk(p, w, step);
    case Finish(w) => WakeOk(p, w, step);
    case NotifyAll =>
      assert q.queue != [] ==> Working(q.workers[0]);
    case Push(t) =>
      assert p.pushed + [t] == p.taken + (p.queue + [t]);
    case NotifyNobody =>
      assert p.queue != [] ==> Working(p.workers[0]);
    case _ =>
  }

  lemma WakeOk(p: Pool, w: nat, step: Step)
    requires PoolOk(p) && Enabled(p, step) && (step == NotifyOne(w) || step == Spurious(w) || step == Finish(w))
    ensures PoolOk(Next(p, step))
  {
    StepConserves(p, step);
    assert Working(Next(p, step).workers[w]);
  }

  lemma {:induction false} NobodyRuns(workers: seq<Worker>, t: Task)
    requires forall w :: 0 <= w < |workers| ==> !workers[w].Busy?
    ensures Running(workers, t) == 0
  {
    if workers == [] {
    } else {
      NobodyRuns(workers[1..], t);
    }
  }

  predicate Follows(pools: seq<Pool>, steps: seq<Step>, i: nat)
    requires i < |steps| && |pools| == |steps| + 1
  {
    Enabled(pools[i], steps[i]) && pools[i + 1] == Next(pools[i], steps[i])
  }

  ghost predicate Run(pools: seq<Pool>, steps: seq<Step>) {
    && |pools| == |steps| + 1 && Init(pools[0])
    && forall i :: 0 <= i < |steps| ==> Follows(pools, steps, i)
  }

  lemma {:induction false} RunOk(pools: seq<Pool>, steps: seq<Step>, i: nat)
    requires Run(pools, steps) && i < |pools|
    ensures PoolOk(pools[i])
  {
    if i == 0 {
      forall t
        ensures ConservedFor(pools[0], t)
      {
        NobodyRuns(pools[0].workers, t);
      }
    } else {
      RunOk(pools, steps, i - 1);
      assert Follows(pools, steps, i - 1);
      NextOk(pools[i - 1], steps[i - 1]);
    }
  }

  // ----- what it means

  /** For every interleaving: tasks are taken in the order they were pushed; every task taken is either
      finished or with exactly one worker; no worker has left while a task is queued; and a task in the
      queue has a worker that is awake or about to be notified. */
  lemma FifoOnceNoLostWakeup(pools: seq<Pool>, steps: seq<Step>, i: nat)
    requires Run(pools, steps) && i < |pools|
    ensures var p := pools[i];
      && p.taken <= p.pushed && p.queue == p.pushed[|p.taken|..]
      && (forall t :: ConservedFor(p, t))
      && (p.queue != [] ==> forall w :: 0 <= w < |p.workers| ==> p.workers[w] != Exited)
      && (p.queue != [] ==> SomeWorking(p) || p.notifying > 0 || p.waking)
  {
    RunOk(pools, steps, i);
  }

  /** Once every worker has exited, every task ever pushed has been run, as often as it was pushed. */
  lemma AllRun(pools: seq<Pool>, steps: seq<Step>, i: nat)
    requires Run(pools, steps) && i < |pools|
    requires forall w :: 0 <= w < |pools[i].workers| ==> pools[i].workers[w] == Exited
    ensures pools[i].finished == multiset(pools[i].pushed)
  {
    RunOk(pools, steps, i);
    var p := pools[i];
    assert p.workers[0] == Exited;
    assert p.pushed == p.taken;
    forall t
      ensures multiset(p.pushed)[t] == p.finished[t]
    {
      NobodyRuns(p.workers, t);
      assert ConservedFor(p, t);
    }
  }

  /** The workers and callers never get stuck: while a task is queued, or after the flag is set while a
      worker is left, one of them has a step to take. */
  lemma NeverStuck(pools: seq<Pool>, steps: seq<Step>, i: nat)
    requires Run(pools, steps) && i < |pools|
    requires pools[i].queue != [] || (pools[i].stop && exists w :: 0 <= w < |pools[i].workers| && pools[i].workers[w] != Exited)
    ensures exists step :: Enabled(pools[i], step) && (step.NotifyOne? || step.NotifyNobody? || step.NotifyAll? || step.Look? || step.Finish?)
  {
    RunOk(pools, steps, i);
    var p := pools[i];
    if p.waking {
      assert Enabled(p, NotifyAll);
    } else if SomeWorking(p) {
      var w :| 0 <= w < |p.workers| && Working(p.workers[w]);
      assert Enabled(p, if p.workers[w] == Ready then Look(w) else Finish(w));
    } else {
      assert forall w :: 0 <= w < |p.workers| ==> !Working(p.workers[w]);
      assert Enabled(p, NotifyOne(0));
    }
  }

  function Weight(worker: Worker): nat {
    match worker
    case Exited => 0
    case Ready => 1
    case Busy(_) => 2
    case Asleep => 2
  }

  function Weights(workers: seq<Worker>): nat {
    if workers == [] then 0 else Weight(workers[0]) + Weights(workers[1..])
  }

  /** What is left to do after the destructor has woken everyone. */
  function Left(p: Pool): nat {
    3 * |p.queue| + Weights(p.workers) + p.notifying
  }

  lemma {:induction false} WeightsUpdate(workers: seq<Worker>, w: nat, worker: Worker)
    requires w < |workers|
    ensures Weights(workers[w := worker]) + Weight(workers[w]) == Weights(workers) + Weight(worker)
  {
    if w == 0 {
      assert workers[w := worker][1..] == workers[1..];
    } else {
      assert workers[w := worker][1..] == workers[1..][w - 1 := worker];
      WeightsUpdate(workers[1..], w - 1, worker);
    }
  }

  /** Shutdown ends under every schedule: after the wake-up each step there is leaves strictly less to do. */
  lemma ShutdownShrinks(pools: seq<Pool>, steps: seq<Step>, i: nat)
    requires Run(pools, steps) && i < |steps| && pools[i].stop && !pools[i].waking
    ensures Left(pools[i + 1]) < Left(pools[i]) && pools[i + 1].stop && !pools[i + 1].waking
  {
    RunOk(pools, steps, i);
    var p := pools[i];
    assert Follows(pools, steps, i);
    match steps[i]
    case Look(w) => WeightsUpdate(p.workers, w, Next(p, steps[i]).workers[w]);
    case Finish(w) => WeightsUpdate(p.workers, w, Ready);
    case _ =>
  }

  predicate Deserted(p: Pool) {
    forall w :: 0 <= w < |p.workers| ==> p.workers[w] == Exited
  }

  /** Why the destructor must wait for callers on their way to a push: once all workers have exited, whatever
      happens, nothing is taken any more, so what is pushed then stays in the queue. */
  lemma {:induction false} NothingTakenAgain(pools: seq<Pool>, steps: seq<Step>, i: nat)
    requires |pools| == |steps| + 1 && i < |pools| && Deserted(pools[0])
    requires forall j :: 0 <= j < |steps| ==> Follows(pools, steps, j)
    ensures Deserted(pools[i]) && pools[i].taken == pools[0].taken && pools[0].queue <= pools[i].queue
  {
    if i == 0 {
    } else {
      NothingTakenAgain(pools, steps, i - 1);
      assert Follows(pools, steps, i - 1);
    }
  }
}

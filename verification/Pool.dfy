/**
 The daemon's worker pool: a ring buffer of tasks shared by worker threads under one
 mutex and one condition variable.

 `State` and `Step` are the pool seen as a queue: one event is one critical section
 (or one thread leaving `pthread_cond_wait`).  `ThreadPool` is the pool as it is stored,
 with an array and two wrapping indices; each of its methods performs one event.
 */
module Pool {

  const MAX_THREADS: nat := 10
  const QUEUE_SIZE: nat := 10

  /** `routine` 0 stands for the null function pointer. */
  datatype Task = Task(routine: nat, arg: nat)

  /**
   Where a worker thread stands.  `Awake` is on its way to the mutex, either at the top of
   its loop or after being woken; `Blocked` is inside `pthread_cond_wait`.
   */
  datatype Worker = Awake | Blocked | Running(task: Task) | Exited

  /** 0 while serving, 1 to stop at once, 2 to stop once the queue is empty. */
  type Phase = n: nat | n <= 2

  datatype State = State(
    size: nat,
    queue: seq<Task>,
    shutdown: Phase,
    started: nat,
    workers: seq<Worker>,
    accepted: seq<Task>,  // every task `Add` took in, in order
    taken: seq<Task>)     // every task a worker took out, in order

  /**
   `Add` names the blocked workers that its signal wakes: POSIX promises at least one, if
   there is one.  `Wakeup` is a spurious return from the wait.
   */
  datatype Event =
    | Add(task: Task, woken: set<nat>)
    | Check(worker: nat)
    | Finish(worker: nat)
    | Wakeup(worker: nat)
    | Destroy

  // ---- the pool as a queue ----

  predicate IsBlocked(s: State, i: nat) {
    i < |s.workers| && s.workers[i].Blocked?
  }

  predicate SomeBlocked(s: State) {
    exists i :: 0 <= i < |s.workers| && s.workers[i].Blocked?
  }

  predicate Accepts(s: State, t: Task) {
    t.routine != 0 && |s.queue| < s.size && s.shutdown == 0
  }

  predicate Enabled(s: State, e: Event) {
    match e
    case Add(t, woken) =>
      Accepts(s, t) ==>
        && (forall i :: i in woken ==> IsBlocked(s, i))
        && (SomeBlocked(s) ==> woken != {})
    case Check(w) => w < |s.workers| && s.workers[w].Awake?
    case Finish(w) => w < |s.workers| && s.workers[w].Running?
    case Wakeup(w) => IsBlocked(s, w)
    case Destroy => s.shutdown == 0
  }

  function Woken(workers: seq<Worker>, woken: set<nat>): (r: seq<Worker>)
    ensures |r| == |workers|
    ensures forall i :: 0 <= i < |r| ==> r[i] == if i in woken then Awake else workers[i]
  {
    seq(|workers|, i requires 0 <= i < |workers| => if i in woken then Awake else workers[i])
  }

  function BlockedSet(workers: seq<Worker>): set<nat> {
    set i: nat | i < |workers| && workers[i].Blocked?
  }

  function Step(s: State, e: Event): State
    requires Enabled(s, e)
  {
    match e
    case Add(t, woken) =>
      if Accepts(s, t) then
        s.(queue := s.queue + [t], accepted := s.accepted + [t], workers := Woken(s.workers, woken))
      else s
    case Check(w) =>
      if s.queue == [] && s.shutdown == 0 then
        s.(workers := s.workers[w := Blocked])
      else if s.shutdown == 1 || (s.shutdown == 2 && s.queue == []) then
        s.(workers := s.workers[w := Exited], started := if s.started > 0 then s.started - 1 else 0)
      else
        s.(workers := s.workers[w := Running(s.queue[0])],
           queue := s.queue[1..], taken := s.taken + [s.queue[0]])
    case Finish(w) => s.(workers := s.workers[w := Awake])
    case Wakeup(w) => s.(workers := s.workers[w := Awake])
    case Destroy => s.(shutdown := 1, workers := Woken(s.workers, BlockedSet(s.workers)))
  }

  function Initial(threads: nat, size: nat): State {
    State(size, [], 0, threads, seq(threads, _ => Awake), [], [])
  }

  /** `run` is a legal schedule from `s`. */
  predicate IsRun(s: State, run: seq<Event>)
    decreases |run|
  {
    run == [] || (Enabled(s, run[0]) && IsRun(Step(s, run[0]), run[1..]))
  }

  function After(s: State, run: seq<Event>): State
    requires IsRun(s, run)
    decreases |run|
  {
    if run == [] then s else After(Step(s, run[0]), run[1..])
  }

  // ---- counting workers ----

  function AwakeWeight(w: Worker): nat { if w.Awake? then 1 else 0 }
  function LiveWeight(w: Worker): nat { if w.Exited? then 0 else 1 }
  /** Steps a worker still owes before it blocks or exits, not counting queued tasks. */
  function WorkWeight(w: Worker): nat { if w.Running? then 2 else if w.Awake? then 1 else 0 }

  function Sum(ws: seq<Worker>, f: Worker -> nat): nat {
    if ws == [] then 0 else f(ws[0]) + Sum(ws[1..], f)
  }

  lemma {:induction false} SumUpdate(ws: seq<Worker>, f: Worker -> nat, i: nat, x: Worker)
    requires i < |ws|
    ensures Sum(ws[i := x], f) + f(ws[i]) == Sum(ws, f) + f(x)
  {
    if i == 0 {
      assert ws[0 := x][1..] == ws[1..];
    } else {
      assert ws[i := x][1..] == ws[1..][i - 1 := x];
      SumUpdate(ws[1..], f, i - 1, x);
    }
  }

  lemma {:induction false} SumMonotone(a: seq<Worker>, b: seq<Worker>, f: Worker -> nat)
    requires |a| == |b|
    requires forall i :: 0 <= i < |a| ==> f(a[i]) <= f(b[i])
    ensures Sum(a, f) <= Sum(b, f)
    ensures (exists i :: 0 <= i < |a| && f(a[i]) < f(b[i])) ==> Sum(a, f) < Sum(b, f)
    ensures (forall i :: 0 <= i < |a| ==> f(a[i]) == f(b[i])) ==> Sum(a, f) == Sum(b, f)
  {
    if a != [] {
      SumMonotone(a[1..], b[1..], f);
      if i :| 0 <= i < |a| && f(a[i]) < f(b[i]) {
        assert i > 0 ==> f(a[1..][i - 1]) < f(b[1..][i - 1]);
      }
    }
  }

  // ---- invariant ----

  /** Every clause of the pool's contract that holds in between critical sections. */
  ghost predicate Inv(s: State) {
    && s.accepted == s.taken + s.queue
    && |s.queue| <= s.size
    && s.shutdown <= 1
    && s.started == Sum(s.workers, LiveWeight)
    && (s.shutdown == 0 ==> forall i :: 0 <= i < |s.workers| ==> !s.workers[i].Exited?)
    && (s.shutdown == 0 && SomeBlocked(s) ==> |s.queue| <= Sum(s.workers, AwakeWeight))
    && (s.shutdown == 1 ==> !SomeBlocked(s))
  }

  lemma {:induction false} InitialLive(threads: nat)
    ensures Sum(seq(threads, _ => Awake), LiveWeight) == threads
  {
    if threads > 0 {
      assert seq(threads, _ => Awake)[1..] == seq(threads - 1, _ => Awake);
      InitialLive(threads - 1);
    }
  }

  lemma AddKeepsInv(s: State, t: Task, woken: set<nat>)
    requires Inv(s) && Enabled(s, Add(t, woken))
    ensures Inv(Step(s, Add(t, woken)))
  {
    if Accepts(s, t) {
      var ws := Woken(s.workers, woken);
      SumMonotone(s.workers, ws, LiveWeight);
      SumMonotone(s.workers, ws, AwakeWeight);
      if SomeBlocked(s) {
        var i :| i in woken;
        assert AwakeWeight(s.workers[i]) < AwakeWeight(ws[i]);
      }
      assert s.accepted + [t] == s.taken + (s.queue + [t]);
    }
  }

  lemma CheckKeepsInv(s: State, w: nat)
    requires Inv(s) && Enabled(s, Check(w))
    ensures Inv(Step(s, Check(w)))
  {
    var s' := Step(s, Check(w));
    SumUpdate(s.workers, LiveWeight, w, s'.workers[w]);
    SumUpdate(s.workers, AwakeWeight, w, s'.workers[w]);
    if s.queue != [] && s.shutdown == 0 {
      assert s.taken + s.queue == (s.taken + [s.queue[0]]) + s.queue[1..];
    }
  }

  lemma MoveKeepsInv(s: State, e: Event)
    requires Inv(s) && Enabled(s, e) && (e.Finish? || e.Wakeup?)
    ensures Inv(Step(s, e))
  {
    SumUpdate(s.workers, LiveWeight, e.worker, Awake);
    SumUpdate(s.workers, AwakeWeight, e.worker, Awake);
    var s' := Step(s, e);
    if SomeBlocked(s') {
      var i :| 0 <= i < |s'.workers| && s'.workers[i].Blocked?;
      assert s.workers[i].Blocked?;
    }
  }

  lemma DestroyKeepsInv(s: State)
    requires Inv(s) && Enabled(s, Destroy)
    ensures Inv(Step(s, Destroy))
  {
    SumMonotone(s.workers, Woken(s.workers, BlockedSet(s.workers)), LiveWeight);
  }

  lemma StepKeepsInv(s: State, e: Event)
    requires Inv(s) && Enabled(s, e)
    ensures Inv(Step(s, e))
  {
    match e
    case Add(t, woken) => AddKeepsInv(s, t, woken);
    case Check(w) => CheckKeepsInv(s, w);
    case Finish(w) => MoveKeepsInv(s, e);
    case Wakeup(w) => MoveKeepsInv(s, e);
    case Destroy => DestroyKeepsInv(s);
  }

  lemma {:induction false} RunKeepsInv(s: State, run: seq<Event>)
    requires Inv(s) && IsRun(s, run)
    ensures Inv(After(s, run))
    decreases |run|
  {
    if run != [] {
      StepKeepsInv(s, run[0]);
      RunKeepsInv(Step(s, run[0]), run[1..]);
    }
  }

  // ---- the pool's promises over whole runs ----

  /**
   No lost wakeup: in every state any schedule can reach before shutdown, a worker is blocked
   only while at least as many awake workers are heading for the queue as there are tasks in it.
   */
  lemma NoLostWakeup(threads: nat, size: nat, run: seq<Event>)
    requires IsRun(Initial(threads, size), run)
    ensures var s := After(Initial(threads, size), run);
            s.shutdown == 0 && SomeBlocked(s) ==> |s.queue| <= Sum(s.workers, AwakeWeight)
  {
    InitialLive(threads);
    RunKeepsInv(Initial(threads, size), run);
  }

  /** First in, first out: what was taken is exactly the oldest part of what was accepted. */
  lemma FifoRefinement(threads: nat, size: nat, run: seq<Event>)
    requires IsRun(Initial(threads, size), run)
    ensures var s := After(Initial(threads, size), run);
            s.accepted == s.taken + s.queue && |s.queue| <= size
  {
    InitialLive(threads);
    var s0 := Initial(threads, size);
    RunKeepsInv(s0, run);
    SizeKept(s0, run);
  }

  lemma {:induction false} SizeKept(s: State, run: seq<Event>)
    requires IsRun(s, run)
    ensures After(s, run).size == s.size && |After(s, run).workers| == |s.workers|
    decreases |run|
  {
    if run != [] { SizeKept(Step(s, run[0]), run[1..]); }
  }

  /** History only grows: a task once taken stays taken, at its place, so none is taken twice. */
  lemma {:induction false} HistoryGrows(s: State, run: seq<Event>)
    requires IsRun(s, run)
    ensures s.taken <= After(s, run).taken && s.accepted <= After(s, run).accepted
    decreases |run|
  {
    if run != [] { HistoryGrows(Step(s, run[0]), run[1..]); }
  }

  /** After `threadpool_destroy` nothing is added or taken any more and no worker blocks again. */
  lemma {:induction false} ShutdownIsFinal(s: State, run: seq<Event>)
    requires Inv(s) && s.shutdown == 1 && IsRun(s, run)
    ensures var s' := After(s, run);
            && s'.shutdown == 1 && !SomeBlocked(s')
            && s'.accepted == s.accepted && s'.taken == s.taken && s'.queue == s.queue
    decreases |run|
  {
    if run != [] {
      StepKeepsInv(s, run[0]);
      ShutdownIsFinal(Step(s, run[0]), run[1..]);
    }
  }

  // ---- what a run of events takes in and hands out ----

  /**
   The tasks of those `Add` events that name a function, find room and come before any
   `Destroy`, in order.  Only the events are looked at: `queued` counts the tasks taken in and
   not handed out so far.
   */
  function Offered(size: nat, run: seq<Event>, queued: nat, destroyed: bool): seq<Task>
    decreases |run|
  {
    if run == [] then []
    else
      match run[0]
      case Add(t, _) =>
        if t.routine != 0 && queued < size && !destroyed
        then [t] + Offered(size, run[1..], queued + 1, destroyed)
        else Offered(size, run[1..], queued, destroyed)
      case Check(_) => Offered(size, run[1..], if queued > 0 && !destroyed then queued - 1 else queued, destroyed)
      case Destroy => Offered(size, run[1..], queued, true)
      case _ => Offered(size, run[1..], queued, destroyed)
  }

  /** How many of its `Check` events hand out a task. */
  function HandedOut(size: nat, run: seq<Event>, queued: nat, destroyed: bool): nat
    decreases |run|
  {
    if run == [] then 0
    else
      match run[0]
      case Add(t, _) =>
        HandedOut(size, run[1..], if t.routine != 0 && queued < size && !destroyed then queued + 1 else queued, destroyed)
      case Check(_) =>
        if queued > 0 && !destroyed then 1 + HandedOut(size, run[1..], queued - 1, destroyed)
        else HandedOut(size, run[1..], queued, destroyed)
      case Destroy => HandedOut(size, run[1..], queued, true)
      case _ => HandedOut(size, run[1..], queued, destroyed)
  }

  lemma {:induction false} HistoryExactly(s: State, run: seq<Event>)
    requires s.shutdown <= 1 && IsRun(s, run)
    ensures After(s, run).accepted == s.accepted + Offered(s.size, run, |s.queue|, s.shutdown == 1)
    ensures |After(s, run).taken| == |s.taken| + HandedOut(s.size, run, |s.queue|, s.shutdown == 1)
    decreases |run|
  {
    if run == [] {
      assert s.accepted + [] == s.accepted;
    } else {
      var s' := Step(s, run[0]);
      HistoryExactly(s', run[1..]);
      if run[0].Add? && Accepts(s, run[0].task) {
        AppendedOne(s.accepted, run[0].task, Offered(s.size, run[1..], |s'.queue|, s'.shutdown == 1));
      }
    }
  }

  lemma AppendedOne(a: seq<Task>, t: Task, b: seq<Task>)
    ensures a + [t] + b == a + ([t] + b)
  {
  }

  /**
   Nothing is lost, changed, invented or reordered: over every run of a new pool the tasks taken
   in are exactly the offered ones, function and argument, and those handed out are the first of
   them.
   */
  lemma OfferedExactly(threads: nat, size: nat, run: seq<Event>)
    requires IsRun(Initial(threads, size), run)
    ensures var s, all, n := After(Initial(threads, size), run), Offered(size, run, 0, false), HandedOut(size, run, 0, false);
            n <= |all| && s.accepted == all && s.taken == all[..n] && s.queue == all[n..]
  {
    var s0 := Initial(threads, size);
    HistoryExactly(s0, run);
    FifoRefinement(threads, size, run);
    var s, all := After(s0, run), Offered(size, run, 0, false);
    assert [] + all == all;
    assert s.accepted[..|s.taken|] == s.taken && s.accepted[|s.taken|..] == s.queue;
  }

  /** A worker that finds tasks waiting before shutdown runs the next offered one, and only that worker changes. */
  lemma RunsNextOffered(threads: nat, size: nat, run: seq<Event>, w: nat)
    requires IsRun(Initial(threads, size), run) && Enabled(After(Initial(threads, size), run), Check(w))
    ensures var s, all, n := After(Initial(threads, size), run), Offered(size, run, 0, false), HandedOut(size, run, 0, false);
            Destroy !in run && n < |all| ==> Step(s, Check(w)).workers == s.workers[w := Running(all[n])]
  {
    OfferedExactly(threads, size, run);
    NotDestroyed(Initial(threads, size), run);
  }

  lemma {:induction false} NotDestroyed(s: State, run: seq<Event>)
    requires IsRun(s, run)
    ensures Destroy !in run ==> After(s, run).shutdown == s.shutdown
    decreases |run|
  {
    if run != [] {
      NotDestroyed(Step(s, run[0]), run[1..]);
      assert run[0] in run && forall e :: e in run[1..] ==> e in run;
    }
  }

  // ---- progress ----

  predicate WorkerEvent(e: Event) { e.Check? || e.Finish? }

  /** No worker has a step to take of its own accord. */
  ghost predicate Quiescent(s: State) {
    forall e :: WorkerEvent(e) ==> !Enabled(s, e)
  }

  /** Bounds the worker steps left when nothing is added and nobody wakes spuriously. */
  function Budget(s: State): nat {
    (if s.shutdown == 0 then 2 * |s.queue| else 0) + Sum(s.workers, WorkWeight)
  }

  lemma WorkerStepSpends(s: State, e: Event)
    requires Inv(s) && WorkerEvent(e) && Enabled(s, e)
    ensures Budget(Step(s, e)) < Budget(s)
  {
    SumUpdate(s.workers, WorkWeight, e.worker, Step(s, e).workers[e.worker]);
  }

  lemma {:induction false} WorkersSpendBudget(s: State, run: seq<Event>)
    requires Inv(s) && IsRun(s, run) && forall e :: e in run ==> WorkerEvent(e)
    ensures |run| + Budget(After(s, run)) <= Budget(s)
    decreases |run|
  {
    if run != [] {
      WorkerStepSpends(s, run[0]);
      StepKeepsInv(s, run[0]);
      WorkersSpendBudget(Step(s, run[0]), run[1..]);
    }
  }

  /**
   No task is stranded: whatever the workers do from a reachable state before shutdown, they
   come to rest within `Budget` steps, and they rest only when every accepted task was taken.
   */
  lemma WorkersDrainQueue(s: State, run: seq<Event>)
    requires Inv(s) && s.shutdown == 0 && s.workers != []
    requires IsRun(s, run) && forall e :: e in run ==> WorkerEvent(e)
    ensures |run| <= Budget(s)
    ensures Quiescent(After(s, run)) ==> After(s, run).taken == s.accepted && After(s, run).queue == []
  {
    WorkersSpendBudget(s, run);
    RunKeepsInv(s, run);
    WorkersOnly(s, run);
    SizeKept(s, run);
    var s' := After(s, run);
    if Quiescent(s') { RestingWorkers(s'); }
  }

  lemma {:induction false} WorkersOnly(s: State, run: seq<Event>)
    requires IsRun(s, run) && forall e :: e in run ==> WorkerEvent(e)
    ensures After(s, run).shutdown == s.shutdown && After(s, run).accepted == s.accepted
    decreases |run|
  {
    if run != [] {
      assert WorkerEvent(run[0]);
      WorkersOnly(Step(s, run[0]), run[1..]);
    }
  }

  lemma RestingWorkers(s: State)
    requires Inv(s) && s.workers != [] && Quiescent(s)
    ensures s.shutdown == 0 ==> s.queue == []
    ensures s.shutdown == 1 ==> s.started == 0
  {
    forall i | 0 <= i < |s.workers|
      ensures !s.workers[i].Awake? && !s.workers[i].Running?
    {
      assert WorkerEvent(Check(i)) && WorkerEvent(Finish(i));
    }
    var none := seq(|s.workers|, _ => Exited);
    if s.shutdown == 0 {
      assert s.workers[0].Blocked?;
      SumMonotone(s.workers, none, AwakeWeight);
      SumNone(|s.workers|, AwakeWeight);
    } else {
      assert s.workers == none;
      SumNone(|s.workers|, LiveWeight);
    }
  }

  lemma {:induction false} SumNone(n: nat, f: Worker -> nat)
    requires f(Exited) == 0
    ensures Sum(seq(n, _ => Exited), f) == 0
  {
    if n > 0 {
      assert seq(n, _ => Exited)[1..] == seq(n - 1, _ => Exited);
      SumNone(n - 1, f);
    }
  }

  lemma SomeLive(ws: seq<Worker>, i: nat)
    requires i < |ws| && !ws[i].Exited?
    ensures Sum(ws, LiveWeight) > 0
  {
    SumUpdate(ws, LiveWeight, i, Exited);
  }

  /**
   `threadpool_destroy` completes: after it, any schedule of worker steps is finite and rests
   only when every thread has exited, which is when `threadpool_free` may release the pool.
   */
  lemma ShutdownCompletes(s: State, run: seq<Event>)
    requires Inv(s) && s.shutdown == 1 && s.workers != []
    requires IsRun(s, run) && forall e :: e in run ==> WorkerEvent(e)
    ensures |run| <= Budget(s)
    ensures Quiescent(After(s, run)) <==> After(s, run).started == 0
  {
    WorkersSpendBudget(s, run);
    RunKeepsInv(s, run);
    WorkersOnly(s, run);
    SizeKept(s, run);
    var s' := After(s, run);
    if Quiescent(s') { RestingWorkers(s'); }
    if s'.started == 0 {
      forall e | WorkerEvent(e) && Enabled(s', e) ensures false {
        SomeLive(s'.workers, e.worker);
      }
    }
  }

  // ---- the pool as it is stored ----

  /** The cell `i` places after `head` in a ring of `size` cells. */
  function Slot(head: nat, i: nat, size: nat): (slot: nat)
    requires head < size && i <= size
    ensures slot < size
  {
    if head + i < size then head + i else head + i - size
  }

  lemma SlotIsMod(head: nat, i: nat, size: nat)
    requires head < size && i <= size
    ensures Slot(head, i, size) == (head + i) % size
  {
  }

  class ThreadPool {
    const tasks: array<Task>
    const queueSize: nat
    var head: nat
    var tail: nat
    var count: nat
    var shutdown: Phase
    var started: nat
    var workers: seq<Worker>
    ghost var accepted: seq<Task>
    ghost var taken: seq<Task>

    ghost predicate Valid()
      reads this, tasks
    {
      Ring() && Inv(Abs())
    }

    ghost predicate Ring()
      reads this
    {
      && head < queueSize == tasks.Length && count <= queueSize
      && tail == (head + count) % queueSize
    }

    function Queue(): (q: seq<Task>)
      reads this, tasks
      requires head < queueSize == tasks.Length && count <= queueSize
      ensures |q| == count
    {
      seq(count, i requires 0 <= i < count && head < queueSize == tasks.Length && count <= queueSize
                   reads this, tasks
                 => tasks[Slot(head, i, queueSize)])
    }

    ghost function Abs(): State
      reads this, tasks
      requires head < queueSize == tasks.Length && count <= queueSize
    {
      State(queueSize, Queue(), shutdown, started, workers, accepted, taken)
    }

    /** `threadpool_create` with arguments it accepts. */
    constructor (threadCount: nat, size: nat)
      requires 0 < threadCount <= MAX_THREADS && 0 < size <= QUEUE_SIZE
      ensures Valid() && Abs() == Initial(threadCount, size)
      ensures fresh(tasks)
    {
      tasks := new Task[size](_ => Task(0, 0));
      queueSize := size;
      head, tail, count, shutdown := 0, 0, 0, 0;
      started := threadCount;
      workers := seq(threadCount, _ => Awake);
      accepted, taken := [], [];
      new;
      InitialLive(threadCount);
      assert Queue() == [];
    }

    /** `threadpool_create`; null for sizes it refuses. */
    static method Create(threadCount: int, size: int) returns (pool: ThreadPool?)
      ensures pool == null <==> threadCount <= 0 || threadCount > MAX_THREADS || size <= 0 || size > QUEUE_SIZE
      ensures pool != null ==> pool.Valid() && pool.Abs() == Initial(threadCount, size) && fresh(pool)
    {
      if threadCount <= 0 || threadCount > MAX_THREADS || size <= 0 || size > QUEUE_SIZE { return null; }
      pool := new ThreadPool(threadCount, size);
    }

    /** `threadpool_add`; `woken` are the threads that `pthread_cond_signal` releases. */
    method Enqueue(routine: nat, arg: nat, woken: set<nat>) returns (err: int)
      requires Valid() && Enabled(Abs(), Add(Task(routine, arg), woken))
      modifies this, tasks
      ensures Valid() && Abs() == Step(old(Abs()), Add(Task(routine, arg), woken))
      ensures err == if routine != 0 && old(count) < queueSize && old(shutdown) == 0 then 0 else -1
      ensures err == 0 ==> Queue() == old(Queue()) + [Task(routine, arg)]
      ensures err != 0 ==> Queue() == old(Queue()) && workers == old(workers)
    {
      ghost var before := Abs();
      if routine == 0 { return -1; }
      var next := (tail + 1) % queueSize;
      if count == queueSize { return -1; }
      if shutdown != 0 { return -1; }
      SlotIsMod(head, count, queueSize);
      SlotIsMod(head, count + 1, queueSize);
      SlotIsMod(tail, 1, queueSize);
      tasks[tail] := Task(routine, arg);
      tail := next;
      count := count + 1;
      workers := Woken(workers, woken);
      accepted := accepted + [Task(routine, arg)];
      assert Queue() == before.queue + [Task(routine, arg)];
      AddKeepsInv(before, Task(routine, arg), woken);
      err := 0;
    }

    /** One pass of `threadpool_thread` from taking the mutex to blocking, exiting or running. */
    method CheckQueue(w: nat)
      requires Valid() && Enabled(Abs(), Check(w))
      modifies this
      ensures Valid() && Abs() == Step(old(Abs()), Check(w))
      ensures old(shutdown) == 0 && old(count) > 0 ==>
                workers == old(workers)[w := Running(old(Queue())[0])] && Queue() == old(Queue())[1..]
      ensures old(shutdown) == 0 && old(count) == 0 ==> workers == old(workers)[w := Blocked]
      ensures old(shutdown) == 1 ==> workers == old(workers)[w := Exited] && Queue() == old(Queue())
    {
      if count == 0 && shutdown == 0 {
        Rest(w, Blocked);
        return;
      }
      if shutdown == 1 || (shutdown == 2 && count == 0) {
        Rest(w, Exited);
        return;
      }
      RunNext(w);
    }

    /** A worker that finds nothing to do waits, or leaves for good. */
    method Rest(w: nat, to: Worker)
      requires Valid() && Enabled(Abs(), Check(w))
      requires (to == Blocked && count == 0 && shutdown == 0) || (to == Exited && shutdown == 1)
      modifies this`started, this`workers
      ensures Valid() && Abs() == Step(old(Abs()), Check(w))
      ensures workers == old(workers)[w := to] && Queue() == old(Queue())
    {
      ghost var before := Abs();
      CheckKeepsInv(before, w);
      if to == Exited { started := if started > 0 then started - 1 else 0; }
      workers := workers[w := to];
      assert Queue() == before.queue;
    }

    /** The rest of that pass: the worker takes the oldest task and runs it. */
    method RunNext(w: nat)
      requires Valid() && Enabled(Abs(), Check(w)) && count > 0 && shutdown == 0
      modifies this`head, this`count, this`workers, this`taken
      ensures Valid() && Abs() == Step(old(Abs()), Check(w))
      ensures workers == old(workers)[w := Running(old(Queue())[0])] && Queue() == old(Queue())[1..]
    {
      CheckKeepsInv(Abs(), w);
      var task := TakeTask();
      workers := workers[w := Running(task)];
      taken := taken + [task];
    }

    /** The oldest task leaves the ring. */
    method TakeTask() returns (task: Task)
      requires Ring() && count > 0
      modifies this`head, this`count
      ensures Ring() && task == old(Queue())[0] && Queue() == old(Queue())[1..]
    {
      ghost var before := Queue();
      task := tasks[head];
      SlotIsMod(head, count, queueSize);
      SlotIsMod(head, 1, queueSize);
      head := (head + 1) % queueSize;
      count := count - 1;
      SlotIsMod(head, count, queueSize);
      assert Queue() == before[1..];
    }

    /** A task's function returns and the worker goes back to the top of its loop. */
    method FinishTask(w: nat)
      requires Valid() && Enabled(Abs(), Finish(w))
      modifies this`workers
      ensures Valid() && Abs() == Step(old(Abs()), Finish(w))
      ensures workers == old(workers)[w := Awake]
    {
      ghost var before := Abs();
      MoveKeepsInv(before, Finish(w));
      workers := workers[w := Awake];
      assert Queue() == before.queue;
    }

    /** A worker's wait ends without a signal. */
    method WakeSpuriously(w: nat)
      requires Valid() && Enabled(Abs(), Wakeup(w))
      modifies this`workers
      ensures Valid() && Abs() == Step(old(Abs()), Wakeup(w))
      ensures workers == old(workers)[w := Awake]
    {
      ghost var before := Abs();
      MoveKeepsInv(before, Wakeup(w));
      workers := workers[w := Awake];
      assert Queue() == before.queue;
    }

    /** The critical section of `threadpool_destroy`: set the flag and broadcast. */
    method Shutdown()
      requires Valid() && Enabled(Abs(), Destroy)
      modifies this`workers, this`shutdown
      ensures Valid() && Abs() == Step(old(Abs()), Destroy)
      ensures shutdown == 1 && |workers| == |old(workers)|
      ensures forall i :: 0 <= i < |workers| ==>
                workers[i] == if old(workers)[i].Blocked? then Awake else old(workers)[i]
    {
      ghost var before := Abs();
      StepKeepsInv(before, Destroy);
      shutdown := 1;
      workers := Woken(workers, BlockedSet(workers));
      assert Queue() == before.queue;
    }

    /** `threadpool_free` refuses while a thread has not exited. */
    method Free() returns (err: int)
      requires Valid()
      ensures err == 0 <==> forall i :: 0 <= i < |workers| ==> workers[i].Exited?
    {
      if started > 0 {
        if forall i :: 0 <= i < |workers| ==> workers[i].Exited? {
          assert workers == seq(|workers|, _ => Exited);
          SumNone(|workers|, LiveWeight);
        }
        return -1;
      }
      forall i | 0 <= i < |workers| ensures workers[i].Exited? {
        if !workers[i].Exited? { SomeLive(workers, i); }
      }
      err := 0;
    }
  }
}

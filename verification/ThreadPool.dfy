/** The worker pool of src/ds/threadpool.c as a protocol over its shared state: any number of
    workers, any number of overlapping push_task calls and one destroy_pool call, interleaved
    statement by statement under an explicit lock, with spurious wakeups. */
module ThreadPool {
  import opened Wrappers
  import Queue

  datatype Task = Task(func: nat, args: nat)  // pointers

  datatype Thread = Worker(i: nat) | Producer(j: nat) | Destroyer

  /** Where a worker stands in the loop of start_pool. A ticket is a task's place in the order
      in which tasks leave the queue. */
  datatype WorkerPc =
    | AtLock                            // about to lock
    | Testing                           // holds the lock, at the test of the wait loop
    | Asleep                            // in pthread_cond_wait, not signalled
    | Woken                             // in pthread_cond_wait, signalled, about to lock again
    | Checked                           // holds the lock, past the wait loop
    | Holding(ticket: nat, task: Task)  // holds the lock and a popped task
    | EmptyHanded                       // holds the lock after a failed pop
    | Running(ticket: nat, task: Task)  // executing, lock free
    | Exited

  /** Where a call of push_task stands. */
  datatype ProducerPc =
    | Entering(task: Task)
    | Locked(task: Task)
    | Pushed(task: Task)
    | Signalled(task: Task)
    | Refusing(task: Task)
    | Returned(task: Task, accepted: bool)

  /** Where the call of destroy_pool stands. */
  datatype DestroyerPc =
    | NotCalled
    | AtDestroyLock
    | SettingFlag
    | Broadcasting
    | Unlocking
    | Joining(joined: nat)
    | Freed

  /** `accepted`, `taken` and `ran` are history: the tasks accepted and taken so far, in order,
      and how often each ticket has been executed to the end. */
  datatype Pool = Pool(
    shutdown: bool,
    queue: Queue.Fifo<Task>,
    lock: Option<Thread>,
    workers: seq<WorkerPc>,
    producers: seq<ProducerPc>,
    destroyer: DestroyerPc,
    accepted: seq<Task>,
    taken: seq<Task>,
    ran: multiset<nat>)

  function Created(workers: nat, queueSize: int): Pool {
    Pool(false, Queue.Fifo([], Queue.InitialCap(queueSize)), None, seq(workers, _ => AtLock), [], NotCalled,
         [], [], multiset{})
  }

  // ----- Steps

  datatype Action =
    | Work(i: nat)                                 // the next statement of worker i
    | Spurious(i: nat)                             // worker i wakes without a signal
    | Call(task: Task)                             // push_task is called
    | Produce(j: nat, memory: bool, wakes: nat)    // the next statement of push_task call j
    | Destroy                                      // the next statement of destroy_pool

  predicate WorkerOwnsLock(pc: WorkerPc) {
    pc.Testing? || pc.Checked? || pc.Holding? || pc.EmptyHanded?
  }

  predicate ProducerOwnsLock(pc: ProducerPc) {
    pc.Locked? || pc.Pushed? || pc.Signalled? || pc.Refusing?
  }

  predicate DestroyerOwnsLock(pc: DestroyerPc) {
    pc.SettingFlag? || pc.Broadcasting? || pc.Unlocking?
  }

  predicate SomeAsleep(p: Pool) {
    exists i :: 0 <= i < |p.workers| && p.workers[i] == Asleep
  }

  /** Whether a thread can take its next statement. Locking waits for a free lock, joining for
      the worker to exit; nobody calls into a freed pool. `wakes` picks the sleeper that a signal
      wakes. */
  predicate Enabled(p: Pool, a: Action) {
    match a
    case Work(i) =>
      && i < |p.workers|
      && !p.workers[i].Asleep? && !p.workers[i].Exited?
      && (p.workers[i].AtLock? || p.workers[i].Woken? ==> p.lock == None)
    case Spurious(i) => i < |p.workers| && p.workers[i].Asleep?
    case Call(task) => p.destroyer != Freed
    case Produce(j, memory, wakes) =>
      && p.destroyer != Freed
      && j < |p.producers|
      && !p.producers[j].Returned?
      && (p.producers[j].Entering? ==> p.lock == None)
      && (p.producers[j].Pushed? && SomeAsleep(p) ==> wakes < |p.workers| && p.workers[wakes].Asleep?)
    case Destroy =>
      && p.destroyer != Freed
      && (p.destroyer.AtDestroyLock? ==> p.lock == None)
      && (p.destroyer.Joining? && p.destroyer.joined < |p.workers| ==> p.workers[p.destroyer.joined].Exited?)
  }

  function WorkerAt(p: Pool, i: nat, pc: WorkerPc, lock: Option<Thread>): Pool
    requires i < |p.workers|
  {
    p.(workers := p.workers[i := pc], lock := lock)
  }

  function ProducerAt(p: Pool, j: nat, pc: ProducerPc, lock: Option<Thread>): Pool
    requires j < |p.producers|
  {
    p.(producers := p.producers[j := pc], lock := lock)
  }

  function DoWork(p: Pool, i: nat): Pool
    requires Enabled(p, Work(i))
  {
    match p.workers[i]
    case AtLock => WorkerAt(p, i, Testing, Some(Worker(i)))
    case Woken => WorkerAt(p, i, Testing, Some(Worker(i)))
    case Testing =>
      if p.queue.items == [] && !p.shutdown then WorkerAt(p, i, Asleep, None)
      else WorkerAt(p, i, Checked, p.lock)
    case Checked =>
      if p.shutdown && p.queue.items == [] then WorkerAt(p, i, Exited, None)
      else if p.queue.items == [] then WorkerAt(p, i, EmptyHanded, p.lock)
      else
        var task := p.queue.items[0];
        WorkerAt(p, i, Holding(|p.taken|, task), p.lock)
        .(queue := Queue.Step(p.queue, Queue.Op.Pop), taken := p.taken + [task])
    case EmptyHanded => WorkerAt(p, i, AtLock, None)
    case Holding(ticket, task) => WorkerAt(p, i, Running(ticket, task), None)
    case Running(ticket, task) => WorkerAt(p, i, AtLock, p.lock).(ran := p.ran + multiset{ticket})
  }

  function DoProduce(p: Pool, j: nat, memory: bool, wakes: nat): Pool
    requires Enabled(p, Produce(j, memory, wakes))
  {
    match p.producers[j]
    case Entering(task) => ProducerAt(p, j, Locked(task), Some(Producer(j)))
    case Locked(task) =>
      if p.shutdown || Queue.Refused(p.queue, memory) then ProducerAt(p, j, Refusing(task), p.lock)
      else ProducerAt(p, j, Pushed(task), p.lock)
           .(queue := Queue.Step(p.queue, Queue.Op.Push(task, memory)), accepted := p.accepted + [task])
    case Pushed(task) =>
      if SomeAsleep(p) then ProducerAt(WorkerAt(p, wakes, Woken, p.lock), j, Signalled(task), p.lock)
      else ProducerAt(p, j, Signalled(task), p.lock)
    case Signalled(task) => ProducerAt(p, j, Returned(task, true), None)
    case Refusing(task) => ProducerAt(p, j, Returned(task, false), None)
  }

  function WakeAll(workers: seq<WorkerPc>): (woken: seq<WorkerPc>)
    ensures |woken| == |workers|
    ensures forall i :: 0 <= i < |workers| ==> woken[i] == if workers[i] == Asleep then Woken else workers[i]
  {
    seq(|workers|, i requires 0 <= i < |workers| => if workers[i] == Asleep then Woken else workers[i])
  }

  function DoDestroy(p: Pool): Pool
    requires Enabled(p, Destroy)
  {
    match p.destroyer
    case NotCalled => p.(destroyer := AtDestroyLock)
    case AtDestroyLock => p.(destroyer := SettingFlag, lock := Some(Destroyer))
    case SettingFlag => p.(destroyer := Broadcasting, shutdown := true)
    case Broadcasting => p.(destroyer := Unlocking, workers := WakeAll(p.workers))
    case Unlocking => p.(destroyer := Joining(0), lock := None)
    case Joining(k) => p.(destroyer := if k < |p.workers| then Joining(k + 1) else Freed)
  }

  /** push_task refuses a null function or argument before it locks. */
  function Called(task: Task): ProducerPc {
    if task.func == 0 || task.args == 0 then Returned(task, false) else Entering(task)
  }

  function DoCall(p: Pool, task: Task): Pool {
    p.(producers := p.producers + [Called(task)])
  }

  function Do(p: Pool, a: Action): Pool
    requires Enabled(p, a)
  {
    match a
    case Work(i) => DoWork(p, i)
    case Spurious(i) => WorkerAt(p, i, Woken, p.lock)
    case Call(task) => DoCall(p, task)
    case Produce(j, memory, wakes) => DoProduce(p, j, memory, wakes)
    case Destroy => DoDestroy(p)
  }

  predicate IsRun(p: Pool, run: seq<Action>)
    decreases |run|
  {
    run == [] || (Enabled(p, run[0]) && IsRun(Do(p, run[0]), run[1..]))
  }

  function After(p: Pool, run: seq<Action>): Pool
    requires IsRun(p, run)
    decreases |run|
  {
    if run == [] then p else After(Do(p, run[0]), run[1..])
  }

  // ----- Sums over threads

  function Sum<T>(threads: seq<T>, weight: T -> nat): nat {
    if threads == [] then 0 else weight(threads[0]) + Sum(threads[1..], weight)
  }

  lemma {:induction false} SumAfterUpdate<T>(threads: seq<T>, weight: T -> nat, i: nat, pc: T)
    requires i < |threads|
    ensures Sum(threads[i := pc], weight) == Sum(threads, weight) - weight(threads[i]) + weight(pc)
  {
    if i > 0 {
      assert threads[i := pc][1..] == threads[1..][i - 1 := pc];
      SumAfterUpdate(threads[1..], weight, i - 1, pc);
    } else {
      assert threads[i := pc][1..] == threads[1..];
    }
  }

  lemma {:induction false} SumAfterAppend<T>(threads: seq<T>, weight: T -> nat, pc: T)
    ensures Sum(threads + [pc], weight) == Sum(threads, weight) + weight(pc)
  {
    if threads != [] {
      assert (threads + [pc])[1..] == threads[1..] + [pc];
      SumAfterAppend(threads[1..], weight, pc);
    }
  }

  lemma {:induction false} PositiveSum<T>(threads: seq<T>, weight: T -> nat)
    ensures Sum(threads, weight) > 0 ==> exists i :: 0 <= i < |threads| && weight(threads[i]) > 0
  {
    if threads != [] && weight(threads[0]) == 0 {
      PositiveSum(threads[1..], weight);
      if i :| 0 <= i < |threads[1..]| && weight(threads[1..][i]) > 0 {
        assert weight(threads[i + 1]) > 0;
      }
    }
  }

  /** Workers that will test the queue before they sleep or exit. */
  function IsReady(pc: WorkerPc): nat {
    if pc.AtLock? || pc.Woken? || pc.Testing? || pc.Checked? then 1 else 0
  }

  function Ready(p: Pool): nat {
    Sum(p.workers, IsReady)
  }

  /** A push_task call has pushed and still holds the lock, its signal to come. */
  predicate SignalPending(p: Pool) {
    exists j :: 0 <= j < |p.producers| && p.producers[j].Pushed?
  }

  // ----- The invariant

  /** The lock's owner is the one thread inside a critical section. */
  ghost predicate LockAgrees(p: Pool) {
    && (forall i :: 0 <= i < |p.workers| ==> (WorkerOwnsLock(p.workers[i]) <==> p.lock == Some(Worker(i))))
    && (forall j :: 0 <= j < |p.producers| ==> (ProducerOwnsLock(p.producers[j]) <==> p.lock == Some(Producer(j))))
    && (DestroyerOwnsLock(p.destroyer) <==> p.lock == Some(Destroyer))
    && (p.lock.Some? && p.lock.value.Worker? ==> p.lock.value.i < |p.workers|)
    && (p.lock.Some? && p.lock.value.Producer? ==> p.lock.value.j < |p.producers|)
  }

  predicate HasTask(pc: WorkerPc) {
    pc.Holding? || pc.Running?
  }

  predicate HeldBy(pc: WorkerPc, ticket: nat) {
    HasTask(pc) && pc.ticket == ticket
  }

  ghost predicate HeldBySome(workers: seq<WorkerPc>, ticket: nat) {
    exists i :: 0 <= i < |workers| && HeldBy(workers[i], ticket)
  }

  /** No two workers hold the same ticket, and a worker's task is the one its ticket names. */
  ghost predicate HoldersDistinct(workers: seq<WorkerPc>, taken: seq<Task>) {
    && (forall i :: 0 <= i < |workers| && HasTask(workers[i]) ==>
          workers[i].ticket < |taken| && workers[i].task == taken[workers[i].ticket])
    && (forall i, k :: 0 <= i < k < |workers| && HasTask(workers[i]) ==> !HeldBy(workers[k], workers[i].ticket))
  }

  /** Each taken task is either with a worker or has run, once. */
  ghost predicate RunOnce(workers: seq<WorkerPc>, taken: seq<Task>, ran: multiset<nat>) {
    && (forall t: nat :: t < |taken| ==> ran[t] == if HeldBySome(workers, t) then 0 else 1)
    && (forall t: nat :: t >= |taken| ==> ran[t] == 0)
  }

  /** Nothing is lost, reordered or run twice: what was accepted is what was taken followed by
      the queue, and each taken task is either with exactly one worker or has run exactly once. */
  ghost predicate Conserved(p: Pool) {
    && p.accepted == p.taken + p.queue.items
    && HoldersDistinct(p.workers, p.taken)
    && RunOnce(p.workers, p.taken, p.ran)
  }

  predicate PastBroadcast(p: Pool) {
    p.destroyer.Unlocking? || p.destroyer.Joining? || p.destroyer.Freed?
  }

  /** While a worker sleeps unsignalled, the workers about to test the queue, with the signal
      under way, are at least as many as the queued tasks. */
  ghost predicate SleepersCovered(p: Pool) {
    SomeAsleep(p) ==> |p.queue.items| <= Ready(p) + if SignalPending(p) then 1 else 0
  }

  ghost predicate ShutdownOrderly(p: Pool) {
    && (p.shutdown <==> p.destroyer.Broadcasting? || PastBroadcast(p))
    && (PastBroadcast(p) ==> !SomeAsleep(p))
    && (forall i :: 0 <= i < |p.workers| && p.workers[i].Checked? ==> p.queue.items != [] || p.shutdown)
    && (forall i :: 0 <= i < |p.workers| && p.workers[i].Exited? ==> p.queue.items == [] && p.shutdown)
    && (forall i :: 0 <= i < |p.workers| ==> !p.workers[i].EmptyHanded?)
    && (p.destroyer.Joining? ==> p.destroyer.joined <= |p.workers|)
    && (p.destroyer.Joining? ==> forall i :: 0 <= i < p.destroyer.joined ==> p.workers[i].Exited?)
    && (p.destroyer.Freed? ==> forall i :: 0 <= i < |p.workers| ==> p.workers[i].Exited?)
  }

  /** The task of a call that has pushed it. */
  function PushedBy(pc: ProducerPc): multiset<Task> {
    if pc.Pushed? || pc.Signalled? || (pc.Returned? && pc.accepted) then multiset{pc.task} else multiset{}
  }

  function PushedByAll(producers: seq<ProducerPc>): multiset<Task> {
    if producers == [] then multiset{} else PushedBy(producers[0]) + PushedByAll(producers[1..])
  }

  /** The calls of push_task that succeed, or are about to, are those of the accepted tasks. */
  ghost predicate AnswersHonest(p: Pool) {
    PushedByAll(p.producers) == multiset(p.accepted)
  }

  ghost predicate Inv(p: Pool) {
    LockAgrees(p) && Conserved(p) && SleepersCovered(p) && ShutdownOrderly(p) && AnswersHonest(p)
  }

  lemma CreatedIsSound(n: nat, queueSize: int)
    ensures Inv(Created(n, queueSize))
  {
    var p := Created(n, queueSize);
    assert forall i :: 0 <= i < |p.workers| ==> p.workers[i] == AtLock;
  }

  // ----- The lock

  lemma WorkKeepsLock(p: Pool, i: nat)
    requires LockAgrees(p) && Enabled(p, Work(i))
    ensures LockAgrees(DoWork(p, i))
  {
  }

  lemma ProduceKeepsLock(p: Pool, j: nat, memory: bool, wakes: nat)
    requires LockAgrees(p) && Enabled(p, Produce(j, memory, wakes))
    ensures LockAgrees(DoProduce(p, j, memory, wakes))
  {
  }

  lemma StepKeepsLock(p: Pool, a: Action)
    requires LockAgrees(p) && Enabled(p, a)
    ensures LockAgrees(Do(p, a))
  {
    match a
    case Work(i) => WorkKeepsLock(p, i);
    case Produce(j, memory, wakes) => ProduceKeepsLock(p, j, memory, wakes);
    case _ =>
  }

  // ----- Conservation

  lemma HeldAfterUpdate(workers: seq<WorkerPc>, i: nat, pc: WorkerPc, t: nat)
    requires i < |workers|
    ensures HeldBySome(workers[i := pc], t)
       <==> HeldBy(pc, t) || exists k :: 0 <= k < |workers| && k != i && HeldBy(workers[k], t)
  {
    var after := workers[i := pc];
    if HeldBy(pc, t) {
      assert HeldBy(after[i], t);
    } else if k :| 0 <= k < |workers| && k != i && HeldBy(workers[k], t) {
      assert HeldBy(after[k], t);
    }
  }

  /** A change of place that neither takes up nor lays down a task. */
  lemma SameHolders(workers: seq<WorkerPc>, i: nat, pc: WorkerPc, taken: seq<Task>, ran: multiset<nat>)
    requires i < |workers| && HoldersDistinct(workers, taken) && RunOnce(workers, taken, ran)
    requires HasTask(pc) <==> HasTask(workers[i])
    requires HasTask(pc) ==> pc.ticket == workers[i].ticket && pc.task == workers[i].task
    ensures HoldersDistinct(workers[i := pc], taken) && RunOnce(workers[i := pc], taken, ran)
  {
    forall t: nat ensures HeldBySome(workers[i := pc], t) <==> HeldBySome(workers, t) {
      HeldAfterUpdate(workers, i, pc, t);
      HeldAfterUpdate(workers, i, workers[i], t);
      assert workers[i := workers[i]] == workers;
    }
  }

  lemma TakeKeepsHolders(workers: seq<WorkerPc>, i: nat, task: Task, taken: seq<Task>, ran: multiset<nat>)
    requires i < |workers| && HoldersDistinct(workers, taken) && RunOnce(workers, taken, ran) && !HasTask(workers[i])
    ensures HoldersDistinct(workers[i := Holding(|taken|, task)], taken + [task])
    ensures RunOnce(workers[i := Holding(|taken|, task)], taken + [task], ran)
  {
    var pc := Holding(|taken|, task);
    forall t: nat
      ensures HeldBySome(workers[i := pc], t) <==> t == |taken| || HeldBySome(workers, t)
      ensures t < |taken| + 1 ==> ran[t] == if HeldBySome(workers[i := pc], t) then 0 else 1
    {
      HeldAfterUpdate(workers, i, pc, t);
      HeldAfterUpdate(workers, i, workers[i], t);
      assert workers[i := workers[i]] == workers;
    }
  }

  lemma FinishKeepsHolders(workers: seq<WorkerPc>, i: nat, taken: seq<Task>, ran: multiset<nat>)
    requires i < |workers| && HoldersDistinct(workers, taken) && RunOnce(workers, taken, ran) && workers[i].Running?
    ensures HoldersDistinct(workers[i := AtLock], taken)
    ensures RunOnce(workers[i := AtLock], taken, ran + multiset{workers[i].ticket})
  {
    var ticket := workers[i].ticket;
    forall t: nat ensures HeldBySome(workers[i := AtLock], t) <==> t != ticket && HeldBySome(workers, t) {
      HeldAfterUpdate(workers, i, AtLock, t);
      HeldAfterUpdate(workers, i, workers[i], t);
      assert workers[i := workers[i]] == workers;
    }
    assert HeldBySome(workers, ticket) by {
      assert HeldBy(workers[i], ticket);
    }
  }

  lemma WorkConserves(p: Pool, i: nat)
    requires Conserved(p) && Enabled(p, Work(i))
    ensures Conserved(DoWork(p, i))
  {
    var q := DoWork(p, i);
    if p.workers[i].Checked? && q.workers[i].Holding? {
      TakeKeepsHolders(p.workers, i, p.queue.items[0], p.taken, p.ran);
      assert p.queue.items == [p.queue.items[0]] + p.queue.items[1..];
    } else if p.workers[i].Running? {
      FinishKeepsHolders(p.workers, i, p.taken, p.ran);
    } else {
      SameHolders(p.workers, i, q.workers[i], p.taken, p.ran);
    }
  }

  lemma WakeAllKeepsHolders(workers: seq<WorkerPc>, taken: seq<Task>, ran: multiset<nat>)
    requires HoldersDistinct(workers, taken) && RunOnce(workers, taken, ran)
    ensures HoldersDistinct(WakeAll(workers), taken) && RunOnce(WakeAll(workers), taken, ran)
  {
    var woken := WakeAll(workers);
    forall t: nat ensures HeldBySome(woken, t) <==> HeldBySome(workers, t) {
      if HeldBySome(workers, t) {
        var i :| 0 <= i < |workers| && HeldBy(workers[i], t);
        assert HeldBy(woken[i], t);
      }
      if HeldBySome(woken, t) {
        var i :| 0 <= i < |workers| && HeldBy(woken[i], t);
        assert HeldBy(workers[i], t);
      }
    }
  }

  lemma StepConserves(p: Pool, a: Action)
    requires Conserved(p) && Enabled(p, a)
    ensures Conserved(Do(p, a))
  {
    match a
    case Work(i) => WorkConserves(p, i);
    case Spurious(i) => SameHolders(p.workers, i, Woken, p.taken, p.ran);
    case Call(task) =>
    case Produce(j, memory, wakes) =>
      if p.producers[j].Pushed? && SomeAsleep(p) {
        SameHolders(p.workers, wakes, Woken, p.taken, p.ran);
      }
    case Destroy => WakeAllKeepsHolders(p.workers, p.taken, p.ran);
  }

  // ----- Wakeups

  lemma WorkKeepsCovered(p: Pool, i: nat)
    requires LockAgrees(p) && SleepersCovered(p) && Enabled(p, Work(i))
    ensures SleepersCovered(DoWork(p, i))
  {
    var q := DoWork(p, i);
    SumAfterUpdate(p.workers, IsReady, i, q.workers[i]);
    if SomeAsleep(q) && !q.workers[i].Asleep? {
      var k :| 0 <= k < |q.workers| && q.workers[k] == Asleep;
      assert p.workers[k] == Asleep;
    }
  }

  lemma ProduceKeepsCovered(p: Pool, j: nat, memory: bool, wakes: nat)
    requires LockAgrees(p) && SleepersCovered(p) && Enabled(p, Produce(j, memory, wakes))
    ensures SleepersCovered(DoProduce(p, j, memory, wakes))
  {
    var q := DoProduce(p, j, memory, wakes);
    if p.producers[j].Pushed? && SomeAsleep(p) {
      SumAfterUpdate(p.workers, IsReady, wakes, Woken);
      assert SignalPending(p) && !SignalPending(q);
    } else if q.producers[j].Pushed? {
      assert SignalPending(q);
    }
  }

  lemma StepKeepsCovered(p: Pool, a: Action)
    requires LockAgrees(p) && SleepersCovered(p) && Enabled(p, a)
    ensures SleepersCovered(Do(p, a))
  {
    match a
    case Work(i) => WorkKeepsCovered(p, i);
    case Spurious(i) => SumAfterUpdate(p.workers, IsReady, i, Woken);
    case Call(task) =>
      if SignalPending(p) {
        var k :| 0 <= k < |p.producers| && p.producers[k].Pushed?;
        assert Do(p, a).producers[k].Pushed?;
      }
    case Produce(j, memory, wakes) => ProduceKeepsCovered(p, j, memory, wakes);
    case Destroy =>
  }

  // ----- Shutdown

  lemma WorkKeepsShutdown(p: Pool, i: nat)
    requires LockAgrees(p) && ShutdownOrderly(p) && Enabled(p, Work(i))
    ensures ShutdownOrderly(DoWork(p, i))
  {
    var q := DoWork(p, i);
    assert SomeAsleep(q) ==> SomeAsleep(p) || q.workers[i].Asleep?;
    assert forall k :: 0 <= k < |p.workers| && k != i ==> q.workers[k] == p.workers[k];
    assert forall k :: 0 <= k < |p.workers| && k != i && WorkerOwnsLock(p.workers[i]) ==> !p.workers[k].Checked?;
  }

  lemma ProduceKeepsShutdown(p: Pool, j: nat, memory: bool, wakes: nat)
    requires LockAgrees(p) && ShutdownOrderly(p) && Enabled(p, Produce(j, memory, wakes))
    ensures ShutdownOrderly(DoProduce(p, j, memory, wakes))
  {
    var q := DoProduce(p, j, memory, wakes);
    assert forall k :: 0 <= k < |p.workers| ==> q.workers[k] == p.workers[k] || (k == wakes && q.workers[k] == Woken);
    assert SomeAsleep(q) ==> SomeAsleep(p);
  }

  lemma DestroyKeepsShutdown(p: Pool)
    requires LockAgrees(p) && ShutdownOrderly(p) && Enabled(p, Destroy)
    ensures ShutdownOrderly(DoDestroy(p))
  {
  }

  lemma StepKeepsShutdown(p: Pool, a: Action)
    requires LockAgrees(p) && ShutdownOrderly(p) && Enabled(p, a)
    ensures ShutdownOrderly(Do(p, a))
  {
    match a
    case Work(i) => WorkKeepsShutdown(p, i);
    case Spurious(i) => assert SomeAsleep(Do(p, a)) ==> SomeAsleep(p);
    case Call(task) =>
    case Produce(j, memory, wakes) => ProduceKeepsShutdown(p, j, memory, wakes);
    case Destroy => DestroyKeepsShutdown(p);
  }

  lemma {:induction false} PushedAfterUpdate(producers: seq<ProducerPc>, j: nat, pc: ProducerPc)
    requires j < |producers| && PushedBy(producers[j]) <= PushedBy(pc)
    ensures PushedByAll(producers[j := pc]) == PushedByAll(producers) + (PushedBy(pc) - PushedBy(producers[j]))
  {
    if j > 0 {
      assert producers[j := pc][1..] == producers[1..][j - 1 := pc];
      PushedAfterUpdate(producers[1..], j - 1, pc);
    } else {
      assert producers[j := pc][1..] == producers[1..];
    }
  }

  lemma {:induction false} PushedAfterAppend(producers: seq<ProducerPc>, pc: ProducerPc)
    requires PushedBy(pc) == multiset{}
    ensures PushedByAll(producers + [pc]) == PushedByAll(producers)
  {
    if producers != [] {
      assert (producers + [pc])[1..] == producers[1..] + [pc];
      PushedAfterAppend(producers[1..], pc);
    } else {
      assert (producers + [pc])[1..] == [];
    }
  }

  lemma ProduceKeepsHonest(p: Pool, j: nat, memory: bool, wakes: nat)
    requires AnswersHonest(p) && Enabled(p, Produce(j, memory, wakes))
    ensures AnswersHonest(DoProduce(p, j, memory, wakes))
  {
    var q := DoProduce(p, j, memory, wakes);
    ProduceAnswers(p, j, memory, wakes);
    PushedAfterUpdate(p.producers, j, q.producers[j]);
    if q.accepted != p.accepted {
      assert multiset(q.accepted) == multiset(p.accepted) + PushedBy(q.producers[j]);
    }
  }

  /** A statement of push_task accepts a task exactly when it turns its call into a success. */
  lemma ProduceAnswers(p: Pool, j: nat, memory: bool, wakes: nat)
    requires Enabled(p, Produce(j, memory, wakes))
    ensures var q := DoProduce(p, j, memory, wakes);
            && q.producers == p.producers[j := q.producers[j]]
            && if q.producers[j].Pushed? then
                 && q.accepted == p.accepted + [q.producers[j].task]
                 && PushedBy(p.producers[j]) == multiset{}
               else
                 q.accepted == p.accepted && PushedBy(q.producers[j]) == PushedBy(p.producers[j])
  {
  }

  lemma CallKeepsHonest(p: Pool, task: Task)
    requires AnswersHonest(p)
    ensures AnswersHonest(DoCall(p, task))
  {
    PushedAfterAppend(p.producers, Called(task));
  }

  lemma OthersLeaveProducers(p: Pool, a: Action)
    requires Enabled(p, a) && !a.Call? && !a.Produce?
    ensures Do(p, a).producers == p.producers && Do(p, a).accepted == p.accepted
  {
  }

  lemma StepKeepsHonest(p: Pool, a: Action)
    requires AnswersHonest(p) && Enabled(p, a)
    ensures AnswersHonest(Do(p, a))
  {
    match a
    case Call(task) => CallKeepsHonest(p, task);
    case Produce(j, memory, wakes) => ProduceKeepsHonest(p, j, memory, wakes);
    case _ => OthersLeaveProducers(p, a);
  }

  lemma StepKeepsInv(p: Pool, a: Action)
    requires Inv(p) && Enabled(p, a)
    ensures Inv(Do(p, a))
  {
    StepKeepsLock(p, a);
    StepConserves(p, a);
    StepKeepsCovered(p, a);
    StepKeepsShutdown(p, a);
    StepKeepsHonest(p, a);
  }

  lemma {:induction false} RunKeepsInv(p: Pool, run: seq<Action>)
    requires Inv(p) && IsRun(p, run)
    ensures Inv(After(p, run))
    decreases |run|
  {
    if run != [] {
      StepKeepsInv(p, run[0]);
      RunKeepsInv(Do(p, run[0]), run[1..]);
    }
  }

  lemma {:induction false} RunKeepsWorkers(p: Pool, run: seq<Action>)
    requires IsRun(p, run)
    ensures |After(p, run).workers| == |p.workers|
    decreases |run|
  {
    if run != [] {
      RunKeepsWorkers(Do(p, run[0]), run[1..]);
    }
  }

  /** What holds by the invariant holds in every reachable state. */
  lemma ReachableIsSound(n: nat, queueSize: int, run: seq<Action>)
    requires IsRun(Created(n, queueSize), run)
    ensures Inv(After(Created(n, queueSize), run)) && |After(Created(n, queueSize), run).workers| == n
  {
    CreatedIsSound(n, queueSize);
    RunKeepsInv(Created(n, queueSize), run);
    RunKeepsWorkers(Created(n, queueSize), run);
  }

  // ----- What every reachable state guarantees

  /** Exactly once, in order: over every run the tasks accepted so far are the tasks taken so
      far followed by the queue, and a taken task has run exactly once unless one worker, and
      only one, still has it. */
  lemma ExactlyOnceInOrder(n: nat, queueSize: int, run: seq<Action>)
    requires IsRun(Created(n, queueSize), run)
    ensures var p := After(Created(n, queueSize), run);
            && p.accepted == p.taken + p.queue.items
            && (forall t: nat :: t < |p.taken| ==> p.ran[t] == if HeldBySome(p.workers, t) then 0 else 1)
            && (forall t: nat :: t >= |p.taken| ==> p.ran[t] == 0)
            && (forall i, k :: 0 <= i < k < |p.workers| && HasTask(p.workers[i]) && HasTask(p.workers[k]) ==>
                  p.workers[i].ticket != p.workers[k].ticket)
            && (forall i :: 0 <= i < |p.workers| && HasTask(p.workers[i]) ==>
                  p.workers[i].ticket < |p.accepted| && p.workers[i].task == p.accepted[p.workers[i].ticket])
            && PushedByAll(p.producers) == multiset(p.accepted)
  {
    ReachableIsSound(n, queueSize, run);
  }

  // ----- Who sleeps and who wakes

  /** The worker that action a wakes is i: by itself, by the signal of a call, or by the broadcast. */
  predicate Wakes(p: Pool, a: Action, i: nat) {
    match a
    case Spurious(k) => k == i
    case Produce(j, memory, wakes) => j < |p.producers| && p.producers[j].Pushed? && wakes == i
    case Destroy => p.destroyer.Broadcasting?
    case _ => false
  }

  /** A sleeper wakes exactly so: a signal wakes the one it picks, the broadcast all. */
  lemma SleepersWake(p: Pool, a: Action, i: nat)
    requires Enabled(p, a) && i < |p.workers| && p.workers[i].Asleep?
    ensures Do(p, a).workers[i] == if Wakes(p, a, i) then Woken else Asleep
  {
  }

  /** And a worker falls asleep exactly when it finds the queue empty and the pool open; doing so, it
      lets go of the lock. */
  lemma FallsAsleep(p: Pool, a: Action, i: nat)
    requires Enabled(p, a) && i < |p.workers| && !p.workers[i].Asleep?
    ensures Do(p, a).workers[i].Asleep?
       <==> a == Work(i) && p.workers[i].Testing? && p.queue.items == [] && !p.shutdown
    ensures Do(p, a).workers[i].Asleep? ==> Do(p, a).lock == None
  {
  }

  /** Who can move: a worker unless it sleeps or has exited, and a call until it has returned, but to
      take the lock only when it is free; the caller of destroy_pool, which waits also for the worker
      it joins; and a new call at any time until the pool is freed. */
  lemma WhoCanMove(p: Pool, i: nat, j: nat)
    ensures i < |p.workers| ==>
              (Enabled(p, Work(i)) <==>
                 if p.workers[i].AtLock? || p.workers[i].Woken? then p.lock == None
                 else !p.workers[i].Asleep? && !p.workers[i].Exited?)
    ensures j < |p.producers| && p.destroyer != Freed ==>
              ((exists memory, wakes :: Enabled(p, Produce(j, memory, wakes))) <==>
                 if p.producers[j].Entering? then p.lock == None else !p.producers[j].Returned?)
    ensures p.destroyer != Freed ==>
              (Enabled(p, Destroy) <==>
                 if p.destroyer.AtDestroyLock? then p.lock == None
                 else p.destroyer.Joining? && p.destroyer.joined < |p.workers| ==>
                        p.workers[p.destroyer.joined].Exited?)
    ensures forall task :: Enabled(p, Call(task)) <==> p.destroyer != Freed
  {
    if j < |p.producers| && p.destroyer != Freed {
      if SomeAsleep(p) {
        var w :| 0 <= w < |p.workers| && p.workers[w] == Asleep;
        assert p.producers[j].Pushed? ==> Enabled(p, Produce(j, true, w));
      }
      assert p.producers[j].Pushed? && !SomeAsleep(p) ==> Enabled(p, Produce(j, true, 0));
      assert Enabled(p, Produce(j, true, 0)) || p.producers[j].Pushed? || p.producers[j].Returned?
          || (p.producers[j].Entering? && p.lock != None);
    }
  }

  /** A new pool is open, with an empty ring of the size asked for, if that is from 1 to a million. */
  lemma CreatedIs(n: nat, queueSize: int)
    ensures var p := Created(n, queueSize);
            && !p.shutdown && p.lock == None && |p.workers| == n && p.producers == []
            && p.queue == Queue.Fifo([], if 1 <= queueSize <= 1_000_000 then queueSize else 1)
  {
    Queue.InitialCapIs(queueSize);
  }

  // ----- When push_task accepts

  /** The ring never holds more than its capacity, which stays within its limits. */
  predicate Room(p: Pool) {
    |p.queue.items| <= p.queue.cap && 1 <= p.queue.cap < Queue.CAP_LIMIT
  }

  lemma StepKeepsRoom(p: Pool, a: Action)
    requires Room(p) && Enabled(p, a)
    ensures Room(Do(p, a))
  {
    match a
    case Work(i) =>
    case Produce(j, memory, wakes) => ProduceKeepsRoom(p, j, memory, wakes);
    case _ =>
  }

  lemma ProduceKeepsRoom(p: Pool, j: nat, memory: bool, wakes: nat)
    requires Room(p) && Enabled(p, Produce(j, memory, wakes))
    ensures Room(DoProduce(p, j, memory, wakes))
  {
    if p.producers[j].Locked? {
      Queue.PushIs(p.queue, p.producers[j].task, memory);
    }
  }

  lemma {:induction false} RunKeepsRoom(p: Pool, run: seq<Action>)
    requires Room(p) && IsRun(p, run)
    ensures Room(After(p, run))
    decreases |run|
  {
    if run != [] {
      StepKeepsRoom(p, run[0]);
      RunKeepsRoom(Do(p, run[0]), run[1..]);
    }
  }

  /** The pool is open, and its ring has a free place or can grow. */
  predicate Takes(p: Pool, memory: bool) {
    !p.shutdown && (|p.queue.items| < p.queue.cap || (memory && 2 * p.queue.cap < 10_000_000))
  }

  /** What a call of push_task does once it has the lock: it appends its task exactly when the pool
      is open and the ring has a free place or can grow, and else is about to return false. */
  lemma PushIsDecided(n: nat, queueSize: int, run: seq<Action>, j: nat, memory: bool, wakes: nat)
    requires IsRun(Created(n, queueSize), run)
    requires Enabled(After(Created(n, queueSize), run), Produce(j, memory, wakes))
    requires After(Created(n, queueSize), run).producers[j].Locked?
    ensures var p := After(Created(n, queueSize), run);
            var q, task := Do(p, Produce(j, memory, wakes)), p.producers[j].task;
            if Takes(p, memory) then
              q.producers[j] == Pushed(task) && q.accepted == p.accepted + [task]
              && q.queue.items == p.queue.items + [task]
            else
              q.producers[j] == Refusing(task) && q.accepted == p.accepted && q.queue == p.queue
  {
    RunKeepsRoom(Created(n, queueSize), run);
    var p := After(Created(n, queueSize), run);
    Queue.PushIs(p.queue, p.producers[j].task, memory);
  }

  predicate IsNull(task: Task) {
    task.func == 0 || task.args == 0
  }

  /** A call of push_task has been decided, and so. */
  predicate Decided(pc: ProducerPc, answer: bool) {
    || (pc.Refusing? && !answer)
    || ((pc.Pushed? || pc.Signalled?) && answer)
    || (pc.Returned? && pc.accepted == answer)
  }

  /** At its k-th action the run tested for call j whether to accept, and the answer was so. */
  ghost predicate Tested(p: Pool, run: seq<Action>, k: nat, j: nat, answer: bool) {
    && k < |run| && run[k].Produce? && run[k].j == j && IsRun(p, run[..k])
    && j < |After(p, run[..k]).producers| && After(p, run[..k]).producers[j].Locked?
    && answer == Takes(After(p, run[..k]), run[k].memory)
  }

  /** One action decides at most the call whose test it is, or one with a null argument. */
  lemma StepDecides(p: Pool, a: Action, j: nat, answer: bool)
    requires Room(p) && Enabled(p, a)
    requires j < |Do(p, a).producers| && !IsNull(Do(p, a).producers[j].task) && Decided(Do(p, a).producers[j], answer)
    ensures || (j < |p.producers| && p.producers[j].task == Do(p, a).producers[j].task
                && Decided(p.producers[j], answer))
            || (a.Produce? && a.j == j && p.producers[j].Locked? && answer == Takes(p, a.memory))
  {
    if a.Produce? {
      if p.producers[a.j].Locked? {
        Queue.PushIs(p.queue, p.producers[a.j].task, a.memory);
      }
    }
  }

  lemma {:induction false} RunSplits(p: Pool, run: seq<Action>)
    requires run != [] && IsRun(p, run)
    ensures var init, last := run[..|run| - 1], run[|run| - 1];
            IsRun(p, init) && Enabled(After(p, init), last) && After(p, run) == Do(After(p, init), last)
    decreases |run|
  {
    if |run| > 1 {
      var init, tail := run[..|run| - 1], run[1..];
      RunSplits(Do(p, run[0]), tail);
      assert init[1..] == tail[..|tail| - 1];
    } else {
      assert run[1..] == [];
    }
  }

  /** Over every run each call with a function and an argument has the answer of its test: it
      returns false only if, with the lock held, shutdown was set or the ring was full and could
      not grow, and true only if neither. */
  lemma {:induction false} AnswersAreTested(n: nat, queueSize: int, run: seq<Action>, j: nat, answer: bool)
    requires IsRun(Created(n, queueSize), run)
    requires j < |After(Created(n, queueSize), run).producers|
    requires Decided(After(Created(n, queueSize), run).producers[j], answer)
    requires !IsNull(After(Created(n, queueSize), run).producers[j].task)
    ensures exists k: nat :: Tested(Created(n, queueSize), run, k, j, answer)
    decreases |run|
  {
    var p := Created(n, queueSize);
    if run != [] {
      var init, last := run[..|run| - 1], run[|run| - 1];
      RunSplits(p, run);
      RunKeepsRoom(p, init);
      var before := After(p, init);
      StepDecides(before, last, j, answer);
      if j < |before.producers| && before.producers[j].task == After(p, run).producers[j].task
         && Decided(before.producers[j], answer) {
        AnswersAreTested(n, queueSize, init, j, answer);
        var k: nat :| Tested(p, init, k, j, answer);
        assert run[..k] == init[..k];
        assert Tested(p, run, k, j, answer);
      } else {
        assert Tested(p, run, |run| - 1, j, answer);
      }
    }
  }

  predicate NullsRefused(p: Pool) {
    forall j :: 0 <= j < |p.producers| && IsNull(p.producers[j].task) ==>
      p.producers[j] == Returned(p.producers[j].task, false)
  }

  /** A call with a null is refused at once, in every run. */
  lemma NullCallsAreRefused(n: nat, queueSize: int, run: seq<Action>)
    requires IsRun(Created(n, queueSize), run)
    ensures NullsRefused(After(Created(n, queueSize), run))
  {
    NullIsRefused(Created(n, queueSize), run);
  }

  lemma {:induction false} NullIsRefused(p: Pool, run: seq<Action>)
    requires NullsRefused(p) && IsRun(p, run)
    ensures NullsRefused(After(p, run))
    decreases |run|
  {
    if run != [] {
      StepRefusesNull(p, run[0]);
      NullIsRefused(Do(p, run[0]), run[1..]);
    }
  }

  lemma StepRefusesNull(p: Pool, a: Action)
    requires NullsRefused(p) && Enabled(p, a)
    ensures NullsRefused(Do(p, a))
  {
  }

  predicate IsActive(pc: WorkerPc) {
    IsReady(pc) > 0 || HasTask(pc)
  }

  ghost predicate SomeActive(p: Pool) {
    exists i :: 0 <= i < |p.workers| && IsActive(p.workers[i])
  }

  /** The one gap: the first task after a quiet time is in the queue, the push_task call that put
      it there still holds the lock before its signal, and every worker sleeps. */
  ghost predicate BeforeFirstSignal(p: Pool) {
    && SignalPending(p) && |p.queue.items| == 1
    && forall i :: 0 <= i < |p.workers| ==> p.workers[i] == Asleep
  }

  lemma ActiveOrBeforeSignal(p: Pool)
    requires Inv(p) && |p.workers| > 0 && p.queue.items != []
    ensures !SomeActive(p) <==> BeforeFirstSignal(p)
    ensures p.lock == None ==> SomeActive(p)
  {
    if !SomeActive(p) {
      if Ready(p) > 0 {
        PositiveSum(p.workers, IsReady);
      }
      forall i | 0 <= i < |p.workers| ensures p.workers[i] == Asleep {
        assert !IsActive(p.workers[i]);
      }
      assert p.workers[0] == Asleep;
    } else {
      var i :| 0 <= i < |p.workers| && IsActive(p.workers[i]);
      assert p.workers[i] != Asleep;
    }
  }

  /** In every reachable state with a task in the queue, some worker is about to test the queue
      or executing, except exactly in the gap before the first signal; with the lock free there
      is always such a worker. */
  lemma NoLostWakeup(n: nat, queueSize: int, run: seq<Action>)
    requires IsRun(Created(n, queueSize), run)
    requires n > 0 && After(Created(n, queueSize), run).queue.items != []
    ensures var p := After(Created(n, queueSize), run);
            && (!SomeActive(p) <==> BeforeFirstSignal(p))
            && (p.lock == None ==> SomeActive(p))
  {
    ReachableIsSound(n, queueSize, run);
    ActiveOrBeforeSignal(After(Created(n, queueSize), run));
  }

  /** And the signal closes it. */
  lemma SignalClosesGap(p: Pool, j: nat, memory: bool, wakes: nat)
    requires Inv(p) && |p.workers| > 0 && p.queue.items != []
    requires Enabled(p, Produce(j, memory, wakes)) && p.producers[j].Pushed?
    ensures SomeActive(Do(p, Produce(j, memory, wakes)))
  {
    var q := Do(p, Produce(j, memory, wakes));
    StepKeepsInv(p, Produce(j, memory, wakes));
    ActiveOrBeforeSignal(q);
    assert !SignalPending(q);
  }

  /** The gap before the signal is real: with the only worker asleep, a push_task call stands
      between its push and its signal. */
  lemma PushPrecedesSignal(task: Task)
    requires task.func != 0 && task.args != 0
    ensures var run := [Work(0), Work(0), Call(task), Produce(0, true, 0), Produce(0, true, 0)];
            IsRun(Created(1, 1), run) &&
            var p := After(Created(1, 1), run);
            p.queue.items == [task] && p.workers == [Asleep] && SignalPending(p)
  {
    var p := Created(1, 1);
    assert p.workers == [AtLock];
    RunExtends(p, [], Work(0));
    var r1 := [] + [Work(0)];
    RunExtends(p, r1, Work(0));
    var r2 := r1 + [Work(0)];
    assert After(p, r2).workers == [Asleep];
    RunExtends(p, r2, Call(task));
    var r3 := r2 + [Call(task)];
    RunExtends(p, r3, Produce(0, true, 0));
    var r4 := r3 + [Produce(0, true, 0)];
    RunExtends(p, r4, Produce(0, true, 0));
    var r5 := r4 + [Produce(0, true, 0)];
    assert r5 == [Work(0), Work(0), Call(task), Produce(0, true, 0), Produce(0, true, 0)];
    assert After(p, r5).producers[0].Pushed?;
  }

  lemma {:induction false} RunExtends(p: Pool, run: seq<Action>, a: Action)
    requires IsRun(p, run) && Enabled(After(p, run), a)
    ensures IsRun(p, run + [a]) && After(p, run + [a]) == Do(After(p, run), a)
    decreases |run|
  {
    if run == [] {
      assert (run + [a])[1..] == [];
    } else {
      assert (run + [a])[1..] == run[1..] + [a];
      RunExtends(Do(p, run[0]), run[1..], a);
    }
  }

  /** Work remains: a queued task that some worker could take, or a destroy_pool call that has
      not returned. */
  predicate WorkRemains(p: Pool) {
    (|p.workers| > 0 && p.queue.items != []) || (p.destroyer != NotCalled && p.destroyer != Freed)
  }

  /** A statement of a thread that is already under way: not a new call of push_task or of
      destroy_pool, and not a spurious wakeup. */
  predicate IsThreadStep(p: Pool, a: Action) {
    a.Work? || a.Produce? || (a.Destroy? && p.destroyer != NotCalled)
  }

  /** The pool never deadlocks: while work remains, some thread can take its next statement
      without any new call or spurious wakeup. */
  lemma NeverDeadlocked(p: Pool)
    requires Inv(p) && WorkRemains(p)
    ensures exists a :: IsThreadStep(p, a) && Enabled(p, a)
  {
    if p.lock.Some? {
      OwnerCanStep(p);
    } else if p.queue.items != [] && |p.workers| > 0 {
      ActiveOrBeforeSignal(p);
      var i :| 0 <= i < |p.workers| && IsActive(p.workers[i]);
      assert Enabled(p, Work(i));
    } else if p.destroyer.Joining? && p.destroyer.joined < |p.workers| && !p.workers[p.destroyer.joined].Exited? {
      var k := p.destroyer.joined;
      assert p.workers[k] != Asleep;
      assert Enabled(p, Work(k));
    } else {
      assert Enabled(p, Destroy);
    }
  }

  lemma OwnerCanStep(p: Pool)
    requires Inv(p) && WorkRemains(p) && p.lock.Some?
    ensures exists a :: IsThreadStep(p, a) && Enabled(p, a)
  {
    assert |p.workers| > 0 && p.queue.items != [] ==> !p.workers[0].Exited?;
    assert p.destroyer != Freed;
    match p.lock.value
    case Worker(i) => assert Enabled(p, Work(i));
    case Producer(j) =>
      if p.producers[j].Pushed? && SomeAsleep(p) {
        var w :| 0 <= w < |p.workers| && p.workers[w] == Asleep;
        assert Enabled(p, Produce(j, true, w));
      } else {
        assert Enabled(p, Produce(j, true, 0));
      }
    case Destroyer => assert Enabled(p, Destroy);
  }

  // ----- Graceful drain

  /** Once the shutdown flag is up it stays up, no task is accepted and no worker falls asleep. */
  lemma ShutdownIsFinal(p: Pool, a: Action)
    requires p.shutdown && Enabled(p, a)
    ensures Do(p, a).shutdown && Do(p, a).accepted == p.accepted
    ensures forall i :: 0 <= i < |p.workers| && Do(p, a).workers[i] == Asleep ==> p.workers[i] == Asleep
  {
  }

  function WorkerLeft(pc: WorkerPc): nat {
    match pc
    case Holding(_, _) => 5
    case Running(_, _) => 4
    case EmptyHanded => 4
    case AtLock => 3
    case Woken => 3
    case Testing => 2
    case Checked => 1
    case Asleep => 0
    case Exited => 0
  }

  /** A push pays for what the task and the worker it wakes have yet to do. */
  function ProducerLeft(pc: ProducerPc): nat {
    match pc
    case Entering(_) => 12
    case Locked(_) => 11
    case Pushed(_) => 5
    case Signalled(_) => 1
    case Refusing(_) => 1
    case Returned(_, _) => 0
  }

  /** The broadcast pays for all the workers it wakes. */
  function DestroyerLeft(pc: DestroyerPc, workers: nat): nat {
    match pc
    case NotCalled => 4 * workers + 6
    case AtDestroyLock => 4 * workers + 5
    case SettingFlag => 4 * workers + 4
    case Broadcasting => 4 * workers + 3
    case Unlocking => workers + 2
    case Joining(k) => if k <= workers then workers - k + 1 else 0
    case Freed => 0
  }

  /** An upper bound on the statements still to be executed if nothing new is called. */
  function Left(p: Pool): nat {
    Sum(p.workers, WorkerLeft) + 5 * |p.queue.items| + Sum(p.producers, ProducerLeft)
    + DestroyerLeft(p.destroyer, |p.workers|)
  }

  lemma WorkLowersLeft(p: Pool, i: nat)
    requires ShutdownOrderly(p) && Enabled(p, Work(i))
    ensures Left(DoWork(p, i)) < Left(p)
  {
    var q := DoWork(p, i);
    SumAfterUpdate(p.workers, WorkerLeft, i, q.workers[i]);
    if q.workers[i].Holding? {
      assert |q.queue.items| == |p.queue.items| - 1;
    } else {
      assert q.queue == p.queue;
      assert WorkerLeft(q.workers[i]) < WorkerLeft(p.workers[i]);
    }
  }

  lemma ProduceLowersLeft(p: Pool, j: nat, memory: bool, wakes: nat)
    requires Enabled(p, Produce(j, memory, wakes))
    ensures Left(DoProduce(p, j, memory, wakes)) < Left(p)
  {
    var q := DoProduce(p, j, memory, wakes);
    SumAfterUpdate(p.producers, ProducerLeft, j, q.producers[j]);
    if p.producers[j].Pushed? && SomeAsleep(p) {
      SumAfterUpdate(p.workers, WorkerLeft, wakes, Woken);
    } else {
      assert q.workers == p.workers;
      assert |q.queue.items| == |p.queue.items| + if q.producers[j].Pushed? then 1 else 0;
    }
  }

  lemma {:induction false} SumAfterWakeAll(workers: seq<WorkerPc>)
    ensures Sum(WakeAll(workers), WorkerLeft) <= Sum(workers, WorkerLeft) + 3 * |workers|
  {
    if workers != [] {
      assert WakeAll(workers)[1..] == WakeAll(workers[1..]);
      SumAfterWakeAll(workers[1..]);
    }
  }

  lemma DestroyLowersLeft(p: Pool)
    requires ShutdownOrderly(p) && Enabled(p, Destroy)
    ensures Left(DoDestroy(p)) < Left(p)
  {
    SumAfterWakeAll(p.workers);
  }

  /** Every statement of every thread, before and after shutdown, brings the pool closer to rest. */
  lemma StepLowersLeft(p: Pool, a: Action)
    requires Inv(p) && Enabled(p, a) && IsThreadStep(p, a)
    ensures Left(Do(p, a)) < Left(p)
  {
    match a
    case Work(i) => WorkLowersLeft(p, i);
    case Produce(j, memory, wakes) => ProduceLowersLeft(p, j, memory, wakes);
    case Destroy => DestroyLowersLeft(p);
  }

  /** What a step may add to that bound, itself included: a call brings at most twelve statements
      of its own, of the task and of the worker it wakes, a spurious wakeup three. */
  function Cost(a: Action): nat {
    match a
    case Call(_) => 13
    case Spurious(_) => 4
    case _ => 0
  }

  function CostOf(run: seq<Action>): nat {
    if run == [] then 0 else Cost(run[0]) + CostOf(run[1..])
  }

  lemma StepIsPaid(p: Pool, a: Action)
    requires Inv(p) && Enabled(p, a)
    ensures 1 + Left(Do(p, a)) <= Left(p) + Cost(a)
  {
    match a
    case Call(task) => SumAfterAppend(p.producers, ProducerLeft, Called(task));
    case Spurious(i) => SumAfterUpdate(p.workers, WorkerLeft, i, Woken);
    case Destroy => DestroyLowersLeft(p);
    case _ => StepLowersLeft(p, a);
  }

  /** From every reachable state, every run is paid for by what was left and what was called. */
  lemma {:induction false} RunIsPaid(p: Pool, run: seq<Action>)
    requires Inv(p) && IsRun(p, run)
    ensures |run| + Left(After(p, run)) <= Left(p) + CostOf(run)
    decreases |run|
  {
    if run != [] {
      StepIsPaid(p, run[0]);
      StepKeepsInv(p, run[0]);
      RunIsPaid(Do(p, run[0]), run[1..]);
    }
  }

  function Calls(run: seq<Action>): nat {
    if run == [] then 0 else (if run[0].Call? then 1 else 0) + Calls(run[1..])
  }

  function Wakeups(run: seq<Action>): nat {
    if run == [] then 0 else (if run[0].Spurious? then 1 else 0) + Wakeups(run[1..])
  }

  lemma {:induction false} CostIsLinear(run: seq<Action>)
    ensures CostOf(run) == 13 * Calls(run) + 4 * Wakeups(run)
  {
    if run != [] {
      CostIsLinear(run[1..]);
    }
  }

  /** From the creation of the pool a run is no longer than seven statements for each worker and
      six for destroy_pool, thirteen for each call of push_task and four for each spurious
      wakeup. */
  lemma RunsAreBounded(n: nat, queueSize: int, run: seq<Action>)
    requires IsRun(Created(n, queueSize), run)
    ensures |run| <= 7 * n + 6 + 13 * Calls(run) + 4 * Wakeups(run)
  {
    CreatedIsSound(n, queueSize);
    RunIsPaid(Created(n, queueSize), run);
    CostIsLinear(run);
    SumOfAtLock(n);
  }

  lemma {:induction false} SumOfAtLock(n: nat)
    ensures Sum(seq(n, _ => AtLock), WorkerLeft) == 3 * n
  {
    if n > 0 {
      assert seq(n, _ => AtLock)[1..] == seq(n - 1, _ => AtLock);
      SumOfAtLock(n - 1);
    }
  }

  /** And where no thread can move any more, shutdown or not, the queue is empty and every
      accepted task has run exactly once. */
  lemma RestMeansAllRun(p: Pool)
    requires Inv(p) && |p.workers| > 0
    requires forall a :: IsThreadStep(p, a) ==> !Enabled(p, a)
    ensures p.queue.items == [] && p.taken == p.accepted
    ensures forall t: nat :: p.ran[t] == if t < |p.accepted| then 1 else 0
    ensures p.destroyer == NotCalled || p.destroyer == Freed
  {
    if WorkRemains(p) {
      NeverDeadlocked(p);
    }
    forall i | 0 <= i < |p.workers| ensures !HasTask(p.workers[i]) {
      assert !Enabled(p, Work(i));
    }
    assert forall t: nat :: !HeldBySome(p.workers, t);
  }

  /** After the broadcast nobody sleeps any more, so there is no spurious wakeup either. */
  lemma DrainStep(p: Pool, a: Action)
    requires Inv(p) && PastBroadcast(p) && Enabled(p, a) && !a.Call?
    ensures IsThreadStep(p, a) && PastBroadcast(Do(p, a)) && Left(Do(p, a)) < Left(p)
  {
    assert !SomeAsleep(p);
    if !a.Spurious? {
      StepLowersLeft(p, a);
    }
  }

  /** So after the broadcast the calls alone bound a run. */
  lemma {:induction false} DrainIsBounded(p: Pool, run: seq<Action>)
    requires Inv(p) && PastBroadcast(p) && IsRun(p, run)
    ensures |run| + Left(After(p, run)) <= Left(p) + 13 * Calls(run)
    decreases |run|
  {
    if run != [] {
      StepKeepsInv(p, run[0]);
      if run[0].Call? {
        StepIsPaid(p, run[0]);
      } else {
        DrainStep(p, run[0]);
      }
      DrainIsBounded(Do(p, run[0]), run[1..]);
    }
  }

  /** And where no thread can move any more, destroy_pool has returned. */
  lemma DrainEndsFreed(p: Pool)
    requires Inv(p) && PastBroadcast(p)
    requires forall a :: IsThreadStep(p, a) ==> !Enabled(p, a)
    ensures p.destroyer == Freed
  {
    if p.destroyer != Freed {
      NeverDeadlocked(p);
    }
  }

  /** Queue and pool are freed only after every worker has exited and, if there was a worker at
      all, after every accepted task has run exactly once. */
  lemma FreedMeansDrained(n: nat, queueSize: int, run: seq<Action>)
    requires IsRun(Created(n, queueSize), run)
    ensures var p := After(Created(n, queueSize), run);
            p.destroyer == Freed ==>
              && (forall i :: 0 <= i < |p.workers| ==> p.workers[i] == Exited)
              && (n > 0 ==> p.queue.items == [] && p.taken == p.accepted)
              && (n > 0 ==> forall t: nat :: p.ran[t] == if t < |p.accepted| then 1 else 0)
  {
    ReachableIsSound(n, queueSize, run);
    var p := After(Created(n, queueSize), run);
    if p.destroyer == Freed && n > 0 {
      assert p.workers[0] == Exited;
      assert forall t: nat :: !HeldBySome(p.workers, t);
    }
  }
}

/** What the server hands to its workers: a handler bound to a connection, and what it decides in the end. */
module Tasks {
  datatype Task = OnRead(fd: int) | OnWrite(fd: int)

  /** Wait for one direction again, or close. */
  datatype Action = ArmIn | ArmOut | Close
}

/**
 The thread pool as a monitor. A step is what one thread does between taking the mutex and
 giving it up, or one call on the condition variable; steps of all threads interleave freely.
 */
module ThreadPools {
  import opened Options
  import opened Tasks

  /** Ready: wants the mutex, to look at the queue again. */
  datatype Worker = Ready | Running(task: Task) | Waiting | Exited

  /** notifies counts calls of AddTask that have queued their task and not yet notified. */
  datatype Pool = Pool(
    tasks: seq<Task>, isClosed: bool, workers: seq<Worker>, notifies: nat, notifyAll: bool,
    added: seq<Task>, dispatched: seq<Task>, finished: multiset<Task>)

  datatype Step =
    | Add(task: Task)        // AddTask: queue under the mutex
    | NotifyOne(w: nat)      // AddTask: notify_one, which wakes w, or nobody when nobody waits
    | Spurious(w: nat)       // a wakeup without a notification
    | Turn(w: nat)           // one turn of the worker's loop, up to unlock, wait or return
    | Return(w: nat)         // the task returns
    | Shutdown               // destructor: isClosed under the mutex
    | NotifyAll              // destructor: notify_all

  predicate AnyWaiting(ws: seq<Worker>) {
    Waiting in ws
  }

  function Awake(w: Worker): Worker {
    if w == Waiting then Ready else w
  }

  function AllAwake(ws: seq<Worker>): (vs: seq<Worker>)
    ensures |vs| == |ws| && forall i | 0 <= i < |ws| :: vs[i] == Awake(ws[i])
  {
    if ws == [] then [] else [Awake(ws[0])] + AllAwake(ws[1..])
  }

  function Apply(p: Pool, step: Step): Option<Pool> {
    match step
    case Add(task) =>
      if p.isClosed then None
      else Some(p.(tasks := p.tasks + [task], added := p.added + [task], notifies := p.notifies + 1))
    case NotifyOne(w) =>
      if p.notifies == 0 then None
      else if !AnyWaiting(p.workers) then Some(p.(notifies := p.notifies - 1))
      else if w < |p.workers| && p.workers[w] == Waiting
      then Some(p.(notifies := p.notifies - 1, workers := p.workers[w := Ready]))
      else None
    case Spurious(w) =>
      if w < |p.workers| && p.workers[w] == Waiting then Some(p.(workers := p.workers[w := Ready])) else None
    case Turn(w) =>
      if w >= |p.workers| || p.workers[w] != Ready then None
      else if p.tasks != [] then
        Some(p.(tasks := p.tasks[1..], dispatched := p.dispatched + [p.tasks[0]],
                workers := p.workers[w := Running(p.tasks[0])]))
      else if p.isClosed then Some(p.(workers := p.workers[w := Exited]))
      else Some(p.(workers := p.workers[w := Waiting]))
    case Return(w) =>
      if w < |p.workers| && p.workers[w].Running?
      then Some(p.(workers := p.workers[w := Ready], finished := p.finished + multiset{p.workers[w].task}))
      else None
    case Shutdown =>
      // the owner destroys the pool only after its own calls of AddTask have returned
      if p.isClosed || p.notifies > 0 then None else Some(p.(isClosed := true, notifyAll := true))
    case NotifyAll =>
      if p.notifyAll
      then Some(p.(notifyAll := false, workers := AllAwake(p.workers)))
      else None
  }

  function Run(p: Pool, steps: seq<Step>): Option<Pool>
    decreases |steps|
  {
    if steps == [] then Some(p)
    else
      match Apply(p, steps[0])
      case None => None
      case Some(q) => Run(q, steps[1..])
  }

  function Started(threadCount: nat): Pool {
    Pool([], false, seq(threadCount, _ => Ready), 0, false, [], [], multiset{})
  }

  // ---------- counting workers ----------

  function ReadyCount(ws: seq<Worker>): nat {
    if ws == [] then 0 else (if ws[0] == Ready then 1 else 0) + ReadyCount(ws[1..])
  }

  function Holds(w: Worker, t: Task): nat {
    if w == Running(t) then 1 else 0
  }

  /** How many workers are running t. */
  function InHand(ws: seq<Worker>, t: Task): nat {
    if ws == [] then 0 else Holds(ws[0], t) + InHand(ws[1..], t)
  }

  /** Turns a worker still has before it, at most, when the queue is empty. */
  function Weight(w: Worker): nat {
    match w
    case Running(_) => 2
    case Ready => 1
    case Waiting => 1
    case Exited => 0
  }

  function Weights(ws: seq<Worker>): nat {
    if ws == [] then 0 else Weight(ws[0]) + Weights(ws[1..])
  }

  lemma {:induction false} HandReplaced(ws: seq<Worker>, i: nat, w: Worker, t: Task)
    requires i < |ws|
    ensures InHand(ws[i := w], t) + Holds(ws[i], t) == InHand(ws, t) + Holds(w, t)
  {
    if i == 0 {
      assert ws[0 := w][1..] == ws[1..];
    } else {
      assert ws[i := w][1..] == ws[1..][i - 1 := w];
      HandReplaced(ws[1..], i - 1, w, t);
    }
  }

  lemma {:induction false} Replaced(ws: seq<Worker>, i: nat, w: Worker)
    requires i < |ws|
    ensures ReadyCount(ws[i := w]) + (if ws[i] == Ready then 1 else 0) == ReadyCount(ws) + (if w == Ready then 1 else 0)
    ensures Weights(ws[i := w]) + Weight(ws[i]) == Weights(ws) + Weight(w)
  {
    if i == 0 {
      assert ws[0 := w][1..] == ws[1..];
    } else {
      assert ws[i := w][1..] == ws[1..][i - 1 := w];
      Replaced(ws[1..], i - 1, w);
    }
  }

  lemma {:induction false} WokenAll(ws: seq<Worker>, vs: seq<Worker>)
    requires |vs| == |ws| && forall i | 0 <= i < |ws| :: vs[i] == Awake(ws[i])
    ensures forall t :: InHand(vs, t) == InHand(ws, t)
    ensures Weights(vs) == Weights(ws) && ReadyCount(vs) >= ReadyCount(ws)
    ensures Waiting !in vs && (Exited in vs <==> Exited in ws)
  {
    if ws != [] {
      WokenAll(ws[1..], vs[1..]);
      assert Exited in ws <==> ws[0] == Exited || Exited in ws[1..];
      assert Exited in vs <==> vs[0] == Exited || Exited in vs[1..];
    }
  }

  predicate AllExited(ws: seq<Worker>) {
    forall i | 0 <= i < |ws| :: ws[i] == Exited
  }

  lemma {:induction false} SomeReady(ws: seq<Worker>)
    ensures ReadyCount(ws) > 0 <==> Ready in ws
    ensures Weights(ws) == 0 <==> AllExited(ws)
    ensures (forall i | 0 <= i < |ws| :: !ws[i].Running?) ==> forall t :: InHand(ws, t) == 0
  {
    if ws != [] {
      SomeReady(ws[1..]);
      assert forall i | 0 <= i < |ws[1..]| :: ws[1..][i] == ws[i + 1];
      assert forall i | 1 <= i < |ws| :: ws[i] == ws[1..][i - 1];
      assert Ready in ws <==> ws[0] == Ready || Ready in ws[1..];
    }
  }

  // ---------- the invariant ----------

  ghost predicate Inv(p: Pool) {
    && p.added == p.dispatched + p.tasks
    && (forall t :: multiset(p.dispatched)[t] == p.finished[t] + InHand(p.workers, t))
    && (AnyWaiting(p.workers) ==> |p.tasks| <= p.notifies + ReadyCount(p.workers))
    && (Exited in p.workers ==> p.isClosed && p.tasks == [])
    && (p.isClosed ==> p.notifies == 0)
    && (p.notifyAll ==> p.isClosed)
    && (p.isClosed && !p.notifyAll ==> !AnyWaiting(p.workers))
  }

  lemma {:induction false} StartedIsInv(n: nat)
    ensures Inv(Started(n))
  {
    NothingInHand(Started(n).workers);
  }

  lemma NothingInHand(ws: seq<Worker>)
    requires forall i | 0 <= i < |ws| :: ws[i] == Ready
    ensures forall t :: InHand(ws, t) == 0
  {
    SomeReady(ws);
  }

  lemma OneWorkerKeeps(p: Pool, w: nat, v: Worker)
    requires w < |p.workers|
    ensures AnyWaiting(p.workers[w := v]) ==> v == Waiting || AnyWaiting(p.workers)
    ensures Exited in p.workers[w := v] ==> v == Exited || Exited in p.workers
    ensures p.workers[w] == Waiting ==> AnyWaiting(p.workers)
  {
  }

  lemma WakeKeepsInv(p: Pool, w: nat, q: Pool)
    requires Inv(p) && w < |p.workers| && p.workers[w] == Waiting
    requires q == p.(workers := p.workers[w := Ready], notifies := q.notifies)
    requires p.notifies - 1 <= q.notifies <= p.notifies
    ensures Inv(q)
  {
    Replaced(p.workers, w, Ready);
    OneWorkerKeeps(p, w, Ready);
    forall t ensures InHand(q.workers, t) == InHand(p.workers, t) {
      HandReplaced(p.workers, w, Ready, t);
    }
  }

  lemma TakeKeepsInv(p: Pool, w: nat)
    requires Inv(p) && w < |p.workers| && p.workers[w] == Ready && p.tasks != []
    ensures Inv(Apply(p, Turn(w)).value)
  {
    var q := Apply(p, Turn(w)).value;
    var task := p.tasks[0];
    Replaced(p.workers, w, Running(task));
    OneWorkerKeeps(p, w, Running(task));
    forall t ensures multiset(q.dispatched)[t] == q.finished[t] + InHand(q.workers, t) {
      HandReplaced(p.workers, w, Running(task), t);
      assert multiset(p.dispatched + [task])[t] == multiset(p.dispatched)[t] + if t == task then 1 else 0;
    }
    MoveFirst(p.dispatched, p.tasks);
  }

  lemma MoveFirst(a: seq<Task>, b: seq<Task>)
    requires b != []
    ensures a + b == a + [b[0]] + b[1..]
  {
  }

  lemma IdleKeepsInv(p: Pool, w: nat)
    requires Inv(p) && w < |p.workers| && p.workers[w] == Ready && p.tasks == []
    ensures Inv(Apply(p, Turn(w)).value)
  {
    var v := if p.isClosed then Exited else Waiting;
    Replaced(p.workers, w, v);
    OneWorkerKeeps(p, w, v);
    forall t ensures InHand(p.workers[w := v], t) == InHand(p.workers, t) {
      HandReplaced(p.workers, w, v, t);
    }
  }

  lemma ReturnKeepsInv(p: Pool, w: nat)
    requires Inv(p) && w < |p.workers| && p.workers[w].Running?
    ensures Inv(Apply(p, Return(w)).value)
  {
    var q := Apply(p, Return(w)).value;
    Replaced(p.workers, w, Ready);
    OneWorkerKeeps(p, w, Ready);
    forall t ensures multiset(q.dispatched)[t] == q.finished[t] + InHand(q.workers, t) {
      HandReplaced(p.workers, w, Ready, t);
    }
  }

  lemma ApplyKeepsInv(p: Pool, step: Step)
    requires Inv(p) && Apply(p, step).Some?
    ensures Inv(Apply(p, step).value)
  {
    var q := Apply(p, step).value;
    match step
    case NotifyOne(w) => if AnyWaiting(p.workers) { WakeKeepsInv(p, w, q); }
    case Spurious(w) => WakeKeepsInv(p, w, q);
    case Turn(w) => if p.tasks != [] { TakeKeepsInv(p, w); } else { IdleKeepsInv(p, w); }
    case Return(w) => ReturnKeepsInv(p, w);
    case NotifyAll => WokenAll(p.workers, q.workers);
    case Add(task) =>
    case Shutdown =>
  }

  lemma {:induction false} RunKeepsInv(p: Pool, steps: seq<Step>)
    requires Inv(p)
    ensures Run(p, steps).Some? ==> Inv(Run(p, steps).value) && |Run(p, steps).value.workers| == |p.workers|
    decreases |steps|
  {
    if steps != [] {
      var q := Apply(p, steps[0]);
      if q.Some? {
        ApplyKeepsInv(p, steps[0]);
        RunKeepsInv(q.value, steps[1..]);
      }
    }
  }

  /**
   Over every interleaving: tasks leave in the order they came and each is in one place; a worker
   sleeps only while every queued task has a wakeup of its own under way, so with none pending a
   queued task has a worker that is awake.
   */
  lemma EveryRun(threadCount: nat, steps: seq<Step>)
    requires threadCount > 0
    ensures var end := Run(Started(threadCount), steps);
            end.Some? ==>
              var p := end.value;
              && p.added == p.dispatched + p.tasks
              && (forall t :: multiset(p.added)[t] == p.finished[t] + InHand(p.workers, t) + multiset(p.tasks)[t])
              && (AnyWaiting(p.workers) ==> |p.tasks| <= p.notifies + ReadyCount(p.workers))
              && (p.tasks != [] && p.notifies == 0 ==>
                   exists w :: w in p.workers && (w == Ready || w.Running?))
              && (p.isClosed && !p.notifyAll ==> !AnyWaiting(p.workers))
              && (Exited in p.workers ==> p.isClosed && p.tasks == [])
  {
    StartedIsInv(threadCount);
    RunKeepsInv(Started(threadCount), steps);
    var end := Run(Started(threadCount), steps);
    if end.Some? {
      var p := end.value;
      if p.tasks != [] && p.notifies == 0 {
        SomebodyAwake(p);
      }
    }
  }

  lemma SomebodyAwake(p: Pool)
    requires Inv(p) && p.tasks != [] && p.notifies == 0 && p.workers != []
    ensures exists w :: w in p.workers && (w == Ready || w.Running?)
  {
    SomeReady(p.workers);
    if AnyWaiting(p.workers) {
      assert Ready in p.workers;
    } else {
      assert p.workers[0] in p.workers;
    }
  }

  // ---------- at rest ----------

  /** Steps a worker of an open pool can still take by itself: return, look, sleep. */
  function Effort(w: Worker): nat {
    match w
    case Running(_) => 3
    case Ready => 1
    case _ => 0
  }

  function Efforts(ws: seq<Worker>): nat {
    if ws == [] then 0 else Effort(ws[0]) + Efforts(ws[1..])
  }

  function ToDo(p: Pool): nat {
    4 * |p.tasks| + 2 * p.notifies + Efforts(p.workers)
  }

  predicate Internal(step: Step) {
    step.NotifyOne? || step.Turn? || step.Return?
  }

  lemma {:induction false} EffortReplaced(ws: seq<Worker>, i: nat, w: Worker)
    requires i < |ws|
    ensures Efforts(ws[i := w]) + Effort(ws[i]) == Efforts(ws) + Effort(w)
  {
    if i == 0 {
      assert ws[0 := w][1..] == ws[1..];
    } else {
      assert ws[i := w][1..] == ws[1..][i - 1 := w];
      EffortReplaced(ws[1..], i - 1, w);
    }
  }

  /** No worker spins: whatever the schedule, the pool by itself takes a bounded number of steps. */
  lemma InternalStepsAreBounded(p: Pool, step: Step)
    requires Internal(step) && Apply(p, step).Some?
    ensures ToDo(Apply(p, step).value) < ToDo(p)
  {
    var q := Apply(p, step).value;
    match step
    case NotifyOne(w) => if AnyWaiting(p.workers) { EffortReplaced(p.workers, w, Ready); }
    case Turn(w) => EffortReplaced(p.workers, w, q.workers[w]);
    case Return(w) => EffortReplaced(p.workers, w, Ready);
  }

  lemma {:induction false} InternalRunsAreBounded(p: Pool, steps: seq<Step>)
    requires forall step | step in steps :: Internal(step)
    ensures Run(p, steps).Some? ==> |steps| + ToDo(Run(p, steps).value) <= ToDo(p)
    decreases |steps|
  {
    if steps != [] {
      assert steps[0] in steps && forall step | step in steps[1..] :: step in steps;
      if Apply(p, steps[0]).Some? {
        InternalStepsAreBounded(p, steps[0]);
        InternalRunsAreBounded(Apply(p, steps[0]).value, steps[1..]);
      }
    }
  }

  /** And when it can take no more, every worker sleeps and every task that was added has run and returned. */
  lemma AtRestAllIsDone(p: Pool)
    requires Inv(p) && !p.isClosed && p.workers != []
    requires forall step | Internal(step) :: Apply(p, step) == None
    ensures p.tasks == [] && (forall w | w in p.workers :: w == Waiting)
    ensures forall t :: multiset(p.added)[t] == p.finished[t]
  {
    forall i | 0 <= i < |p.workers| ensures p.workers[i] == Waiting {
      assert p.workers[i] in p.workers;
      assert Internal(Turn(i)) && Apply(p, Turn(i)) == None;
      assert Internal(Return(i)) && Apply(p, Return(i)) == None;
    }
    assert p.workers[0] in p.workers;
    assert Internal(NotifyOne(0)) && Apply(p, NotifyOne(0)) == None;
    SomeReady(p.workers);
    assert Ready !in p.workers;
    assert p.added == p.dispatched;
  }

  // ---------- shutdown ----------

  function Work(p: Pool): nat {
    2 * |p.tasks| + Weights(p.workers)
  }

  predicate ShuttingDown(p: Pool) {
    p.isClosed && !p.notifyAll
  }

  /** After notify_all every step that can happen is one unit of the work that is left. */
  lemma ShutdownStep(p: Pool, step: Step)
    requires Inv(p) && ShuttingDown(p)
    ensures Apply(p, step).Some? ==>
              ShuttingDown(Apply(p, step).value) && Work(Apply(p, step).value) == Work(p) - 1
              && Apply(p, step).value.added == p.added
  {
    match step
    case Turn(w) =>
      if w < |p.workers| && p.workers[w] == Ready {
        Replaced(p.workers, w, Apply(p, step).value.workers[w]);
      }
    case Return(w) =>
      if w < |p.workers| { Replaced(p.workers, w, Ready); }
    case Spurious(w) =>
      if w < |p.workers| { OneWorkerKeeps(p, w, Ready); }
    case _ =>
  }

  /** Until all have exited some worker can go on. */
  lemma ShutdownProgress(p: Pool)
    requires Inv(p) && ShuttingDown(p) && Work(p) > 0 && p.workers != []
    ensures exists w: nat :: Apply(p, Turn(w)).Some? || Apply(p, Return(w)).Some?
  {
    SomeReady(p.workers);
    var w: nat :| w < |p.workers| && p.workers[w] != Exited;
    assert p.workers[w] in p.workers;
    assert Apply(p, Turn(w)).Some? || Apply(p, Return(w)).Some?;
  }

  /**
   Whatever the schedule, shutdown takes exactly Work steps and no more: and when they are done
   every worker has exited, the queue is empty and every task ever added has run and returned.
   */
  lemma {:induction false} ShutdownDrains(p: Pool, steps: seq<Step>)
    requires Inv(p) && ShuttingDown(p)
    ensures var end := Run(p, steps);
            end.Some? ==>
              && |steps| + Work(end.value) == Work(p)
              && end.value.added == p.added
              && (|steps| == Work(p) ==>
                   && AllExited(end.value.workers)
                   && end.value.tasks == []
                   && end.value.finished == multiset(p.added))
    decreases |steps|
  {
    if steps == [] {
      SomeReady(p.workers);
    } else {
      ShutdownStep(p, steps[0]);
      var q := Apply(p, steps[0]);
      if q.Some? {
        ApplyKeepsInv(p, steps[0]);
        ShutdownDrains(q.value, steps[1..]);
      }
    }
  }

  // ---------- the pool as an object ----------

  class ThreadPool {
    var tasks: seq<Task>
    var isClosed: bool
    var workers: seq<Worker>
    var notifies: nat
    var notifyAll: bool
    ghost var added: seq<Task>
    ghost var dispatched: seq<Task>
    ghost var finished: multiset<Task>

    ghost function View(): Pool
      reads this
    {
      Pool(tasks, isClosed, workers, notifies, notifyAll, added, dispatched, finished)
    }

    constructor (threadCount: nat)
      requires threadCount > 0
      ensures View() == Started(threadCount) && Inv(View())
    {
      tasks, isClosed, notifies, notifyAll := [], false, 0, false;
      workers := seq(threadCount, _ => Ready);
      added, dispatched, finished := [], [], multiset{};
      new;
      StartedIsInv(threadCount);
    }

    /** Queues the task under the mutex and notifies one worker after giving it up. */
    method AddTask(task: Task) returns (ghost w: nat)
      requires Inv(View()) && !isClosed
      modifies this
      ensures Inv(View()) && !isClosed
      ensures var queued := Apply(old(View()), Add(task));
              queued.Some? && Apply(queued.value, NotifyOne(w)) == Some(View())
    {
      tasks := tasks + [task];
      added := added + [task];
      notifies := notifies + 1;
      ApplyKeepsInv(old(View()), Add(task));
      var woken := Notify();
      w := woken;
    }

    method Notify() returns (w: nat)
      requires Inv(View()) && notifies > 0
      modifies this`notifies, this`workers
      ensures Inv(View()) && Apply(old(View()), NotifyOne(w)) == Some(View())
    {
      notifies := notifies - 1;
      w := 0;
      if Waiting in workers {
        w :| w < |workers| && workers[w] == Waiting;
        workers := workers[w := Ready];
      }
      ApplyKeepsInv(old(View()), NotifyOne(w));
    }

    /** One turn of a worker's loop: take the first task, or leave when closed, or wait. */
    method WorkerTurn(w: nat)
      requires Inv(View()) && w < |workers| && workers[w] == Ready
      modifies this
      ensures Inv(View()) && Apply(old(View()), Turn(w)) == Some(View())
    {
      if tasks != [] {
        var task := tasks[0];
        tasks := tasks[1..];
        dispatched := dispatched + [task];
        workers := workers[w := Running(task)];
      } else if isClosed {
        workers := workers[w := Exited];
      } else {
        workers := workers[w := Waiting];
      }
      ApplyKeepsInv(old(View()), Turn(w));
    }

    method TaskReturns(w: nat)
      requires Inv(View()) && w < |workers| && workers[w].Running?
      modifies this
      ensures Inv(View()) && Apply(old(View()), Return(w)) == Some(View())
    {
      finished := finished + multiset{workers[w].task};
      workers := workers[w := Ready];
      ApplyKeepsInv(old(View()), Return(w));
    }

    /** The destructor; after it only turns and returns are left, as many as the work at hand. */
    method Destroy()
      requires Inv(View()) && !isClosed && notifies == 0
      modifies this
      ensures var closed := Apply(old(View()), Shutdown); closed.Some? && Apply(closed.value, NotifyAll) == Some(View())
      ensures Inv(View()) && ShuttingDown(View()) && Work(View()) == old(Work(View()))
      ensures tasks == old(tasks) && added == old(added) && dispatched == old(dispatched)
    {
      CloseQueue();
      NotifyAllKeepsWork(View());
      WakeAll();
    }

    /** The flag, under the mutex. */
    method CloseQueue()
      requires Inv(View()) && !isClosed && notifies == 0
      modifies this`isClosed, this`notifyAll
      ensures Inv(View()) && Apply(old(View()), Shutdown) == Some(View())
    {
      isClosed := true;
      notifyAll := true;
      ApplyKeepsInv(old(View()), Shutdown);
    }

    method WakeAll()
      requires Inv(View()) && notifyAll
      modifies this`workers, this`notifyAll
      ensures Inv(View()) && Apply(old(View()), NotifyAll) == Some(View())
    {
      workers := AllAwake(workers);
      notifyAll := false;
      ApplyKeepsInv(old(View()), NotifyAll);
    }
  }

  /** Waking everybody takes nothing from the work that is left. */
  lemma NotifyAllKeepsWork(p: Pool)
    requires p.isClosed && p.notifyAll
    ensures var q := Apply(p, NotifyAll).value; ShuttingDown(q) && Work(q) == Work(p)
  {
    WokenAll(p.workers, AllAwake(p.workers));
  }
}

/**
 The life cycle of connections as a step system: the main thread accepts, takes events and ticks,
 workers run tasks, time passes; edge-triggered, with every registration disarmed on delivery.
 */
module ServerSpec {
  import opened Clocks
  import opened Options
  import opened Tasks
  import P = ThreadPools

  const MAX_FD: int := 65536

  datatype Arm = In | Out

  /** What epoll reports of one descriptor. */
  datatype Event = Event(fd: int, hup: bool, readable: bool, writable: bool)

  datatype Server = Server(
    users: map<int, bool>,      // m_isClose of each connection object
    userCount: int,
    registered: set<int>,       // the interest list of epoll
    armed: map<int, Arm>,       // registrations that can deliver
    batch: seq<Event>,          // delivered, not handled yet
    pool: P.Pool,
    deadlines: map<int, int>,   // the timer, by descriptor
    heard: map<int, int>,       // history: when a descriptor was accepted or last had an event
    now: int)

  datatype Step =
    | Accept(fd: int, at: int)          // one round of DealListen, with the descriptor accept returned
    | Deliver(events: seq<Event>)       // epoll wait returns
    | Handle(at: int)                   // Start dispatches the next event
    | Worker(step: P.Step)              // the pool on its own: notify, wake up, take a task
    | Finish(w: nat, action: Action)    // a task re-arms or closes, and returns
    | Fire(fd: int)                     // tick runs one callback
    | Pass(nanos: nat)

  predicate Open(s: Server, fd: int) {
    fd in s.users && !s.users[fd]
  }

  function OpenFds(users: map<int, bool>): set<int> {
    set fd | fd in users && !users[fd]
  }

  /** CloseConn: out of epoll, and the connection's own Close, which counts only once. */
  function Closed(s: Server, fd: int): Server {
    var t := s.(registered := s.registered - {fd}, armed := s.armed - {fd});
    if Open(s, fd) then t.(users := s.users[fd := true], userCount := s.userCount - 1) else t
  }

  /** The end of a task: ModFd, or CloseConn. */
  function Acted(s: Server, fd: int, action: Action): Server {
    match action
    case Close => Closed(s, fd)
    case ArmIn => s.(armed := s.armed[fd := In])
    case ArmOut => s.(armed := s.armed[fd := Out])
  }

  function Prolonged(s: Server, fd: int, at: int, timeout: int): Server {
    var t := s.(now := at, heard := s.heard[fd := at]);
    if timeout > 0 then t.(deadlines := s.deadlines[fd := at + timeout * NANOS_PER_MS]) else t
  }

  function Dealt(s: Server, task: Task, at: int, timeout: int): Option<Server> {
    if timeout > 0 && task.fd !in s.deadlines then None  // adjust asserts that the node exists
    else
      match P.Apply(s.pool, P.Add(task))
      case None => None
      case Some(pool) => Some(Prolonged(s, task.fd, at, timeout).(pool := pool))
  }

  /** epoll reports an armed descriptor once, with what it is armed for, or an error or hangup. */
  predicate Deliverable(armed: map<int, Arm>, e: Event) {
    && e.fd in armed
    && (e.hup || e.readable || e.writable)
    && (e.readable ==> armed[e.fd] == In)
    && (e.writable ==> armed[e.fd] == Out)
  }

  predicate DistinctFds(events: seq<Event>) {
    forall i, j | 0 <= i < j < |events| :: events[i].fd != events[j].fd
  }

  function Fds(events: seq<Event>): set<int> {
    set e | e in events :: e.fd
  }

  function Apply(s: Server, step: Step, timeout: int): Option<Server> {
    match step
    case Accept(fd, at) =>
      if fd <= 0 || Open(s, fd) || at < s.now then None
      else if s.userCount >= MAX_FD then Some(s)  // "Server busy!"
      else
        var t := s.(users := s.users[fd := false], userCount := s.userCount + 1,
                    registered := s.registered + {fd}, armed := s.armed[fd := In]);
        Some(Prolonged(t, fd, at, timeout))
    case Deliver(events) =>
      if s.batch == [] && DistinctFds(events) && forall e | e in events :: Deliverable(s.armed, e)
      then Some(s.(batch := events, armed := s.armed - Fds(events)))
      else None
    case Handle(at) =>
      if s.batch == [] || at < s.now then None
      else
        var e := s.batch[0];
        var t := s.(batch := s.batch[1..]);
        if e.hup then Some(Closed(t, e.fd))
        else if e.readable then Dealt(t, OnRead(e.fd), at, timeout)
        else if e.writable then Dealt(t, OnWrite(e.fd), at, timeout)
        else Some(t)
    case Worker(step) =>
      if step.NotifyOne? || step.Spurious? || step.Turn? then
        match P.Apply(s.pool, step)
        case None => None
        case Some(pool) => Some(s.(pool := pool))
      else None
    case Finish(w, action) =>
      if w < |s.pool.workers| && s.pool.workers[w].Running? then
        var fd := s.pool.workers[w].task.fd;
        var t := s.(pool := P.Apply(s.pool, P.Return(w)).value);
        Some(Acted(t, fd, action))
      else None
    case Fire(fd) =>
      if s.batch == [] && fd in s.deadlines && s.deadlines[fd] - s.now < NANOS_PER_MS
      then Some(Closed(s, fd).(deadlines := s.deadlines - {fd}))
      else None
    case Pass(nanos) => Some(s.(now := s.now + nanos))
  }

  function Started(threads: nat, start: int): Server {
    Server(map[], 0, {}, map[], [], P.Started(threads), map[], map[], start)
  }

  // ---------- who owns a connection ----------

  function Queued(tasks: seq<Task>, fd: int): nat {
    if tasks == [] then 0 else (if tasks[0].fd == fd then 1 else 0) + Queued(tasks[1..], fd)
  }

  function Works(w: P.Worker, fd: int): nat {
    if w.Running? && w.task.fd == fd then 1 else 0
  }

  function Working(ws: seq<P.Worker>, fd: int): nat {
    if ws == [] then 0 else Works(ws[0], fd) + Working(ws[1..], fd)
  }

  function Reported(batch: seq<Event>, fd: int): nat {
    if batch == [] then 0 else (if batch[0].fd == fd then 1 else 0) + Reported(batch[1..], fd)
  }

  /** Tasks of a connection, queued or running. */
  function TaskCount(pool: P.Pool, fd: int): nat {
    Queued(pool.tasks, fd) + Working(pool.workers, fd)
  }

  function Owners(s: Server, fd: int): nat {
    (if fd in s.armed then 1 else 0) + Reported(s.batch, fd) + TaskCount(s.pool, fd)
  }

  lemma {:induction false} QueuedAppended(tasks: seq<Task>, t: Task, fd: int)
    ensures Queued(tasks + [t], fd) == Queued(tasks, fd) + (if t.fd == fd then 1 else 0)
  {
    if tasks == [] {
      assert [] + [t] == [t];
    } else {
      assert (tasks + [t])[1..] == tasks[1..] + [t];
      QueuedAppended(tasks[1..], t, fd);
    }
  }

  lemma {:induction false} WorkingReplaced(ws: seq<P.Worker>, i: nat, w: P.Worker, fd: int)
    requires i < |ws|
    ensures Working(ws[i := w], fd) + Works(ws[i], fd) == Working(ws, fd) + Works(w, fd)
  {
    if i == 0 {
      assert ws[0 := w][1..] == ws[1..];
    } else {
      assert ws[i := w][1..] == ws[1..][i - 1 := w];
      WorkingReplaced(ws[1..], i - 1, w, fd);
    }
  }

  lemma {:induction false} NobodyWorks(ws: seq<P.Worker>, fd: int)
    requires forall i | 0 <= i < |ws| :: !ws[i].Running?
    ensures Working(ws, fd) == 0
  {
    if ws != [] {
      NobodyWorks(ws[1..], fd);
    }
  }

  /** Two workers on one connection, or a worker and a queued task, would count twice. */
  lemma {:induction false} WorkingCounts(ws: seq<P.Worker>, i: nat, j: nat, fd: int)
    requires i < j < |ws|
    ensures Working(ws, fd) >= Works(ws[i], fd) + Works(ws[j], fd)
  {
    if i > 0 {
      WorkingCounts(ws[1..], i - 1, j - 1, fd);
    } else {
      WorkingAtLeast(ws[1..], j - 1, fd);
    }
  }

  lemma {:induction false} WorkingAtLeast(ws: seq<P.Worker>, j: nat, fd: int)
    requires j < |ws|
    ensures Working(ws, fd) >= Works(ws[j], fd)
  {
    if j > 0 {
      WorkingAtLeast(ws[1..], j - 1, fd);
    }
  }

  lemma {:induction false} ReportedIs(batch: seq<Event>, fd: int)
    requires DistinctFds(batch)
    ensures Reported(batch, fd) == if fd in Fds(batch) then 1 else 0
  {
    if batch != [] {
      ReportedIs(batch[1..], fd);
      assert batch == [batch[0]] + batch[1..];
      if fd in Fds(batch) && batch[0].fd != fd {
        var e :| e in batch && e.fd == fd;
        assert e in batch[1..];
      }
      if fd in Fds(batch[1..]) {
        var e :| e in batch[1..] && e.fd == fd;
        assert e in batch;
      }
    }
  }

  /** What the pool does on its own moves no task from one connection to another. */
  lemma PoolKeepsTasks(p: P.Pool, step: P.Step, fd: int)
    requires step.NotifyOne? || step.Spurious? || step.Turn?
    ensures P.Apply(p, step).Some? ==> TaskCount(P.Apply(p, step).value, fd) == TaskCount(p, fd)
  {
    match step
    case NotifyOne(w) => if w < |p.workers| { WorkingReplaced(p.workers, w, P.Ready, fd); }
    case Spurious(w) => if w < |p.workers| { WorkingReplaced(p.workers, w, P.Ready, fd); }
    case Turn(w) =>
      if P.Apply(p, step).Some? {
        WorkingReplaced(p.workers, w, P.Apply(p, step).value.workers[w], fd);
      }
  }

  lemma AddCountsTask(p: P.Pool, task: Task, fd: int)
    ensures P.Apply(p, P.Add(task)).Some? ==>
              TaskCount(P.Apply(p, P.Add(task)).value, fd) == TaskCount(p, fd) + (if task.fd == fd then 1 else 0)
  {
    QueuedAppended(p.tasks, task, fd);
  }

  lemma ReturnCountsTask(p: P.Pool, w: nat, fd: int)
    requires w < |p.workers| && p.workers[w].Running?
    ensures TaskCount(P.Apply(p, P.Return(w)).value, fd) + (if p.workers[w].task.fd == fd then 1 else 0)
         == TaskCount(p, fd)
  {
    WorkingReplaced(p.workers, w, P.Ready, fd);
  }

  // ---------- the invariant ----------

  /** Each open connection has exactly one owner, and a closed one none. */
  ghost predicate Owned(s: Server) {
    forall fd :: Owners(s, fd) == if Open(s, fd) then 1 else 0
  }

  ghost predicate Counted(s: Server) {
    s.userCount == |OpenFds(s.users)| && s.userCount <= MAX_FD
  }

  ghost predicate Listed(s: Server) {
    forall fd :: fd in s.registered <==> Open(s, fd)
  }

  /** Every open connection has a timer node one timeout after its last event; no node is further ahead than that. */
  ghost predicate Timed(s: Server, timeout: int) {
    && (forall fd | Open(s, fd) :: fd in s.heard && s.heard[fd] <= s.now)
    && (timeout > 0 ==> forall fd | Open(s, fd) ::
          fd in s.deadlines && s.deadlines[fd] == s.heard[fd] + timeout * NANOS_PER_MS)
    && (forall fd | fd in s.deadlines :: s.deadlines[fd] <= s.now + timeout * NANOS_PER_MS)
    && (timeout <= 0 ==> s.deadlines == map[])
  }

  ghost predicate Inv(s: Server, timeout: int) {
    && P.Inv(s.pool) && !s.pool.isClosed
    && Owned(s) && Counted(s) && Listed(s) && Timed(s, timeout)
    && (forall e | e in s.batch :: e.hup || e.readable || e.writable)
  }

  lemma StartedIsInv(threads: nat, start: int, timeout: int)
    ensures Inv(Started(threads, start), timeout)
  {
    P.StartedIsInv(threads);
    var s := Started(threads, start);
    forall fd ensures Owners(s, fd) == 0 {
      NobodyWorks(s.pool.workers, fd);
    }
    assert OpenFds(s.users) == {};
  }

  lemma CountClosed(users: map<int, bool>, fd: int)
    requires fd in users && !users[fd]
    ensures |OpenFds(users[fd := true])| == |OpenFds(users)| - 1
  {
    assert OpenFds(users) == OpenFds(users[fd := true]) + {fd};
  }

  lemma CountOpened(users: map<int, bool>, fd: int)
    requires !(fd in users && !users[fd])
    ensures |OpenFds(users[fd := false])| == |OpenFds(users)| + 1
  {
    assert OpenFds(users[fd := false]) == OpenFds(users) + {fd};
  }

  /** Closing takes the one owner of an open connection with it, when that owner is the one that closes. */
  lemma ClosedKeeps(s: Server, fd: int, timeout: int)
    requires P.Inv(s.pool) && !s.pool.isClosed && Counted(s) && Listed(s) && Timed(s, timeout)
    requires forall e | e in s.batch :: e.hup || e.readable || e.writable
    requires Reported(s.batch, fd) == 0 && TaskCount(s.pool, fd) == 0
    requires forall f | f != fd :: Owners(s, f) == if Open(s, f) then 1 else 0
    ensures Inv(Closed(s, fd), timeout)
  {
    if Open(s, fd) { CountClosed(s.users, fd); }
    var t := Closed(s, fd);
    forall f ensures Owners(t, f) == if Open(t, f) then 1 else 0 {
      assert f != fd ==> Owners(t, f) == Owners(s, f);
    }
  }

  lemma AcceptKeepsInv(s: Server, fd: int, at: int, timeout: int)
    requires Inv(s, timeout) && Apply(s, Accept(fd, at), timeout).Some?
    ensures Inv(Apply(s, Accept(fd, at), timeout).value, timeout)
  {
    if s.userCount < MAX_FD {
      CountOpened(s.users, fd);
      AcceptKeepsOwned(s, fd, at, timeout);
      AcceptKeepsTimed(s, fd, at, timeout);
    }
  }

  lemma AcceptKeepsOwned(s: Server, fd: int, at: int, timeout: int)
    requires Owned(s) && Apply(s, Accept(fd, at), timeout).Some? && s.userCount < MAX_FD
    ensures Owned(Apply(s, Accept(fd, at), timeout).value)
  {
    var t := Apply(s, Accept(fd, at), timeout).value;
    forall f ensures Owners(t, f) == if Open(t, f) then 1 else 0 {
      assert Owners(s, f) == if Open(s, f) then 1 else 0;
    }
  }

  lemma AcceptKeepsTimed(s: Server, fd: int, at: int, timeout: int)
    requires Timed(s, timeout) && Apply(s, Accept(fd, at), timeout).Some? && s.userCount < MAX_FD
    ensures Timed(Apply(s, Accept(fd, at), timeout).value, timeout)
  {
  }

  lemma DeliverKeepsInv(s: Server, events: seq<Event>, timeout: int)
    requires Inv(s, timeout) && Apply(s, Deliver(events), timeout).Some?
    ensures Inv(Apply(s, Deliver(events), timeout).value, timeout)
  {
    var t := Apply(s, Deliver(events), timeout).value;
    forall fd ensures Owners(t, fd) == if Open(t, fd) then 1 else 0 {
      ReportedIs(events, fd);
      assert Owners(s, fd) == if Open(s, fd) then 1 else 0;
    }
  }

  lemma DealtKeepsInv(s: Server, task: Task, at: int, timeout: int)
    requires P.Inv(s.pool) && !s.pool.isClosed && Counted(s) && Listed(s) && Timed(s, timeout) && s.now <= at
    requires forall e | e in s.batch :: e.hup || e.readable || e.writable
    requires Open(s, task.fd)
    requires forall fd :: Owners(s, fd) == if Open(s, fd) && fd != task.fd then 1 else 0
    ensures Dealt(s, task, at, timeout).Some? && Inv(Dealt(s, task, at, timeout).value, timeout)
  {
    P.ApplyKeepsInv(s.pool, P.Add(task));
    var t := Dealt(s, task, at, timeout).value;
    forall fd ensures Owners(t, fd) == if Open(t, fd) then 1 else 0 {
      AddCountsTask(s.pool, task, fd);
      assert Owners(s, fd) == if Open(s, fd) && fd != task.fd then 1 else 0;
    }
  }

  /** The event at hand is the owner of its connection; handling it closes or hands over. */
  lemma HandleKeepsInv(s: Server, at: int, timeout: int)
    requires Inv(s, timeout) && s.batch != [] && s.now <= at
    ensures Apply(s, Handle(at), timeout).Some?
    ensures Inv(Apply(s, Handle(at), timeout).value, timeout)
  {
    var e := s.batch[0];
    var t := s.(batch := s.batch[1..]);
    assert e in s.batch;
    forall fd ensures Owners(t, fd) == if Open(t, fd) && fd != e.fd then 1 else 0 {
      assert Owners(s, fd) == if Open(s, fd) then 1 else 0;
    }
    assert Owners(s, e.fd) == if Open(s, e.fd) then 1 else 0;
    if e.hup {
      assert Owners(t, e.fd) == 0;
      ClosedKeeps(t, e.fd, timeout);
    } else if e.readable {
      DealtKeepsInv(t, OnRead(e.fd), at, timeout);
    } else {
      DealtKeepsInv(t, OnWrite(e.fd), at, timeout);
    }
  }

  /** A task that ends gives its ownership back to epoll, or to nobody with the connection closed. */
  lemma ActedKeeps(s: Server, fd: int, action: Action, timeout: int)
    requires P.Inv(s.pool) && !s.pool.isClosed && Counted(s) && Listed(s) && Timed(s, timeout)
    requires forall e | e in s.batch :: e.hup || e.readable || e.writable
    requires Open(s, fd) && Owners(s, fd) == 0
    requires forall f | f != fd :: Owners(s, f) == if Open(s, f) then 1 else 0
    ensures Inv(Acted(s, fd, action), timeout)
  {
    if action == Close {
      ClosedKeeps(s, fd, timeout);
    } else {
      var r := Acted(s, fd, action);
      forall f ensures Owners(r, f) == if Open(r, f) then 1 else 0 {
        assert f != fd ==> Owners(s, f) == if Open(s, f) then 1 else 0;
      }
    }
  }

  lemma FinishKeepsInv(s: Server, w: nat, action: Action, timeout: int)
    requires Inv(s, timeout) && Apply(s, Finish(w, action), timeout).Some?
    ensures Inv(Apply(s, Finish(w, action), timeout).value, timeout)
  {
    var fd := s.pool.workers[w].task.fd;
    var t := s.(pool := P.Apply(s.pool, P.Return(w)).value);
    P.ApplyKeepsInv(s.pool, P.Return(w));
    ReturnCountsTask(s.pool, w, fd);
    assert Owners(s, fd) == if Open(s, fd) then 1 else 0;
    forall f | f != fd ensures Owners(t, f) == if Open(t, f) then 1 else 0 {
      ReturnCountsTask(s.pool, w, f);
      assert Owners(s, f) == if Open(s, f) then 1 else 0;
    }
    ActedKeeps(t, fd, action, timeout);
  }

  lemma WorkerKeepsInv(s: Server, step: P.Step, timeout: int)
    requires Inv(s, timeout) && Apply(s, Worker(step), timeout).Some?
    ensures Inv(Apply(s, Worker(step), timeout).value, timeout)
  {
    var t := Apply(s, Worker(step), timeout).value;
    P.ApplyKeepsInv(s.pool, step);
    forall fd ensures Owners(t, fd) == if Open(t, fd) then 1 else 0 {
      PoolKeepsTasks(s.pool, step, fd);
      assert Owners(s, fd) == if Open(s, fd) then 1 else 0;
    }
  }

  /**
   A timer that fires keeps the ownership exactly when its connection has no task: a task would be
   left working on a closed connection, whose descriptor the next accept may return.
   */
  lemma FireKeepsInvIff(s: Server, fd: int, timeout: int)
    requires Inv(s, timeout) && Apply(s, Fire(fd), timeout).Some?
    ensures Inv(Apply(s, Fire(fd), timeout).value, timeout) <==> TaskCount(s.pool, fd) == 0
  {
    var t := Apply(s, Fire(fd), timeout).value;
    if TaskCount(s.pool, fd) == 0 {
      var c := Closed(s, fd);
      ClosedKeeps(s, fd, timeout);
      forall f ensures Owners(t, f) == if Open(t, f) then 1 else 0 {
        assert Owners(c, f) == if Open(c, f) then 1 else 0;
      }
      assert !Open(c, fd);
    } else {
      assert Owners(t, fd) > 0 && !Open(t, fd);
    }
  }

  /** A node that outlived its connection fires without any effect on the connections or their count. */
  lemma StaleFireIsHarmless(s: Server, fd: int, timeout: int)
    requires Inv(s, timeout) && !Open(s, fd) && Apply(s, Fire(fd), timeout).Some?
    ensures Apply(s, Fire(fd), timeout).value == s.(deadlines := s.deadlines - {fd})
  {
    assert Owners(s, fd) == 0;
    assert s.registered - {fd} == s.registered;
    assert s.armed - {fd} == s.armed;
  }

  lemma ApplyKeepsInv(s: Server, step: Step, timeout: int)
    requires Inv(s, timeout) && Apply(s, step, timeout).Some?
    requires step.Fire? ==> TaskCount(s.pool, step.fd) == 0
    ensures Inv(Apply(s, step, timeout).value, timeout)
  {
    match step
    case Accept(fd, at) => AcceptKeepsInv(s, fd, at, timeout);
    case Deliver(events) => DeliverKeepsInv(s, events, timeout);
    case Handle(at) => HandleKeepsInv(s, at, timeout);
    case Worker(p) => WorkerKeepsInv(s, p, timeout);
    case Finish(w, action) => FinishKeepsInv(s, w, action, timeout);
    case Fire(fd) => FireKeepsInvIff(s, fd, timeout);
    case Pass(nanos) => PassKeepsInv(s, nanos, timeout);
  }

  lemma PassKeepsInv(s: Server, nanos: nat, timeout: int)
    requires Inv(s, timeout)
    ensures Inv(s.(now := s.now + nanos), timeout)
  {
    var t := s.(now := s.now + nanos);
    forall fd ensures Owners(t, fd) == if Open(t, fd) then 1 else 0 {
      assert Owners(s, fd) == if Open(s, fd) then 1 else 0;
    }
  }

  // ---------- runs ----------

  function Run(s: Server, steps: seq<Step>, timeout: int): Option<Server>
    decreases |steps|
  {
    if steps == [] then Some(s)
    else
      match Apply(s, steps[0], timeout)
      case None => None
      case Some(t) => Run(t, steps[1..], timeout)
  }

  /** The assumption about the schedule: tasks are done before their connection's timeout fires. */
  predicate Prompt(s: Server, steps: seq<Step>, timeout: int)
    decreases |steps|
  {
    steps == [] ||
    (&& (steps[0].Fire? ==> TaskCount(s.pool, steps[0].fd) == 0)
     && match Apply(s, steps[0], timeout)
        case None => true
        case Some(t) => Prompt(t, steps[1..], timeout))
  }

  lemma {:induction false} RunKeepsInv(s: Server, steps: seq<Step>, timeout: int)
    requires Inv(s, timeout) && Prompt(s, steps, timeout)
    ensures Run(s, steps, timeout).Some? ==> Inv(Run(s, steps, timeout).value, timeout)
    decreases |steps|
  {
    if steps != [] {
      var t := Apply(s, steps[0], timeout);
      if t.Some? {
        ApplyKeepsInv(s, steps[0], timeout);
        RunKeepsInv(t.value, steps[1..], timeout);
      }
    }
  }

  // ---------- the last event of a connection ----------

  /** What the steps say: which events are delivered and not handled, and when a descriptor last was heard of. */
  datatype Trace = Trace(batch: seq<Event>, last: Option<int>)

  function Noted(r: Trace, step: Step, fd: int): Trace {
    match step
    case Accept(f, at) => if f == fd then r.(last := Some(at)) else r
    case Deliver(events) => r.(batch := events)
    case Handle(at) =>
      if r.batch == [] then r
      else Trace(r.batch[1..], if r.batch[0].fd == fd && !r.batch[0].hup then Some(at) else r.last)
    case _ => r
  }

  function Traced(r: Trace, steps: seq<Step>, fd: int): Trace
    decreases |steps|
  {
    if steps == [] then r else Traced(Noted(r, steps[0], fd), steps[1..], fd)
  }

  /** When a descriptor was last accepted or had an event handled that was no hangup, from the steps alone. */
  function LastEvent(steps: seq<Step>, fd: int): Option<int> {
    Traced(Trace([], None), steps, fd).last
  }

  ghost predicate Follows(s: Server, r: Trace, fd: int) {
    r.batch == s.batch && (Open(s, fd) ==> fd in s.heard && r.last == Some(s.heard[fd]))
  }

  lemma StepFollows(s: Server, step: Step, r: Trace, fd: int, timeout: int)
    requires Inv(s, timeout) && Apply(s, step, timeout).Some? && Follows(s, r, fd)
    ensures Follows(Apply(s, step, timeout).value, Noted(r, step, fd), fd)
  {
    hide Owned, Counted, Listed, Timed, P.Inv;
    match step
    case Handle(at) => HandleFollows(s, at, r, fd, timeout);
    case _ =>
  }

  lemma HandleFollows(s: Server, at: int, r: Trace, fd: int, timeout: int)
    requires Inv(s, timeout) && Apply(s, Handle(at), timeout).Some? && Follows(s, r, fd)
    ensures Follows(Apply(s, Handle(at), timeout).value, Noted(r, Handle(at), fd), fd)
  {
    hide Owned, Counted, Listed, Timed, P.Inv, P.Apply;
    assert s.batch[0] in s.batch;
  }

  lemma {:induction false} RunFollows(s: Server, steps: seq<Step>, r: Trace, fd: int, timeout: int)
    requires Inv(s, timeout) && Prompt(s, steps, timeout) && Follows(s, r, fd)
    ensures Run(s, steps, timeout).Some? ==> Follows(Run(s, steps, timeout).value, Traced(r, steps, fd), fd)
    decreases |steps|
  {
    hide Inv, Apply, Noted, Follows;
    if steps != [] {
      var t := Apply(s, steps[0], timeout);
      if t.Some? {
        StepFollows(s, steps[0], r, fd, timeout);
        ApplyKeepsInv(s, steps[0], timeout);
        RunFollows(t.value, steps[1..], Noted(r, steps[0], fd), fd, timeout);
      }
    }
  }

  /**
   Over every run: between batches the timer can close an open connection exactly when more than the timeout,
   less one millisecond, has passed since its last event.
   */
  lemma OpenFiresIff(threads: nat, start: int, steps: seq<Step>, s: Server, timeout: int, fd: int)
    requires Prompt(Started(threads, start), steps, timeout) && timeout > 0
    requires Run(Started(threads, start), steps, timeout) == Some(s) && s.batch == [] && Open(s, fd)
    ensures LastEvent(steps, fd).Some?
    ensures Apply(s, Fire(fd), timeout).Some?
       <==> s.now - LastEvent(steps, fd).value > (timeout - 1) * 1_000_000
  {
    StartedIsInv(threads, start, timeout);
    RunKeepsInv(Started(threads, start), steps, timeout);
    RunFollows(Started(threads, start), steps, Trace([], None), fd, timeout);
  }

  /**
   An accepted client is open, waits to be read, and has the whole timeout before it, as long as fewer than
   65536 are connected; otherwise nothing happens.
   */
  lemma AcceptOpensIff(s: Server, fd: int, at: int, timeout: int)
    requires Inv(s, timeout) && Apply(s, Accept(fd, at), timeout).Some?
    ensures var t := Apply(s, Accept(fd, at), timeout).value;
            && (Open(t, fd) <==> s.userCount < 65536) && (!Open(t, fd) ==> t == s)
            && (Open(t, fd) ==> fd in t.armed && t.armed[fd] == In && fd in t.registered && t.pool == s.pool)
            && (Open(t, fd) && timeout > 0 ==> fd in t.deadlines && t.deadlines[fd] == at + timeout * 1_000_000)
  {
  }

  /**
   What handling an event does: a hangup closes its connection and queues nothing; anything else queues the
   one task for it behind all others, and gives its connection the whole timeout from now on.
   */
  lemma HandleDoes(s: Server, at: int, timeout: int)
    requires Inv(s, timeout) && s.batch != [] && s.now <= at
    ensures Apply(s, Handle(at), timeout).Some?
    ensures var e, t := s.batch[0], Apply(s, Handle(at), timeout).value;
            && Open(s, e.fd) && (Open(t, e.fd) <==> !e.hup) && (forall fd | fd != e.fd :: Open(t, fd) <==> Open(s, fd))
            && (e.hup ==> t.pool == s.pool && e.fd !in t.registered)
            && (!e.hup ==> t.pool.tasks == s.pool.tasks + [if e.readable then OnRead(e.fd) else OnWrite(e.fd)])
            && (!e.hup && timeout > 0 ==> e.fd in t.deadlines && t.deadlines[e.fd] == at + timeout * 1_000_000)
            && (forall fd | fd != e.fd || e.hup ::
                 fd in t.deadlines <==> fd in s.deadlines && (fd in s.deadlines ==> t.deadlines[fd] == s.deadlines[fd]))
  {
    HandleKeepsInv(s, at, timeout);
    var e := s.batch[0];
    assert e in s.batch;
    assert Owners(s, e.fd) == if Open(s, e.fd) then 1 else 0;
  }

  /**
   In every reachable state an open connection has exactly one owner, its registration, an event at
   hand or a task, and a closed one none: between batches it is either armed or has one task, never
   both and never two; no two workers are on one connection; the user count is the number
   of open connections, within bounds; and each open connection has its timer node, one timeout
   after its last event, so that adjust finds the node and moves it later.
   */
  lemma EveryRun(threads: nat, start: int, steps: seq<Step>, timeout: int)
    requires Prompt(Started(threads, start), steps, timeout)
    ensures var end := Run(Started(threads, start), steps, timeout);
            end.Some? ==>
              var s := end.value;
              && (forall fd :: Owners(s, fd) == if Open(s, fd) then 1 else 0)
              && (s.batch == [] ==> forall fd | Open(s, fd) ::
                   (fd in s.armed && TaskCount(s.pool, fd) == 0) || (fd !in s.armed && TaskCount(s.pool, fd) == 1))
              && (forall fd | !Open(s, fd) :: fd !in s.armed && TaskCount(s.pool, fd) == 0)
              && (var ws := s.pool.workers;
                  forall i, j | 0 <= i < j < |ws| && ws[i].Running? && ws[j].Running? :: ws[i].task.fd != ws[j].task.fd)
              && s.userCount == |OpenFds(s.users)| && 0 <= s.userCount <= MAX_FD
              && (forall fd | Open(s, fd) ::
                   fd in s.heard && LastEvent(steps, fd) == Some(s.heard[fd]) && s.heard[fd] <= s.now)
              && (timeout > 0 ==> forall fd | Open(s, fd) ::
                   fd in s.deadlines && s.deadlines[fd] == LastEvent(steps, fd).value + timeout * NANOS_PER_MS)
              && (forall fd | fd in s.deadlines :: s.deadlines[fd] <= s.now + timeout * NANOS_PER_MS)
  {
    StartedIsInv(threads, start, timeout);
    RunKeepsInv(Started(threads, start), steps, timeout);
    var end := Run(Started(threads, start), steps, timeout);
    if end.Some? {
      OneOwner(end.value, timeout);
      forall fd | Open(end.value, fd) ensures LastEvent(steps, fd) == Some(end.value.heard[fd]) {
        RunFollows(Started(threads, start), steps, Trace([], None), fd, timeout);
      }
    }
  }

  lemma OneOwner(s: Server, timeout: int)
    requires Inv(s, timeout)
    ensures forall fd :: Owners(s, fd) == if Open(s, fd) then 1 else 0
    ensures s.batch == [] ==> forall fd | Open(s, fd) ::
              (fd in s.armed && TaskCount(s.pool, fd) == 0) || (fd !in s.armed && TaskCount(s.pool, fd) == 1)
    ensures forall fd | !Open(s, fd) :: fd !in s.armed && TaskCount(s.pool, fd) == 0
    ensures forall i, j | 0 <= i < j < |s.pool.workers| && s.pool.workers[i].Running? && s.pool.workers[j].Running? ::
              s.pool.workers[i].task.fd != s.pool.workers[j].task.fd
  {
    forall fd ensures Owners(s, fd) <= 1 && (!Open(s, fd) ==> Owners(s, fd) == 0) {
    }
    forall fd | s.batch == [] && Open(s, fd)
      ensures (fd in s.armed && TaskCount(s.pool, fd) == 0) || (fd !in s.armed && TaskCount(s.pool, fd) == 1)
    {
      assert Owners(s, fd) == 1;
    }
    forall fd | !Open(s, fd) ensures fd !in s.armed && TaskCount(s.pool, fd) == 0 {
      assert Owners(s, fd) == 0;
    }
    var ws := s.pool.workers;
    forall i, j | 0 <= i < j < |ws| && ws[i].Running? && ws[j].Running? ensures ws[i].task.fd != ws[j].task.fd {
      WorkingCounts(ws, i, j, ws[i].task.fd);
      assert Owners(s, ws[i].task.fd) <= 1;
    }
  }

  /** When a tick has left nothing due, every open connection had an event less than one timeout ago. */
  lemma IdleConnectionsAreClosed(s: Server, timeout: int)
    requires Inv(s, timeout) && timeout > 0
    requires forall fd | fd in s.deadlines :: s.deadlines[fd] - s.now >= NANOS_PER_MS
    ensures forall fd | Open(s, fd) :: s.now - s.heard[fd] <= (timeout - 1) * NANOS_PER_MS
  {
  }

  lemma {:induction false} PromptAppends(s: Server, first: seq<Step>, more: seq<Step>, timeout: int)
    ensures Prompt(s, first + more, timeout) <==>
              Prompt(s, first, timeout)
              && (Run(s, first, timeout).Some? ==> Prompt(Run(s, first, timeout).value, more, timeout))
    decreases |first|
  {
    if first == [] {
      assert first + more == more;
    } else {
      assert (first + more)[1..] == first[1..] + more;
      match Apply(s, first[0], timeout)
      case None =>
      case Some(t) => PromptAppends(t, first[1..], more, timeout);
    }
  }

  lemma {:induction false} NothingFires(s: Server, steps: seq<Step>, timeout: int)
    requires forall step | step in steps :: !step.Fire?
    ensures Prompt(s, steps, timeout)
    decreases |steps|
  {
    if steps != [] {
      assert steps[0] in steps && forall step | step in steps[1..] :: step in steps;
      match Apply(s, steps[0], timeout)
      case None =>
      case Some(t) => NothingFires(t, steps[1..], timeout);
    }
  }

  /** A run goes on with one more step. */
  lemma RunThen(s: Server, steps: seq<Step>, t: Server, step: Step, u: Server, timeout: int)
    requires Run(s, steps, timeout) == Some(t) && Apply(t, step, timeout) == Some(u)
    ensures Run(s, steps + [step], timeout) == Some(u)
    ensures Prompt(s, steps, timeout) && (step.Fire? ==> TaskCount(t.pool, step.fd) == 0)
       <==> Prompt(s, steps + [step], timeout)
  {
    RunAppends(s, steps, [step], timeout);
    PromptAppends(s, steps, [step], timeout);
    assert [step][1..] == [];
  }

  /** Runs compose. */
  lemma {:induction false} RunAppends(s: Server, first: seq<Step>, more: seq<Step>, timeout: int)
    ensures Run(s, first + more, timeout)
         == if Run(s, first, timeout) == None then None else Run(Run(s, first, timeout).value, more, timeout)
    decreases |first|
  {
    if first == [] {
      assert first + more == more;
    } else {
      assert (first + more)[1..] == first[1..] + more;
      match Apply(s, first[0], timeout)
      case None =>
      case Some(t) => RunAppends(t, first[1..], more, timeout);
    }
  }

  /** Such a run exists: accept, read event, then the timeout before the task is done. */
  lemma FireDuringTaskBreaks(fd: int)
    requires fd > 0
    ensures exists steps ::
      var end := Run(Started(1, 0), steps, 1);
      end.Some? && !Open(end.value, fd) && TaskCount(end.value.pool, fd) == 1
  {
    var first, busy := ReadIsQueued(fd);
    var more, broken := FireWhileBusy(busy, fd);
    RunAppends(Started(1, 0), first, more, 1);
  }

  /** A new connection with a read event waiting to be worked on. */
  lemma ReadIsQueued(fd: int) returns (steps: seq<Step>, s: Server)
    requires fd > 0
    ensures Run(Started(1, 0), steps, 1) == Some(s)
    ensures s.batch == [] && s.now == 0 && fd in s.deadlines && s.deadlines[fd] == NANOS_PER_MS
    ensures Open(s, fd) && TaskCount(s.pool, fd) == 1
  {
    var event := Event(fd, false, true, false);
    var s0 := Started(1, 0);
    var s1 := AcceptedFirst(fd);
    var s2 := s1.(batch := [event], armed := map[]);
    s := Dealt(s2.(batch := []), OnRead(fd), 0, 1).value;
    AddCountsTask(s0.pool, OnRead(fd), fd);
    NobodyWorks(s0.pool.workers, fd);
    assert Fds([event]) == {fd} && s1.armed - {fd} == map[];
    assert Apply(s1, Deliver([event]), 1) == Some(s2);
    assert [event][1..] == [];
    assert Apply(s2, Handle(0), 1) == Some(s);
    assert {} + {fd} == {fd};
    assert Apply(s0, Accept(fd, 0), 1) == Some(s1);
    steps := [Accept(fd, 0), Deliver([event]), Handle(0)];
    assert steps[1..] == [Deliver([event]), Handle(0)] && steps[1..][1..] == [Handle(0)] && [Handle(0)][1..] == [];
    assert Run(s2, [Handle(0)], 1) == Some(s);
    assert Run(s1, [Deliver([event]), Handle(0)], 1) == Some(s);
  }

  function AcceptedFirst(fd: int): Server {
    Started(1, 0).(users := map[fd := false], userCount := 1, registered := {fd}, armed := map[fd := In],
                   deadlines := map[fd := NANOS_PER_MS], heard := map[fd := 0])
  }

  lemma FireWhileBusy(s: Server, fd: int) returns (steps: seq<Step>, t: Server)
    requires s.batch == [] && s.now == 0 && fd in s.deadlines && s.deadlines[fd] == NANOS_PER_MS
    requires Open(s, fd) && TaskCount(s.pool, fd) == 1
    ensures Run(s, steps, 1) == Some(t) && !Open(t, fd) && TaskCount(t.pool, fd) == 1
  {
    var later := s.(now := NANOS_PER_MS);
    t := Closed(later, fd).(deadlines := s.deadlines - {fd});
    steps := [Pass(NANOS_PER_MS), Fire(fd)];
    assert Apply(later, Fire(fd), 1) == Some(t);
    assert steps[1..] == [Fire(fd)] && [Fire(fd)][1..] == [];
    assert Run(later, [Fire(fd)], 1) == Some(t);
  }
}

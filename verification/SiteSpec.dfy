/**
 Which direction a connection is owned for. A connection waiting to read, or with a read event or
 a read task, is on the reading side; only accept and a task that ends with ArmIn put it there.
 */
module Sides {
  import opened Options
  import opened Tasks
  import opened ServerSpec
  import P = ThreadPools

  function TaskOf(d: Arm, fd: int): Task {
    if d == In then OnRead(fd) else OnWrite(fd)
  }

  function ArmOf(a: Action): Option<Arm> {
    match a
    case ArmIn => Some(In)
    case ArmOut => Some(Out)
    case Close => None
  }

  predicate Reports(e: Event, d: Arm, fd: int) {
    e.fd == fd && if d == In then e.readable else !e.readable && e.writable
  }

  ghost predicate OnSide(s: Server, fd: int, d: Arm) {
    || (fd in s.armed && s.armed[fd] == d)
    || (exists e :: e in s.batch && Reports(e, d, fd))
    || TaskOf(d, fd) in s.pool.tasks
    || P.Running(TaskOf(d, fd)) in s.pool.workers
  }

  /** No step changes the side of a connection but its own task's end, and its accept. */
  lemma OthersKeepSides(s: Server, step: Step, timeout: int, fd: int, d: Arm)
    requires Apply(s, step, timeout).Some?
    requires step.Finish? ==> s.pool.workers[step.w].task.fd != fd
    requires step.Accept? ==> step.fd != fd
    ensures OnSide(Apply(s, step, timeout).value, fd, d) ==> OnSide(s, fd, d)
  {
    match step
    case Handle(at) => HandleKeepsSides(s, at, timeout, fd, d);
    case Worker(p) => PoolKeepsSides(s, p, fd, d);
    case Finish(w, action) => FinishKeepsOtherSides(s, w, action, timeout, fd, d);
    case Deliver(events) => DeliverKeepsSides(s, events, timeout, fd, d);
    case _ =>
  }

  lemma FinishKeepsOtherSides(s: Server, w: nat, action: Action, timeout: int, fd: int, d: Arm)
    requires Apply(s, Finish(w, action), timeout).Some? && s.pool.workers[w].task.fd != fd
    ensures OnSide(Apply(s, Finish(w, action), timeout).value, fd, d) ==> OnSide(s, fd, d)
  {
  }

  lemma DeliverKeepsSides(s: Server, events: seq<Event>, timeout: int, fd: int, d: Arm)
    requires Apply(s, Deliver(events), timeout).Some?
    ensures OnSide(Apply(s, Deliver(events), timeout).value, fd, d) ==> OnSide(s, fd, d)
  {
    if e :| e in events && Reports(e, d, fd) {
      assert Deliverable(s.armed, e);
    }
  }

  lemma HandledIs(s: Server, at: int, timeout: int)
    requires Apply(s, Handle(at), timeout).Some?
    ensures s.batch != []
    ensures var e, t := s.batch[0], Apply(s, Handle(at), timeout).value;
            && t.batch == s.batch[1..] && t.pool.workers == s.pool.workers
            && (forall f | f in t.armed :: f in s.armed && t.armed[f] == s.armed[f])
            && t.pool.tasks == if e.hup then s.pool.tasks
                               else if e.readable then s.pool.tasks + [OnRead(e.fd)]
                               else if e.writable then s.pool.tasks + [OnWrite(e.fd)]
                               else s.pool.tasks
  {
  }

  lemma HandleKeepsSides(s: Server, at: int, timeout: int, fd: int, d: Arm)
    requires Apply(s, Handle(at), timeout).Some?
    ensures OnSide(Apply(s, Handle(at), timeout).value, fd, d) ==> OnSide(s, fd, d)
  {
    hide Apply;
    HandledIs(s, at, timeout);
    var e := s.batch[0];
    assert e in s.batch && forall x | x in s.batch[1..] :: x in s.batch;
    if !e.hup && (e.readable || e.writable) {
      var task := if e.readable then OnRead(e.fd) else OnWrite(e.fd);
      assert TaskOf(d, fd) == task ==> Reports(e, d, fd);
    }
  }

  lemma PoolKeepsSides(s: Server, p: P.Step, fd: int, d: Arm)
    requires Apply(s, Worker(p), 0).Some?
    ensures OnSide(Apply(s, Worker(p), 0).value, fd, d) ==> OnSide(s, fd, d)
  {
    var t := Apply(s, Worker(p), 0).value;
    var task := TaskOf(d, fd);
    if p.Turn? && s.pool.tasks != [] {
      assert s.pool.tasks[0] in s.pool.tasks && forall x | x in s.pool.tasks[1..] :: x in s.pool.tasks;
    }
    if P.Running(task) in t.pool.workers && P.Running(task) !in s.pool.workers {
      assert p.Turn?;
    }
  }

  lemma {:induction false} NoneQueued(tasks: seq<Task>, fd: int, t: Task)
    requires Queued(tasks, fd) == 0 && t.fd == fd
    ensures t !in tasks
  {
    if tasks != [] {
      NoneQueued(tasks[1..], fd, t);
      assert tasks == [tasks[0]] + tasks[1..];
    }
  }

  lemma {:induction false} NoneWorking(ws: seq<P.Worker>, fd: int, t: Task)
    requires Working(ws, fd) == 0 && t.fd == fd
    ensures P.Running(t) !in ws
  {
    if ws != [] {
      NoneWorking(ws[1..], fd, t);
      assert ws == [ws[0]] + ws[1..];
    }
  }

  lemma {:induction false} NoneReported(batch: seq<Event>, fd: int)
    requires Reported(batch, fd) == 0
    ensures forall e | e in batch :: e.fd != fd
  {
    if batch != [] {
      NoneReported(batch[1..], fd);
      assert batch == [batch[0]] + batch[1..];
    }
  }

  /** A connection without an owner, or owned by its registration alone, is on no other side. */
  lemma SideOfOwner(s: Server, fd: int, d: Arm)
    requires Reported(s.batch, fd) == 0 && TaskCount(s.pool, fd) == 0
    ensures OnSide(s, fd, d) <==> fd in s.armed && s.armed[fd] == d
  {
    NoneReported(s.batch, fd);
    NoneQueued(s.pool.tasks, fd, TaskOf(d, fd));
    NoneWorking(s.pool.workers, fd, TaskOf(d, fd));
  }

  /** The end of a task puts its connection on the side it asks for, and on that side only. */
  lemma FinishSetsSide(s: Server, w: nat, action: Action, timeout: int, d: Arm)
    requires Inv(s, timeout) && Apply(s, Finish(w, action), timeout).Some?
    ensures var t := Apply(s, Finish(w, action), timeout).value;
            OnSide(t, s.pool.workers[w].task.fd, d) <==> ArmOf(action) == Some(d)
  {
    var fd := s.pool.workers[w].task.fd;
    var t := Apply(s, Finish(w, action), timeout).value;
    FinishKeepsInv(s, w, action, timeout);
    ReturnCountsTask(s.pool, w, fd);
    assert Owners(s, fd) <= 1;
    SideOfOwner(t, fd, d);
  }

  /** Accept puts its connection on the reading side only. */
  lemma AcceptSetsSide(s: Server, fd: int, at: int, timeout: int, d: Arm)
    requires Inv(s, timeout) && Apply(s, Accept(fd, at), timeout).Some? && s.userCount < MAX_FD
    ensures OnSide(Apply(s, Accept(fd, at), timeout).value, fd, d) <==> d == In
  {
    assert Owners(s, fd) == 0;
    SideOfOwner(Apply(s, Accept(fd, at), timeout).value, fd, d);
  }

  /** Steps that are neither an accept nor the end of a task. */
  predicate Quiet(steps: seq<Step>) {
    forall step | step in steps :: !step.Finish? && !step.Accept?
  }

  /** A run of such steps opens no connection and moves none to another side. */
  lemma {:induction false} QuietKeepsSides(s: Server, steps: seq<Step>, timeout: int, fd: int, d: Arm)
    requires Quiet(steps) && Run(s, steps, timeout).Some?
    ensures OnSide(Run(s, steps, timeout).value, fd, d) ==> OnSide(s, fd, d)
    ensures Open(Run(s, steps, timeout).value, fd) ==> Open(s, fd)
    decreases |steps|
  {
    hide OnSide;
    if steps != [] {
      assert steps[0] in steps && forall step | step in steps[1..] :: step in steps;
      OthersKeepSides(s, steps[0], timeout, fd, d);
      QuietKeepsSides(Apply(s, steps[0], timeout).value, steps[1..], timeout, fd, d);
    }
  }
}

/** The server and what its connections hear and say, as values, and the moves of the whole site. */
module SiteSpec {
  import opened Options
  import opened Tasks
  import opened Sockets
  import opened Framing
  import opened Requests
  import opened Responses
  import opened Talks
  import opened ServerSpec
  import opened Sides

  datatype SiteState = SiteState(server: Server, talks: map<int, Talk>)

  datatype Move =
    | Main(steps: seq<Step>)                      // delivery, dispatch, ticks, the pool on its own, time
    | Welcome(fd: int, at: int, bytes: string)    // a client is accepted; some bytes may be there already
    | Hear(fd: int, bytes: string)                // bytes arrive
    | Work(w: nat, target: Target, action: Action)  // a worker runs its task to the end

  ghost predicate HandlerStep(task: Task, s: Talk, t: Target, action: Action, u: Talk) {
    match task
    case OnRead(_) => exists errno :: ReadStep(s, t, errno, action, u)
    case OnWrite(_) => exists n, ret, errno :: WriteStep(s, t, n, ret, errno, action, u)
  }

  /** A handler, and Close when it decides so. */
  ghost predicate TaskStep(task: Task, s: Talk, t: Target, action: Action, u: Talk) {
    exists v :: HandlerStep(task, s, t, action, v) && if action == Close then Dropped(v, u) else u == v
  }

  /** Open connections are as they were; closed ones have no file any more. */
  ghost predicate TalksKept(server: Server, talks: map<int, Talk>, talks': map<int, Talk>) {
    && talks'.Keys == talks.Keys
    && forall fd | fd in talks :: if Open(server, fd) then talks'[fd] == talks[fd] else Dropped(talks[fd], talks'[fd])
  }

  /** What the memory of a connection object holds when it is used first is unknown; used again, it is what was left. */
  ghost predicate Fresh(talks: map<int, Talk>, fd: int, bytes: string, u: Talk) {
    u == if fd in talks then NewTalk(bytes, talks[fd].request, talks[fd].stale) else NewTalk(bytes, FRESH, u.stale)
  }

  ghost predicate SiteStep(s: SiteState, move: Move, u: SiteState, timeout: int) {
    match move
    case Main(steps) =>
      Quiet(steps) && Run(s.server, steps, timeout) == Some(u.server) && TalksKept(u.server, s.talks, u.talks)
    case Welcome(fd, at, bytes) =>
      && s.server.userCount < MAX_FD && Apply(s.server, Accept(fd, at), timeout) == Some(u.server)
      && fd in u.talks && u.talks == s.talks[fd := u.talks[fd]] && Fresh(s.talks, fd, bytes, u.talks[fd])
    case Hear(fd, bytes) =>
      fd in s.talks && u == s.(talks := s.talks[fd := Arrive(s.talks[fd], bytes)])
    case Work(w, t, action) =>
      && Apply(s.server, Finish(w, action), timeout) == Some(u.server)
      && var task := s.server.pool.workers[w].task;
         && task.fd in s.talks && task.fd in u.talks && u.talks == s.talks[task.fd := u.talks[task.fd]]
         && TaskStep(task, s.talks[task.fd], t, action, u.talks[task.fd])
  }

  /** On the reading side the wire is the replies so far; on the writing side sent and unsent bytes are. */
  ghost predicate Ready(s: Server, fd: int, talk: Talk) {
    && (OnSide(s, fd, In) ==> AtRest(talk))
    && (OnSide(s, fd, Out) ==> InFlow(talk))
  }

  ghost predicate AllAccounted(talks: map<int, Talk>) {
    forall fd | fd in talks :: Accounted(talks[fd])
  }

  ghost predicate AllReady(s: Server, talks: map<int, Talk>) {
    forall fd | Open(s, fd) :: fd in talks && Ready(s, fd, talks[fd])
  }

  ghost predicate Sound(s: SiteState, timeout: int) {
    Inv(s.server, timeout) && AllAccounted(s.talks) && AllReady(s.server, s.talks)
  }

  lemma TaskIsOwner(s: Server, w: nat, timeout: int)
    requires Inv(s, timeout) && w < |s.pool.workers| && s.pool.workers[w].Running?
    ensures var task := s.pool.workers[w].task;
            Open(s, task.fd) && OnSide(s, task.fd, if task.OnRead? then In else Out)
  {
    var task := s.pool.workers[w].task;
    WorkingAtLeast(s.pool.workers, w, task.fd);
    assert Owners(s, task.fd) == if Open(s, task.fd) then 1 else 0;
    assert s.pool.workers[w] in s.pool.workers;
  }

  lemma MainKeepsSound(s: SiteState, steps: seq<Step>, u: SiteState, timeout: int)
    requires Sound(s, timeout) && SiteStep(s, Main(steps), u, timeout) && Prompt(s.server, steps, timeout)
    ensures Sound(u, timeout)
  {
    hide OnSide, AtRest, InFlow, Accounted, ServerSpec.Inv, Dropped;
    ServerSpec.RunKeepsInv(s.server, steps, timeout);
    forall fd | fd in u.talks ensures Accounted(u.talks[fd]) {
      if !Open(u.server, fd) {
        DroppedKeeps(s.talks[fd], u.talks[fd]);
      }
    }
    forall fd | Open(u.server, fd) ensures fd in u.talks && Ready(u.server, fd, u.talks[fd]) {
      QuietKeepsSides(s.server, steps, timeout, fd, In);
      QuietKeepsSides(s.server, steps, timeout, fd, Out);
    }
  }

  lemma WelcomeKeepsSound(s: SiteState, fd: int, at: int, bytes: string, u: SiteState, timeout: int)
    requires Sound(s, timeout) && SiteStep(s, Welcome(fd, at, bytes), u, timeout)
    ensures Sound(u, timeout)
  {
    hide OnSide, AtRest, InFlow, Accounted, ServerSpec.Inv;
    AcceptKeepsInv(s.server, fd, at, timeout);
    NewIsAtRest(bytes, u.talks[fd].request, u.talks[fd].stale);
    RestIsAccounted(u.talks[fd]);
    AcceptSetsSide(s.server, fd, at, timeout, In);
    AcceptSetsSide(s.server, fd, at, timeout, Out);
    forall f | Open(u.server, f) ensures f in u.talks && Ready(u.server, f, u.talks[f]) {
      if f != fd {
        OthersKeepSides(s.server, Accept(fd, at), timeout, f, In);
        OthersKeepSides(s.server, Accept(fd, at), timeout, f, Out);
      }
    }
  }

  lemma RestIsAccounted(s: Talk)
    requires AtRest(s) || InFlow(s)
    ensures Accounted(s)
  {
  }

  lemma HearKeepsSound(s: SiteState, fd: int, bytes: string, u: SiteState, timeout: int)
    requires Sound(s, timeout) && SiteStep(s, Hear(fd, bytes), u, timeout)
    ensures Sound(u, timeout)
  {
    hide OnSide, AtRest, InFlow, Accounted, ServerSpec.Inv;
    ArriveKeeps(s.talks[fd], bytes);
  }

  /** What a handler decides fits what it leaves; it only adds to the wire and the replies. */
  lemma TaskKeeps(task: Task, s: Talk, t: Target, action: Action, u: Talk)
    requires if task.OnRead? then AtRest(s) else InFlow(s)
    requires TaskStep(task, s, t, action, u)
    ensures Waiting(u, action) && Extends(s, u, [t]) && u.arrived == s.arrived
    ensures Fits(s) && Short(t) ==> Fits(u)
  {
    hide AtRest, InFlow, Accounted, ReadStep, WriteStep, Fits, Short;
    var v :| HandlerStep(task, s, t, action, v) && if action == Close then Dropped(v, u) else u == v;
    match task {
      case OnRead(_) =>
        var errno :| ReadStep(s, t, errno, action, v);
        ReadEventKeeps(s, t, errno, action, v);
      case OnWrite(_) =>
        var n, ret, errno :| WriteStep(s, t, n, ret, errno, action, v);
        WriteEventKeeps(s, t, n, ret, errno, action, v);
    }
    if action == Close {
      DroppedKeeps(v, u);
    }
  }

  lemma WorkKeepsSound(s: SiteState, w: nat, t: Target, action: Action, u: SiteState, timeout: int)
    requires Sound(s, timeout) && SiteStep(s, Work(w, t, action), u, timeout)
    ensures Sound(u, timeout)
  {
    hide OnSide, AtRest, InFlow, Accounted, ServerSpec.Inv, TaskStep;
    var task := s.server.pool.workers[w].task;
    TaskIsOwner(s.server, w, timeout);
    TaskKeeps(task, s.talks[task.fd], t, action, u.talks[task.fd]);
    WaitingIsAccounted(u.talks[task.fd], action);
    FinishKeepsInv(s.server, w, action, timeout);
    FinishSetsSide(s.server, w, action, timeout, In);
    FinishSetsSide(s.server, w, action, timeout, Out);
    forall f | Open(u.server, f) ensures f in u.talks && Ready(u.server, f, u.talks[f]) {
      if f != task.fd {
        FinishOpensNone(s.server, w, action, timeout, f);
        OthersKeepSides(s.server, Finish(w, action), timeout, f, In);
        OthersKeepSides(s.server, Finish(w, action), timeout, f, Out);
      }
    }
  }

  /** A task only adds to the wire and to the replies of its connection. */
  lemma WorkExtends(s: SiteState, w: nat, t: Target, action: Action, u: SiteState, timeout: int)
    requires Sound(s, timeout) && SiteStep(s, Work(w, t, action), u, timeout)
    ensures forall fd | fd in s.talks :: fd in u.talks && Extends(s.talks[fd], u.talks[fd], [t])
    ensures forall fd | fd in s.talks :: Fits(s.talks[fd]) && Short(t) ==> Fits(u.talks[fd])
  {
    hide OnSide, AtRest, InFlow, Accounted, ServerSpec.Inv, TaskStep, Fits, Short;
    var task := s.server.pool.workers[w].task;
    TaskIsOwner(s.server, w, timeout);
    TaskKeeps(task, s.talks[task.fd], t, action, u.talks[task.fd]);
  }

  /** The end of a handler, by what the kernel said last and what is on the wire. */
  ghost predicate EndsRightly(task: Task, s: Talk, action: Action, u: Talk) {
    && u.ends != []
    && (task.OnRead? ==> (action == Close <==> Ended(u) != EAGAIN))
    && (task.OnWrite? && Fits(s) ==>
         (action == Close <==>
           if u.wire == s.wire + s.unsent && s.stale == 0 then !KeepAlive(s.request) else Ended(u) != EAGAIN))
  }

  lemma TaskEndsRightly(task: Task, s: Talk, t: Target, action: Action, u: Talk)
    requires TaskStep(task, s, t, action, u)
    ensures EndsRightly(task, s, action, u)
  {
    hide ReadStep, WriteStep, Fits, KeepAlive;
    var v :| HandlerStep(task, s, t, action, v) && if action == Close then Dropped(v, u) else u == v;
    match task {
      case OnRead(_) =>
        var errno :| ReadStep(s, t, errno, action, v);
        ReadClosesIff(s, t, errno, action, v);
      case OnWrite(_) =>
        var n: nat, ret, errno :| WriteStep(s, t, n, ret, errno, action, v);
        StepIsBounded(s, t, n, ret, errno, action, v);
        AllOrPart(s.wire, s.unsent, n);
        if Fits(s) {
          WriteClosesIff(s, t, n, ret, errno, action, v);
        } else {
          EndsSomehow(s, t, n, ret, errno, action, v);
        }
    }
  }

  lemma EndsSomehow(s: Talk, t: Target, n: nat, ret: int, errno: int, action: Action, u: Talk)
    requires WriteStep(s, t, n, ret, errno, action, u)
    ensures u.ends != []
  {
  }

  /** A worker's task closes its connection exactly as its handler should, and every other one stays as it was. */
  lemma WorkEndsRightly(s: SiteState, w: nat, t: Target, action: Action, u: SiteState, timeout: int)
    requires Sound(s, timeout) && SiteStep(s, Work(w, t, action), u, timeout)
    ensures var task := s.server.pool.workers[w].task;
            && Open(s.server, task.fd) && (Open(u.server, task.fd) <==> action != Close)
            && EndsRightly(task, s.talks[task.fd], action, u.talks[task.fd])
            && (forall fd | fd != task.fd :: Open(u.server, fd) <==> Open(s.server, fd))
            && (forall fd | fd != task.fd && fd in s.talks :: fd in u.talks && u.talks[fd] == s.talks[fd])
  {
    hide OnSide, Accounted, AtRest, InFlow, EndsRightly, TaskStep, ServerSpec.Inv;
    var task := s.server.pool.workers[w].task;
    TaskIsOwner(s.server, w, timeout);
    TaskEndsRightly(task, s.talks[task.fd], t, action, u.talks[task.fd]);
  }

  lemma WaitingIsAccounted(s: Talk, action: Action)
    requires Waiting(s, action)
    ensures Accounted(s)
  {
  }

  lemma FinishOpensNone(s: Server, w: nat, action: Action, timeout: int, fd: int)
    requires Apply(s, Finish(w, action), timeout).Some?
    ensures Open(Apply(s, Finish(w, action), timeout).value, fd) ==> Open(s, fd)
  {
  }

  lemma StepKeepsSound(s: SiteState, move: Move, u: SiteState, timeout: int)
    requires Sound(s, timeout) && SiteStep(s, move, u, timeout)
    requires move.Main? ==> Prompt(s.server, move.steps, timeout)
    ensures Sound(u, timeout)
  {
    hide Sound, SiteStep;
    match move
    case Main(steps) => MainKeepsSound(s, steps, u, timeout);
    case Welcome(fd, at, bytes) => WelcomeKeepsSound(s, fd, at, bytes, u, timeout);
    case Hear(fd, bytes) => HearKeepsSound(s, fd, bytes, u, timeout);
    case Work(w, t, action) => WorkKeepsSound(s, w, t, action, u, timeout);
  }

  // ---------- runs ----------

  ghost predicate IsRun(states: seq<SiteState>, moves: seq<Move>, timeout: int) {
    && |states| == |moves| + 1
    && forall k | 0 <= k < |moves| ::
         && SiteStep(states[k], moves[k], states[k + 1], timeout)
         && (moves[k].Main? ==> Prompt(states[k].server, moves[k].steps, timeout))
  }

  lemma {:induction false} RunKeepsSound(states: seq<SiteState>, moves: seq<Move>, timeout: int, n: nat)
    requires IsRun(states, moves, timeout) && n <= |moves| && Sound(states[0], timeout)
    ensures Sound(states[n], timeout)
    decreases n
  {
    hide Sound, SiteStep;
    if n > 0 {
      RunKeepsSound(states, moves, timeout, n - 1);
      StepKeepsSound(states[n - 1], moves[n - 1], states[n], timeout);
    }
  }

  /**
   Over every run of the site, threads and clients interleaved in any way: on every connection, open or
   closed, each byte that came in is accounted for, each reply answers the next stretch of them, once and
   in order, and the wire is a part of the replies; and a client whose connection waits for a
   request has been sent all of them and can tell them apart.
   */
  lemma EveryRun(threads: nat, start: int, states: seq<SiteState>, moves: seq<Move>, timeout: int, fd: int)
    requires IsRun(states, moves, timeout) && states[0] == SiteState(Started(threads, start), map[])
    ensures var s := states[|moves|];
            && (Open(s.server, fd) ==> fd in s.talks)
            && (fd in s.talks ==> Accounted(s.talks[fd]))
            && (Open(s.server, fd) && fd in s.server.armed && s.server.armed[fd] == In && s.talks[fd].intact ==>
                 var replies := Replies(s.talks[fd].texts, s.talks[fd].served);
                 ReadStream(s.talks[fd].wire, |replies|) == Some((replies, "")))
  {
    hide ServerSpec.Inv, AtRest, Accounted;
    StartIsSound(threads, start, timeout);
    RunKeepsSound(states, moves, timeout, |moves|);
    var s := states[|moves|];
    if Open(s.server, fd) && fd in s.server.armed && s.server.armed[fd] == In && s.talks[fd].intact {
      assert OnSide(s.server, fd, In);
      RestIsReadable(s.talks[fd]);
    }
  }

  /**
   Over every run of the site: a read task closes its connection exactly when the kernel ended the read otherwise
   than with EAGAIN, end of file included; and with a count that fits, a write task closes it exactly
   when all was sent and the client does not stay, or the kernel ended an unfinished write otherwise.
   */
  lemma TasksCloseIff(threads: nat, start: int, states: seq<SiteState>, moves: seq<Move>, timeout: int, k: nat)
    requires IsRun(states, moves, timeout) && states[0] == SiteState(Started(threads, start), map[])
    requires k < |moves| && moves[k].Work?
    ensures var s, u, w := states[k], states[k + 1], moves[k].w;
            && w < |s.server.pool.workers| && s.server.pool.workers[w].Running?
            && var task := s.server.pool.workers[w].task;
               && task.fd in s.talks && task.fd in u.talks && u.talks[task.fd].ends != []
               && (task.OnRead? ==> (Open(u.server, task.fd) <==> Ended(u.talks[task.fd]) == EAGAIN))
               && (task.OnWrite? && Fits(s.talks[task.fd]) ==>
                    var before, after := s.talks[task.fd], u.talks[task.fd];
                    (Open(u.server, task.fd) <==>
                      if after.wire == before.wire + before.unsent && before.stale == 0 then KeepAlive(before.request)
                      else Ended(after) == EAGAIN))
  {
    hide Sound, TaskStep;
    StartIsSound(threads, start, timeout);
    RunKeepsSound(states, moves, timeout, k);
    assert SiteStep(states[k], moves[k], states[k + 1], timeout);
    WorkEndsRightly(states[k], moves[k].w, moves[k].target, moves[k].action, states[k + 1], timeout);
  }

  lemma StartIsSound(threads: nat, start: int, timeout: int)
    ensures Sound(SiteState(Started(threads, start), map[]), timeout)
  {
    ServerSpec.StartedIsInv(threads, start, timeout);
  }

  /** A client that is never dealt a file of 2^31 bytes, on an object whose memory held no such length. */
  ghost predicate Modest(s: SiteState, move: Move, u: SiteState) {
    && (move.Work? ==> Short(move.target))
    && (move.Welcome? && move.fd !in s.talks && move.fd in u.talks ==> u.talks[move.fd].stale < HALF)
  }

  ghost predicate AllFit(talks: map<int, Talk>) {
    forall fd | fd in talks :: Fits(talks[fd])
  }

  lemma StepStaysFitting(s: SiteState, move: Move, u: SiteState, timeout: int)
    requires Sound(s, timeout) && SiteStep(s, move, u, timeout) && Modest(s, move, u) && AllFit(s.talks)
    ensures AllFit(u.talks)
  {
    match move
    case Main(steps) =>
      hide Accounted, ServerSpec.Inv, OnSide;
      forall fd | fd in u.talks ensures Fits(u.talks[fd]) {
        if !Open(u.server, fd) {
          assert Accounted(s.talks[fd]);
          DroppedKeeps(s.talks[fd], u.talks[fd]);
        }
      }
    case Welcome(fd, at, bytes) =>
    case Hear(fd, bytes) =>
    case Work(w, t, action) => WorkExtends(s, w, t, action, u, timeout);
  }

  /** With short files no connection of the site ever takes unsent bytes for sent. */
  lemma {:induction false} ModestRunsStayIntact(states: seq<SiteState>, moves: seq<Move>, timeout: int, n: nat)
    requires IsRun(states, moves, timeout) && n <= |moves| && Sound(states[0], timeout) && AllFit(states[0].talks)
    requires forall k | 0 <= k < |moves| :: Modest(states[k], moves[k], states[k + 1])
    ensures AllFit(states[n].talks)
    ensures forall fd | fd in states[n].talks :: states[n].talks[fd].intact
    decreases n
  {
    hide Sound, SiteStep, Modest;
    if n > 0 {
      ModestRunsStayIntact(states, moves, timeout, n - 1);
      RunKeepsSound(states, moves, timeout, n - 1);
      StepStaysFitting(states[n - 1], moves[n - 1], states[n], timeout);
    }
  }
}

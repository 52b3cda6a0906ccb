/** The server as an object: the handlers of the main thread and of the workers, over the timer and the pool. */
module Servers {
  import opened Options
  import opened Clocks
  import opened Tasks
  import opened TimerHeap
  import opened Timers
  import opened ServerSpec
  import P = ThreadPools

  ghost function DeadlinesOf(m: map<int, TimerNode>): map<int, int> {
    map id | id in m :: m[id].expires
  }

  /** Every node is filed under the descriptor its callback closes. */
  ghost predicate Filed(m: map<int, TimerNode>) {
    forall id | id in m :: m[id].id == id && m[id].cb == CloseConn(id)
  }

  class HttpServer {
    const timeoutMS: int
    const timer: HeapTimer
    const pool: P.ThreadPool
    const clock: Clock
    var users: map<int, bool>
    var userCount: int
    var registered: set<int>
    var armed: map<int, Arm>
    var batch: seq<Event>
    ghost var heard: map<int, int>

    ghost function View(): Server
      reads this, timer, pool, clock
      requires timer.Valid()
    {
      Server(users, userCount, registered, armed, batch, pool.View(), DeadlinesOf(timer.View()), heard, clock.time)
    }

    ghost predicate Valid()
      reads this, timer, pool, clock
    {
      timer.Valid() && Filed(timer.View()) && Inv(View(), timeoutMS)
    }

    constructor (timeoutMS: int, threads: nat, start: int)
      requires threads > 0
      ensures Valid() && View() == Started(threads, start) && this.timeoutMS == timeoutMS
      ensures fresh(timer) && fresh(pool) && fresh(clock)
    {
      this.timeoutMS := timeoutMS;
      timer := new HeapTimer();
      pool := new P.ThreadPool(threads);
      clock := new Clock(start);
      users, userCount, registered, armed, batch, heard := map[], 0, {}, map[], [], map[];
      new;
      assert timer.View() == map[];
      ServerSpec.StartedIsInv(threads, start, timeoutMS);
    }

    /** Safe to call again on a connection that is closed already. */
    method CloseConn(fd: int)
      requires timer.Valid()
      modifies this`users, this`userCount, this`registered, this`armed
      ensures View() == Closed(old(View()), fd)
    {
      registered := registered - {fd};
      armed := armed - {fd};
      if fd in users && !users[fd] {
        users := users[fd := true];
        userCount := userCount - 1;
      }
    }

    /** The effect of AddClient: connection, timer, epoll. */
    method Admit(fd: int)
      requires timer.Valid() && Filed(timer.View()) && 0 < fd && !Open(View(), fd) && userCount < MAX_FD
      modifies this, timer, clock
      ensures timer.Valid() && Filed(timer.View())
      ensures Apply(old(View()), Accept(fd, clock.time), timeoutMS) == Some(View())
    {
      hide HeapOrdered;
      users := users[fd := false];
      userCount := userCount + 1;
      if timeoutMS > 0 {
        ghost var m := timer.View();
        timer.Add(fd, timeoutMS, TimerHeap.CloseConn(fd), clock);
        DeadlinesUpdated(m, fd, timer.View()[fd]);
      }
      registered := registered + {fd};
      armed := armed[fd := In];
      heard := heard[fd := clock.time];
    }

    method AddClient(fd: int)
      requires Valid() && 0 < fd && !Open(View(), fd) && userCount < MAX_FD
      modifies this, timer, clock
      ensures Valid() && old(clock.time) <= clock.time
      ensures Apply(old(View()), Accept(fd, clock.time), timeoutMS) == Some(View())
      ensures users == old(users)[fd := false] && userCount == old(userCount) + 1 && batch == old(batch)
    {
      Admit(fd);
      AcceptKeepsInv(old(View()), fd, clock.time, timeoutMS);
    }

    /**
     Takes connections until accept has none left or the server is full. `fds` is what accept will
     return: descriptors that are not open, each once. It is a run of accepts and nothing else.
     */
    method DealListen(fds: seq<int>) returns (taken: nat, ghost steps: seq<Step>)
      requires Valid() && Acceptable(users, fds)
      modifies this, timer, clock
      ensures Valid() && batch == old(batch) && old(clock.time) <= clock.time
      ensures taken == if |fds| <= MAX_FD - old(userCount) then |fds| else MAX_FD - old(userCount)
      ensures AreAccepts(steps, fds, taken) && Run(old(View()), steps, timeoutMS) == Some(View())
      ensures userCount == old(userCount) + taken
      ensures forall i | 0 <= i < |fds| :: Open(View(), fds[i]) <==> i < taken
      ensures forall fd | fd !in fds :: Open(View(), fd) <==> Open(old(View()), fd)
    {
      hide ServerSpec.Inv, Apply, Run;
      taken, steps := 0, [];
      NothingTaken(View(), fds, timeoutMS);
      while taken < |fds|
        invariant 0 <= taken <= |fds| && Valid() && batch == old(batch) && old(clock.time) <= clock.time
        invariant userCount == old(userCount) + taken <= MAX_FD
        invariant FirstOpen(users, fds, taken) && OthersAsBefore(old(users), users, fds)
        invariant AreAccepts(steps, fds, taken) && Run(old(View()), steps, timeoutMS) == Some(View())
      {
        if userCount >= MAX_FD {
          return;
        }
        NextOpen(old(users), users, fds, taken);
        ghost var s := View();
        AddClient(fds[taken]);
        RunThen(old(View()), steps, s, Accept(fds[taken], clock.time), View(), timeoutMS);
        steps := steps + [Accept(fds[taken], clock.time)];
        taken := taken + 1;
      }
    }

    /** The bound on deadlines makes adjust a move to a later place, so the heap stays ordered. */
    method ExtentTime(fd: int)
      requires timer.Valid() && Filed(timer.View())
      requires timeoutMS > 0 ==>
        fd in View().deadlines && View().deadlines[fd] <= clock.time + timeoutMS * NANOS_PER_MS
      modifies this`heard, timer, clock
      ensures timer.Valid() && Filed(timer.View()) && old(clock.time) <= clock.time
      ensures View() == Prolonged(old(View()), fd, clock.time, timeoutMS)
    {
      if timeoutMS > 0 {
        ghost var m := timer.View();
        timer.Adjust(fd, timeoutMS, clock);
        DeadlinesUpdated(m, fd, timer.View()[fd]);
      }
      heard := heard[fd := clock.time];
    }

    /** DealRead and DealWrite: extend the timer and queue the task. */
    method Deal(task: Task) returns (ghost w: nat)
      requires timer.Valid() && Filed(timer.View()) && P.Inv(pool.View()) && !pool.isClosed
      requires timeoutMS > 0 ==>
        task.fd in View().deadlines && View().deadlines[task.fd] <= clock.time + timeoutMS * NANOS_PER_MS
      modifies this`heard, timer, clock, pool
      ensures timer.Valid() && Filed(timer.View()) && old(clock.time) <= clock.time
      ensures var dealt := Dealt(old(View()), task, clock.time, timeoutMS);
              dealt.Some? && Apply(dealt.value, Worker(P.NotifyOne(w)), timeoutMS) == Some(View())
      ensures DidDeal(old(View()), task, clock.time, timeoutMS, View())
    {
      ghost var s := View();
      ExtentTime(task.fd);
      w := pool.AddTask(task);
      DealtTells(s, task, clock.time, w, timeoutMS, View());
    }

    /** The dispatch in Start, for an event that was taken off the batch. */
    method Dispatch(e: Event) returns (ghost w: nat)
      requires timer.Valid() && Filed(timer.View()) && P.Inv(pool.View()) && !pool.isClosed
      requires e.hup || e.readable || e.writable
      requires timeoutMS > 0 ==>
        e.fd in View().deadlines && View().deadlines[e.fd] <= clock.time + timeoutMS * NANOS_PER_MS
      modifies this`users, this`userCount, this`registered, this`armed, this`heard, timer, clock, pool
      ensures timer.Valid() && Filed(timer.View()) && old(clock.time) <= clock.time
      ensures Dispatched(old(View()), e, clock.time, w, timeoutMS) == Some(View())
    {
      w := 0;
      if e.hup {
        CloseConn(e.fd);
      } else if e.readable {
        w := Deal(OnRead(e.fd));
      } else if e.writable {
        w := Deal(OnWrite(e.fd));
      }
    }

    /** One event: its connection is open, adjust finds its node, and afterwards the server is sound again. */
    method HandleEvent() returns (ghost w: nat, ghost steps: seq<Step>)
      requires Valid() && batch != []
      modifies this, timer, clock, pool
      ensures Valid() && Open(old(View()), old(batch)[0].fd) && old(clock.time) <= clock.time
      ensures batch == old(batch)[1..] && steps == Handling(old(batch)[0], clock.time, w)
      ensures Run(old(View()), steps, timeoutMS) == Some(View())
      ensures var s := old(View());
              Dispatched(s.(batch := s.batch[1..]), s.batch[0], clock.time, w, timeoutMS) == Some(View())
      ensures DidHandle(old(View()), old(batch)[0], clock.time, timeoutMS, View())
    {
      ghost var s := View();
      var e := batch[0];
      EventIsOwner(s, timeoutMS);
      batch := batch[1..];
      assert View() == s.(batch := s.batch[1..]);
      w := Dispatch(e);
      DispatchKeepsInv(s, clock.time, w, timeoutMS, View());
      DispatchTells(s, clock.time, w, timeoutMS, View());
      steps := Handling(e, clock.time, w);
    }

    /** A worker ends its task: ModFd, or CloseConn. */
    method EndTask(w: nat, action: Action)
      requires timer.Valid() && P.Inv(pool.View()) && w < |pool.workers| && pool.workers[w].Running?
      modifies this`users, this`userCount, this`registered, this`armed, pool
      ensures Apply(old(View()), Finish(w, action), timeoutMS) == Some(View())
    {
      var fd := pool.workers[w].task.fd;
      ghost var s := View();
      Act(fd, action);
      assert View() == Acted(s, fd, action);
      pool.TaskReturns(w);
      ActedBesidePool(s, fd, action, pool.View());
    }

    method Act(fd: int, action: Action)
      requires timer.Valid()
      modifies this`users, this`userCount, this`registered, this`armed
      ensures View() == Acted(old(View()), fd, action)
    {
      match action {
        case Close => CloseConn(fd);
        case ArmIn => armed := armed[fd := In];
        case ArmOut => armed := armed[fd := Out];
      }
    }

    method FinishTask(w: nat, action: Action)
      requires Valid() && w < |pool.workers| && pool.workers[w].Running?
      modifies this`users, this`userCount, this`registered, this`armed, pool
      ensures Valid() && Apply(old(View()), Finish(w, action), timeoutMS) == Some(View())
    {
      EndTask(w, action);
      FinishKeepsInv(old(View()), w, action, timeoutMS);
    }

    /** epoll wait: what it reports is disarmed until a task arms it again. */
    method Wait(events: seq<Event>)
      requires Valid() && batch == [] && DistinctFds(events)
      requires forall e | e in events :: Deliverable(armed, e)
      modifies this`batch, this`armed
      ensures Valid() && Apply(old(View()), Deliver(events), timeoutMS) == Some(View())
    {
      batch := events;
      armed := armed - Fds(events);
      DeliverKeepsInv(old(View()), events, timeoutMS);
    }

    /**
     The tick of GetNextTick, with the callbacks it runs. If no connection that fires has a task,
     the server is sound after it; and every connection still open had an event within the timeout.
     */
    method Tick() returns (fired: seq<TimerNode>, prompt: bool)
      requires Valid() && batch == []
      modifies this, timer, clock
      ensures timer.Valid() && Filed(timer.View()) && old(clock.time) <= clock.time
      ensures prompt <==> Taskless(fired, pool.View())
      ensures prompt ==> Valid()
      ensures batch == [] && pool.View() == old(pool.View())
      ensures var steps := Ticking(clock.time - old(clock.time), fired);
              Run(old(View()), steps, timeoutMS) == Some(View()) && (prompt <==> Prompt(old(View()), steps, timeoutMS))
      ensures timer.View() == old(timer.View()) - Ids(fired)
      ensures forall id | id in old(timer.View()) && Due(old(timer.View())[id], old(clock.time)) :: id in Ids(fired)
      ensures forall node | node in fired ::
        Due(node, clock.time) && node.id in old(timer.View()) && old(timer.View())[node.id] == node
      ensures forall fd :: Open(View(), fd) <==> Open(old(View()), fd) && fd !in Ids(fired)
      ensures registered == old(registered) - Ids(fired) && armed == old(armed) - Ids(fired)
      ensures prompt && timeoutMS > 0 ==>
        forall fd | Open(View(), fd) :: clock.time - heard[fd] <= (timeoutMS - 1) * NANOS_PER_MS
    {
      hide ServerSpec.Inv, Run, Prompt, FiringRuns;
      ghost var m := timer.View();
      ghost var start := View();
      fired := FireDue();
      prompt := forall node | node in fired :: Queued(pool.tasks, node.id) + Working(pool.workers, node.id) == 0;
      ghost var later := start.(now := clock.time);
      PassKeepsInv(start, clock.time - start.now, timeoutMS);
      ghost var s := RunCallbacks(m, fired, later, prompt);
      DeadlinesWithout(m, Ids(fired));
      assert View() == s;
      TickRuns(start, clock.time - start.now, fired, View(), timeoutMS);
      if prompt && timeoutMS > 0 {
        IdleAfterTick(timer.heap, timer.ref, View(), timeoutMS);
      }
    }

    /** What the workers happen to do meanwhile: turns of their loops, and ends of tasks with any decision. */
    method Workers() returns (ghost steps: seq<Step>)
      requires Valid()
      modifies this`users, this`userCount, this`registered, this`armed, pool
      ensures Valid() && batch == old(batch) && clock.time == old(clock.time)
      ensures Run(old(View()), steps, timeoutMS) == Some(View())
      ensures forall step | step in steps :: step.Worker? || step.Finish?
    {
      hide ServerSpec.Inv, Apply, Run, Prompt;
      steps := [];
      RunNone(View(), timeoutMS);
      var n: nat :| true;
      for k := 0 to n
        invariant Valid() && batch == old(batch) && clock.time == old(clock.time)
        invariant Run(old(View()), steps, timeoutMS) == Some(View())
        invariant forall step | step in steps :: step.Worker? || step.Finish?
      {
        var w: nat :| true;
        ghost var s := View();
        if w < |pool.workers| && pool.workers[w] == P.Ready {
          WorkerTurn(w);
          RunThen(old(View()), steps, s, Worker(P.Turn(w)), View(), timeoutMS);
          steps := steps + [Worker(P.Turn(w))];
        } else if w < |pool.workers| && pool.workers[w].Running? {
          var action: Action := *;
          FinishTask(w, action);
          RunThen(old(View()), steps, s, Finish(w, action), View(), timeoutMS);
          steps := steps + [Finish(w, action)];
        }
      }
    }

    method WorkerTurn(w: nat)
      requires Valid() && w < |pool.workers| && pool.workers[w] == P.Ready
      modifies pool
      ensures Valid() && Apply(old(View()), Worker(P.Turn(w)), timeoutMS) == Some(View())
    {
      ghost var s := View();
      PoolIsSound(s, timeoutMS);
      pool.WorkerTurn(w);
      assert Apply(s, Worker(P.Turn(w)), timeoutMS) == Some(View());
      WorkerKeepsInv(s, P.Turn(w), timeoutMS);
    }

    /**
     The events of a batch one after the other, workers going on in between; after `place` of them, or at
     the end, comes the event of the listening socket, where accept returns what there is.
     */
    method HandleBatch(accepts: map<int, bool> -> seq<int>, place: nat) returns (ghost steps: seq<Step>)
      requires Valid() && forall users :: Acceptable(users, accepts(users))
      modifies this, timer, clock, pool
      ensures Valid() && batch == [] && old(clock.time) <= clock.time
      ensures Run(old(View()), steps, timeoutMS) == Some(View())
      ensures forall step | step in steps :: !step.Fire?
      ensures Welcomes(old(View()), steps, accepts, timeoutMS)
    {
      hide ServerSpec.Inv, Apply, Run, Prompt, Welcomes;
      ghost var start := View();
      steps := HandleEvents(place);
      ghost var accepting := Listen(accepts);
      RunAppends(start, steps, accepting, timeoutMS);
      WelcomesAfter(start, steps, accepting, accepts, timeoutMS);
      steps := steps + accepting;
      ghost var rest := HandleEvents(|batch|);
      RunAppends(start, steps, rest, timeoutMS);
      WelcomesBefore(start, steps, rest, accepts, timeoutMS);
      steps := steps + rest;
    }

    /** So many events, or all there are. */
    method HandleEvents(n: nat) returns (ghost steps: seq<Step>)
      requires Valid()
      modifies this, timer, clock, pool
      ensures Valid() && old(clock.time) <= clock.time
      ensures batch == if n < |old(batch)| then old(batch)[n..] else []
      ensures Run(old(View()), steps, timeoutMS) == Some(View())
      ensures forall step | step in steps :: !step.Fire?
    {
      hide ServerSpec.Inv, Apply, Run, Prompt;
      steps := [];
      RunNone(View(), timeoutMS);
      var k := 0;
      while k < n && batch != []
        invariant Valid() && old(clock.time) <= clock.time
        invariant k <= n && k <= |old(batch)| && batch == old(batch)[k..]
        invariant Run(old(View()), steps, timeoutMS) == Some(View())
        invariant forall step | step in steps :: !step.Fire?
      {
        ghost var handling := HandleNext();
        RunAppends(old(View()), steps, handling, timeoutMS);
        steps := steps + handling;
        k := k + 1;
      }
    }

    /** Some time passes in the workers, then the next event. */
    method HandleNext() returns (ghost steps: seq<Step>)
      requires Valid() && batch != []
      modifies this, timer, clock, pool
      ensures Valid() && batch == old(batch)[1..] && old(clock.time) <= clock.time
      ensures Run(old(View()), steps, timeoutMS) == Some(View())
      ensures forall step | step in steps :: !step.Fire?
    {
      hide ServerSpec.Inv, Apply, Run, Prompt;
      ghost var s := View();
      steps := Workers();
      ghost var w, handling;
      w, handling := HandleEvent();
      RunAppends(s, steps, handling, timeoutMS);
      steps := steps + handling;
    }

    method Listen(accepts: map<int, bool> -> seq<int>) returns (ghost steps: seq<Step>)
      requires Valid() && forall users :: Acceptable(users, accepts(users))
      modifies this, timer, clock
      ensures Valid() && batch == old(batch) && old(clock.time) <= clock.time
      ensures Run(old(View()), steps, timeoutMS) == Some(View())
      ensures forall step | step in steps :: !step.Fire?
      ensures var fds := accepts(old(users));
              && |steps| == Room(old(userCount), |fds|) && AreAccepts(steps, fds, |steps|)
              && (forall i | 0 <= i < |fds| :: Open(View(), fds[i]) <==> i < |steps|)
              && (forall fd | fd !in fds :: Open(View(), fd) <==> Open(old(View()), fd))
      ensures Welcomes(old(View()), steps, accepts, timeoutMS)
    {
      ghost var s := View();
      RoomIsNat(s, timeoutMS);
      var taken;
      taken, steps := DealListen(accepts(users));
      WelcomesHere(s, steps, accepts, timeoutMS);
    }

    /**
     A turn of the loop in Start, the workers going on meanwhile: tick, wait, the batch with the new clients.
     It is a run of the step system that fires every node due at its start, delivers what epoll reports,
     handles all of it and accepts whom it has room for, and it leaves the server sound. A turn whose tick
     hits a connection with a task is not followed further: there the assumption about the schedule fails.
     */
    method Turn(poll: map<int, Arm> -> seq<Event>, accepts: map<int, bool> -> seq<int>, place: nat)
      returns (prompt: bool, ghost steps: seq<Step>)
      requires Valid() && batch == []
      requires forall armed :: Reportable(armed, poll(armed))
      requires forall users :: Acceptable(users, accepts(users))
      modifies this, timer, clock, pool
      ensures timer.Valid() && Run(old(View()), steps, timeoutMS) == Some(View())
      ensures prompt <==> Prompt(old(View()), steps, timeoutMS)
      ensures prompt ==> Valid() && batch == []
      ensures prompt ==> exists armed :: Deliver(poll(armed)) in steps
      ensures prompt ==> Welcomes(old(View()), steps, accepts, timeoutMS)
      ensures timeoutMS > 0 ==>
        forall fd | fd in old(View()).deadlines && old(View()).deadlines[fd] - old(clock.time) < NANOS_PER_MS ::
          Fire(fd) in steps
    {
      hide ServerSpec.Inv, Apply, Run, Prompt, Welcomes;
      prompt, steps := true, [];
      RunNone(View(), timeoutMS);
      if timeoutMS > 0 {
        var fired;
        fired, prompt := Tick();
        steps := Ticking(clock.time - old(clock.time), fired);
        FiresAll(old(timer.View()), fired, old(clock.time), clock.time - old(clock.time));
        if !prompt {
          return;
        }
      }
      ghost var ticked := steps;
      ghost var rest := TurnRest(poll, accepts, place);
      RunAppends(old(View()), ticked, rest, timeoutMS);
      PromptAppends(old(View()), ticked, rest, timeoutMS);
      NothingFires(Run(old(View()), ticked, timeoutMS).value, rest, timeoutMS);
      WelcomesAfter(old(View()), ticked, rest, accepts, timeoutMS);
      steps := ticked + rest;
    }

    /** The turn after its tick. */
    method TurnRest(poll: map<int, Arm> -> seq<Event>, accepts: map<int, bool> -> seq<int>, place: nat)
      returns (ghost steps: seq<Step>)
      requires Valid() && batch == []
      requires forall armed :: Reportable(armed, poll(armed))
      requires forall users :: Acceptable(users, accepts(users))
      modifies this, timer, clock, pool
      ensures Valid() && batch == []
      ensures Run(old(View()), steps, timeoutMS) == Some(View())
      ensures forall step | step in steps :: !step.Fire?
      ensures exists armed :: Deliver(poll(armed)) in steps
      ensures Welcomes(old(View()), steps, accepts, timeoutMS)
    {
      hide ServerSpec.Inv, Apply, Run, Prompt, Welcomes;
      ghost var start := View();
      steps := Workers();
      ghost var s := View();
      var events := poll(armed);
      ghost var reporting := armed;
      Wait(events);
      RunThen(start, steps, s, Deliver(events), View(), timeoutMS);
      steps := steps + [Deliver(events)];
      assert Deliver(poll(reporting)) in steps;
      ghost var handling := HandleBatch(accepts, place);
      RunAppends(start, steps, handling, timeoutMS);
      WelcomesAfter(start, steps, handling, accepts, timeoutMS);
      steps := steps + handling;
    }

    /** The timer's part of a tick. */
    method FireDue() returns (fired: seq<TimerNode>)
      requires timer.Valid() && Filed(timer.View())
      modifies timer, clock
      ensures timer.Valid() && Filed(timer.View()) && old(clock.time) <= clock.time
      ensures timer.View() == old(timer.View()) - Ids(fired) && DistinctIds(fired)
      ensures View() == old(View()).(now := clock.time, deadlines := DeadlinesOf(timer.View()))
      ensures forall node | node in fired ::
        node.id in old(timer.View()) && old(timer.View())[node.id] == node && Due(node, clock.time)
      ensures forall node | node in timer.heap :: !Due(node, clock.time)
      ensures forall id | id in old(timer.View()) && Due(old(timer.View())[id], old(clock.time)) :: id in Ids(fired)
    {
      fired := timer.Tick(clock);
      FiredNodes(old(timer.heap), old(timer.ref), fired);
      forall id | id in old(timer.View()) && Due(old(timer.View())[id], old(clock.time)) ensures id in Ids(fired) {
        assert old(timer.View())[id] in old(timer.heap);
      }
    }

    /** The callbacks of a tick in the order it fires them; m are the nodes before. */
    method RunCallbacks(ghost m: map<int, TimerNode>, fired: seq<TimerNode>, ghost s0: Server, ghost prompt: bool)
      returns (ghost s: Server)
      requires timer.Valid() && Filed(m) && DistinctIds(fired) && batch == [] && s0.now == clock.time
      requires forall node | node in fired :: node.id in m && m[node.id] == node && Due(node, clock.time)
      requires s0.deadlines == DeadlinesOf(m) && View() == s0.(deadlines := View().deadlines)
      requires prompt ==> Inv(s0, timeoutMS) && Taskless(fired, s0.pool)
      modifies this`users, this`userCount, this`registered, this`armed
      ensures s.deadlines == DeadlinesOf(m) - Ids(fired) && View() == s.(deadlines := View().deadlines)
      ensures prompt ==> Inv(s, timeoutMS)
      ensures FiringRuns(s0, fired, s, timeoutMS)
      ensures s.batch == [] && s.pool == s0.pool && s.now == s0.now
      ensures forall fd :: Open(s, fd) <==> Open(s0, fd) && fd !in Ids(fired)
      ensures s.registered == s0.registered - Ids(fired) && s.armed == s0.armed - Ids(fired)
    {
      hide ServerSpec.Inv, FiringRuns, Taskless;
      s := s0;
      NothingFired(m, s0, timeoutMS);
      var k := 0;
      while k < |fired|
        invariant 0 <= k <= |fired| && View() == s.(deadlines := View().deadlines)
        invariant CallbacksDone(m, fired, k, s0, s) && FiringRuns(s0, fired[..k], s, timeoutMS)
        invariant prompt ==> Inv(s, timeoutMS)
      {
        var fd := fired[k].cb.fd;
        ghost var t := NextCallback(m, fired, k, s0, s, View().deadlines, prompt, timeoutMS);
        CloseConn(fd);
        s := t;
        k := k + 1;
      }
      assert fired[..k] == fired;
    }
  }

  /** What accept may return: descriptors that are not open, each once. */
  predicate Acceptable(users: map<int, bool>, fds: seq<int>) {
    && (forall i | 0 <= i < |fds| :: 0 < fds[i] && !(fds[i] in users && !users[fds[i]]))
    && (forall i, j | 0 <= i < j < |fds| :: fds[i] != fds[j])
  }

  /** How many of n new clients a server with so many takes. */
  function Room(userCount: int, n: nat): nat
    requires userCount <= MAX_FD
  {
    if n <= MAX_FD - userCount then n else MAX_FD - userCount
  }

  lemma RoomIsNat(s: Server, timeout: int)
    requires Inv(s, timeout)
    ensures s.userCount <= MAX_FD
  {
  }

  /** The first steps accept whoever accept returned, as many as have room. */
  ghost predicate StartsWelcoming(s: Server, steps: seq<Step>, accepts: map<int, bool> -> seq<int>) {
    && s.userCount <= MAX_FD
    && var fds := accepts(s.users);
       var k := Room(s.userCount, |fds|);
       k <= |steps| && AreAccepts(steps[..k], fds, k)
  }

  ghost predicate WelcomesAt(s: Server, steps: seq<Step>, i: nat, accepts: map<int, bool> -> seq<int>, timeout: int) {
    && i <= |steps| && Run(s, steps[..i], timeout).Some?
    && StartsWelcoming(Run(s, steps[..i], timeout).value, steps[i..], accepts)
  }

  /** At some point of the run whoever accept returned there was accepted. */
  ghost predicate Welcomes(s: Server, steps: seq<Step>, accepts: map<int, bool> -> seq<int>, timeout: int) {
    exists i: nat :: WelcomesAt(s, steps, i, accepts, timeout)
  }

  lemma WelcomesHere(s: Server, steps: seq<Step>, accepts: map<int, bool> -> seq<int>, timeout: int)
    requires s.userCount <= MAX_FD && |steps| == Room(s.userCount, |accepts(s.users)|)
    requires AreAccepts(steps, accepts(s.users), |steps|)
    ensures Welcomes(s, steps, accepts, timeout)
  {
    assert steps[..0] == [] && steps[0..] == steps && steps[..|steps|] == steps;
    assert WelcomesAt(s, steps, 0, accepts, timeout);
  }

  lemma StillWelcoming(s: Server, steps: seq<Step>, more: seq<Step>, accepts: map<int, bool> -> seq<int>)
    requires StartsWelcoming(s, steps, accepts)
    ensures StartsWelcoming(s, steps + more, accepts)
  {
    var k := Room(s.userCount, |accepts(s.users)|);
    assert (steps + more)[..k] == steps[..k];
  }

  lemma WelcomesBefore(s: Server, steps: seq<Step>, more: seq<Step>, accepts: map<int, bool> -> seq<int>, timeout: int)
    requires Welcomes(s, steps, accepts, timeout)
    ensures Welcomes(s, steps + more, accepts, timeout)
  {
    hide StartsWelcoming;
    var i: nat :| WelcomesAt(s, steps, i, accepts, timeout);
    assert (steps + more)[..i] == steps[..i] && (steps + more)[i..] == steps[i..] + more;
    StillWelcoming(Run(s, steps[..i], timeout).value, steps[i..], more, accepts);
    assert WelcomesAt(s, steps + more, i, accepts, timeout);
  }

  lemma WelcomesAfter(s: Server, first: seq<Step>, steps: seq<Step>, accepts: map<int, bool> -> seq<int>, timeout: int)
    requires Run(s, first, timeout).Some? && Welcomes(Run(s, first, timeout).value, steps, accepts, timeout)
    ensures Welcomes(s, first + steps, accepts, timeout)
  {
    hide StartsWelcoming;
    var i: nat :| WelcomesAt(Run(s, first, timeout).value, steps, i, accepts, timeout);
    var j := |first| + i;
    assert (first + steps)[..j] == first + steps[..i] && (first + steps)[j..] == steps[i..];
    RunAppends(s, first, steps[..i], timeout);
    assert WelcomesAt(s, first + steps, j, accepts, timeout);
  }

  ghost predicate AreAccepts(steps: seq<Step>, fds: seq<int>, k: nat)
    requires k <= |fds|
  {
    |steps| == k && forall i | 0 <= i < k :: steps[i].Accept? && steps[i].fd == fds[i]
  }

  /** Of these descriptors the first k are open. */
  ghost predicate FirstOpen(users: map<int, bool>, fds: seq<int>, k: nat) {
    forall i | 0 <= i < |fds| :: (fds[i] in users && !users[fds[i]]) <==> i < k
  }

  ghost predicate OthersAsBefore(before: map<int, bool>, users: map<int, bool>, fds: seq<int>) {
    forall fd | fd !in fds :: (fd in users && !users[fd]) <==> (fd in before && !before[fd])
  }

  lemma NothingTaken(s: Server, fds: seq<int>, timeout: int)
    requires Inv(s, timeout) && Acceptable(s.users, fds)
    ensures s.userCount <= MAX_FD && Run(s, [], timeout) == Some(s)
    ensures FirstOpen(s.users, fds, 0) && OthersAsBefore(s.users, s.users, fds)
  {
  }

  lemma NextOpen(before: map<int, bool>, users: map<int, bool>, fds: seq<int>, k: nat)
    requires k < |fds| && Acceptable(before, fds) && FirstOpen(users, fds, k) && OthersAsBefore(before, users, fds)
    ensures FirstOpen(users[fds[k] := false], fds, k + 1)
    ensures OthersAsBefore(before, users[fds[k] := false], fds)
  {
  }

  /** What a task does at its end does not depend on the pool. */
  lemma ActedBesidePool(s: Server, fd: int, action: Action, pool: P.Pool)
    ensures Acted(s.(pool := pool), fd, action) == Acted(s, fd, action).(pool := pool)
  {
  }

  /** What epoll may report. */
  predicate Reportable(armed: map<int, Arm>, events: seq<Event>) {
    DistinctFds(events) && forall e | e in events :: Deliverable(armed, e)
  }

  /** Firing is CloseConn and the loss of one node, whatever the timer holds meanwhile. */
  lemma FireIs(s: Server, fd: int, deadlines: map<int, int>, timeout: int)
    requires Apply(s, Fire(fd), timeout).Some?
    ensures var t := Apply(s, Fire(fd), timeout).value;
            && Closed(s.(deadlines := deadlines), fd) == t.(deadlines := deadlines)
            && t.deadlines == s.deadlines - {fd} && t.pool == s.pool && t.now == s.now && t.batch == []
            && t.registered == s.registered - {fd} && t.armed == s.armed - {fd}
            && forall f :: Open(t, f) <==> Open(s, f) && f != fd
  {
  }

  /** After the first k callbacks, from s0, the server is s. */
  ghost predicate CallbacksDone(m: map<int, TimerNode>, fired: seq<TimerNode>, k: nat, s0: Server, s: Server)
    requires k <= |fired|
  {
    && s.now == s0.now && s.batch == [] && s.pool == s0.pool
    && s.deadlines == DeadlinesOf(m) - Ids(fired[..k])
    && (forall fd :: Open(s, fd) <==> Open(s0, fd) && fd !in Ids(fired[..k]))
    && s.registered == s0.registered - Ids(fired[..k]) && s.armed == s0.armed - Ids(fired[..k])
  }

  lemma NextCallback(m: map<int, TimerNode>, fired: seq<TimerNode>, k: nat, s0: Server, s: Server,
                     deadlines: map<int, int>, prompt: bool, timeout: int) returns (t: Server)
    requires k < |fired| && DistinctIds(fired) && Filed(m)
    requires forall node | node in fired :: node.id in m && m[node.id] == node && Due(node, s0.now)
    requires CallbacksDone(m, fired, k, s0, s)
    requires prompt ==> Inv(s, timeout) && Taskless(fired, s0.pool)
    requires FiringRuns(s0, fired[..k], s, timeout)
    ensures CallbacksDone(m, fired, k + 1, s0, t) && FiringRuns(s0, fired[..k + 1], t, timeout)
    ensures Closed(s.(deadlines := deadlines), fired[k].cb.fd) == t.(deadlines := deadlines)
    ensures prompt ==> Inv(t, timeout)
  {
    NextFires(m, fired, k, s, timeout);
    var fd := fired[k].id;
    FireIs(s, fd, deadlines, timeout);
    t := Apply(s, Fire(fd), timeout).value;
    FiringRunsOn(s0, fired, k, s, t, timeout);
    if prompt {
      FireKeepsInvIff(s, fd, timeout);
    }
  }

  /** Firing these nodes one after the other, from s0, is a run to s; it is prompt when no one of them has a task. */
  ghost predicate FiringRuns(s0: Server, fired: seq<TimerNode>, s: Server, timeout: int) {
    && Run(s0, Fires(fired), timeout) == Some(s)
    && (Prompt(s0, Fires(fired), timeout) <==> Taskless(fired, s0.pool))
  }

  lemma NothingFired(m: map<int, TimerNode>, s0: Server, timeout: int)
    requires s0.batch == [] && s0.deadlines == DeadlinesOf(m)
    ensures CallbacksDone(m, [], 0, s0, s0) && FiringRuns(s0, [], s0, timeout)
  {
  }

  lemma FiringRunsOn(s0: Server, fired: seq<TimerNode>, k: nat, s: Server, t: Server, timeout: int)
    requires k < |fired| && FiringRuns(s0, fired[..k], s, timeout) && s.pool == s0.pool
    requires Apply(s, Fire(fired[k].id), timeout) == Some(t)
    ensures FiringRuns(s0, fired[..k + 1], t, timeout)
  {
    assert fired[..k + 1][..k] == fired[..k] && fired[..k + 1] == fired[..k] + [fired[k]];
    RunThen(s0, Fires(fired[..k]), s, Fire(fired[k].id), t, timeout);
  }

  function Fires(fired: seq<TimerNode>): seq<Step> {
    if fired == [] then [] else Fires(fired[..|fired| - 1]) + [Fire(fired[|fired| - 1].id)]
  }

  /** The steps of a tick: time passes, then the nodes that are due fire. */
  function Ticking(nanos: nat, fired: seq<TimerNode>): seq<Step> {
    [Pass(nanos)] + Fires(fired)
  }

  lemma TickRuns(s: Server, nanos: nat, fired: seq<TimerNode>, t: Server, timeout: int)
    requires FiringRuns(s.(now := s.now + nanos), fired, t, timeout)
    ensures Run(s, Ticking(nanos, fired), timeout) == Some(t)
    ensures Prompt(s, Ticking(nanos, fired), timeout) <==> Taskless(fired, s.pool)
  {
    assert Ticking(nanos, fired)[1..] == Fires(fired);
  }

  /** The assumption about the schedule: no connection that fires has a task queued or running. */
  ghost predicate Taskless(fired: seq<TimerNode>, pool: P.Pool) {
    forall node | node in fired :: TaskCount(pool, node.id) == 0
  }

  lemma DeadlinesWithout(m: map<int, TimerNode>, ids: set<int>)
    ensures DeadlinesOf(m - ids) == DeadlinesOf(m) - ids
  {
  }

  lemma DeadlinesUpdated(m: map<int, TimerNode>, id: int, node: TimerNode)
    ensures DeadlinesOf(m[id := node]) == DeadlinesOf(m)[id := node.expires]
  {
  }

  function Dispatched(s: Server, e: Event, at: int, w: nat, timeout: int): Option<Server> {
    if e.hup then Some(Closed(s, e.fd))
    else
      match Dealt(s, if e.readable then OnRead(e.fd) else OnWrite(e.fd), at, timeout)
      case None => None
      case Some(t) => Apply(t, Worker(P.NotifyOne(w)), timeout)
  }

  /** Dispatching an event is handling it, and for a task the notification that follows. */
  lemma DispatchedIs(s: Server, at: int, w: nat, timeout: int)
    requires s.batch != [] && s.now <= at
    requires s.batch[0].hup || s.batch[0].readable || s.batch[0].writable
    requires Apply(s, Handle(at), timeout).Some?
    ensures Dispatched(s.(batch := s.batch[1..]), s.batch[0], at, w, timeout)
         == if s.batch[0].hup then Apply(s, Handle(at), timeout)
            else Apply(Apply(s, Handle(at), timeout).value, Worker(P.NotifyOne(w)), timeout)
  {
  }

  /** A handled event, and the notification that follows, leave a sound server. */
  /** One task more, behind all others, and the whole timeout for its connection from now on. */
  predicate DidDeal(s: Server, task: Task, at: int, timeout: int, t: Server) {
    && t.pool.tasks == s.pool.tasks + [task]
    && t.deadlines == if timeout <= 0 then s.deadlines else s.deadlines[task.fd := at + timeout * 1_000_000]
  }

  lemma DealtTells(s: Server, task: Task, at: int, w: nat, timeout: int, t: Server)
    requires var dealt := Dealt(s, task, at, timeout);
             dealt.Some? && Apply(dealt.value, Worker(P.NotifyOne(w)), timeout) == Some(t)
    ensures DidDeal(s, task, at, timeout, t)
  {
  }

  /** A hangup closes and queues nothing; else one task more, behind all others, and the whole timeout from now on. */
  predicate DidHandle(s: Server, e: Event, at: int, timeout: int, t: Server) {
    && (Open(t, e.fd) <==> !e.hup)
    && if e.hup then t.pool.tasks == s.pool.tasks && t.deadlines == s.deadlines
       else DidDeal(s, if e.readable then OnRead(e.fd) else OnWrite(e.fd), at, timeout, t)
  }

  lemma DispatchTells(s: Server, at: int, w: nat, timeout: int, t: Server)
    requires Inv(s, timeout) && s.batch != [] && s.now <= at
    requires Dispatched(s.(batch := s.batch[1..]), s.batch[0], at, w, timeout) == Some(t)
    ensures DidHandle(s, s.batch[0], at, timeout, t)
  {
    EventIsOwner(s, timeout);
  }

  lemma DispatchKeepsInv(s: Server, at: int, w: nat, timeout: int, t: Server)
    requires Inv(s, timeout) && s.batch != [] && s.now <= at
    requires Dispatched(s.(batch := s.batch[1..]), s.batch[0], at, w, timeout) == Some(t)
    ensures Inv(t, timeout) && Run(s, Handling(s.batch[0], at, w), timeout) == Some(t)
  {
    assert s.batch[0] in s.batch;
    HandleKeepsInv(s, at, timeout);
    DispatchedIs(s, at, w, timeout);
    var handled := Apply(s, Handle(at), timeout).value;
    if s.batch[0].hup {
      RunOne(s, Handle(at), handled, timeout);
    } else {
      WorkerKeepsInv(handled, P.NotifyOne(w), timeout);
      RunOne(s, Handle(at), handled, timeout);
      RunThen(s, [Handle(at)], handled, Worker(P.NotifyOne(w)), t, timeout);
      assert [Handle(at)] + [Worker(P.NotifyOne(w))] == [Handle(at), Worker(P.NotifyOne(w))];
    }
  }

  lemma RunNone(s: Server, timeout: int)
    ensures Run(s, [], timeout) == Some(s) && Prompt(s, [], timeout)
  {
  }

  lemma PoolIsSound(s: Server, timeout: int)
    requires Inv(s, timeout)
    ensures P.Inv(s.pool)
  {
  }

  lemma {:induction false} FiresEach(fired: seq<TimerNode>)
    ensures forall id | id in Ids(fired) :: Fire(id) in Fires(fired)
  {
    if fired != [] {
      var n := |fired| - 1;
      FiresEach(fired[..n]);
      forall id | id in Ids(fired) ensures Fire(id) in Fires(fired) {
        var node :| node in fired && node.id == id;
        assert node == fired[n] || node in fired[..n];
      }
    }
  }

  lemma FiresAll(m: map<int, TimerNode>, fired: seq<TimerNode>, start: int, nanos: nat)
    requires forall id | id in m && m[id].expires - start < NANOS_PER_MS :: id in Ids(fired)
    ensures forall fd | fd in DeadlinesOf(m) && DeadlinesOf(m)[fd] - start < NANOS_PER_MS ::
              Fire(fd) in Ticking(nanos, fired)
  {
    FiresEach(fired);
  }

  lemma RunOne(s: Server, step: Step, t: Server, timeout: int)
    requires Apply(s, step, timeout) == Some(t)
    ensures Run(s, [step], timeout) == Some(t)
  {
    assert [step][1..] == [];
  }

  /** The steps of handling an event: a task that is queued is notified of afterwards. */
  function Handling(e: Event, at: int, w: nat): seq<Step> {
    if e.hup then [Handle(at)] else [Handle(at), Worker(P.NotifyOne(w))]
  }

  lemma EventIsOwner(s: Server, timeout: int)
    requires Inv(s, timeout) && s.batch != []
    ensures Open(s, s.batch[0].fd)
    ensures s.batch[0].hup || s.batch[0].readable || s.batch[0].writable
    ensures timeout > 0 ==> s.batch[0].fd in s.deadlines
    ensures timeout > 0 ==> s.deadlines[s.batch[0].fd] <= s.now + timeout * NANOS_PER_MS
  {
    assert Owners(s, s.batch[0].fd) == if Open(s, s.batch[0].fd) then 1 else 0;
  }

  lemma FiredNodes(h: seq<TimerNode>, ref: map<int, nat>, fired: seq<TimerNode>)
    requires Indexed(h, ref) && (forall node | node in fired :: node in h)
    ensures forall node | node in fired :: node.id in Entries(h, ref) && Entries(h, ref)[node.id] == node
  {
    forall node | node in fired ensures node.id in Entries(h, ref) && Entries(h, ref)[node.id] == node {
      EntryOf(h, ref, node);
    }
  }

  lemma NextFires(m: map<int, TimerNode>, fired: seq<TimerNode>, k: nat, s: Server, timeout: int)
    requires k < |fired| && DistinctIds(fired) && Filed(m)
    requires forall node | node in fired :: node.id in m && m[node.id] == node && Due(node, s.now)
    requires s.deadlines == DeadlinesOf(m) - Ids(fired[..k]) && s.batch == []
    ensures fired[k].cb.fd == fired[k].id && Apply(s, Fire(fired[k].id), timeout).Some?
    ensures Ids(fired[..k + 1]) == Ids(fired[..k]) + {fired[k].id}
  {
    assert fired[..k + 1] == fired[..k] + [fired[k]];
    assert fired[k] in fired;
    forall node | node in fired[..k] ensures node.id != fired[k].id {
      var j :| 0 <= j < k && fired[j] == node;
    }
  }

  lemma IdleAfterTick(h: seq<TimerNode>, ref: map<int, nat>, s: Server, timeout: int)
    requires Inv(s, timeout) && timeout > 0 && Indexed(h, ref) && s.deadlines == DeadlinesOf(Entries(h, ref))
    requires forall node | node in h :: !Due(node, s.now)
    ensures forall fd | Open(s, fd) :: s.now - s.heard[fd] <= (timeout - 1) * NANOS_PER_MS
  {
    forall id | id in s.deadlines ensures s.deadlines[id] - s.now >= NANOS_PER_MS {
      assert h[ref[id]] in h;
    }
    IdleConnectionsAreClosed(s, timeout);
  }
}

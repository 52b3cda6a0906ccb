/** The server with the connection objects it serves: its methods take exactly the moves of the site. */
module Sites {
  import opened Options
  import opened Clocks
  import opened Tasks
  import opened Sockets
  import opened Requests
  import opened Responses
  import opened Talks
  import opened Connections
  import opened TimerHeap
  import opened Timers
  import opened Servers
  import opened ServerSpec
  import opened Sides
  import opened SiteSpec
  import P = ThreadPools

  function Parts(c: HttpConn): set<object> {
    {c, c.readBuff, c.writeBuff, c.request, c.response, c.sock}
  }

  class Site {
    const server: HttpServer
    var conns: map<int, HttpConn>
    ghost var Repr: set<object>  // every object of every connection

    /** Connections are well formed and share nothing with each other or with the server. */
    ghost predicate Apart()
      reads this, Repr
    {
      && (forall f | f in conns :: Parts(conns[f]) <= Repr && conns[f].Valid())
      && (forall f, g | f in conns && g in conns && f != g :: Parts(conns[f]) !! Parts(conns[g]))
      && {this, server, server.timer, server.pool, server.clock} !! Repr
    }

    ghost function Talks(): (talks: map<int, Talk>)
      reads this, Repr
      requires Apart()
    {
      map f | f in conns :: conns[f].View()
    }

    /** A connection on the writing side has its vectors set; a closed one has no file. */
    ghost predicate Tidy(s: Server)
      reads this, Repr
      requires Apart()
    {
      forall f | f in conns ::
        if Open(s, f) then OnSide(s, f, Out) ==> conns[f].Sending() else conns[f].response.mmFile == None
    }

    ghost function View(): SiteState
      reads this, Repr, server, server.timer, server.pool, server.clock
      requires Apart() && server.timer.Valid()
    {
      SiteState(server.View(), Talks())
    }

    ghost predicate Valid()
      reads this, Repr, server, server.timer, server.pool, server.clock
    {
      server.Valid() && Apart() && Tidy(server.View()) && Sound(View(), server.timeoutMS)
    }

    constructor (server: HttpServer, threads: nat, start: int)
      requires server.Valid() && server.View() == Started(threads, start)
      ensures Valid() && this.server == server && conns == map[] && Repr == {}
      ensures View() == SiteState(Started(threads, start), map[])
    {
      this.server := server;
      conns := map[];
      Repr := {};
      new;
      assert Talks() == map[];
    }

    // ---------- bytes arrive ----------

    method Hear(fd: int, bytes: string)
      requires Valid() && fd in conns
      modifies Parts(conns[fd])
      ensures Valid() && conns == old(conns) && Repr == old(Repr)
      ensures SiteStep(old(View()), Move.Hear(fd, bytes), View(), server.timeoutMS)
    {
      hide Sound, OnSide, SiteStep, Arrive, ServerSpec.Inv, Filed, HeapOrdered, Indexed;
      ghost var s := View();
      conns[fd].Receive(bytes);
      OneTouched(fd);
      ServerUntouched();
      HearIs(s, fd, bytes, View(), server.timeoutMS);
    }

    /** What touches one connection leaves the others as they were. */
    twostate lemma OneTouched(fd: int)
      requires old(Apart()) && unchanged(this) && fd in conns && conns[fd].Valid()
      requires forall o | o in Repr && o !in Parts(conns[fd]) :: unchanged(o)
      ensures Apart() && Talks() == old(Talks())[fd := conns[fd].View()]
      ensures forall f | f in conns && f != fd ::
                && conns[f].Sending() == old(conns[f].Sending())
                && conns[f].response.mmFile == old(conns[f].response.mmFile)
    {
      forall f | f in conns && f != fd
        ensures conns[f].Valid() && conns[f].View() == old(conns[f].View())
      {
        assert Parts(conns[f]) !! Parts(conns[fd]);
      }
      OneChanged(fd, old(Talks()));
    }

    /** With one connection changed, and the others not, the talks are changed in one place. */
    lemma OneChanged(fd: int, before: map<int, Talk>)
      requires Apart() && fd in conns && before.Keys + {fd} == conns.Keys
      requires forall f | f in conns && f != fd :: conns[f].View() == before[f]
      ensures Talks() == before[fd := conns[fd].View()]
    {
    }

    /** Connections are no part of the server. */
    twostate lemma ServerUntouched()
      requires unchanged(server) && unchanged(server.timer) && unchanged(server.pool) && unchanged(server.clock)
      requires old(server.timer.Valid())
      ensures server.timer.Valid() && server.View() == old(server.View()) && (old(server.Valid()) ==> server.Valid())
    {
      hide ServerSpec.Inv, Filed, HeapOrdered, Indexed;
    }

    // ---------- a worker's task ----------

    /** What the handler of a task does to its connection; Close unmaps the file. */
    method Handle(c: HttpConn, task: Task, t: Target) returns (action: Action)
      requires c.Valid() && Servable(t) && (task.OnWrite? ==> c.Sending())
      modifies Parts(c)
      ensures c.Valid() && TaskStep(task, old(c.View()), t, action, c.View())
      ensures action == ArmOut ==> c.Sending()
      ensures action == Close ==> c.response.mmFile == None
    {
      hide ReadStep, WriteStep;
      match task {
        case OnRead(_) =>
          ghost var errno;
          action, errno := c.OnRead(t);
        case OnWrite(_) =>
          ghost var n, ret, errno;
          action, n, ret, errno := c.OnWrite(t);
      }
      ghost var v := c.View();
      assert HandlerStep(task, old(c.View()), t, action, v);
      if action == Close {
        c.Close();
      }
    }

    /** A worker runs its task: one move of the site, on the task's own connection. */
    method RunTask(w: nat, target: Target) returns (action: Action)
      requires Valid() && Servable(target)
      requires w < |server.pool.workers| && server.pool.workers[w].Running?
      modifies server`users, server`userCount, server`registered, server`armed, server.pool, Repr
      ensures Valid() && conns == old(conns) && Repr == old(Repr)
      ensures SiteStep(old(View()), Work(w, target, action), View(), server.timeoutMS)
    {
      hide Sound, TaskStep, SiteStep, ServerSpec.Inv, Filed, HeapOrdered, Indexed, TidyBut;
      ghost var s := View();
      InvOfSound(s, server.timeoutMS);
      action := HandleTask(w, target);
      CommitTask(w, action);
      WorkIs(s, w, target, action, View(), server.timeoutMS);
      TidyAfterWork(s.server, w, action);
    }

    /** The server's part: it changes no connection. */
    method CommitTask(w: nat, action: Action)
      requires server.Valid() && Apart() && w < |server.pool.workers| && server.pool.workers[w].Running?
      requires TidyBut(server.View(), server.pool.workers[w].task.fd, action)
      modifies server`users, server`userCount, server`registered, server`armed, server.pool
      ensures server.Valid() && Apply(old(server.View()), Finish(w, action), server.timeoutMS) == Some(server.View())
      ensures Apart() && Talks() == old(Talks())
      ensures var s := old(server.View()); TidyBut(s, s.pool.workers[w].task.fd, action)
    {
      hide ServerSpec.Inv, Apply, Filed, HeapOrdered, Indexed, OnSide;
      server.FinishTask(w, action);
    }

    /** The handler's part: it changes its own connection, as its handler does, and no other. */
    method HandleTask(w: nat, t: Target) returns (action: Action)
      requires Valid() && Servable(t)
      requires w < |server.pool.workers| && server.pool.workers[w].Running?
      modifies Repr
      ensures Apart() && server.Valid() && server.View() == old(server.View()) && conns == old(conns)
      ensures Repr == old(Repr) && TidyBut(server.View(), server.pool.workers[w].task.fd, action)
      ensures var task := server.pool.workers[w].task;
              && task.fd in conns && Talks() == old(Talks())[task.fd := conns[task.fd].View()]
              && TaskStep(task, old(Talks())[task.fd], t, action, conns[task.fd].View())
    {
      hide Sound, Accounted, AtRest, InFlow, TaskStep, Filed, HeapOrdered, Indexed, ServerSpec.Inv, OnSide;
      var task := server.pool.workers[w].task;
      TaskHasConnection(View(), w, server.timeoutMS);
      action := Handle(conns[task.fd], task, t);
      OneTouched(task.fd);
      ServerUntouched();
    }

    /** Tidy, but for the connection whose task is about to end with this decision. */
    ghost predicate TidyBut(s: Server, fd: int, action: Action)
      reads this, Repr
      requires Apart()
    {
      && (forall f | f in conns && f != fd ::
            if Open(s, f) then OnSide(s, f, Out) ==> conns[f].Sending() else conns[f].response.mmFile == None)
      && (fd in conns && action == ArmOut ==> conns[fd].Sending())
      && (fd in conns && action == Close ==> conns[fd].response.mmFile == None)
    }

    lemma TidyAfterWork(s: Server, w: nat, action: Action)
      requires Apart() && Inv(s, server.timeoutMS) && w < |s.pool.workers| && s.pool.workers[w].Running?
      requires TidyBut(s, s.pool.workers[w].task.fd, action)
      requires Apply(s, Finish(w, action), server.timeoutMS).Some?
      ensures Tidy(Apply(s, Finish(w, action), server.timeoutMS).value)
    {
      hide OnSide;
      var fd := s.pool.workers[w].task.fd;
      var t := Apply(s, Finish(w, action), server.timeoutMS).value;
      TaskIsOwner(s, w, server.timeoutMS);
      FinishSetsSide(s, w, action, server.timeoutMS, Out);
      forall f | f in conns
        ensures if Open(t, f) then OnSide(t, f, Out) ==> conns[f].Sending() else conns[f].response.mmFile == None
      {
        if f != fd {
          OthersKeepSides(s, Finish(w, action), server.timeoutMS, f, Out);
          FinishClosesNone(s, w, action, server.timeoutMS, f);
        } else {
          ClosesItsOwn(s, w, action, server.timeoutMS);
        }
      }
    }

    // ---------- clients come ----------

    /**
     A new client. The connection object of a descriptor used before is used again, with whatever the
     second vector held.
     */
    method Accept(fd: int, bytes: string)
      requires Valid() && 0 < fd && !Open(server.View(), fd) && server.userCount < MAX_FD
      modifies this, server, server.timer, server.clock, Repr
      ensures Valid() && fd in conns && conns.Keys == old(conns.Keys) + {fd}
      ensures old(Repr) <= Repr && fresh(Repr - old(Repr))
      ensures forall f | f in old(conns) :: conns[f] == old(conns[f])
      ensures SiteStep(old(View()), Welcome(fd, server.clock.time, bytes), View(), server.timeoutMS)
    {
      hide Sound, SiteStep, ServerSpec.Inv, Apply, Filed, HeapOrdered, Indexed, Fresh, OnSide;
      ghost var s := View();
      InvOfSound(s, server.timeoutMS);
      Connect(fd, bytes);
      Register(fd);
      WelcomeIs(s, fd, server.clock.time, bytes, View(), server.timeoutMS);
    }

    /** The connection object, ready for its client. */
    method Connect(fd: int, bytes: string)
      requires server.Valid() && Apart() && Tidy(server.View()) && !Open(server.View(), fd)
      modifies this, Repr
      ensures server.Valid() && server.View() == old(server.View()) && Apart() && Tidy(server.View())
      ensures fd in conns && conns.Keys == old(conns.Keys) + {fd}
      ensures old(Repr) <= Repr && fresh(Repr - old(Repr))
      ensures forall f | f in old(conns) :: conns[f] == old(conns[f])
      ensures Talks() == old(Talks())[fd := conns[fd].View()] && Fresh(old(Talks()), fd, bytes, conns[fd].View())
    {
      hide ServerSpec.Inv, Filed, HeapOrdered, Indexed, OnSide, Fresh;
      if fd in conns {
        Reuse(fd, bytes);
        assert conns.Keys == old(conns.Keys) + {fd};
      } else {
        Introduce(fd, bytes);
      }
    }

    method Reuse(fd: int, bytes: string)
      requires server.Valid() && Apart() && Tidy(server.View()) && !Open(server.View(), fd) && fd in conns
      modifies Parts(conns[fd])
      ensures server.Valid() && server.View() == old(server.View()) && Apart() && Tidy(server.View())
      ensures Talks() == old(Talks())[fd := conns[fd].View()] && Fresh(old(Talks()), fd, bytes, conns[fd].View())
    {
      hide ServerSpec.Inv, Filed, HeapOrdered, Indexed, OnSide;
      conns[fd].Init(bytes);
      OneTouched(fd);
      ServerUntouched();
    }

    method Introduce(fd: int, bytes: string)
      requires server.Valid() && Apart() && Tidy(server.View()) && !Open(server.View(), fd) && fd !in conns
      modifies this
      ensures server.Valid() && server.View() == old(server.View()) && Apart() && Tidy(server.View())
      ensures fd in conns && conns == old(conns)[fd := conns[fd]]
      ensures old(Repr) <= Repr && fresh(Repr - old(Repr))
      ensures Talks() == old(Talks())[fd := conns[fd].View()] && Fresh(old(Talks()), fd, bytes, conns[fd].View())
    {
      hide ServerSpec.Inv, Filed, HeapOrdered, Indexed, OnSide;
      var c := NewConn(bytes);
      Enlist(fd, c, server.View());
      ServerUntouched();
    }

    static method NewConn(bytes: string) returns (c: HttpConn)
      ensures fresh(Parts(c)) && c.Valid() && c.response.mmFile == None
      ensures c.View() == NewTalk(bytes, FRESH, c.View().stale)
    {
      var sock := new Socket();
      sock.incoming := bytes;
      c := new HttpConn(sock);
    }

    method Enlist(fd: int, c: HttpConn, ghost s: Server)
      requires Apart() && Tidy(s) && !Open(s, fd) && fd !in conns
      requires c.Valid() && c.response.mmFile == None
      requires Parts(c) !! Repr && Parts(c) !! {this, server, server.timer, server.pool, server.clock}
      modifies this
      ensures Apart() && Tidy(s)
      ensures Repr == old(Repr) + Parts(c)
      ensures conns == old(conns)[fd := c] && c.View() == old(c.View())
      ensures Talks() == old(Talks())[fd := c.View()]
    {
      hide ServerSpec.Inv, Filed, HeapOrdered, Indexed, OnSide;
      ghost var before := Talks();
      conns := conns[fd := c];
      Repr := Repr + Parts(c);
      OneChanged(fd, before);
    }

    /** The server's part of accept. */
    method Register(fd: int)
      requires server.Valid() && Apart() && Tidy(server.View()) && 0 < fd && !Open(server.View(), fd)
      requires server.userCount < MAX_FD && fd in conns
      modifies server, server.timer, server.clock
      ensures server.Valid() && Apart() && Tidy(server.View()) && Talks() == old(Talks())
      ensures var accepted := Apply(old(server.View()), ServerSpec.Accept(fd, server.clock.time), server.timeoutMS);
              accepted == Some(server.View())
    {
      hide ServerSpec.Inv, Apply, Filed, HeapOrdered, Indexed, OnSide;
      ghost var s := server.View();
      server.AddClient(fd);
      TidyAfterAccept(s, fd, server.clock.time);
    }

    lemma TidyAfterAccept(s: Server, fd: int, at: int)
      requires Apart() && Tidy(s) && Inv(s, server.timeoutMS) && s.userCount < MAX_FD && fd in conns
      requires Apply(s, ServerSpec.Accept(fd, at), server.timeoutMS).Some?
      ensures Tidy(Apply(s, ServerSpec.Accept(fd, at), server.timeoutMS).value)
    {
      hide OnSide;
      var t := Apply(s, ServerSpec.Accept(fd, at), server.timeoutMS).value;
      AcceptSetsSide(s, fd, at, server.timeoutMS, Out);
      forall f | f in conns
        ensures if Open(t, f) then OnSide(t, f, Out) ==> conns[f].Sending() else conns[f].response.mmFile == None
      {
        if f != fd {
          OthersKeepSides(s, ServerSpec.Accept(fd, at), server.timeoutMS, f, Out);
        }
      }
    }

    // ---------- the main thread ----------

    /** The connections whose vectors are set for what is unsent, and those without a file. */
    ghost function Setting(): set<int>
      reads this, Repr
      requires Apart()
    {
      set f | f in conns && conns[f].Sending()
    }

    ghost function Unmapped(): set<int>
      reads this, Repr
      requires Apart()
    {
      set f | f in conns && conns[f].response.mmFile == None
    }

    lemma TidyIs(s: Server)
      requires Apart()
      ensures Tidy(s) <==> TidySets(s, conns.Keys, Setting(), Unmapped())
    {
      hide OnSide;
    }

    /** The server took quiet steps that closed these connections, and their objects were closed: one move. */
    lemma MainIs(s: SiteState, steps: seq<Step>, fds: set<int>, setting: set<int>, unmapped: set<int>)
      requires server.Valid() && Apart() && Sound(s, server.timeoutMS)
      requires Quiet(steps) && Run(s.server, steps, server.timeoutMS) == Some(server.View())
      requires Prompt(s.server, steps, server.timeoutMS) && TidySets(s.server, s.talks.Keys, setting, unmapped)
      requires DroppedIn(s.talks, Talks(), fds)
      requires setting - fds <= Setting() && unmapped <= Unmapped() && fds * conns.Keys <= Unmapped()
      requires forall f :: Open(server.View(), f) <==> Open(s.server, f) && f !in fds
      ensures Valid() && SiteStep(s, Main(steps), View(), server.timeoutMS)
    {
      hide Sound, ServerSpec.Inv, OnSide, Run, Prompt;
      forall f | f in conns
        ensures if Open(server.View(), f) then OnSide(server.View(), f, Out) ==> f in Setting() else f in Unmapped()
      {
        QuietKeepsSides(s.server, steps, server.timeoutMS, f, Out);
      }
      TidyIs(server.View());
      DroppedAreKept(server.View(), s.talks, Talks(), fds);
      MainKeepsSound(s, steps, View(), server.timeoutMS);
    }

    /** The same when none was closed. */
    lemma Settled(s: SiteState, steps: seq<Step>)
      requires server.Valid() && Apart() && Tidy(s.server) && Talks() == s.talks && Sound(s, server.timeoutMS)
      requires Quiet(steps) && Run(s.server, steps, server.timeoutMS) == Some(server.View())
      requires forall step | step in steps :: !step.Fire?
      requires forall fd :: Open(server.View(), fd) <==> Open(s.server, fd)
      ensures Valid() && SiteStep(s, Main(steps), View(), server.timeoutMS)
    {
      hide Sound, ServerSpec.Inv, OnSide, SiteStep, Run, Prompt;
      NothingFires(s.server, steps, server.timeoutMS);
      TidyIs(s.server);
      MainIs(s, steps, {}, Setting(), Unmapped());
    }

    /** Close, on the object of a descriptor. */
    method CloseObject(fd: int)
      requires Apart()
      modifies Repr
      ensures conns == old(conns) && Repr == old(Repr) && Apart() && DroppedIn(old(Talks()), Talks(), {fd})
      ensures old(Setting()) - {fd} <= Setting() && old(Unmapped()) + {fd} * conns.Keys <= Unmapped()
    {
      hide Dropped;
      if fd in conns {
        conns[fd].Close();
        OneTouched(fd);
        forall f | f in old(Setting()) - {fd} ensures f in Setting() {
        }
      }
    }

    method Wait(events: seq<Event>)
      requires Valid() && server.batch == [] && Reportable(server.armed, events)
      modifies server`batch, server`armed
      ensures Valid() && server.batch == events
      ensures SiteStep(old(View()), Main([Deliver(events)]), View(), server.timeoutMS)
    {
      hide Sound, ServerSpec.Inv, OnSide, SiteStep;
      ghost var s := View();
      server.Wait(events);
      RunOne(s.server, Deliver(events), server.View(), server.timeoutMS);
      Settled(s, [Deliver(events)]);
    }

    /** A worker's turn: it takes a task, or waits. */
    method PoolTurn(w: nat)
      requires Valid() && w < |server.pool.workers| && server.pool.workers[w] == P.Ready
      modifies server.pool
      ensures Valid() && SiteStep(old(View()), Main([Worker(P.Turn(w))]), View(), server.timeoutMS)
    {
      hide Sound, ServerSpec.Inv, OnSide, SiteStep;
      ghost var s := View();
      server.WorkerTurn(w);
      RunOne(s.server, Worker(P.Turn(w)), server.View(), server.timeoutMS);
      Settled(s, [Worker(P.Turn(w))]);
    }

    /** The next event; a hangup closes the connection object too. */
    method HandleEvent() returns (ghost steps: seq<Step>)
      requires Valid() && server.batch != []
      modifies server, server.timer, server.clock, server.pool, Repr
      ensures Valid() && conns == old(conns) && Repr == old(Repr) && server.batch == old(server.batch)[1..]
      ensures SiteStep(old(View()), Main(steps), View(), server.timeoutMS)
      ensures exists w :: steps == Handling(old(server.batch)[0], server.clock.time, w)
    {
      hide Sound, ServerSpec.Inv, OnSide, SiteStep, Run, Prompt, Filed, HeapOrdered, Indexed, DroppedIn, TidySets;
      ghost var s, setting, unmapped := View(), Setting(), Unmapped();
      TidyIs(s.server);
      assert s.talks.Keys == conns.Keys;
      var e := server.batch[0];
      steps := ServerHandles();
      NothingFires(s.server, steps, server.timeoutMS);
      label Handled:
      if e.hup {
        CloseObject(e.fd);
        ServerUntouched@Handled();
        MainIs(s, steps, {e.fd}, setting, unmapped);
      } else {
        NoneDropped(s.talks);
        MainIs(s, steps, {}, setting, unmapped);
      }
    }

    /** The server's part: it changes no connection object. */
    method ServerHandles() returns (ghost steps: seq<Step>)
      requires server.Valid() && Apart() && server.batch != []
      modifies server, server.timer, server.clock, server.pool
      ensures server.Valid() && Apart() && Talks() == old(Talks())
      ensures Setting() == old(Setting()) && Unmapped() == old(Unmapped())
      ensures server.batch == old(server.batch)[1..] && Quiet(steps) && forall step | step in steps :: !step.Fire?
      ensures Run(old(server.View()), steps, server.timeoutMS) == Some(server.View())
      ensures exists w :: steps == Handling(old(server.batch)[0], server.clock.time, w)
      ensures var e := old(server.batch)[0];
              forall fd :: Open(server.View(), fd) <==> Open(old(server.View()), fd) && !(e.hup && fd == e.fd)
    {
      hide ServerSpec.Inv, Run, Prompt, Filed, HeapOrdered, Indexed;
      ghost var w;
      w, steps := server.HandleEvent();
    }

    /**
     A tick: the server's, and Close on the objects of the connections that fired. Under the assumption
     about the schedule it is one move of the site.
     */
    method Tick() returns (fired: seq<TimerNode>, prompt: bool)
      requires Valid() && server.batch == []
      modifies server, server.timer, server.clock, Repr
      ensures Apart() && conns == old(conns) && Repr == old(Repr) && old(server.clock.time) <= server.clock.time
      ensures server.timer.Valid()
      ensures DueBetween(old(server.View()), fired, server.clock.time)
      ensures forall fd :: Open(server.View(), fd) <==> Open(old(server.View()), fd) && fd !in Ids(fired)
      ensures server.View().deadlines == old(server.View()).deadlines - Ids(fired)
      ensures prompt <==> Taskless(fired, old(server.pool.View()))
      ensures prompt ==> Valid() && server.batch == []
      ensures prompt ==>
        var steps := Ticking(server.clock.time - old(server.clock.time), fired);
        SiteStep(old(View()), Main(steps), View(), server.timeoutMS)
    {
      hide Sound, ServerSpec.Inv, OnSide, SiteStep, Run, Prompt, Filed, HeapOrdered, Indexed, DroppedIn, TidySets;
      ghost var s, setting, unmapped := View(), Setting(), Unmapped();
      TidyIs(s.server);
      assert s.talks.Keys == conns.Keys;
      fired, prompt := ServerTicks();
      CloseFired(fired);
      if prompt {
        QuietTick(server.clock.time - old(server.clock.time), fired);
        MainIs(s, Ticking(server.clock.time - old(server.clock.time), fired), Ids(fired), setting, unmapped);
      }
    }

    /**
     A client's first request: accept, delivery, dispatch, a worker's turn and its task, one after the other,
     are a run of the site; and when the task ends waiting to write, the client's bytes were answered.
     */
    method Visit(fd: int, bytes: string, w: nat, target: Target)
      returns (action: Action, ghost states: seq<SiteState>, ghost moves: seq<Move>)
      requires Valid() && 0 < fd && !Open(server.View(), fd) && server.userCount < MAX_FD && Servable(target)
      requires server.batch == [] && server.pool.tasks == []
      requires w < |server.pool.workers| && server.pool.workers[w] == P.Ready
      modifies this, server, server.timer, server.pool, server.clock, Repr
      ensures Valid() && fresh(Repr - old(Repr)) && fd in conns
      ensures IsRun(states, moves, server.timeoutMS) && |moves| == 5
      ensures states[0] == old(View()) && states[5] == View()
      ensures moves[0].Welcome? && moves[0].fd == fd && moves[0].bytes == bytes
      ensures moves[1] == Main([Deliver([Event(fd, false, true, false)])]) && moves[4] == Work(w, target, action)
      ensures action == ArmOut ==> conns[fd].View().texts == [bytes]
    {
      hide Sound, SiteStep, ServerSpec.Inv, Apply, Run, Prompt, Filed, HeapOrdered, Indexed, OnSide, IsRun;
      ghost var s0 := View();
      ghost var s1, s2, at, handling := Reach(fd, bytes, w);
      ghost var s3 := View();
      ghost var s4;
      action, s4 := Attend(fd, bytes, w, target);
      states := [s0, s1, s2, s3, s4, View()];
      moves := [Welcome(fd, at, bytes), Main([Deliver([Event(fd, false, true, false)])]), Main(handling),
                Main([Worker(P.Turn(w))]), Work(w, target, action)];
      FiveMoves(states, moves, server.timeoutMS);
    }

    /** The client is accepted, its bytes are reported, and a task is queued for them. */
    method Reach(fd: int, bytes: string, w: nat)
      returns (ghost s1: SiteState, ghost s2: SiteState, ghost at: int, ghost handling: seq<Step>)
      requires Valid() && 0 < fd && !Open(server.View(), fd) && server.userCount < MAX_FD
      requires server.batch == [] && server.pool.tasks == []
      requires w < |server.pool.workers| && server.pool.workers[w] == P.Ready
      modifies this, server, server.timer, server.pool, server.clock, Repr
      ensures Valid() && old(Repr) <= Repr && fresh(Repr - old(Repr)) && fd in conns
      ensures SiteStep(old(View()), Welcome(fd, at, bytes), s1, server.timeoutMS)
      ensures SiteStep(s1, Main([Deliver([Event(fd, false, true, false)])]), s2, server.timeoutMS)
      ensures SiteStep(s2, Main(handling), View(), server.timeoutMS)
      ensures forall step | step in handling :: !step.Fire?
      ensures server.pool.tasks == [OnRead(fd)] && w < |server.pool.workers| && server.pool.workers[w] == P.Ready
      ensures Unheard(View(), fd, bytes)
    {
      hide Sound, SiteStep, ServerSpec.Inv, Apply, Run, Prompt, Filed, HeapOrdered, Indexed, OnSide, Unheard;
      var event := Event(fd, false, true, false);
      ghost var s0 := View();
      Accept(fd, bytes);
      s1, at := View(), server.clock.time;
      Welcomed(s0, fd, at, bytes, s1, server.timeoutMS);
      Wait([event]);
      s2 := View();
      Delivered(s1, event, bytes, s2, server.timeoutMS);
      handling := HandleEvent();
      EventHandled(s2, event, handling, w, bytes, View(), server.timeoutMS);
    }

    /** A worker takes the task and runs it. */
    method Attend(fd: int, bytes: string, w: nat, target: Target) returns (action: Action, ghost s4: SiteState)
      requires Valid() && Servable(target) && server.pool.tasks == [OnRead(fd)]
      requires w < |server.pool.workers| && server.pool.workers[w] == P.Ready && Unheard(View(), fd, bytes)
      modifies server, server.pool, Repr
      ensures Valid() && conns == old(conns) && Repr == old(Repr)
      ensures SiteStep(old(View()), Main([Worker(P.Turn(w))]), s4, server.timeoutMS)
      ensures SiteStep(s4, Work(w, target, action), View(), server.timeoutMS)
      ensures fd in conns && (action == ArmOut ==> conns[fd].View().texts == [bytes])
    {
      hide Sound, SiteStep, ServerSpec.Inv, Apply, Run, Prompt, Filed, HeapOrdered, Indexed, OnSide, Unheard;
      ghost var s3 := View();
      PoolTurn(w);
      s4 := View();
      Taken(s3, fd, w, bytes, s4, server.timeoutMS);
      action := RunTask(w, target);
      Worked(s4, w, bytes, target, action, View(), server.timeoutMS);
    }

    method ServerTicks() returns (fired: seq<TimerNode>, prompt: bool)
      requires server.Valid() && Apart() && server.batch == []
      modifies server, server.timer, server.clock
      ensures Apart() && Talks() == old(Talks()) && Setting() == old(Setting()) && Unmapped() == old(Unmapped())
      ensures server.timer.Valid() && server.batch == [] && old(server.clock.time) <= server.clock.time
      ensures prompt <==> Taskless(fired, old(server.pool.View()))
      ensures prompt ==> server.Valid()
      ensures var steps := Ticking(server.clock.time - old(server.clock.time), fired);
              && Run(old(server.View()), steps, server.timeoutMS) == Some(server.View())
              && (prompt ==> Prompt(old(server.View()), steps, server.timeoutMS))
      ensures forall fd :: Open(server.View(), fd) <==> Open(old(server.View()), fd) && fd !in Ids(fired)
      ensures DueBetween(old(server.View()), fired, server.clock.time)
      ensures server.View().deadlines == old(server.View()).deadlines - Ids(fired)
    {
      hide ServerSpec.Inv, Run, Prompt, Filed, HeapOrdered, Indexed, Taskless;
      ghost var m := server.timer.View();
      fired, prompt := server.Tick();
      DeadlinesWithout(m, Ids(fired));
    }

    method CloseFired(fired: seq<TimerNode>)
      requires Apart() && server.timer.Valid()
      modifies Repr
      ensures conns == old(conns) && Repr == old(Repr) && Apart() && DroppedIn(old(Talks()), Talks(), Ids(fired))
      ensures old(Setting()) - Ids(fired) <= Setting() && old(Unmapped()) + Ids(fired) * conns.Keys <= Unmapped()
      ensures server.timer.Valid() && server.View() == old(server.View()) && (old(server.Valid()) ==> server.Valid())
    {
      hide DroppedIn;
      NoneDropped(Talks());
      var k := 0;
      while k < |fired|
        invariant 0 <= k <= |fired| && conns == old(conns) && Repr == old(Repr) && Apart()
        invariant DroppedIn(old(Talks()), Talks(), Ids(fired[..k]))
        invariant old(Setting()) - Ids(fired[..k]) <= Setting()
        invariant old(Unmapped()) + Ids(fired[..k]) * conns.Keys <= Unmapped()
      {
        ghost var talks := Talks();
        CloseObject(fired[k].id);
        IdsNext(fired, k);
        DroppedAgain(old(Talks()), talks, Talks(), Ids(fired[..k]), fired[k].id);
        k := k + 1;
      }
      assert fired[..k] == fired;
      ServerUntouched();
    }
  }

  /** Everything that was due when the tick began fired, and nothing that is not due at its end. */
  ghost predicate DueBetween(s: Server, fired: seq<TimerNode>, end: int) {
    && (forall fd | fd in s.deadlines && s.deadlines[fd] - s.now < NANOS_PER_MS :: fd in Ids(fired))
    && (forall node | node in fired :: Due(node, end) && node.id in s.deadlines && s.deadlines[node.id] == node.expires)
  }

  /** An open connection on the writing side has its vectors set, a closed one has no file. */
  ghost predicate TidySets(s: Server, fds: set<int>, setting: set<int>, unmapped: set<int>) {
    forall f | f in fds :: if Open(s, f) then OnSide(s, f, Out) ==> f in setting else f in unmapped
  }

  /** The talks of these connections were dropped, the others are as they were. */
  ghost predicate DroppedIn(talks: map<int, Talk>, talks': map<int, Talk>, fds: set<int>) {
    && talks'.Keys == talks.Keys
    && forall f | f in talks :: if f in fds then Dropped(talks[f], talks'[f]) else talks'[f] == talks[f]
  }

  lemma NoneDropped(talks: map<int, Talk>)
    ensures DroppedIn(talks, talks, {}) && DroppedIn(talks, talks, Ids([]))
  {
  }

  lemma DroppedAreKept(server: Server, talks: map<int, Talk>, talks': map<int, Talk>, fds: set<int>)
    requires DroppedIn(talks, talks', fds) && forall f | f in fds :: !Open(server, f)
    ensures TalksKept(server, talks, talks')
  {
    forall f | f in talks ensures Dropped(talks[f], talks[f]) {
    }
  }

  lemma DroppedAgain(a: map<int, Talk>, b: map<int, Talk>, c: map<int, Talk>, fds: set<int>, fd: int)
    requires DroppedIn(a, b, fds) && DroppedIn(b, c, {fd})
    ensures DroppedIn(a, c, fds + {fd})
  {
  }

  lemma IdsNext(fired: seq<TimerNode>, k: nat)
    requires k < |fired|
    ensures Ids(fired[..k + 1]) == Ids(fired[..k]) + {fired[k].id}
  {
    assert fired[..k + 1] == fired[..k] + [fired[k]];
  }

  lemma {:induction false} FiresAreFires(fired: seq<TimerNode>)
    ensures forall step | step in Fires(fired) :: step.Fire?
  {
    if fired != [] {
      FiresAreFires(fired[..|fired| - 1]);
    }
  }

  lemma QuietTick(nanos: nat, fired: seq<TimerNode>)
    ensures Quiet(Ticking(nanos, fired))
  {
    FiresAreFires(fired);
  }

  /** An open connection whose bytes wait with the kernel. */
  ghost predicate Unheard(s: SiteState, fd: int, bytes: string) {
    && Open(s.server, fd) && fd in s.talks
    && s.talks[fd].texts == [] && s.talks[fd].received == "" && s.talks[fd].incoming == bytes
  }

  lemma Welcomed(s: SiteState, fd: int, at: int, bytes: string, u: SiteState, timeout: int)
    requires SiteStep(s, Welcome(fd, at, bytes), u, timeout)
    ensures u.server.armed == s.server.armed[fd := In] && u.server.batch == s.server.batch
    ensures u.server.pool == s.server.pool && Unheard(u, fd, bytes)
  {
  }

  lemma RunOneIs(s: Server, step: Step, timeout: int)
    ensures Run(s, [step], timeout) == Apply(s, step, timeout)
  {
    assert [step][1..] == [];
  }

  /** A connection that is still open hears what it heard before. */
  lemma StillUnheard(s: SiteState, steps: seq<Step>, fd: int, bytes: string, u: SiteState, timeout: int)
    requires SiteStep(s, Main(steps), u, timeout) && Unheard(s, fd, bytes) && Open(u.server, fd)
    ensures Unheard(u, fd, bytes)
  {
  }

  lemma Delivered(s: SiteState, e: Event, bytes: string, u: SiteState, timeout: int)
    requires SiteStep(s, Main([Deliver([e])]), u, timeout) && Unheard(s, e.fd, bytes)
    ensures u.server.batch == [e] && u.server.pool == s.server.pool && Unheard(u, e.fd, bytes)
  {
    RunOneIs(s.server, Deliver([e]), timeout);
    StillUnheard(s, [Deliver([e])], e.fd, bytes, u, timeout);
  }

  lemma EventHandled(s: SiteState, e: Event, steps: seq<Step>, w: nat, bytes: string, u: SiteState, timeout: int)
    requires SiteStep(s, Main(steps), u, timeout) && s.server.batch == [e] && !e.hup && e.readable
    requires (exists at, woken :: steps == Handling(e, at, woken)) && Unheard(s, e.fd, bytes)
    requires w < |s.server.pool.workers| && s.server.pool.workers[w] == P.Ready && s.server.pool.tasks == []
    ensures u.server.pool.tasks == [OnRead(e.fd)] && |u.server.pool.workers| == |s.server.pool.workers|
    ensures u.server.pool.workers[w] == P.Ready && Unheard(u, e.fd, bytes)
    ensures forall step | step in steps :: !step.Fire?
  {
    var at, woken :| steps == Handling(e, at, woken);
    var queue, notify := Handle(at), Worker(P.NotifyOne(woken));
    assert steps == [queue] + [notify];
    RunAppends(s.server, [queue], [notify], timeout);
    RunOneIs(s.server, queue, timeout);
    RunOneIs(Apply(s.server, queue, timeout).value, notify, timeout);
    assert [] + [OnRead(e.fd)] == [OnRead(e.fd)];
    StillUnheard(s, steps, e.fd, bytes, u, timeout);
  }

  lemma Taken(s: SiteState, fd: int, w: nat, bytes: string, u: SiteState, timeout: int)
    requires SiteStep(s, Main([Worker(P.Turn(w))]), u, timeout) && s.server.pool.tasks == [OnRead(fd)]
    requires w < |s.server.pool.workers| && s.server.pool.workers[w] == P.Ready && Unheard(s, fd, bytes)
    ensures |u.server.pool.workers| == |s.server.pool.workers| && u.server.pool.workers[w] == P.Running(OnRead(fd))
    ensures Unheard(u, fd, bytes)
  {
    RunOneIs(s.server, Worker(P.Turn(w)), timeout);
    StillUnheard(s, [Worker(P.Turn(w))], fd, bytes, u, timeout);
  }

  lemma Worked(s: SiteState, w: nat, bytes: string, t: Target, action: Action, u: SiteState, timeout: int)
    requires SiteStep(s, Work(w, t, action), u, timeout) && s.server.pool.workers[w].task.OnRead?
    requires Unheard(s, s.server.pool.workers[w].task.fd, bytes)
    ensures var fd := s.server.pool.workers[w].task.fd;
            fd in u.talks && (action == ArmOut ==> u.talks[fd].texts == [bytes])
  {
    hide Answer, Parse;
    assert "" + bytes == bytes && [] + [bytes] == [bytes];
  }

  lemma FiveMoves(states: seq<SiteState>, moves: seq<Move>, timeout: int)
    requires |states| == 6 && |moves| == 5
    requires SiteStep(states[0], moves[0], states[1], timeout) && SiteStep(states[1], moves[1], states[2], timeout)
    requires SiteStep(states[2], moves[2], states[3], timeout) && SiteStep(states[3], moves[3], states[4], timeout)
    requires SiteStep(states[4], moves[4], states[5], timeout)
    requires forall k | 0 <= k < 5 && moves[k].Main? :: forall step | step in moves[k].steps :: !step.Fire?
    ensures IsRun(states, moves, timeout)
  {
    hide SiteStep;
    forall k | 0 <= k < 5 && moves[k].Main? ensures Prompt(states[k].server, moves[k].steps, timeout) {
      NothingFires(states[k].server, moves[k].steps, timeout);
    }
  }

  lemma HearIs(s: SiteState, fd: int, bytes: string, u: SiteState, timeout: int)
    requires Sound(s, timeout) && fd in s.talks
    requires u == SiteState(s.server, s.talks[fd := Arrive(s.talks[fd], bytes)])
    ensures Sound(u, timeout) && SiteStep(s, Move.Hear(fd, bytes), u, timeout)
  {
    HearKeepsSound(s, fd, bytes, u, timeout);
  }

  lemma TaskHasConnection(s: SiteState, w: nat, timeout: int)
    requires Sound(s, timeout) && w < |s.server.pool.workers| && s.server.pool.workers[w].Running?
    ensures var task := s.server.pool.workers[w].task;
            && Open(s.server, task.fd) && task.fd in s.talks
            && OnSide(s.server, task.fd, if task.OnRead? then In else Out)
  {
    hide OnSide;
    TaskIsOwner(s.server, w, timeout);
  }

  lemma WelcomeIs(s: SiteState, fd: int, at: int, bytes: string, u: SiteState, timeout: int)
    requires Sound(s, timeout) && s.server.userCount < MAX_FD
    requires Apply(s.server, ServerSpec.Accept(fd, at), timeout) == Some(u.server)
    requires fd in u.talks && u.talks == s.talks[fd := u.talks[fd]] && Fresh(s.talks, fd, bytes, u.talks[fd])
    ensures Sound(u, timeout) && SiteStep(s, Welcome(fd, at, bytes), u, timeout)
  {
    hide Sound, Fresh, Apply;
    WelcomeKeepsSound(s, fd, at, bytes, u, timeout);
  }

  lemma InvOfSound(s: SiteState, timeout: int)
    requires Sound(s, timeout)
    ensures Inv(s.server, timeout)
  {
  }

  lemma WorkIs(s: SiteState, w: nat, t: Target, action: Action, u: SiteState, timeout: int)
    requires Sound(s, timeout) && Apply(s.server, Finish(w, action), timeout) == Some(u.server)
    requires var task := s.server.pool.workers[w].task;
             && task.fd in s.talks && task.fd in u.talks && u.talks == s.talks[task.fd := u.talks[task.fd]]
             && TaskStep(task, s.talks[task.fd], t, action, u.talks[task.fd])
    ensures Sound(u, timeout) && SiteStep(s, Work(w, t, action), u, timeout)
  {
    hide Sound, TaskStep;
    WorkKeepsSound(s, w, t, action, u, timeout);
  }

  lemma FinishClosesNone(s: Server, w: nat, action: Action, timeout: int, fd: int)
    requires Apply(s, Finish(w, action), timeout).Some? && s.pool.workers[w].task.fd != fd
    ensures Open(Apply(s, Finish(w, action), timeout).value, fd) <==> Open(s, fd)
  {
  }

  lemma ClosesItsOwn(s: Server, w: nat, action: Action, timeout: int)
    requires Apply(s, Finish(w, action), timeout).Some? && Open(s, s.pool.workers[w].task.fd)
    ensures Open(Apply(s, Finish(w, action), timeout).value, s.pool.workers[w].task.fd) <==> action != Close
  {
  }
}

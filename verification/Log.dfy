/**
 The log: many writers that hold the log's mutex while they queue a line, and one thread that takes
 lines off the queue and takes the same mutex to write them to the file. Steps as in the deque.
 */
module Logs {
  import opened Options
  import opened BlockDeques

  datatype Holder = Nobody | Writer(w: nat) | Async

  /** What a writer is about to do; in every state but Outside it holds the log's mutex. */
  datatype WriterState =
    | Outside
    | Formatted(line: string)   // the line is in the buffer
    | Pushing(line: string)     // saw that the deque is not full
    | Direct(line: string)      // saw that it is full
    | Blocked(line: string)     // waits inside push_back
    | Leaving                   // only has to release the mutex

  datatype AsyncState = Popping | Holding(line: string) | Writing(line: string)

  datatype Entry = Entry(line: string, queued: bool)

  datatype Log = Log(
    mtx: Holder, writers: seq<WriterState>, async: AsyncState, deque: Deque,
    file: seq<Entry>, written: seq<string>)

  datatype Move =
    | Enter(w: nat, line: string)   // write: takes the mutex and formats
    | Visit(w: nat)                 // GetLevel and the like: takes the mutex, changes nothing here
    | CheckFull(w: nat)
    | PushBack(w: nat, wake: nat)
    | Fputs(w: nat)
    | Leave(w: nat)
    | AsyncPop(wake: nat)
    | AsyncLock
    | AsyncWrite
    | FlushQueue(wake: nat)         // flush after each write: notifies the consumer
    | SpuriousWake

  /** What the async thread does in the deque: it calls pop, or goes on after a wait. */
  function AsyncStep(d: Deque, wake: nat): Step
    requires |d.consumers| == 1
  {
    if d.consumers[0] == Woken then PopAgain(0, wake) else Pop(0, wake)
  }

  function Apply(s: Log, move: Move): Option<Log>
    requires |s.deque.producers| == |s.deque.pending|
  {
    match move
    case Enter(w, line) =>
      if w < |s.writers| && s.writers[w] == Outside && s.mtx == Nobody
      then Some(s.(mtx := Writer(w), writers := s.writers[w := Formatted(line)]))
      else None
    case Visit(w) =>
      if w < |s.writers| && s.writers[w] == Outside && s.mtx == Nobody
      then Some(s.(mtx := Writer(w), writers := s.writers[w := Leaving]))
      else None
    case CheckFull(w) =>
      if w < |s.writers| && s.writers[w].Formatted? then
        var line := s.writers[w].line;
        if |s.deque.deq| >= s.deque.capacity then Some(s.(writers := s.writers[w := Direct(line)]))
        else Some(s.(writers := s.writers[w := Pushing(line)]))
      else None
    case PushBack(w, wake) =>
      if w < |s.writers| && s.writers[w].Pushing? then
        var line := s.writers[w].line;
        match BlockDeques.Apply(s.deque, Push(w, Item(line, false), wake))
        case None => None
        case Some(d) =>
          if Is(d.producers, w, Idle)
          then Some(s.(deque := d, writers := s.writers[w := Leaving], written := s.written + [line]))
          else Some(s.(deque := d, writers := s.writers[w := Blocked(line)]))
      else None
    case Fputs(w) =>
      if w < |s.writers| && s.writers[w].Direct? then
        var line := s.writers[w].line;
        Some(s.(file := s.file + [Entry(line, false)], writers := s.writers[w := Leaving],
                written := s.written + [line]))
      else None
    case Leave(w) =>
      if w < |s.writers| && s.writers[w] == Leaving
      then Some(s.(mtx := Nobody, writers := s.writers[w := Outside]))
      else None
    case AsyncPop(wake) =>
      if s.async != Popping || |s.deque.consumers| != 1 then None
      else
        (match BlockDeques.Apply(s.deque, AsyncStep(s.deque, wake))
         case None => None
         case Some(d) => Some(s.(deque := d, async := if s.deque.deq == [] then Popping else Holding(s.deque.deq[0]))))
    case AsyncLock =>
      if s.async.Holding? && s.mtx == Nobody then Some(s.(mtx := Async, async := Writing(s.async.line))) else None
    case AsyncWrite =>
      if s.async.Writing? then Some(s.(file := s.file + [Entry(s.async.line, true)], mtx := Nobody, async := Popping))
      else None
    case FlushQueue(wake) =>
      (match BlockDeques.Apply(s.deque, Flush(wake))
       case None => None
       case Some(d) => Some(s.(deque := d)))
    case SpuriousWake =>
      (match BlockDeques.Apply(s.deque, SpuriousConsumer(0))
       case None => None
       case Some(d) => Some(s.(deque := d)))
  }

  function Opened(capacity: nat, writers: nat): Log {
    Log(Nobody, seq(writers, _ => Outside), Popping, BlockDeques.Opened(capacity, 1, writers), [], [])
  }

  /** The lines of the file that came through the queue, or that did not. */
  function Lines(file: seq<Entry>, queued: bool): seq<string> {
    if file == [] then []
    else
      var last := file[|file| - 1];
      Lines(file[..|file| - 1], queued) + if last.queued == queued then [last.line] else []
  }

  lemma LinesAppended(file: seq<Entry>, e: Entry, queued: bool)
    ensures Lines(file + [e], queued) == Lines(file, queued) + if e.queued == queued then [e.line] else []
  {
    assert (file + [e])[..|file|] == file;
  }

  function Hand(a: AsyncState): seq<string> {
    if a == Popping then [] else [a.line]
  }

  ghost predicate AllIdle(ts: seq<Status>) {
    forall i | 0 <= i < |ts| :: ts[i] == Idle
  }

  /** The deque has one consumer, no producer of it ever sleeps, and it is first in, first out. */
  ghost predicate DequeOk(d: Deque, writers: nat, async: AsyncState) {
    && BlockDeques.Inv(d) && Fifo(d)
    && |d.consumers| == 1 && |d.producers| == writers && AllIdle(d.producers)
    && (async != Popping ==> d.consumers[0] == Idle)
  }

  /** The log's mutex has one holder, and exactly the holder is inside. */
  ghost predicate MutexOk(mtx: Holder, ws: seq<WriterState>, async: AsyncState) {
    && (mtx.Writer? ==> mtx.w < |ws|)
    && (forall w | 0 <= w < |ws| :: ws[w] != Outside <==> mtx == Writer(w))
    && (async.Writing? <==> mtx == Async)
  }

  /** A writer that saw room still has it. */
  ghost predicate RoomOk(ws: seq<WriterState>, d: Deque) {
    forall w | 0 <= w < |ws| :: !ws[w].Blocked? && (ws[w].Pushing? ==> |d.deq| < d.capacity)
  }

  ghost predicate LinesOk(written: seq<string>, file: seq<Entry>, async: AsyncState,
                          pushed: seq<string>, popped: seq<string>)
  {
    && popped == Lines(file, true) + Hand(async)
    && (forall x :: multiset(written)[x] == multiset(Lines(file, false))[x] + multiset(pushed)[x])
  }

  ghost predicate Inv(s: Log) {
    && DequeOk(s.deque, |s.writers|, s.async)
    && MutexOk(s.mtx, s.writers, s.async)
    && RoomOk(s.writers, s.deque)
    && LinesOk(s.written, s.file, s.async, s.deque.pushed, s.deque.popped)
  }

  lemma IdleProducers(ts: seq<Status>, wake: nat)
    requires AllIdle(ts)
    ensures !AnyWaiting(ts) && CanNotify(ts, wake) && Notified(ts, wake) == ts
    ensures WokenCount(ts) == 0
  {
    if ts != [] {
      IdleProducers(ts[1..], wake);
    }
  }

  lemma OneConsumer(ts: seq<Status>)
    requires |ts| == 1
    ensures AnyWaiting(ts) <==> ts[0] == Waiting
    ensures WokenCount(ts) == if ts[0] == Woken then 1 else 0
  {
    assert ts == [ts[0]] && ts[1..] == [];
  }

  /** A writer that saw room never waits: only the holder of the log's mutex adds lines. */
  lemma PushNeverBlocks(s: Log, w: nat, wake: nat)
    requires Inv(s) && w < |s.writers| && s.writers[w].Pushing?
    ensures Apply(s, PushBack(w, wake)).Some? ==>
              Apply(s, PushBack(w, wake)).value.writers[w] == Leaving
              && Apply(s, PushBack(w, wake)).value.deque.producers == s.deque.producers
    ensures exists k: nat :: Apply(s, PushBack(w, k)).Some?
  {
    assert s.deque.producers[w] == Idle && s.deque.producers[w := Idle] == s.deque.producers;
    assert Is(s.deque.producers, w, Idle);
    var k: nat := if Waiting in s.deque.consumers then 0 else wake;
    assert CanNotify(s.deque.consumers, k);
    assert Apply(s, PushBack(w, k)).Some?;
  }

  lemma MutexKept(mtx: Holder, ws: seq<WriterState>, async: AsyncState, w: nat, v: WriterState)
    requires MutexOk(mtx, ws, async) && w < |ws|
    ensures mtx == Writer(w) && v != Outside ==> MutexOk(mtx, ws[w := v], async)
    ensures mtx == Writer(w) && v == Outside ==> MutexOk(Nobody, ws[w := v], async)
    ensures mtx == Nobody && v != Outside ==> MutexOk(Writer(w), ws[w := v], async)
    ensures ws[w] != Outside ==> mtx == Writer(w)
  {
  }

  lemma RoomKept(ws: seq<WriterState>, d: Deque, w: nat, v: WriterState)
    requires RoomOk(ws, d) && w < |ws| && !v.Blocked? && (v.Pushing? ==> |d.deq| < d.capacity)
    ensures RoomOk(ws[w := v], d)
  {
  }

  /** With the holder leaving, no writer is about to push. */
  lemma RoomWhenLeaving(mtx: Holder, ws: seq<WriterState>, async: AsyncState, w: nat, d: Deque)
    requires MutexOk(mtx, ws, async) && w < |ws| && mtx == Writer(w)
    ensures RoomOk(ws[w := Leaving], d)
  {
  }

  lemma LineQueued(written: seq<string>, file: seq<Entry>, async: AsyncState,
                   pushed: seq<string>, popped: seq<string>, line: string)
    requires LinesOk(written, file, async, pushed, popped)
    ensures LinesOk(written + [line], file, async, pushed + [line], popped)
  {
    assert multiset(written + [line]) == multiset(written) + multiset{line};
    assert multiset(pushed + [line]) == multiset(pushed) + multiset{line};
  }

  lemma LineDirect(written: seq<string>, file: seq<Entry>, async: AsyncState,
                   pushed: seq<string>, popped: seq<string>, line: string)
    requires LinesOk(written, file, async, pushed, popped)
    ensures LinesOk(written + [line], file + [Entry(line, false)], async, pushed, popped)
  {
    LinesAppended(file, Entry(line, false), true);
    LinesAppended(file, Entry(line, false), false);
    assert multiset(written + [line]) == multiset(written) + multiset{line};
    assert multiset(Lines(file, false) + [line]) == multiset(Lines(file, false)) + multiset{line};
    assert Lines(file, true) + [] == Lines(file, true);
  }

  lemma LineTaken(written: seq<string>, file: seq<Entry>, pushed: seq<string>, popped: seq<string>, line: string)
    requires LinesOk(written, file, Popping, pushed, popped)
    ensures LinesOk(written, file, Holding(line), pushed, popped + [line])
  {
    assert Lines(file, true) + [] == Lines(file, true);
  }

  lemma LineFiled(written: seq<string>, file: seq<Entry>, pushed: seq<string>, popped: seq<string>, line: string)
    requires LinesOk(written, file, Writing(line), pushed, popped)
    ensures LinesOk(written, file + [Entry(line, true)], Popping, pushed, popped)
  {
    LinesAppended(file, Entry(line, true), true);
    LinesAppended(file, Entry(line, true), false);
    assert Lines(file, false) + [] == Lines(file, false);
    assert Lines(file, true) + [line] + [] == Lines(file, true) + [line];
  }

  lemma PushKeepsDeque(d: Deque, n: nat, async: AsyncState, w: nat, line: string, wake: nat)
    requires DequeOk(d, n, async) && w < n && |d.deq| < d.capacity
    requires BlockDeques.Apply(d, Push(w, Item(line, false), wake)).Some?
    ensures var e := BlockDeques.Apply(d, Push(w, Item(line, false), wake)).value;
            DequeOk(e, n, async) && e.pushed == d.pushed + [line] && e.popped == d.popped && e.producers == d.producers
  {
    var step := Push(w, Item(line, false), wake);
    BlockDeques.ApplyKeepsInv(d, step);
    ApplyKeepsFifo(d, step);
    assert d.producers[w := Idle] == d.producers;
  }

  lemma PopKeepsDeque(d: Deque, n: nat, step: Step)
    requires DequeOk(d, n, Popping) && (step.Pop? || step.PopAgain?) && step.c == 0
    requires BlockDeques.Apply(d, step).Some?
    ensures var e := BlockDeques.Apply(d, step).value;
            && DequeOk(e, n, if d.deq == [] then Popping else Holding(d.deq[0]))
            && e.pushed == d.pushed && e.capacity == d.capacity && |e.deq| <= |d.deq|
            && e.popped == if d.deq == [] then d.popped else d.popped + [d.deq[0]]
  {
    IdleProducers(d.producers, step.wake);
    BlockDeques.ApplyKeepsInv(d, step);
    ApplyKeepsFifo(d, step);
  }

  lemma WakeKeepsDeque(d: Deque, n: nat, async: AsyncState, step: Step)
    requires DequeOk(d, n, async) && (step.Flush? || step == SpuriousConsumer(0)) && BlockDeques.Apply(d, step).Some?
    ensures var e := BlockDeques.Apply(d, step).value;
            DequeOk(e, n, async) && e == d.(consumers := e.consumers)
  {
    BlockDeques.ApplyKeepsInv(d, step);
    ApplyKeepsFifo(d, step);
    OneConsumer(d.consumers);
  }

  lemma WriterKeepsInv(s: Log, move: Move)
    requires Inv(s) && Apply(s, move).Some?
    requires move.Enter? || move.Visit? || move.CheckFull? || move.Fputs? || move.Leave?
    ensures Inv(Apply(s, move).value)
  {
    var q := Apply(s, move).value;
    MutexKept(s.mtx, s.writers, s.async, move.w, q.writers[move.w]);
    RoomKept(s.writers, s.deque, move.w, q.writers[move.w]);
    if move.Fputs? {
      LineDirect(s.written, s.file, s.async, s.deque.pushed, s.deque.popped, s.writers[move.w].line);
    }
  }

  lemma PushBackKeepsInv(s: Log, w: nat, wake: nat)
    requires Inv(s) && Apply(s, PushBack(w, wake)).Some?
    ensures Inv(Apply(s, PushBack(w, wake)).value)
  {
    var line := s.writers[w].line;
    var q := Apply(s, PushBack(w, wake)).value;
    PushNeverBlocks(s, w, wake);
    PushKeepsDeque(s.deque, |s.writers|, s.async, w, line, wake);
    MutexKept(s.mtx, s.writers, s.async, w, Leaving);
    RoomWhenLeaving(s.mtx, s.writers, s.async, w, q.deque);
    LineQueued(s.written, s.file, s.async, s.deque.pushed, s.deque.popped, line);
  }

  lemma PopKeepsInv(s: Log, step: Step, e: Deque, async: AsyncState)
    requires Inv(s) && s.async == Popping && (step.Pop? || step.PopAgain?) && step.c == 0
    requires BlockDeques.Apply(s.deque, step) == Some(e)
    requires async == if s.deque.deq == [] then Popping else Holding(s.deque.deq[0])
    ensures Inv(s.(deque := e, async := async))
  {
    PopKeepsDeque(s.deque, |s.writers|, step);
    MoreRoom(s.writers, s.deque, e);
    AsyncOutside(s.mtx, s.writers, s.async, async);
    if s.deque.deq != [] {
      LineTaken(s.written, s.file, s.deque.pushed, s.deque.popped, s.deque.deq[0]);
    }
  }

  lemma AsyncPopKeepsInv(s: Log, wake: nat)
    requires Inv(s) && Apply(s, AsyncPop(wake)).Some?
    ensures Inv(Apply(s, AsyncPop(wake)).value)
  {
    var q := Apply(s, AsyncPop(wake)).value;
    PopKeepsInv(s, AsyncStep(s.deque, wake), q.deque, q.async);
  }

  lemma AsyncLockKeepsInv(s: Log)
    requires Inv(s) && Apply(s, AsyncLock).Some?
    ensures Inv(Apply(s, AsyncLock).value)
  {
  }

  lemma AsyncWriteKeepsInv(s: Log)
    requires Inv(s) && Apply(s, AsyncWrite).Some?
    ensures Inv(Apply(s, AsyncWrite).value)
  {
    AsyncReleases(s.mtx, s.writers, s.async);
    LineFiled(s.written, s.file, s.deque.pushed, s.deque.popped, s.async.line);
  }

  lemma AsyncReleases(mtx: Holder, ws: seq<WriterState>, async: AsyncState)
    requires MutexOk(mtx, ws, async) && async.Writing?
    ensures MutexOk(Nobody, ws, Popping)
  {
  }

  lemma MoreRoom(ws: seq<WriterState>, d: Deque, e: Deque)
    requires RoomOk(ws, d) && e.capacity == d.capacity && |e.deq| <= |d.deq|
    ensures RoomOk(ws, e)
  {
  }

  lemma AsyncOutside(mtx: Holder, ws: seq<WriterState>, async: AsyncState, async': AsyncState)
    requires MutexOk(mtx, ws, async) && !async.Writing? && !async'.Writing?
    ensures MutexOk(mtx, ws, async')
  {
  }

  lemma WakeKeepsInv(s: Log, step: Step)
    requires Inv(s) && (step.Flush? || step == SpuriousConsumer(0)) && BlockDeques.Apply(s.deque, step).Some?
    ensures Inv(s.(deque := BlockDeques.Apply(s.deque, step).value))
  {
    WakeKeepsDeque(s.deque, |s.writers|, s.async, step);
    MoreRoom(s.writers, s.deque, BlockDeques.Apply(s.deque, step).value);
  }

  lemma ApplyKeepsInv(s: Log, move: Move)
    requires Inv(s) && Apply(s, move).Some?
    ensures Inv(Apply(s, move).value)
  {
    match move
    case PushBack(w, wake) => PushBackKeepsInv(s, w, wake);
    case AsyncPop(wake) => AsyncPopKeepsInv(s, wake);
    case AsyncLock => AsyncLockKeepsInv(s);
    case AsyncWrite => AsyncWriteKeepsInv(s);
    case FlushQueue(wake) => WakeKeepsInv(s, Flush(wake));
    case SpuriousWake => WakeKeepsInv(s, SpuriousConsumer(0));
    case _ => WriterKeepsInv(s, move);
  }

  function Run(s: Log, moves: seq<Move>): Option<Log>
    requires |s.deque.producers| == |s.deque.pending|
    decreases |moves|
  {
    if moves == [] then Some(s)
    else
      match Apply(s, moves[0])
      case None => None
      case Some(t) => Run(t, moves[1..])
  }

  lemma {:induction false} RunKeepsInv(s: Log, moves: seq<Move>)
    requires Inv(s)
    ensures Run(s, moves).Some? ==> Inv(Run(s, moves).value)
    decreases |moves|
  {
    if moves != [] {
      var t := Apply(s, moves[0]);
      if t.Some? {
        ApplyKeepsInv(s, moves[0]);
        RunKeepsInv(t.value, moves[1..]);
      }
    }
  }

  /**
   Over every interleaving: no writer is ever caught waiting with the mutex in its hands; every
   line written is in exactly one of the file, the async thread's hand and the queue; and the
   lines of the file that were queued, the one in hand and the queue are, in this order, the
   lines as they were queued.
   */
  lemma EveryRun(capacity: nat, writers: nat, moves: seq<Move>)
    requires 0 < capacity
    ensures var end := Run(Opened(capacity, writers), moves);
            end.Some? ==>
              var s := end.value;
              && (forall w | 0 <= w < |s.writers| :: !s.writers[w].Blocked?)
              && (forall x :: multiset(s.written)[x]
                   == multiset(Lines(s.file, false))[x]
                      + multiset(Lines(s.file, true) + Hand(s.async) + s.deque.deq)[x])
              && s.deque.pushed == Lines(s.file, true) + Hand(s.async) + s.deque.deq
  {
    RunKeepsInv(Opened(capacity, writers), moves);
  }

  // ---------- everything in flight arrives ----------

  /** Moves that carry on what was begun; the others begin a call or wake a thread for no reason. */
  predicate Internal(move: Move) {
    !move.Enter? && !move.Visit? && !move.FlushQueue? && !move.SpuriousWake?
  }

  function WriterWork(w: WriterState): nat {
    match w
    case Outside => 0
    case Leaving => 1
    case Direct(_) => 2
    case Pushing(_) => 6
    case Formatted(_) => 7
    case Blocked(_) => 0
  }

  function WritersWork(ws: seq<WriterState>): nat {
    if ws == [] then 0 else WriterWork(ws[0]) + WritersWork(ws[1..])
  }

  function AsyncWork(s: Log): nat
    requires |s.deque.consumers| == 1
  {
    match s.async
    case Popping => if s.deque.consumers[0] == Waiting then 0 else 1
    case Holding(_) => 3
    case Writing(_) => 2
  }

  function Work(s: Log): nat
    requires |s.deque.consumers| == 1
  {
    WritersWork(s.writers) + 3 * |s.deque.deq| + AsyncWork(s)
  }

  lemma {:induction false} WorkReplaced(ws: seq<WriterState>, i: nat, w: WriterState)
    requires i < |ws|
    ensures WritersWork(ws[i := w]) + WriterWork(ws[i]) == WritersWork(ws) + WriterWork(w)
  {
    if i == 0 {
      assert ws[0 := w][1..] == ws[1..];
    } else {
      assert ws[i := w][1..] == ws[1..][i - 1 := w];
      WorkReplaced(ws[1..], i - 1, w);
    }
  }

  lemma WriterWorkDrops(s: Log, move: Move)
    requires Inv(s) && (move.CheckFull? || move.Fputs? || move.Leave?) && Apply(s, move).Some?
    ensures Work(Apply(s, move).value) < Work(s)
  {
    WorkReplaced(s.writers, move.w, Apply(s, move).value.writers[move.w]);
  }

  lemma PushWorkDrops(s: Log, w: nat, wake: nat)
    requires Inv(s) && Apply(s, PushBack(w, wake)).Some?
    ensures |Apply(s, PushBack(w, wake)).value.deque.consumers| == 1
    ensures Work(Apply(s, PushBack(w, wake)).value) < Work(s)
  {
    PushNeverBlocks(s, w, wake);
    WorkReplaced(s.writers, w, Leaving);
  }

  lemma AsyncWorkDrops(s: Log, move: Move)
    requires Inv(s) && (move.AsyncPop? || move.AsyncLock? || move.AsyncWrite?) && Apply(s, move).Some?
    ensures |Apply(s, move).value.deque.consumers| == 1
    ensures Work(Apply(s, move).value) < Work(s)
  {
    IdleProducers(s.deque.producers, 0);
  }

  lemma InternalMovesAreBounded(s: Log, move: Move)
    requires Inv(s) && Internal(move) && Apply(s, move).Some?
    ensures Inv(Apply(s, move).value) && Work(Apply(s, move).value) < Work(s)
  {
    ApplyKeepsInv(s, move);
    match move
    case PushBack(w, wake) => PushWorkDrops(s, w, wake);
    case CheckFull(w) => WriterWorkDrops(s, move);
    case Fputs(w) => WriterWorkDrops(s, move);
    case Leave(w) => WriterWorkDrops(s, move);
    case _ => AsyncWorkDrops(s, move);
  }

  /** The holder of the mutex is never the one that waits, so while anything is under way something moves. */
  lemma SomethingMoves(s: Log)
    requires Inv(s)
    requires s.deque.deq != [] || s.async != Popping || s.mtx != Nobody
    ensures exists move :: Internal(move) && Apply(s, move).Some?
  {
    match s.mtx
    case Writer(w) =>
      assert s.writers[w] != Outside && !s.writers[w].Blocked?;
      match s.writers[w] {
        case Formatted(_) => assert Internal(CheckFull(w)) && Apply(s, CheckFull(w)).Some?;
        case Pushing(_) =>
          PushNeverBlocks(s, w, 0);
          var k: nat :| Apply(s, PushBack(w, k)).Some?;
          assert Internal(PushBack(w, k));
        case Direct(_) => assert Internal(Fputs(w)) && Apply(s, Fputs(w)).Some?;
        case Leaving => assert Internal(Leave(w)) && Apply(s, Leave(w)).Some?;
      }
    case Async =>
      assert Internal(AsyncWrite) && Apply(s, AsyncWrite).Some?;
    case Nobody =>
      if s.async.Holding? {
        assert Internal(AsyncLock) && Apply(s, AsyncLock).Some?;
      } else {
        OneConsumer(s.deque.consumers);
        IdleProducers(s.deque.producers, 0);
        assert Internal(AsyncPop(0)) && Apply(s, AsyncPop(0)).Some?;
      }
  }

  /**
   However the threads are scheduled, once calls stop coming at most Work(s) moves remain, and when
   none is left every line ever written is in the file, the queued ones in the order of queueing.
   */
  lemma {:induction false} EverythingArrives(s: Log, moves: seq<Move>)
    requires Inv(s) && forall k | 0 <= k < |moves| :: Internal(moves[k])
    ensures var end := Run(s, moves);
            end.Some? ==>
              var t := end.value;
              && Inv(t) && |moves| + Work(t) <= Work(s)
              && ((forall move | Internal(move) :: Apply(t, move) == None) ==>
                   && t.mtx == Nobody && t.deque.deq == []
                   && t.deque.pushed == Lines(t.file, true)
                   && (forall x :: multiset(t.written)[x]
                        == multiset(Lines(t.file, false))[x] + multiset(Lines(t.file, true))[x]))
    decreases |moves|
  {
    if moves == [] {
      if s.deque.deq != [] || s.async != Popping || s.mtx != Nobody {
        SomethingMoves(s);
      } else {
        assert Lines(s.file, true) + [] + [] == Lines(s.file, true);
      }
    } else {
      var t := Apply(s, moves[0]);
      if t.Some? {
        InternalMovesAreBounded(s, moves[0]);
        EverythingArrives(t.value, moves[1..]);
      }
    }
  }
}

/** The log as an object over its queue: each method is one move of the step system, and write is a run of them. */
module AsyncLogs {
  import opened Options
  import opened Logs
  import D = BlockDeques

  class AsyncLog {
    const deque: D.BlockDeque
    var mtx: Holder
    var writers: seq<WriterState>
    var async: AsyncState
    var file: seq<Entry>
    ghost var written: seq<string>

    ghost function View(): Log
      reads this, deque
    {
      Log(mtx, writers, async, deque.View(), file, written)
    }

    constructor (capacity: nat, writerCount: nat)
      requires 0 < capacity
      ensures View() == Opened(capacity, writerCount) && Inv(View()) && fresh(deque)
    {
      deque := new D.BlockDeque(capacity, 1, writerCount);
      mtx, async, file, written := Nobody, Popping, [], [];
      writers := seq(writerCount, _ => Outside);
    }

    /** Takes the mutex and formats the line. */
    method Enter(w: nat, line: string)
      requires Inv(View()) && w < |writers| && writers[w] == Outside && mtx == Nobody
      modifies this`mtx, this`writers
      ensures Inv(View()) && Apply(old(View()), Move.Enter(w, line)) == Some(View())
      ensures mtx == Writer(w) && writers == old(writers)[w := Formatted(line)]
    {
      mtx := Writer(w);
      writers := writers[w := Formatted(line)];
      ApplyKeepsInv(old(View()), Move.Enter(w, line));
    }

    method CheckFull(w: nat)
      requires Inv(View()) && w < |writers| && writers[w].Formatted?
      modifies this`writers
      ensures Inv(View()) && Apply(old(View()), Move.CheckFull(w)) == Some(View())
      ensures var line := old(writers[w].line);
              writers == old(writers)[w := if |deque.deq| >= deque.capacity then Direct(line) else Pushing(line)]
    {
      var line := writers[w].line;
      if |deque.deq| >= deque.capacity {
        writers := writers[w := Direct(line)];
      } else {
        writers := writers[w := Pushing(line)];
      }
      ApplyKeepsInv(old(View()), Move.CheckFull(w));
    }

    /** push_back by a writer that saw room; it returns at once. */
    method PushLine(w: nat)
      requires Inv(View()) && w < |writers| && writers[w].Pushing?
      modifies this`writers, this`written, deque
      ensures Inv(View()) && exists wake: nat :: Apply(old(View()), PushBack(w, wake)) == Some(View())
      ensures writers == old(writers)[w := Leaving] && written == old(written) + [old(writers[w]).line]
      ensures deque.deq == old(deque.deq) + [old(writers[w]).line]
    {
      hide Logs.Inv, Logs.Apply, D.Inv, D.Apply;
      ghost var s := View();
      WriterIsIdle(s, w);
      ghost var step := deque.PushBack(w, writers[w].line);
      PushRuns(s, w, step.wake, deque.View());
      written := written + [writers[w].line];
      writers := writers[w := Leaving];
    }

    method Fputs(w: nat)
      requires Inv(View()) && w < |writers| && writers[w].Direct?
      modifies this`writers, this`written, this`file
      ensures Inv(View()) && Apply(old(View()), Move.Fputs(w)) == Some(View())
      ensures writers == old(writers)[w := Leaving] && written == old(written) + [old(writers[w]).line]
      ensures file == old(file) + [Entry(old(writers[w]).line, false)]
    {
      file := file + [Entry(writers[w].line, false)];
      written := written + [writers[w].line];
      writers := writers[w := Leaving];
      ApplyKeepsInv(old(View()), Move.Fputs(w));
    }

    method Leave(w: nat)
      requires Inv(View()) && w < |writers| && writers[w] == Leaving
      modifies this`mtx, this`writers
      ensures Inv(View()) && Apply(old(View()), Move.Leave(w)) == Some(View())
      ensures mtx == Nobody && writers == old(writers)[w := Outside]
    {
      mtx := Nobody;
      writers := writers[w := Outside];
      ApplyKeepsInv(old(View()), Move.Leave(w));
    }

    /** The queueing part of write, run without interruption: to the queue when there is room, to the file when not. */
    method Write(w: nat, line: string)
      requires Inv(View()) && w < |writers| && writers[w] == Outside && mtx == Nobody
      modifies this`mtx, this`writers, this`written, this`file, deque
      ensures Inv(View()) && mtx == Nobody && writers == old(writers) && written == old(written) + [line]
      ensures if old(|deque.deq| < deque.capacity)
              then deque.deq == old(deque.deq) + [line] && file == old(file)
              else deque.deq == old(deque.deq) && file == old(file) + [Entry(line, false)]
    {
      hide Logs.Inv, Logs.Apply;
      Enter(w, line);
      CheckFull(w);
      if writers[w].Pushing? {
        PushLine(w);
      } else {
        Fputs(w);
      }
      Leave(w);
      assert writers == old(writers);
    }

    /** pop by the async thread; without a line it waits. */
    method TakeLine() returns (item: Option<string>)
      requires Inv(View()) && async == Popping && deque.consumers[0] != D.Waiting
      modifies this`async, deque
      ensures Inv(View()) && exists wake: nat :: Apply(old(View()), AsyncPop(wake)) == Some(View())
      ensures if old(deque.deq) == [] then item == None && async == Popping && deque.consumers[0] == D.Waiting
              else item == Some(old(deque.deq)[0]) && async == Holding(item.value) && deque.deq == old(deque.deq)[1..]
    {
      hide Logs.Inv, Logs.Apply, D.Inv, D.Apply;
      ghost var s := View();
      AsyncIsConsumer(s);
      ghost var step;
      item, step := deque.PopItem(0);
      if item.Some? {
        async := Holding(item.value);
      }
      PopRuns(s, step, deque.View());
      AsyncPopKeepsInv(s, step.wake);
    }

    method LockForFile()
      requires Inv(View()) && async.Holding? && mtx == Nobody
      modifies this`async, this`mtx
      ensures Inv(View()) && Apply(old(View()), AsyncLock) == Some(View())
      ensures async == Writing(old(async.line)) && mtx == Async
    {
      mtx, async := Async, Writing(async.line);
      AsyncLockKeepsInv(old(View()));
    }

    method FileLine()
      requires Inv(View()) && async.Writing?
      modifies this`async, this`mtx, this`file
      ensures Inv(View()) && Apply(old(View()), AsyncWrite) == Some(View())
      ensures async == Popping && mtx == Nobody && file == old(file) + [Entry(old(async.line), true)]
    {
      file := file + [Entry(async.line, true)];
      mtx, async := Nobody, Popping;
      AsyncWriteKeepsInv(old(View()));
    }
  }

  lemma WriterIsIdle(s: Log, w: nat)
    requires Inv(s) && w < |s.writers|
    ensures D.Inv(s.deque) && D.Is(s.deque.producers, w, D.Idle)
  {
  }

  lemma AsyncIsConsumer(s: Log)
    requires Inv(s)
    ensures D.Inv(s.deque) && |s.deque.consumers| == 1 && |s.deque.producers| == |s.deque.pending|
  {
  }

  lemma PopRuns(s: Log, step: D.Step, d: D.Deque)
    requires s.async == Popping && |s.deque.consumers| == 1 && |s.deque.producers| == |s.deque.pending|
    requires (step.Pop? || step.PopAgain?) && step.c == 0 && D.Apply(s.deque, step) == Some(d)
    ensures var async := if s.deque.deq == [] then Popping else Holding(s.deque.deq[0]);
            Apply(s, AsyncPop(step.wake)) == Some(s.(deque := d, async := async))
    ensures if s.deque.deq == [] then d.deq == [] && d.consumers[0] == D.Waiting else d.deq == s.deque.deq[1..]
  {
    assert step == AsyncStep(s.deque, step.wake);
  }

  lemma PushRuns(s: Log, w: nat, wake: nat, d: D.Deque)
    requires Inv(s) && w < |s.writers| && s.writers[w].Pushing?
    requires D.Apply(s.deque, D.Push(w, D.Item(s.writers[w].line, false), wake)) == Some(d)
    ensures var line := s.writers[w].line;
            var t := s.(deque := d, writers := s.writers[w := Leaving], written := s.written + [line]);
            Inv(t) && Apply(s, PushBack(w, wake)) == Some(t) && d.deq == s.deque.deq + [line]
  {
    PushNeverBlocks(s, w, wake);
    ApplyKeepsInv(s, PushBack(w, wake));
  }
}

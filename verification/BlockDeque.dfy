/**
 The bounded queue as a monitor, while it is open: what a thread does under the mutex is one step,
 and so is a flush or a spurious wakeup. The index a step carries says whom notify_one wakes.
 */
module BlockDeques {
  import opened Options

  /** Woken: no longer waiting, and about to test its condition again. */
  datatype Status = Idle | Waiting | Woken

  datatype Item = Item(line: string, front: bool)

  datatype Deque = Deque(
    deq: seq<string>, capacity: nat,
    consumers: seq<Status>, producers: seq<Status>,
    pending: seq<Item>,                        // what each producer is pushing
    pushed: seq<string>, popped: seq<string>)  // history

  datatype Step =
    | Push(p: nat, item: Item, wake: nat)  // push_back or push_front, called by an idle producer
    | PushAgain(p: nat, wake: nat)         // a woken producer tests again
    | Pop(c: nat, wake: nat)               // pop, called by an idle consumer
    | PopAgain(c: nat, wake: nat)          // a woken consumer tests again
    | Flush(wake: nat)                     // notify_one on the consumers
    | SpuriousProducer(p: nat)
    | SpuriousConsumer(c: nat)

  predicate Is(ts: seq<Status>, i: nat, s: Status) {
    i < |ts| && ts[i] == s
  }

  predicate AnyWaiting(ts: seq<Status>) {
    Waiting in ts
  }

  /** notify_one: the chosen waiting thread, or nobody when nobody waits. */
  predicate CanNotify(ts: seq<Status>, wake: nat) {
    AnyWaiting(ts) ==> Is(ts, wake, Waiting)
  }

  function Notified(ts: seq<Status>, wake: nat): (r: seq<Status>)
    requires CanNotify(ts, wake)
    ensures |r| == |ts|
  {
    if AnyWaiting(ts) then ts[wake := Woken] else ts
  }

  function Inserted(deq: seq<string>, item: Item): seq<string> {
    if item.front then [item.line] + deq else deq + [item.line]
  }

  function TryPush(d: Deque, p: nat, item: Item, wake: nat): Option<Deque>
    requires p < |d.producers| == |d.pending|
  {
    if |d.deq| >= d.capacity then
      Some(d.(producers := d.producers[p := Waiting], pending := d.pending[p := item]))
    else if CanNotify(d.consumers, wake) then
      Some(d.(deq := Inserted(d.deq, item), producers := d.producers[p := Idle],
              consumers := Notified(d.consumers, wake), pushed := d.pushed + [item.line]))
    else None
  }

  function TryPop(d: Deque, c: nat, wake: nat): Option<Deque>
    requires c < |d.consumers|
  {
    if d.deq == [] then
      Some(d.(consumers := d.consumers[c := Waiting]))
    else if CanNotify(d.producers, wake) then
      Some(d.(deq := d.deq[1..], consumers := d.consumers[c := Idle],
              producers := Notified(d.producers, wake), popped := d.popped + [d.deq[0]]))
    else None
  }

  function Apply(d: Deque, step: Step): Option<Deque>
    requires |d.producers| == |d.pending|
  {
    match step
    case Push(p, item, wake) => if Is(d.producers, p, Idle) then TryPush(d, p, item, wake) else None
    case PushAgain(p, wake) => if Is(d.producers, p, Woken) then TryPush(d, p, d.pending[p], wake) else None
    case Pop(c, wake) => if Is(d.consumers, c, Idle) then TryPop(d, c, wake) else None
    case PopAgain(c, wake) => if Is(d.consumers, c, Woken) then TryPop(d, c, wake) else None
    case Flush(wake) =>
      if CanNotify(d.consumers, wake) then Some(d.(consumers := Notified(d.consumers, wake))) else None
    case SpuriousProducer(p) =>
      if Is(d.producers, p, Waiting) then Some(d.(producers := d.producers[p := Woken])) else None
    case SpuriousConsumer(c) =>
      if Is(d.consumers, c, Waiting) then Some(d.(consumers := d.consumers[c := Woken])) else None
  }

  function WokenCount(ts: seq<Status>): nat {
    if ts == [] then 0 else (if ts[0] == Woken then 1 else 0) + WokenCount(ts[1..])
  }

  lemma {:induction false} Replaced(ts: seq<Status>, i: nat, s: Status)
    requires i < |ts|
    ensures WokenCount(ts[i := s]) + (if ts[i] == Woken then 1 else 0) == WokenCount(ts) + (if s == Woken then 1 else 0)
    ensures AnyWaiting(ts[i := s]) ==> s == Waiting || AnyWaiting(ts)
    ensures ts[i] == Waiting ==> AnyWaiting(ts)
    ensures s == Waiting ==> AnyWaiting(ts[i := s])
  {
    if i == 0 {
      assert ts[0 := s][1..] == ts[1..];
    } else {
      assert ts[i := s][1..] == ts[1..][i - 1 := s];
      Replaced(ts[1..], i - 1, s);
    }
    assert ts[i := s][i] == s;
  }

  /** A notification is never lost: it raises the count of woken threads, or nobody was waiting. */
  lemma NotifiedCounts(ts: seq<Status>, wake: nat)
    requires CanNotify(ts, wake)
    ensures AnyWaiting(ts) ==> WokenCount(Notified(ts, wake)) == WokenCount(ts) + 1
    ensures AnyWaiting(Notified(ts, wake)) ==> AnyWaiting(ts)
    ensures !AnyWaiting(ts) ==> Notified(ts, wake) == ts
  {
    if AnyWaiting(ts) {
      Replaced(ts, wake, Woken);
    }
  }

  ghost predicate Inv(d: Deque) {
    && 0 < d.capacity && |d.producers| == |d.pending|
    && |d.deq| <= d.capacity
    && (AnyWaiting(d.consumers) ==> |d.deq| <= WokenCount(d.consumers))
    && (AnyWaiting(d.producers) ==> d.capacity - |d.deq| <= WokenCount(d.producers))
    && (forall x :: multiset(d.pushed)[x] == multiset(d.popped)[x] + multiset(d.deq)[x])
  }

  lemma TryPushKeepsInv(d: Deque, p: nat, item: Item, wake: nat)
    requires Inv(d) && p < |d.producers| && d.producers[p] != Waiting
    ensures TryPush(d, p, item, wake).Some? ==> Inv(TryPush(d, p, item, wake).value)
  {
    if |d.deq| >= d.capacity {
      Replaced(d.producers, p, Waiting);
    } else if CanNotify(d.consumers, wake) {
      Replaced(d.producers, p, Idle);
      NotifiedCounts(d.consumers, wake);
      var r := TryPush(d, p, item, wake).value;
      assert multiset(r.deq) == multiset(d.deq) + multiset{item.line};
      assert multiset(r.pushed) == multiset(d.pushed) + multiset{item.line};
    }
  }

  lemma TryPopKeepsInv(d: Deque, c: nat, wake: nat)
    requires Inv(d) && c < |d.consumers| && d.consumers[c] != Waiting
    ensures TryPop(d, c, wake).Some? ==> Inv(TryPop(d, c, wake).value)
  {
    if d.deq == [] {
      Replaced(d.consumers, c, Waiting);
    } else if CanNotify(d.producers, wake) {
      Replaced(d.consumers, c, Idle);
      NotifiedCounts(d.producers, wake);
      var r := TryPop(d, c, wake).value;
      assert d.deq == [d.deq[0]] + r.deq;
      assert multiset(r.popped) == multiset(d.popped) + multiset{d.deq[0]};
    }
  }

  lemma ApplyKeepsInv(d: Deque, step: Step)
    requires Inv(d) && Apply(d, step).Some?
    ensures Inv(Apply(d, step).value)
  {
    match step
    case Push(p, item, wake) => TryPushKeepsInv(d, p, item, wake);
    case PushAgain(p, wake) => TryPushKeepsInv(d, p, d.pending[p], wake);
    case Pop(c, wake) => TryPopKeepsInv(d, c, wake);
    case PopAgain(c, wake) => TryPopKeepsInv(d, c, wake);
    case Flush(wake) => NotifiedCounts(d.consumers, wake);
    case SpuriousProducer(p) => Replaced(d.producers, p, Woken);
    case SpuriousConsumer(c) => Replaced(d.consumers, c, Woken);
  }

  function Opened(capacity: nat, consumers: nat, producers: nat): Deque {
    Deque([], capacity, seq(consumers, _ => Idle), seq(producers, _ => Idle),
          seq(producers, _ => Item("", false)), [], [])
  }

  function Run(d: Deque, steps: seq<Step>): Option<Deque>
    requires |d.producers| == |d.pending|
    decreases |steps|
  {
    if steps == [] then Some(d)
    else
      match Apply(d, steps[0])
      case None => None
      case Some(e) => Run(e, steps[1..])
  }

  lemma {:induction false} RunKeepsInv(d: Deque, steps: seq<Step>)
    requires Inv(d)
    ensures Run(d, steps).Some? ==> Inv(Run(d, steps).value)
    decreases |steps|
  {
    if steps != [] {
      var e := Apply(d, steps[0]);
      if e.Some? {
        ApplyKeepsInv(d, steps[0]);
        RunKeepsInv(e.value, steps[1..]);
      }
    }
  }

  /**
   Over every interleaving the queue stays within its capacity, and no wakeup is lost on either
   side: a consumer sleeps only while each queued item has a woken consumer, a producer only while
   each free slot has a woken producer; so the two sides never sleep on each other.
   */
  lemma EveryRun(capacity: nat, consumers: nat, producers: nat, steps: seq<Step>)
    requires 0 < capacity
    ensures var end := Run(Opened(capacity, consumers, producers), steps);
            end.Some? ==>
              var d := end.value;
              && |d.deq| <= d.capacity
              && (AnyWaiting(d.consumers) ==> |d.deq| <= WokenCount(d.consumers))
              && (AnyWaiting(d.producers) ==> d.capacity - |d.deq| <= WokenCount(d.producers))
              && (AnyWaiting(d.consumers) && AnyWaiting(d.producers) ==>
                   WokenCount(d.consumers) + WokenCount(d.producers) > 0)
              && (forall x :: multiset(d.pushed)[x] == multiset(d.popped)[x] + multiset(d.deq)[x])
  {
    RunKeepsInv(Opened(capacity, consumers, producers), steps);
  }

  /** With push_back alone the queue is first in, first out. */
  ghost predicate Fifo(d: Deque) {
    && d.pushed == d.popped + d.deq
    && forall p | 0 <= p < |d.pending| :: !d.pending[p].front
  }

  lemma ApplyKeepsFifo(d: Deque, step: Step)
    requires Inv(d) && Fifo(d) && Apply(d, step).Some?
    requires step.Push? ==> !step.item.front
    ensures Fifo(Apply(d, step).value)
  {
    if d.deq != [] {
      assert d.popped + d.deq == d.popped + [d.deq[0]] + d.deq[1..];
    }
    if step.Push? || step.PushAgain? {
      var line := if step.Push? then step.item.line else d.pending[step.p].line;
      assert d.popped + d.deq + [line] == d.popped + (d.deq + [line]);
    }
  }

  /** First in, first out over every interleaving: what was taken and what is queued is what was pushed, in order. */
  lemma EveryRunIsFifo(capacity: nat, consumers: nat, producers: nat, steps: seq<Step>)
    requires 0 < capacity && forall k | 0 <= k < |steps| && steps[k].Push? :: !steps[k].item.front
    ensures var end := Run(Opened(capacity, consumers, producers), steps);
            end.Some? ==> end.value.pushed == end.value.popped + end.value.deq
  {
    RunKeepsFifo(Opened(capacity, consumers, producers), steps);
  }

  lemma {:induction false} RunKeepsFifo(d: Deque, steps: seq<Step>)
    requires Inv(d) && Fifo(d) && forall k | 0 <= k < |steps| && steps[k].Push? :: !steps[k].item.front
    ensures Run(d, steps).Some? ==> Inv(Run(d, steps).value) && Fifo(Run(d, steps).value)
    decreases |steps|
  {
    if steps != [] {
      var e := Apply(d, steps[0]);
      if e.Some? {
        ApplyKeepsInv(d, steps[0]);
        ApplyKeepsFifo(d, steps[0]);
        RunKeepsFifo(e.value, steps[1..]);
      }
    }
  }

  // ---------- the deque as an object ----------

  /** Each method is what one thread does while it holds the mutex; waiting gives it up. */
  class BlockDeque {
    var deq: seq<string>
    var capacity: nat
    var consumers: seq<Status>
    var producers: seq<Status>
    var pending: seq<Item>
    ghost var pushed: seq<string>
    ghost var popped: seq<string>

    ghost function View(): Deque
      reads this
    {
      Deque(deq, capacity, consumers, producers, pending, pushed, popped)
    }

    constructor (maxCapacity: nat, consumerCount: nat, producerCount: nat)
      requires 0 < maxCapacity
      ensures View() == Opened(maxCapacity, consumerCount, producerCount) && Inv(View())
    {
      deq := [];
      capacity := maxCapacity;
      consumers := seq(consumerCount, _ => Idle);
      producers := seq(producerCount, _ => Idle);
      pending := seq(producerCount, _ => Item("", false));
      pushed, popped := [], [];
    }

    method NotifyConsumer() returns (wake: nat)
      modifies this`consumers
      ensures CanNotify(old(consumers), wake) && consumers == Notified(old(consumers), wake)
    {
      wake := 0;
      if Waiting in consumers {
        wake :| wake < |consumers| && consumers[wake] == Waiting;
        consumers := consumers[wake := Woken];
      }
    }

    method NotifyProducer() returns (wake: nat)
      modifies this`producers
      ensures CanNotify(old(producers), wake) && producers == Notified(old(producers), wake)
    {
      wake := 0;
      if Waiting in producers {
        wake :| wake < |producers| && producers[wake] == Waiting;
        producers := producers[wake := Woken];
      }
    }

    /** push_back and push_front from the test of their loop on. */
    method TestAndPush(p: nat, item: Item) returns (ghost wake: nat)
      requires Inv(View()) && p < |producers|
      modifies this
      ensures TryPush(old(View()), p, item, wake) == Some(View())
    {
      if |deq| >= capacity {
        producers, pending := producers[p := Waiting], pending[p := item];
        return 0;
      }
      deq := if item.front then [item.line] + deq else deq + [item.line];
      producers := producers[p := Idle];
      pushed := pushed + [item.line];
      var w := NotifyConsumer();
      wake := w;
    }

    method PushBack(p: nat, line: string) returns (ghost step: Step)
      requires Inv(View()) && Is(producers, p, Idle)
      modifies this
      ensures Inv(View()) && step.Push? && step.p == p && step.item == Item(line, false)
      ensures Apply(old(View()), step) == Some(View())
      ensures if old(|deq|) < capacity then deq == old(deq) + [line] && producers[p] == Idle
              else deq == old(deq) && producers[p] == Waiting
    {
      ghost var wake := TestAndPush(p, Item(line, false));
      step := Push(p, Item(line, false), wake);
      ApplyKeepsInv(old(View()), step);
    }

    method PushFront(p: nat, line: string) returns (ghost step: Step)
      requires Inv(View()) && Is(producers, p, Idle)
      modifies this
      ensures Inv(View()) && step.Push? && step.p == p && step.item == Item(line, true)
      ensures Apply(old(View()), step) == Some(View())
      ensures if old(|deq|) < capacity then deq == [line] + old(deq) && producers[p] == Idle
              else deq == old(deq) && producers[p] == Waiting
    {
      ghost var wake := TestAndPush(p, Item(line, true));
      step := Push(p, Item(line, true), wake);
      ApplyKeepsInv(old(View()), step);
    }

    method ResumePush(p: nat) returns (ghost step: Step)
      requires Inv(View()) && Is(producers, p, Woken)
      modifies this
      ensures Inv(View()) && step.PushAgain? && step.p == p && Apply(old(View()), step) == Some(View())
    {
      ghost var wake := TestAndPush(p, pending[p]);
      step := PushAgain(p, wake);
      ApplyKeepsInv(old(View()), step);
    }

    /** pop from the test of its loop on; None means that the consumer waits. */
    method TestAndPop(c: nat) returns (item: Option<string>, ghost wake: nat)
      requires c < |consumers|
      modifies this
      ensures TryPop(old(View()), c, wake) == Some(View())
      ensures item == if old(deq) == [] then None else Some(old(deq)[0])
    {
      if deq == [] {
        consumers := consumers[c := Waiting];
        return None, 0;
      }
      item := Some(deq[0]);
      popped := popped + [deq[0]];
      deq := deq[1..];
      consumers := consumers[c := Idle];
      var w := NotifyProducer();
      wake := w;
    }

    /** pop, entered by an idle consumer or resumed by a woken one. */
    method PopItem(c: nat) returns (item: Option<string>, ghost step: Step)
      requires Inv(View()) && c < |consumers| && consumers[c] != Waiting
      modifies this
      ensures Inv(View()) && Apply(old(View()), step) == Some(View())
      ensures (step.Pop? || step.PopAgain?) && step.c == c
      ensures if old(deq) == [] then item == None && deq == [] && consumers[c] == Waiting
              else item == Some(old(deq)[0]) && deq == old(deq)[1..] && consumers[c] == Idle
    {
      ghost var again := consumers[c] == Woken;
      ghost var wake: nat;
      item, wake := TestAndPop(c);
      step := if again then PopAgain(c, wake) else Pop(c, wake);
      ApplyKeepsInv(old(View()), step);
    }

    method FlushConsumers() returns (ghost step: Step)
      requires Inv(View())
      modifies this`consumers
      ensures Inv(View()) && step.Flush? && Apply(old(View()), step) == Some(View())
    {
      var w := NotifyConsumer();
      step := Flush(w);
      ApplyKeepsInv(old(View()), step);
    }
  }
}

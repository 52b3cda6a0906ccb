/**
 Whole runs of the calls the server makes on its timer: add and adjust with one fixed timeout,
 ticks taken one expiry at a time, and time passing in between.
 */
module TimerRuns {
  import opened Clocks
  import opened Options
  import opened TimerHeap
  import opened Timers

  datatype Call =
    | Add(id: int, cb: Callback)
    | Adjust(id: int)
    | Expire          // one iteration of tick that does not stop
    | Pass(nanos: nat)

  datatype TimerState = TimerState(heap: seq<TimerNode>, now: int)

  function Find(h: seq<TimerNode>, id: int): (i: nat)
    ensures i <= |h| && (i < |h| ==> h[i].id == id)
    ensures i == |h| <==> forall k | 0 <= k < |h| :: h[k].id != id
  {
    if h == [] then 0
    else if h[0].id == id then 0
    else 1 + Find(h[1..], id)
  }

  /** None where the source asserts, or where tick would stop. */
  function Apply(s: TimerState, call: Call, timeout: int): Option<TimerState> {
    var expires := s.now + timeout * NANOS_PER_MS;
    match call
    case Add(id, cb) =>
      var i := Find(s.heap, id);
      if id < 0 then None
      else if i == |s.heap| then Some(s.(heap := Inserted(s.heap, TimerNode(id, expires, cb))))
      else Some(s.(heap := Rekeyed(s.heap, i, expires, cb)))
    case Adjust(id) =>
      var i := Find(s.heap, id);
      if i == |s.heap| then None else Some(s.(heap := Extended(s.heap, i, expires)))
    case Expire =>
      if s.heap == [] || ToMillis(s.heap[0].expires - s.now) > 0 then None
      else Some(s.(heap := Deleted(s.heap, 0)))
    case Pass(nanos) => Some(s.(now := s.now + nanos))
  }

  function Run(s: TimerState, calls: seq<Call>, timeout: int): Option<TimerState>
    decreases |calls|
  {
    if calls == [] then Some(s)
    else
      match Apply(s, calls[0], timeout)
      case None => None
      case Some(t) => Run(t, calls[1..], timeout)
  }

  ghost predicate Bounded(h: seq<TimerNode>, limit: int) {
    forall node | node in h :: node.expires <= limit
  }

  ghost predicate Sound(s: TimerState, timeout: int) {
    SoundHeap(s.heap, s.now + timeout * NANOS_PER_MS)
  }

  /** Ids stay distinct, and the bound stays, when one node goes and one with its id, or a fresh one, comes. */
  lemma ChangeKeeps(h: seq<TimerNode>, r: seq<TimerNode>, gone: multiset<TimerNode>, come: multiset<TimerNode>,
                    limit: int)
    requires DistinctIds(h) && multiset(r) == multiset(h) - gone + come
    requires forall x | x in gone :: x in h && gone[x] == 1
    requires forall x | x in come :: come[x] == 1
    requires forall x, y | x in come && y in come :: x == y
    requires forall x, y | x in come && y in h && y.id == x.id :: y in gone
    ensures DistinctIds(r)
    ensures Bounded(h, limit) && (forall x | x in come :: x.expires <= limit) ==> Bounded(r, limit)
  {
    forall x ensures x in r ==> x in come || (x in h && x !in gone) {
      if x in r {
        assert x in multiset(r);
        if x in h { OneCopy(h, x); }
      }
    }
    forall x | x in r ensures multiset(r)[x] == 1 {
      if x in h { OneCopy(h, x); }
      assert x in multiset(r);
    }
    forall x, y | x in r && y in r && x.id == y.id ensures x == y {
      if x in h && y in h && x !in gone && y !in gone {
        var i, j :| 0 <= i < |h| && 0 <= j < |h| && h[i] == x && h[j] == y;
      }
    }
    UniqueIsDistinct(r);
  }

  ghost predicate SoundHeap(h: seq<TimerNode>, limit: int) {
    HeapOrdered(h) && DistinctIds(h) && Bounded(h, limit)
  }

  lemma InsertIsSound(h: seq<TimerNode>, node: TimerNode)
    requires SoundHeap(h, node.expires) && forall k | 0 <= k < |h| :: h[k].id != node.id
    ensures SoundHeap(Inserted(h, node), node.expires)
  {
    InsertedKeeps(h, node);
    assert multiset(h) == multiset(h) - multiset{};
    ChangeKeeps(h, Inserted(h, node), multiset{}, multiset{node}, node.expires);
  }

  lemma RekeyIsSound(h: seq<TimerNode>, i: nat, expires: int, cb: Callback)
    requires SoundHeap(h, expires) && i < |h|
    ensures SoundHeap(Rekeyed(h, i, expires, cb), expires)
  {
    RekeyedKeeps(h, i, expires, cb);
    OnlyOne(h, i);
    ChangeKeeps(h, Rekeyed(h, i, expires, cb), multiset{h[i]}, multiset{h[i].(expires := expires, cb := cb)}, expires);
  }

  lemma AddIsSound(s: TimerState, id: int, cb: Callback, timeout: int)
    requires Sound(s, timeout) && 0 <= id
    ensures Sound(Apply(s, Add(id, cb), timeout).value, timeout)
  {
    var expires := s.now + timeout * NANOS_PER_MS;
    var i := Find(s.heap, id);
    if i == |s.heap| {
      InsertIsSound(s.heap, TimerNode(id, expires, cb));
    } else {
      RekeyIsSound(s.heap, i, expires, cb);
    }
  }

  lemma ExtendedToBound(h: seq<TimerNode>, i: nat, expires: int)
    requires HeapOrdered(h) && i < |h| && Bounded(h, expires)
    ensures HeapOrdered(Extended(h, i, expires)) && h[i].expires <= expires
    ensures multiset(Extended(h, i, expires))
         == multiset(h) - multiset{h[i]} + multiset{h[i].(expires := expires)}
  {
    assert h[i] in h;
    if i > 0 { assert h[Parent(i)] in h; }
    ExtendedKeepsOrderIff(h, i, expires);
  }

  lemma ExtendIsSound(h: seq<TimerNode>, i: nat, expires: int)
    requires SoundHeap(h, expires) && i < |h|
    ensures SoundHeap(Extended(h, i, expires), expires) && h[i].expires <= expires
  {
    ExtendedToBound(h, i, expires);
    OnlyOne(h, i);
    ChangeKeeps(h, Extended(h, i, expires), multiset{h[i]}, multiset{h[i].(expires := expires)}, expires);
  }

  /** The bound makes every adjust a move to a later place, which sifting down handles. */
  lemma AdjustIsSound(s: TimerState, id: int, timeout: int)
    requires Sound(s, timeout) && Find(s.heap, id) < |s.heap|
    ensures Sound(Apply(s, Adjust(id), timeout).value, timeout)
    ensures s.heap[Find(s.heap, id)].expires <= s.now + timeout * NANOS_PER_MS
  {
    ExtendIsSound(s.heap, Find(s.heap, id), s.now + timeout * NANOS_PER_MS);
  }

  lemma ExpireIsSound(s: TimerState, timeout: int)
    requires Sound(s, timeout) && s.heap != []
    ensures Sound(s.(heap := Deleted(s.heap, 0)), timeout)
  {
    var h, expires := s.heap, s.now + timeout * NANOS_PER_MS;
    DeletedKeeps(h, 0);
    var rest := multiset(h) - multiset{h[0]};
    assert rest == rest + multiset{};
    ChangeKeeps(h, Deleted(h, 0), multiset{h[0]}, multiset{}, expires);
  }

  lemma ApplyIsSound(s: TimerState, call: Call, timeout: int)
    requires Sound(s, timeout)
    ensures Apply(s, call, timeout).Some? ==> Sound(Apply(s, call, timeout).value, timeout)
  {
    match call
    case Add(id, cb) => if 0 <= id { AddIsSound(s, id, cb, timeout); }
    case Adjust(id) => if Find(s.heap, id) < |s.heap| { AdjustIsSound(s, id, timeout); }
    case Expire => if s.heap != [] { ExpireIsSound(s, timeout); }
    case Pass(nanos) =>
  }

  lemma OnlyOne(h: seq<TimerNode>, i: nat)
    requires DistinctIds(h) && i < |h|
    ensures forall y | y in h && y.id == h[i].id :: y == h[i]
  {
  }

  /**
   From an empty timer, no run of calls ever leaves the heap out of order or a deadline more
   than one timeout ahead, although adjust never sifts up.
   */
  lemma {:induction false} RunsAreSound(s: TimerState, calls: seq<Call>, timeout: int)
    requires Sound(s, timeout)
    ensures Run(s, calls, timeout).Some? ==> Sound(Run(s, calls, timeout).value, timeout)
    decreases calls
  {
    if calls != [] {
      ApplyIsSound(s, calls[0], timeout);
      var t := Apply(s, calls[0], timeout);
      if t.Some? {
        RunsAreSound(t.value, calls[1..], timeout);
      }
    }
  }

  lemma RunsFromEmptyAreSound(start: int, calls: seq<Call>, timeout: int)
    ensures var end := Run(TimerState([], start), calls, timeout);
            end.Some? ==> Sound(end.value, timeout)
  {
    RunsAreSound(TimerState([], start), calls, timeout);
  }

  /** With two timeouts in use the sift-down of adjust is not enough. */
  lemma ShorterTimeoutBreaksOrder(cb: Callback)
    ensures var h := Inserted(Inserted([], TimerNode(1, 5 * NANOS_PER_MS, cb)), TimerNode(2, 6 * NANOS_PER_MS, cb));
            HeapOrdered(h) && |h| == 2 && !HeapOrdered(Extended(h, 1, 1 * NANOS_PER_MS))
  {
    var a, b := TimerNode(1, 5 * NANOS_PER_MS, cb), TimerNode(2, 6 * NANOS_PER_MS, cb);
    InsertedKeeps([], a);
    assert [] + [a] == [a];
    InsertedKeeps([a], b);
    assert [a] + [b] == [a, b];
    ExtendedKeepsOrderIff([a, b], 1, 1 * NANOS_PER_MS);
  }
}

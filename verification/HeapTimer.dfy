/** The timer as an object: the heap in a vector and, beside it, where each id stands. */
module Timers {
  import opened Clocks
  import opened TimerHeap

  /** ref is exactly the inverse of position to id. */
  ghost predicate Indexed(h: seq<TimerNode>, ref: map<int, nat>) {
    && (forall i | 0 <= i < |h| :: h[i].id in ref && ref[h[i].id] == i)
    && (forall id | id in ref :: ref[id] < |h| && h[ref[id]].id == id)
  }

  /** What the timer is for: each id has one node. */
  ghost function Entries(h: seq<TimerNode>, ref: map<int, nat>): map<int, TimerNode>
    requires Indexed(h, ref)
  {
    map id | id in ref :: h[ref[id]]
  }

  lemma EntryOf(h: seq<TimerNode>, ref: map<int, nat>, node: TimerNode)
    requires Indexed(h, ref)
    ensures node in h <==> node.id in ref && Entries(h, ref)[node.id] == node
    ensures multiset(h)[node] == if node in h then 1 else 0
  {
    if node in h {
      IndexedIsDistinct(h, ref);
      OneCopy(h, node);
    }
  }

  /** A change of the multiset of nodes is a change of the entries. */
  lemma EntriesFollow(h: seq<TimerNode>, ref: map<int, nat>, r: seq<TimerNode>, ref': map<int, nat>,
                      gone: multiset<TimerNode>, come: multiset<TimerNode>)
    requires Indexed(h, ref) && Indexed(r, ref')
    requires multiset(r) == multiset(h) - gone + come
    ensures forall x :: x in r <==> x in multiset(h) - gone || x in come
    ensures forall id | id in ref' :: Entries(r, ref')[id].id == id && Entries(r, ref')[id] in r
    ensures forall id | id in ref :: Entries(h, ref)[id].id == id && Entries(h, ref)[id] in h
  {
    forall x ensures x in r <==> x in multiset(h) - gone || x in come {
      assert x in r <==> x in multiset(r);
    }
  }

  /** The entries are determined by which nodes are there. */
  lemma EntriesAre(r: seq<TimerNode>, ref: map<int, nat>, want: map<int, TimerNode>)
    requires Indexed(r, ref)
    requires forall x | x in r :: x.id in want && want[x.id] == x
    requires forall id | id in want :: want[id].id == id && want[id] in r
    ensures Entries(r, ref) == want
  {
    forall id | id in ref ensures id in want && want[id] == r[ref[id]] {
      assert r[ref[id]] in r;
    }
    forall id | id in want ensures id in ref {
      assert want[id] in r;
    }
  }

  lemma EntriesAfterAdding(h: seq<TimerNode>, ref: map<int, nat>, r: seq<TimerNode>, ref': map<int, nat>,
                           node: TimerNode)
    requires Indexed(h, ref) && Indexed(r, ref') && node.id !in ref
    requires multiset(r) == multiset(h) + multiset{node}
    ensures Entries(r, ref') == Entries(h, ref)[node.id := node]
  {
    EntriesFollow(h, ref, r, ref', multiset{}, multiset{node});
    assert node in multiset{node};
    var want := Entries(h, ref)[node.id := node];
    EntriesAre(r, ref', want);
  }

  lemma EntriesAfterRemoving(h: seq<TimerNode>, ref: map<int, nat>, r: seq<TimerNode>, ref': map<int, nat>,
                             was: TimerNode)
    requires Indexed(h, ref) && Indexed(r, ref') && was in h
    requires multiset(r) == multiset(h) - multiset{was}
    ensures Entries(r, ref') == Entries(h, ref) - {was.id}
  {
    EntriesFollow(h, ref, r, ref', multiset{was}, multiset{});
    EntryOf(h, ref, was);
    assert was !in r;
    var want := Entries(h, ref) - {was.id};
    EntriesAre(r, ref', want);
  }

  lemma EntriesAfterReplacing(h: seq<TimerNode>, ref: map<int, nat>, r: seq<TimerNode>, ref': map<int, nat>,
                              was: TimerNode, node: TimerNode)
    requires Indexed(h, ref) && Indexed(r, ref') && was in h && node.id == was.id
    requires multiset(r) == multiset(h) - multiset{was} + multiset{node}
    ensures Entries(r, ref') == Entries(h, ref)[node.id := node]
  {
    EntriesFollow(h, ref, r, ref', multiset{was}, multiset{node});
    EntryOf(h, ref, was);
    var want := Entries(h, ref)[node.id := node];
    EntriesAre(r, ref', want);
  }

  lemma IndexedIsDistinct(h: seq<TimerNode>, ref: map<int, nat>)
    requires Indexed(h, ref)
    ensures DistinctIds(h)
  {
    forall i, j | 0 <= i < j < |h| ensures h[i].id != h[j].id {
      assert ref[h[i].id] == i && ref[h[j].id] == j;
    }
  }

  lemma {:induction false} OneCopy(h: seq<TimerNode>, node: TimerNode)
    requires DistinctIds(h) && node in h
    ensures multiset(h)[node] == 1
  {
    var n := |h| - 1;
    assert h == h[..n] + [h[n]];
    if node in h[..n] {
      OneCopy(h[..n], node);
    }
  }

  lemma UniqueIsDistinct(h: seq<TimerNode>)
    requires forall x | x in h :: multiset(h)[x] == 1
    requires forall x, y | x in h && y in h && x.id == y.id :: x == y
    ensures DistinctIds(h)
  {
    forall i, j | 0 <= i < j < |h| ensures h[i].id != h[j].id {
      TwoCopies(h, i, j);
    }
  }

  lemma TwoCopies(h: seq<TimerNode>, i: nat, j: nat)
    requires i < j < |h|
    ensures h[i] == h[j] ==> multiset(h)[h[i]] >= 2
  {
    assert h == h[..j] + h[j..];
    assert h[i] in h[..j] && h[j] in h[j..];
  }

  // ---------- what each operation is worth, on the heap and the index together ----------

  lemma InsertingMeets(h: seq<TimerNode>, ref: map<int, nat>, r: seq<TimerNode>, ref': map<int, nat>, node: TimerNode)
    requires HeapOrdered(h) && Indexed(h, ref) && Indexed(r, ref') && node.id !in ref
    requires r == Inserted(h, node)
    ensures HeapOrdered(r) && Entries(r, ref') == Entries(h, ref)[node.id := node]
  {
    InsertedKeeps(h, node);
    EntriesAfterAdding(h, ref, r, ref', node);
  }

  lemma RekeyingMeets(h: seq<TimerNode>, ref: map<int, nat>, r: seq<TimerNode>, ref': map<int, nat>,
                      i: nat, expires: int, cb: Callback)
    requires HeapOrdered(h) && Indexed(h, ref) && Indexed(r, ref') && i < |h|
    requires r == Rekeyed(h, i, expires, cb)
    ensures HeapOrdered(r) && Entries(r, ref') == Entries(h, ref)[h[i].id := TimerNode(h[i].id, expires, cb)]
  {
    RekeyedKeeps(h, i, expires, cb);
    EntriesAfterReplacing(h, ref, r, ref', h[i], TimerNode(h[i].id, expires, cb));
  }

  lemma DeletingMeets(h: seq<TimerNode>, ref: map<int, nat>, r: seq<TimerNode>, ref': map<int, nat>, i: nat)
    requires HeapOrdered(h) && Indexed(h, ref) && Indexed(r, ref') && i < |h|
    requires r == Deleted(h, i)
    ensures HeapOrdered(r) && Entries(r, ref') == Entries(h, ref) - {h[i].id}
    ensures multiset(r) == multiset(h) - multiset{h[i]}
  {
    DeletedKeeps(h, i);
    EntriesAfterRemoving(h, ref, r, ref', h[i]);
  }

  lemma ExtendingMeets(h: seq<TimerNode>, ref: map<int, nat>, r: seq<TimerNode>, ref': map<int, nat>,
                       i: nat, expires: int)
    requires HeapOrdered(h) && Indexed(h, ref) && Indexed(r, ref') && i < |h|
    requires r == Extended(h, i, expires)
    ensures HeapOrdered(r) <==> i == 0 || h[Parent(i)].expires <= expires
    ensures h[i].expires <= expires ==> HeapOrdered(r)
    ensures Entries(r, ref') == Entries(h, ref)[h[i].id := h[i].(expires := expires)]
  {
    ExtendedKeepsOrderIff(h, i, expires);
    if i > 0 {
      assert Child(Parent(i), i);
      assert EdgeOk(h, Parent(i), i);
    }
    EntriesAfterReplacing(h, ref, r, ref', h[i], h[i].(expires := expires));
  }

  lemma RootIsFirst(h: seq<TimerNode>)
    requires HeapOrdered(h)
    ensures forall node | node in h :: h[0].expires <= node.expires
  {
    forall node | node in h ensures h[0].expires <= node.expires {
      var k :| 0 <= k < |h| && h[k] == node;
      RootIsMinimum(h, k);
    }
  }

  // ---------- ticks ----------

  ghost function Ids(nodes: seq<TimerNode>): set<int> {
    set node | node in nodes :: node.id
  }

  /** Less than a whole millisecond left at time t. */
  ghost predicate Due(node: TimerNode, t: int) {
    node.expires - t < NANOS_PER_MS
  }

  lemma DueIff(node: TimerNode, t: int)
    ensures ToMillis(node.expires - t) > 0 <==> !Due(node, t)
  {
  }

  /** The nodes fired so far left first, earliest first, and each was due. */
  ghost predicate FiredSoFar(start: seq<TimerNode>, h: seq<TimerNode>, fired: seq<TimerNode>, t: int) {
    && multiset(h) + multiset(fired) == multiset(start)
    && (forall i, j | 0 <= i < j < |fired| :: fired[i].expires <= fired[j].expires)
    && (forall a, b | a in fired && b in h :: a.expires <= b.expires)
    && (forall a | a in fired :: Due(a, t))
  }

  lemma FireFirst(start: seq<TimerNode>, h: seq<TimerNode>, fired: seq<TimerNode>, t0: int, t: int)
    requires h != [] && HeapOrdered(h) && Due(h[0], t)
    requires t0 <= t && FiredSoFar(start, h, fired, t0)
    ensures forall r | multiset(r) == multiset(h) - multiset{h[0]} :: FiredSoFar(start, r, fired + [h[0]], t)
  {
    RootIsFirst(h);
    forall r | multiset(r) == multiset(h) - multiset{h[0]} ensures FiredSoFar(start, r, fired + [h[0]], t) {
      forall b | b in r ensures b in h {
        assert b in multiset(r);
      }
    }
  }

  lemma MembersOfSum(a: seq<TimerNode>, b: seq<TimerNode>, whole: seq<TimerNode>)
    requires multiset(a) + multiset(b) == multiset(whole)
    ensures forall x :: x in whole <==> x in a || x in b
  {
    forall x ensures x in whole <==> x in a || x in b {
      assert x in whole <==> x in multiset(whole);
    }
  }

  lemma DistinctPart(a: seq<TimerNode>, b: seq<TimerNode>, whole: seq<TimerNode>)
    requires DistinctIds(whole)
    requires multiset(a) + multiset(b) == multiset(whole)
    ensures DistinctIds(b)
  {
    MembersOfSum(a, b, whole);
    forall x | x in b ensures multiset(b)[x] == 1 {
      OneCopy(whole, x);
      assert x in multiset(b);
    }
    UniqueIsDistinct(b);
  }

  lemma FiringMeets(h: seq<TimerNode>, ref: map<int, nat>, r: seq<TimerNode>, ref': map<int, nat>,
                    fired: seq<TimerNode>)
    requires Indexed(h, ref) && Indexed(r, ref')
    requires multiset(r) + multiset(fired) == multiset(h)
    ensures Entries(r, ref') == Entries(h, ref) - Ids(fired)
    ensures DistinctIds(fired)
  {
    IndexedIsDistinct(h, ref);
    DistinctPart(r, fired, h);
    MembersOfSum(r, fired, h);
    forall x | x in r ensures x.id !in Ids(fired) {
      if y :| y in fired && y.id == x.id {
        EntryOf(h, ref, x);
        EntryOf(h, ref, y);
      }
    }
    var want := Entries(h, ref) - Ids(fired);
    forall id | id in want ensures want[id].id == id && want[id] in r {
      assert h[ref[id]] in h;
    }
    EntriesAre(r, ref', want);
  }

  class HeapTimer {
    var heap: seq<TimerNode>
    var ref: map<int, nat>

    ghost predicate Valid()
      reads this
    {
      HeapOrdered(heap) && Indexed(heap, ref)
    }

    ghost function View(): map<int, TimerNode>
      reads this
      requires Indexed(heap, ref)
    {
      Entries(heap, ref)
    }

    constructor ()
      ensures Valid() && heap == [] && ref == map[]
    {
      heap := [];
      ref := map[];
    }

    method SwapNode(i: nat, j: nat)
      requires i < |heap| && j < |heap| && Indexed(heap, ref)
      modifies this
      ensures Indexed(heap, ref) && heap == Swapped(old(heap), i, j)
    {
      heap := Swapped(heap, i, j);
      ref := ref[heap[i].id := i];
      ref := ref[heap[j].id := j];
    }

    method SiftUp(index: nat)
      requires index < |heap| && Indexed(heap, ref)
      modifies this
      ensures Indexed(heap, ref) && heap == SiftedUp(old(heap), index)
    {
      var i := index;
      while i > 0
        invariant 0 <= i < |heap| && Indexed(heap, ref)
        invariant SiftedUp(heap, i) == SiftedUp(old(heap), index)
      {
        var j := Parent(i);
        if Less(heap[j], heap[i]) { break; }
        SwapNode(i, j);
        i := j;
      }
    }

    method SiftDown(index: nat, n: nat) returns (moved: bool)
      requires index < n <= |heap| && Indexed(heap, ref)
      modifies this
      ensures Indexed(heap, ref)
      ensures heap == SiftedDown(old(heap), index, n).0
      ensures moved <==> SiftedDown(old(heap), index, n).1 > index
    {
      var i := index;
      var j := i * 2 + 1;
      while j < n
        invariant index <= i < n <= |heap| && j == i * 2 + 1 && Indexed(heap, ref)
        invariant SiftedDown(heap, i, n) == SiftedDown(old(heap), index, n)
        decreases n - i
      {
        if j + 1 < n && Less(heap[j + 1], heap[j]) { j := j + 1; }
        assert j == SmallerChild(heap, i, n);
        if Less(heap[i], heap[j]) { break; }
        SwapNode(i, j);
        i := j;
        j := i * 2 + 1;
      }
      assert SiftedDown(heap, i, n) == (heap, i);
      moved := i > index;
    }

    /** Down, and up only when that did not move the node. */
    method Resift(i: nat, n: nat)
      requires i < n <= |heap| && Indexed(heap, ref)
      modifies this
      ensures Indexed(heap, ref) && heap == Resifted(old(heap), i, n)
    {
      SiftedDownKeepsNodes(heap, i, n);
      var moved := SiftDown(i, n);
      if !moved {
        SiftUp(i);
      }
    }

    /** A new id is inserted, a known one re-keyed; either way it is the only id that changes. */
    method Add(id: int, timeout: int, cb: Callback, clock: Clock)
      requires Valid() && 0 <= id
      modifies this, clock
      ensures Valid() && old(clock.time) <= clock.time
      ensures View() == old(View())[id := TimerNode(id, clock.time + timeout * NANOS_PER_MS, cb)]
    {
      var i;
      if id !in ref {
        i := |heap|;
        ref := ref[id := i];
        var now := clock.Now();
        var node := TimerNode(id, now + timeout * NANOS_PER_MS, cb);
        heap := heap + [node];
        SiftUp(i);
        InsertingMeets(old(heap), old(ref), heap, ref, node);
      } else {
        i := ref[id];
        var now := clock.Now();
        var expires := now + timeout * NANOS_PER_MS;
        heap := heap[i := heap[i].(expires := expires)];
        heap := heap[i := heap[i].(cb := cb)];
        assert heap == old(heap)[i := old(heap)[i].(expires := expires, cb := cb)];
        Resift(i, |heap|);
        RekeyingMeets(old(heap), old(ref), heap, ref, i, expires, cb);
      }
    }

    /** Removes exactly the node at the index, wherever it is. */
    method Del(index: nat)
      requires Valid() && index < |heap|
      modifies this
      ensures Valid() && heap == Deleted(old(heap), index) && |heap| == |old(heap)| - 1
      ensures multiset(heap) == multiset(old(heap)) - multiset{old(heap[index])}
      ensures View() == old(View()) - {old(heap[index].id)}
    {
      var i, n := index, |heap| - 1;
      if i < n {
        ghost var s := Swapped(heap, i, n);
        SwapNode(i, n);
        ResiftedKeepsNodes(s, i, n);
        Resift(i, n);
      }
      assert heap[n] == old(heap)[index] && heap[..n] == Deleted(old(heap), index);
      ref := ref - {heap[n].id};
      heap := heap[..n];
      DeletingMeets(old(heap), old(ref), heap, ref, index);
    }

    /** Runs the callback of an id and forgets it; an unknown id does nothing. */
    method DoWork(id: int) returns (fired: seq<TimerNode>)
      requires Valid()
      modifies this
      ensures Valid()
      ensures View() == old(View()) - {id}
      ensures fired == if id in old(View()) then [old(View())[id]] else []
    {
      if heap == [] || id !in ref {
        fired := [];
        return;
      }
      var i := ref[id];
      fired := [heap[i]];
      Del(i);
    }

    /**
     Moves one deadline. The heap stays ordered exactly when the node need not rise, and so
     whenever its deadline gets no earlier.
     */
    method Adjust(id: int, timeout: int, clock: Clock)
      requires Valid() && id in View()
      modifies this, clock
      ensures Indexed(heap, ref) && old(clock.time) <= clock.time
      ensures View() == old(View())[id := old(View())[id].(expires := clock.time + timeout * NANOS_PER_MS)]
      ensures Valid() <==>
        old(ref)[id] == 0 || old(heap)[Parent(old(ref)[id])].expires <= clock.time + timeout * NANOS_PER_MS
      ensures old(View())[id].expires <= clock.time + timeout * NANOS_PER_MS ==> Valid()
    {
      ghost var i := ref[id];
      var now := clock.Now();
      var expires := now + timeout * NANOS_PER_MS;
      heap := heap[ref[id] := heap[ref[id]].(expires := expires)];
      SiftedDownKeepsNodes(heap, i, |heap|);
      var moved := SiftDown(ref[id], |heap|);
      ExtendingMeets(old(heap), old(ref), heap, ref, i, expires);
    }

    /** Removes the root, which no node precedes. */
    method Pop()
      requires Valid() && heap != []
      modifies this
      ensures Valid() && |heap| == |old(heap)| - 1
      ensures multiset(heap) == multiset(old(heap)) - multiset{old(heap)[0]}
      ensures View() == old(View()) - {old(heap)[0].id}
      ensures forall node | node in old(heap) :: old(heap)[0].expires <= node.expires
    {
      RootIsFirst(heap);
      Del(0);
    }

    /**
     Fires and removes every node that was due when the tick began, each once, earliest first,
     and stops with nothing due at its last reading of the clock.
     */
    method Tick(clock: Clock) returns (fired: seq<TimerNode>)
      requires Valid()
      modifies this, clock
      ensures Valid() && old(clock.time) <= clock.time
      ensures multiset(heap) + multiset(fired) == multiset(old(heap))
      ensures View() == old(View()) - Ids(fired)
      ensures DistinctIds(fired)
      ensures forall i, j | 0 <= i < j < |fired| :: fired[i].expires <= fired[j].expires
      ensures forall node | node in fired :: node in old(heap) && Due(node, clock.time)
      ensures forall node | node in old(heap) && Due(node, old(clock.time)) :: node in fired
      ensures forall node | node in heap :: !Due(node, clock.time)
    {
      fired := [];
      while heap != []
        invariant Valid() && old(clock.time) <= clock.time
        invariant FiredSoFar(old(heap), heap, fired, clock.time)
        decreases |heap|
      {
        var node := heap[0];
        ghost var before := clock.time;
        var now := clock.Now();
        DueIff(node, now);
        if ToMillis(node.expires - now) > 0 {
          RootIsFirst(heap);
          break;
        }
        FireFirst(old(heap), heap, fired, before, now);
        Pop();
        fired := fired + [node];
      }
      MembersOfSum(heap, fired, old(heap));
      FiringMeets(old(heap), old(ref), heap, ref, fired);
    }

    /** -1 when nothing is left, and otherwise a wait that ends before the earliest deadline has passed. */
    method GetNextTick(clock: Clock) returns (wait: int, fired: seq<TimerNode>)
      requires Valid()
      modifies this, clock
      ensures Valid() && old(clock.time) <= clock.time
      ensures multiset(heap) + multiset(fired) == multiset(old(heap))
      ensures View() == old(View()) - Ids(fired)
      ensures forall node | node in old(heap) && Due(node, old(clock.time)) :: node in fired
      ensures forall node | node in fired :: node in old(heap) && Due(node, clock.time)
      ensures wait == -1 <==> heap == []
      ensures heap != [] ==> 0 <= wait
      ensures forall node | node in heap ::
        wait == 0 || clock.time + wait * NANOS_PER_MS <= node.expires
      ensures heap != [] ==>
        exists node | node in heap :: Due(node, clock.time + wait * NANOS_PER_MS)
    {
      fired := Tick(clock);
      wait := -1;
      ghost var ticked := clock.time;
      if heap != [] {
        var now := clock.Now();
        wait := ToMillis(heap[0].expires - now);
        if wait < 0 { wait := 0; }
        RootIsFirst(heap);
        assert heap[0] in heap && Due(heap[0], clock.time + wait * NANOS_PER_MS);
      }
    }
  }
}

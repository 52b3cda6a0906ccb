/** A monotone clock. Each reading may be later than the one before, never earlier. */
module Clocks {
  const NANOS_PER_MS: int := 1_000_000

  class Clock {
    var time: int  // the last reading, in nanoseconds

    constructor (start: int)
      ensures time == start
    {
      time := start;
    }

    method Now() returns (t: int)
      modifies this
      ensures t == time && old(time) <= time
    {
      var elapsed: int :| 0 <= elapsed;
      time := time + elapsed;
      t := time;
    }
  }
}

/**
 The heap as a value. The recursive functions say what the two sifting loops compute;
 the lemmas say what that is worth: order, contents and, for runs, the bound that makes
 a sift-down enough when a deadline is extended.
 */
module TimerHeap {
  import opened Clocks
  import opened Options
  import opened CInts

  /** The server registers one kind of callback: close the connection on this descriptor. */
  datatype Callback = CloseConn(fd: int)

  datatype TimerNode = TimerNode(id: int, expires: int, cb: Callback)

  predicate Less(a: TimerNode, b: TimerNode) {
    a.expires < b.expires
  }

  function Parent(i: nat): nat
    requires 0 < i
  {
    (i - 1) / 2
  }

  predicate Child(p: int, c: int) {
    c == 2 * p + 1 || c == 2 * p + 2
  }

  ghost predicate EdgeOk(h: seq<TimerNode>, p: nat, c: nat)
    requires p < |h| && c < |h|
  {
    h[p].expires <= h[c].expires
  }

  /** Heap order on the first n nodes. */
  ghost predicate Ordered(h: seq<TimerNode>, n: nat)
    requires n <= |h|
  {
    forall p: nat, c: nat | Child(p, c) && c < n :: EdgeOk(h, p, c)
  }

  ghost predicate HeapOrdered(h: seq<TimerNode>) {
    Ordered(h, |h|)
  }

  ghost predicate DistinctIds(h: seq<TimerNode>) {
    forall i, j | 0 <= i < j < |h| :: h[i].id != h[j].id
  }

  /** The parent of i, when there is one, is no later than the children of i. */
  ghost predicate Bridged(h: seq<TimerNode>, i: nat, n: nat)
    requires i < n <= |h|
  {
    forall p: nat, c: nat | Child(p, i) && Child(i, c) && c < n :: EdgeOk(h, p, c)
  }

  /** Only edges that touch i may be out of order. */
  ghost predicate OrderedAround(h: seq<TimerNode>, i: nat, n: nat)
    requires i < n <= |h|
  {
    && (forall p: nat, c: nat | Child(p, c) && c < n && p != i && c != i :: EdgeOk(h, p, c))
    && Bridged(h, i, n)
  }

  /** Only the edge from i to its parent may be out of order. */
  ghost predicate OrderedBelow(h: seq<TimerNode>, i: nat, n: nat)
    requires i < n <= |h|
  {
    && (forall p: nat, c: nat | Child(p, c) && c < n && c != i :: EdgeOk(h, p, c))
    && Bridged(h, i, n)
  }

  function Swapped(h: seq<TimerNode>, i: nat, j: nat): seq<TimerNode>
    requires i < |h| && j < |h|
  {
    h[i := h[j]][j := h[i]]
  }

  function SiftedUp(h: seq<TimerNode>, i: nat): seq<TimerNode>
    requires i < |h|
    decreases i
  {
    if i == 0 || Less(h[Parent(i)], h[i]) then h
    else SiftedUp(Swapped(h, i, Parent(i)), Parent(i))
  }

  function SmallerChild(h: seq<TimerNode>, i: nat, n: nat): (c: nat)
    requires 2 * i + 1 < n <= |h|
    ensures Child(i, c) && c < n
  {
    var j := 2 * i + 1;
    if j + 1 < n && Less(h[j + 1], h[j]) then j + 1 else j
  }

  /** The heap after sifting down from i within the first n nodes, and where the node ended. */
  function SiftedDown(h: seq<TimerNode>, i: nat, n: nat): (seq<TimerNode>, nat)
    requires i < n <= |h|
    decreases n - i
  {
    if n <= 2 * i + 1 then (h, i)
    else
      var c := SmallerChild(h, i, n);
      if Less(h[i], h[c]) then (h, i)
      else SiftedDown(Swapped(h, i, c), c, n)
  }

  /** Down first, then up only when the node did not move down. */
  function Resifted(h: seq<TimerNode>, i: nat, n: nat): seq<TimerNode>
    requires i < n <= |h|
  {
    var (down, stop) := SiftedDown(h, i, n);
    SiftedDownKeepsNodes(h, i, n);
    if stop > i then down else SiftedUp(down, i)
  }

  function Inserted(h: seq<TimerNode>, node: TimerNode): seq<TimerNode> {
    SiftedUp(h + [node], |h|)
  }

  function Rekeyed(h: seq<TimerNode>, i: nat, expires: int, cb: Callback): seq<TimerNode>
    requires i < |h|
  {
    Resifted(h[i := h[i].(expires := expires, cb := cb)], i, |h|)
  }

  function Deleted(h: seq<TimerNode>, i: nat): seq<TimerNode>
    requires i < |h|
  {
    var n := |h| - 1;
    if i == n then h[..n]
    else
      ResiftedKeepsNodes(Swapped(h, i, n), i, n);
      Resifted(Swapped(h, i, n), i, n)[..n]
  }

  function Extended(h: seq<TimerNode>, i: nat, expires: int): seq<TimerNode>
    requires i < |h|
  {
    SiftedDown(h[i := h[i].(expires := expires)], i, |h|).0
  }

  // ---------- contents: sifting permutes ----------

  lemma SwappedKeepsNodes(h: seq<TimerNode>, i: nat, j: nat)
    requires i < |h| && j < |h|
    ensures multiset(Swapped(h, i, j)) == multiset(h)
  {
  }

  lemma {:induction false} SiftedUpKeepsNodes(h: seq<TimerNode>, i: nat)
    requires i < |h|
    ensures |SiftedUp(h, i)| == |h|
    ensures multiset(SiftedUp(h, i)) == multiset(h)
    ensures forall k | i < k < |h| :: SiftedUp(h, i)[k] == h[k]
    decreases i
  {
    if i != 0 && !Less(h[Parent(i)], h[i]) {
      SwappedKeepsNodes(h, i, Parent(i));
      SiftedUpKeepsNodes(Swapped(h, i, Parent(i)), Parent(i));
    }
  }

  lemma {:induction false} SiftedDownKeepsNodes(h: seq<TimerNode>, i: nat, n: nat)
    requires i < n <= |h|
    ensures var (r, stop) := SiftedDown(h, i, n);
            && |r| == |h| && i <= stop < n
            && multiset(r) == multiset(h)
            && (stop == i ==> r == h)
            && (forall k | n <= k < |h| :: r[k] == h[k])
    decreases n - i
  {
    if 2 * i + 1 < n {
      var c := SmallerChild(h, i, n);
      if !Less(h[i], h[c]) {
        SwappedKeepsNodes(h, i, c);
        SiftedDownKeepsNodes(Swapped(h, i, c), c, n);
      }
    }
  }

  lemma ResiftedKeepsNodes(h: seq<TimerNode>, i: nat, n: nat)
    requires i < n <= |h|
    ensures |Resifted(h, i, n)| == |h|
    ensures multiset(Resifted(h, i, n)) == multiset(h)
    ensures forall k | n <= k < |h| :: Resifted(h, i, n)[k] == h[k]
  {
    SiftedDownKeepsNodes(h, i, n);
    SiftedUpKeepsNodes(SiftedDown(h, i, n).0, i);
  }

  // ---------- order ----------

  lemma {:induction false} SiftedUpOrders(h: seq<TimerNode>, i: nat, n: nat)
    requires i < n <= |h|
    requires OrderedBelow(h, i, n)
    ensures |SiftedUp(h, i)| == |h| && Ordered(SiftedUp(h, i), n)
    decreases i
  {
    if i == 0 {
      assert forall p: nat :: !Child(p, 0);
    } else {
      var q := Parent(i);
      assert Child(q, i) && forall p: nat | Child(p, i) :: p == q;
      if !Less(h[q], h[i]) {
        var s := Swapped(h, i, q);
        forall p: nat, c: nat | Child(p, c) && c < n && c != q ensures EdgeOk(s, p, c) {
          assert p == i ==> EdgeOk(h, q, c);
          assert p != i && c != i ==> EdgeOk(h, p, c);
        }
        forall p: nat, c: nat | Child(p, q) && Child(q, c) && c < n ensures EdgeOk(s, p, c) {
          assert EdgeOk(h, p, q);
          assert c != i ==> EdgeOk(h, q, c);
        }
        SiftedUpOrders(s, q, n);
      } else {
        forall p: nat, c: nat | Child(p, c) && c < n ensures EdgeOk(h, p, c) {
          assert c == i ==> p == q;
        }
      }
    }
  }

  /**
   Sifting down repairs every edge but possibly the one above i; and when the node moved,
   ties included, that one too: what came up to i was bridged over by the parent of i.
   */
  lemma {:induction false} SiftedDownOrders(h: seq<TimerNode>, i: nat, n: nat)
    requires i < n <= |h|
    requires OrderedAround(h, i, n)
    ensures var (r, stop) := SiftedDown(h, i, n);
            && |r| == |h|
            && OrderedBelow(r, i, n)
            && (stop > i ==> Ordered(r, n))
    decreases n - i
  {
    if n <= 2 * i + 1 {
      assert forall p: nat, c: nat | Child(p, c) && c < n :: p != i;
    } else {
      var m := SmallerChild(h, i, n);
      if Less(h[i], h[m]) {
        assert OrderedBelow(h, i, n);
      } else {
        var s := Swapped(h, i, m);
        SwapDownKeepsAround(h, i, m, n);
        SiftedDownOrders(s, m, n);
        SiftedDownKeepsNodes(s, m, n);
        var (r, stop) := SiftedDown(s, m, n);
        assert Ordered(r, n) by {
          if stop == m {
            forall p: nat, c: nat | Child(p, c) && c < n ensures EdgeOk(r, p, c) {
              assert c == m ==> p == i;
            }
          }
        }
        BridgeOfOrdered(r, i, n);
      }
    }
  }

  lemma SwapDownKeepsAround(h: seq<TimerNode>, i: nat, m: nat, n: nat)
    requires 2 * i + 1 < n <= |h|
    requires OrderedAround(h, i, n)
    requires m == SmallerChild(h, i, n) && !Less(h[i], h[m])
    ensures OrderedAround(Swapped(h, i, m), m, n)
    ensures EdgeOk(Swapped(h, i, m), i, m)
  {
    var s := Swapped(h, i, m);
    forall p: nat, c: nat | Child(p, c) && c < n && p != m && c != m ensures EdgeOk(s, p, c) {
      if c == i {
        assert EdgeOk(h, p, m);
      } else if p != i {
        assert EdgeOk(h, p, c);
      }
    }
    forall p: nat, c: nat | Child(p, m) && Child(m, c) && c < n ensures EdgeOk(s, p, c) {
      assert p == i;
      assert EdgeOk(h, m, c);
    }
  }

  lemma BridgeOfOrdered(h: seq<TimerNode>, i: nat, n: nat)
    requires i < n <= |h|
    requires Ordered(h, n)
    ensures Bridged(h, i, n)
  {
    forall p: nat, c: nat | Child(p, i) && Child(i, c) && c < n ensures EdgeOk(h, p, c) {
      assert EdgeOk(h, p, i) && EdgeOk(h, i, c);
    }
  }

  /** One sift down or else one sift up restores the order around any single changed node. */
  lemma ResiftedOrders(h: seq<TimerNode>, i: nat, n: nat)
    requires i < n <= |h|
    requires OrderedAround(h, i, n)
    ensures |Resifted(h, i, n)| == |h| && Ordered(Resifted(h, i, n), n)
  {
    SiftedDownOrders(h, i, n);
    var (down, stop) := SiftedDown(h, i, n);
    if stop <= i {
      SiftedUpOrders(down, i, n);
    }
  }

  lemma ReplacedIsAround(h: seq<TimerNode>, i: nat, node: TimerNode, n: nat)
    requires i < n <= |h|
    requires Ordered(h, n)
    ensures OrderedAround(h[i := node], i, n)
  {
    BridgeOfOrdered(h, i, n);
    var s := h[i := node];
    forall p: nat, c: nat | Child(p, c) && c < n && p != i && c != i ensures EdgeOk(s, p, c) {
      assert EdgeOk(h, p, c);
    }
    forall p: nat, c: nat | Child(p, i) && Child(i, c) && c < n ensures EdgeOk(s, p, c) {
      assert EdgeOk(h, p, c);
    }
  }

  lemma InsertedKeeps(h: seq<TimerNode>, node: TimerNode)
    requires HeapOrdered(h)
    ensures HeapOrdered(Inserted(h, node))
    ensures multiset(Inserted(h, node)) == multiset(h) + multiset{node}
  {
    var s := h + [node];
    forall p: nat, c: nat | Child(p, c) && c < |s| && c != |h| ensures EdgeOk(s, p, c) {
      assert EdgeOk(h, p, c);
    }
    SiftedUpOrders(s, |h|, |s|);
    SiftedUpKeepsNodes(s, |h|);
  }

  lemma RekeyedKeeps(h: seq<TimerNode>, i: nat, expires: int, cb: Callback)
    requires HeapOrdered(h) && i < |h|
    ensures HeapOrdered(Rekeyed(h, i, expires, cb))
    ensures multiset(Rekeyed(h, i, expires, cb))
         == multiset(h) - multiset{h[i]} + multiset{h[i].(expires := expires, cb := cb)}
  {
    var node := h[i].(expires := expires, cb := cb);
    ReplacedIsAround(h, i, node, |h|);
    ResiftedOrders(h[i := node], i, |h|);
    ResiftedKeepsNodes(h[i := node], i, |h|);
  }

  lemma DropLastKeeps(h: seq<TimerNode>, n: nat)
    requires |h| == n + 1 && Ordered(h, n)
    ensures HeapOrdered(h[..n])
    ensures multiset(h[..n]) == multiset(h) - multiset{h[n]}
  {
    assert h == h[..n] + [h[n]];
    forall p: nat, c: nat | Child(p, c) && c < n ensures EdgeOk(h[..n], p, c) {
      assert EdgeOk(h, p, c);
    }
  }

  /** Swapping the last node into position i leaves only the edges at i in doubt. */
  lemma SwapWithLastIsAround(h: seq<TimerNode>, i: nat)
    requires HeapOrdered(h) && i + 1 < |h|
    ensures OrderedAround(Swapped(h, i, |h| - 1), i, |h| - 1)
  {
    var n := |h| - 1;
    OrderedPrefix(h, n);
    ReplacedIsAround(h, i, h[n], n);
    AroundIgnoresTail(h[i := h[n]], Swapped(h, i, n), i, n);
  }

  lemma OrderedPrefix(h: seq<TimerNode>, n: nat)
    requires HeapOrdered(h) && n <= |h|
    ensures Ordered(h, n)
  {
  }

  lemma DeletedKeeps(h: seq<TimerNode>, i: nat)
    requires HeapOrdered(h) && i < |h|
    ensures HeapOrdered(Deleted(h, i))
    ensures multiset(Deleted(h, i)) == multiset(h) - multiset{h[i]}
  {
    var n := |h| - 1;
    if i == n {
      OrderedPrefix(h, n);
      DropLastKeeps(h, n);
    } else {
      var s := Swapped(h, i, n);
      SwappedKeepsNodes(h, i, n);
      SwapWithLastIsAround(h, i);
      ResiftedOrders(s, i, n);
      ResiftedKeepsNodes(s, i, n);
      DropLastKeeps(Resifted(s, i, n), n);
    }
  }

  lemma AroundIgnoresTail(h: seq<TimerNode>, s: seq<TimerNode>, i: nat, n: nat)
    requires i < n <= |h| && |s| == |h|
    requires forall k | 0 <= k < n :: s[k] == h[k]
    requires OrderedAround(h, i, n)
    ensures OrderedAround(s, i, n)
  {
    forall p: nat, c: nat | Child(p, c) && c < n && p != i && c != i ensures EdgeOk(s, p, c) {
      assert EdgeOk(h, p, c);
    }
    forall p: nat, c: nat | Child(p, i) && Child(i, c) && c < n ensures EdgeOk(s, p, c) {
      assert EdgeOk(h, p, c);
    }
  }

  /**
   Extending a deadline sifts down only. The order survives exactly when the new deadline is
   no earlier than the parent's: a node that must rise is strictly before its children too,
   so it stays where it is.
   */
  lemma ExtendedKeepsOrderIff(h: seq<TimerNode>, i: nat, expires: int)
    requires HeapOrdered(h) && i < |h|
    ensures HeapOrdered(Extended(h, i, expires)) <==> i == 0 || h[Parent(i)].expires <= expires
    ensures multiset(Extended(h, i, expires))
         == multiset(h) - multiset{h[i]} + multiset{h[i].(expires := expires)}
  {
    var n := |h|;
    var node := h[i].(expires := expires);
    var s := h[i := node];
    ReplacedIsAround(h, i, node, n);
    SiftedDownOrders(s, i, n);
    SiftedDownKeepsNodes(s, i, n);
    var (r, stop) := SiftedDown(s, i, n);
    if i > 0 {
      assert Child(Parent(i), i) && forall p: nat | Child(p, i) :: p == Parent(i);
    }
    if i == 0 || h[Parent(i)].expires <= expires {
      if stop == i {
        forall p: nat, c: nat | Child(p, c) && c < n ensures EdgeOk(r, p, c) {
          assert c == i ==> p == Parent(i);
        }
      }
    } else {
      if 2 * i + 1 < n {
        var c := SmallerChild(s, i, n);
        assert EdgeOk(h, Parent(i), i) && EdgeOk(h, i, c);
      }
      assert r == s;
      assert !EdgeOk(r, Parent(i), i);
    }
  }

  lemma {:induction false} RootIsMinimum(h: seq<TimerNode>, i: nat)
    requires HeapOrdered(h) && i < |h|
    ensures h[0].expires <= h[i].expires
    decreases i
  {
    if i > 0 {
      assert Child(Parent(i), i);
      assert EdgeOk(h, Parent(i), i);
      RootIsMinimum(h, Parent(i));
    }
  }

  // ---------- the guards as the code writes them ----------

  /**
   Sifting up with the index arithmetic of size_t: the parent of 0 wraps to 2^63 - 1 and the
   guard j >= 0 never fails. None: the loop indexes past the vector.
   */
  function SiftedUpInSizeT(h: seq<TimerNode>, i: nat): Option<seq<TimerNode>>
    requires i < |h| < SIZE_T_LIMIT / 2
    decreases i
  {
    var j := ((i - 1) % SIZE_T_LIMIT) / 2;
    if j >= |h| then None
    else if Less(h[j], h[i]) then Some(h)
    else SiftedUpInSizeT(Swapped(h, i, j), j)
  }

  /** It stays inside the vector exactly when the node is strictly later than the root. */
  lemma {:induction false} SizeTGuardIsSafeIff(h: seq<TimerNode>, i: nat, n: nat)
    requires i < n <= |h| < SIZE_T_LIMIT / 2
    requires OrderedBelow(h, i, n)
    ensures SiftedUpInSizeT(h, i).Some? <==> h[0].expires < h[i].expires
    ensures SiftedUpInSizeT(h, i).Some? ==> SiftedUpInSizeT(h, i).value == SiftedUp(h, i)
    decreases i
  {
    if i > 0 {
      var q := Parent(i);
      assert Child(q, i) && forall p: nat | Child(p, i) :: p == q;
      assert (i - 1) % SIZE_T_LIMIT == i - 1;
      if Less(h[q], h[i]) {
        RootBelow(h, q, i, n);
      } else {
        var s := Swapped(h, i, q);
        forall p: nat, c: nat | Child(p, c) && c < n && c != q ensures EdgeOk(s, p, c) {
          assert p == i ==> EdgeOk(h, q, c);
          assert p != i && c != i ==> EdgeOk(h, p, c);
        }
        forall p: nat, c: nat | Child(p, q) && Child(q, c) && c < n ensures EdgeOk(s, p, c) {
          assert EdgeOk(h, p, q);
          assert c != i ==> EdgeOk(h, q, c);
        }
        SizeTGuardIsSafeIff(s, q, n);
      }
    }
  }

  lemma {:induction false} RootBelow(h: seq<TimerNode>, k: nat, i: nat, n: nat)
    requires k < i < n <= |h|
    requires OrderedBelow(h, i, n)
    ensures h[0].expires <= h[k].expires
    decreases k
  {
    if k > 0 {
      assert Child(Parent(k), k);
      assert EdgeOk(h, Parent(k), k);
      RootBelow(h, Parent(k), i, n);
    }
  }

  /** The first node ever added is such a case. */
  lemma FirstAddLeavesTheVector(node: TimerNode)
    ensures SiftedUpInSizeT([node], 0) == None
  {
    assert (-1) % SIZE_T_LIMIT == SIZE_T_LIMIT - 1;
  }

  /** duration_cast to milliseconds truncates toward zero. */
  function ToMillis(nanos: int): int {
    if nanos >= 0 then nanos / NANOS_PER_MS else -((-nanos) / NANOS_PER_MS)
  }

  function NextWait(remaining: int): int {
    if ToMillis(remaining) < 0 then 0 else ToMillis(remaining)
  }

  /** The wait as the code computes it: stored in a size_t, compared with 0 there, returned as int. */
  function NextWaitInSizeT(remaining: int): int {
    var res := ToMillis(remaining) % SIZE_T_LIMIT;
    var clamped := if res < 0 then 0 else res;
    ToInt(clamped)
  }

  /**
   The clamp on a size_t gives the intended wait exactly when the count is a non-negative int,
   or a negative multiple of 2^32 milliseconds. In particular a deadline that passes by a whole
   millisecond between tick and the second clock reading gives a negative wait, which epoll
   takes as forever.
   */
  lemma SizeTClampIsRightIff(remaining: int)
    ensures var ms := ToMillis(remaining);
            NextWaitInSizeT(remaining) == NextWait(remaining)
            <==> (0 <= ms < INT_LIMIT / 2 || (ms < 0 && ms % INT_LIMIT == 0))
    ensures -INT_LIMIT / 2 <= ToMillis(remaining) < 0 ==> NextWaitInSizeT(remaining) == ToMillis(remaining)
  {
    ToIntThroughSizeT(ToMillis(remaining));
    ToIntIsIdentityIff(ToMillis(remaining));
  }
}

/** The integer conversions of the platform: a 64-bit size_t and a 32-bit int. */
module CInts {
  const SIZE_T_LIMIT: int := 0x1_0000_0000_0000_0000
  const INT_LIMIT: int := 0x1_0000_0000

  /** Conversion to a 32-bit int. */
  function ToInt(x: int): int {
    var low := x % INT_LIMIT;
    if low < INT_LIMIT / 2 then low else low - INT_LIMIT
  }

  lemma ToIntThroughSizeT(x: int)
    ensures ToInt(x % SIZE_T_LIMIT) == ToInt(x)
  {
    var q, r := x / SIZE_T_LIMIT, x % SIZE_T_LIMIT;
    assert x == q * SIZE_T_LIMIT + r;
    assert x == (q * INT_LIMIT) * INT_LIMIT + r;
    ModAddMultiple(q * INT_LIMIT, r);
  }

  lemma ModAddMultiple(k: int, r: int)
    ensures (k * INT_LIMIT + r) % INT_LIMIT == r % INT_LIMIT
  {
    var q, m := r / INT_LIMIT, r % INT_LIMIT;
    assert k * INT_LIMIT + r == (k + q) * INT_LIMIT + m;
  }

  lemma ToIntIsIdentityIff(x: int)
    ensures ToInt(x) == x <==> -INT_LIMIT / 2 <= x < INT_LIMIT / 2
  {
    var q, m := x / INT_LIMIT, x % INT_LIMIT;
    assert x == q * INT_LIMIT + m;
  }

  /** What 32 bits keep of a count: it wraps around as often as it has to. */
  function Wrapped(x: nat): (low: nat)
    ensures low < INT_LIMIT
  {
    if x < INT_LIMIT then x else Wrapped(x - INT_LIMIT)
  }

  lemma {:induction false} WrappedIs(x: nat)
    ensures Wrapped(x) == x % INT_LIMIT
  {
    if x >= INT_LIMIT {
      WrappedIs(x - INT_LIMIT);
      ModAddMultiple(1, x - INT_LIMIT);
    }
  }

  lemma {:induction false} WrappedAdds(x: nat, y: nat)
    requires Wrapped(x) + y <= INT_LIMIT
    ensures Wrapped(x + y) == if Wrapped(x) + y == INT_LIMIT then 0 else Wrapped(x) + y
  {
    if x >= INT_LIMIT {
      WrappedAdds(x - INT_LIMIT, y);
    }
  }

  lemma ToIntIsZeroIff(x: nat)
    ensures ToInt(x) == 0 <==> Wrapped(x) == 0
  {
    WrappedIs(x);
  }
}

/** C integer conversions used by the timer wheel and the timeout budget. */
module CInt {
  const TWO_31: int := 0x8000_0000
  const TWO_32: int := 0x1_0000_0000
  const TWO_63: int := 0x8000_0000_0000_0000

  /** Conversion of a wider integer to a 32-bit `int`, as gcc defines it: reduction modulo 2^32. */
  function Int32(x: int): (r: int)
    ensures -TWO_31 <= r < TWO_31
    ensures -TWO_31 <= x < TWO_31 ==> r == x
  {
    (x + TWO_31) % TWO_32 - TWO_31
  }

  lemma MulFar(k: int, n: int)
    requires 0 < n && 1 <= k
    ensures n <= k * n
  {
  }

  /** A modulus is fixed by any quotient whose remainder is in range. */
  lemma ModUnique(x: int, q: int, r: int, n: int)
    requires 0 <= r < n && x == q * n + r
    ensures x % n == r
  {
    var q', r' := x / n, x % n;
    assert x == q' * n + r';
    assert (q' - q) * n == q' * n - q * n;
    assert (q - q') * n == q * n - q' * n;
    if q' > q { MulFar(q' - q, n); }
    if q > q' { MulFar(q - q', n); }
  }

  /** Two conversions in a row are one: truncating a subtrahend first makes no difference. */
  lemma Int32Sub(a: int, b: int)
    ensures Int32(a - Int32(b)) == Int32(a - b)
  {
    var k := (b + TWO_31) / TWO_32;
    assert a - Int32(b) == a - b + k * TWO_32;
    var x := a - b + TWO_31;
    ModUnique(x + k * TWO_32, x / TWO_32 + k, x % TWO_32, TWO_32);
  }

  /** The remainder by repeated subtraction: `x % n` without division, which keeps non-linear
      arithmetic out of the proofs about bucket indices. */
  function Mod(x: int, n: int): (r: int)
    requires 0 < n
    ensures 0 <= r < n
    decreases if x < 0 then n - x else x
  {
    if x < 0 then Mod(x + n, n) else if x < n then x else Mod(x - n, n)
  }

  lemma {:induction false} ModIsRemainder(x: int, n: int)
    requires 0 < n
    ensures Mod(x, n) == x % n
    decreases if x < 0 then n - x else x
  {
    var q, r := x / n, x % n;
    assert (q + 1) * n == q * n + n && (q - 1) * n == q * n - n;
    if x < 0 {
      ModIsRemainder(x + n, n);
      ModUnique(x + n, q + 1, r, n);
    } else if x < n {
      ModUnique(x, 0, x, n);
    } else {
      ModIsRemainder(x - n, n);
      ModUnique(x - n, q - 1, r, n);
    }
  }

  /** One-lap form of an index that runs ahead of a base by less than a lap. */
  lemma {:induction false} ModAhead(base: int, k: nat, n: nat)
    requires k < n
    ensures Mod(base + k, n) == if Mod(base, n) + k < n then Mod(base, n) + k else Mod(base, n) + k - n
    decreases if base < 0 then n - base else base
  {
    if base < 0 {
      ModAhead(base + n, k, n);
    } else if n <= base {
      ModAhead(base - n, k, n);
    }
  }

  /** The `%` of C, whose quotient is truncated towards zero: the remainder has the sign of `x`. */
  function Rem(x: int, n: int): (r: int)
    requires 0 < n
    ensures -n < r < n && (0 <= x ==> 0 <= r) && (x <= 0 ==> r <= 0)
  {
    if 0 <= x then Mod(x, n) else -Mod(-x, n)
  }

  lemma {:induction false} ModNegated(x: int, n: int)
    requires 0 <= x && 0 < n
    ensures Mod(-x, n) == if Mod(x, n) == 0 then 0 else n - Mod(x, n)
    decreases x
  {
    if n <= x {
      ModNegated(x - n, n);
    }
  }

  /** A remainder that is not negative is the Euclidean one, and no other is; that of a negative number
      is 0 or negative. */
  lemma RemIsModIff(x: int, n: int)
    requires 0 < n
    ensures Rem(x, n) == Mod(x, n) <==> 0 <= Rem(x, n)
    ensures x < 0 ==> (0 <= Rem(x, n) <==> Mod(x, n) == 0)
  {
    if x < 0 {
      ModNegated(-x, n);
    }
  }

  /** The range of `long long`. */
  predicate FitsLong(x: int) {
    -TWO_63 <= x < TWO_63
  }
}

/**
  Machine integers of the two programs being modelled: the C tester's `size_t`
  and `int`, and Go's 64-bit `int`/`int64`. Dafny integers are unbounded, so
  every truncation and wrap-around the programs perform is written out here.
 */
module MachineInts {

  const TwoTo31: int := 0x8000_0000
  const TwoTo32: int := 0x1_0000_0000
  const TwoTo63: int := 0x8000_0000_0000_0000
  const TwoTo64: int := 0x1_0000_0000_0000_0000

  /** C `size_t` on a 64-bit target. */
  type SizeT = n: int | 0 <= n < TwoTo64

  /** Go `int` / `int64` on a 64-bit target. */
  type Int64 = n: int | -TwoTo63 <= n < TwoTo63

  predicate InInt64(x: int) {
    -TwoTo63 <= x < TwoTo63
  }

  function Pow2(n: nat): (r: nat)
    ensures r >= 1
  {
    if n == 0 then 1 else 2 * Pow2(n - 1)
  }

  function Abs(x: int): nat {
    if x < 0 then -x else x
  }

  /**
    Two's-complement wrap-around of Go's signed 64-bit arithmetic: the unique
    int64 congruent to `x` modulo 2^64.
   */
  function WrapInt64(x: int): (r: Int64)
    ensures (r - x) % TwoTo64 == 0
    ensures InInt64(x) ==> r == x
  {
    (x + TwoTo63) % TwoTo64 - TwoTo63
  }

  /**
    The conversion of an unsigned value to C `int` (32 bits) as GCC performs it:
    the unique value in [-2^31, 2^31) congruent to `x` modulo 2^32.
   */
  function CInt(x: int): (r: int)
    ensures -TwoTo31 <= r < TwoTo31
    ensures (r - x) % TwoTo32 == 0
    ensures 0 <= x < TwoTo31 ==> r == x
  {
    (x + TwoTo31) % TwoTo32 - TwoTo31
  }

  /** The number of trailing zero bits of a nonzero integer (two's complement). */
  function TrailingZeros(x: int): nat
    requires x != 0
    decreases Abs(x)
  {
    if x % 2 == 1 then 0 else 1 + TrailingZeros(x / 2)
  }

  lemma {:induction false} Pow2Add(a: nat, b: nat)
    ensures Pow2(a + b) == Pow2(a) * Pow2(b)
    decreases a
  {
    if a > 0 {
      Pow2Add(a - 1, b);
      calc {
        Pow2(a + b);
        2 * Pow2(a - 1 + b);
        2 * (Pow2(a - 1) * Pow2(b));
        (2 * Pow2(a - 1)) * Pow2(b);
      }
    }
  }

  lemma {:induction false} Pow2StrictlyIncreasing(a: nat, b: nat)
    requires a < b
    ensures Pow2(a) < Pow2(b)
    decreases b
  {
    if a < b - 1 {
      Pow2StrictlyIncreasing(a, b - 1);
    }
  }

  /** An odd multiple of 2^k has exactly k trailing zeros. */
  lemma {:induction false} TrailingZerosOfOddMultiple(m: int, k: nat)
    requires m % 2 == 1
    ensures m * Pow2(k) != 0
    ensures TrailingZeros(m * Pow2(k)) == k
    decreases k
  {
    if k == 0 {
      assert m * Pow2(k) == m;
    } else {
      TrailingZerosOfOddMultiple(m, k - 1);
      var half := m * Pow2(k - 1);
      assert m * Pow2(k) == 2 * half;
      assert (2 * half) % 2 == 0;
      assert (2 * half) / 2 == half;
    }
  }

  /** One step of stripping a factor 2 off `x == rel * 2^shift`. */
  lemma HalveEven(x: int, rel: int, shift: nat)
    requires rel != 0 && rel % 2 == 0 && x == rel * Pow2(shift)
    ensures rel / 2 != 0 && Abs(rel / 2) < Abs(rel)
    ensures x == (rel / 2) * Pow2(shift + 1)
    ensures TrailingZeros(rel) == 1 + TrailingZeros(rel / 2)
  {
    var h := rel / 2;
    assert rel == 2 * h;
    MulAssoc(h, 2, Pow2(shift));
  }

  /** A nonzero integer is at least 2^(number of its trailing zeros) in magnitude. */
  lemma {:induction false} TrailingZerosBound(x: int)
    requires x != 0
    ensures Pow2(TrailingZeros(x)) <= Abs(x)
    decreases Abs(x)
  {
    if x % 2 != 1 {
      TrailingZerosBound(x / 2);
      assert x == 2 * (x / 2);
    }
  }

  /** Every C `int` other than 0 has at most 31 trailing zeros. */
  lemma CIntTrailingZerosAtMost31(x: int)
    requires x != 0 && -TwoTo31 <= x < TwoTo31
    ensures TrailingZeros(x) <= 31
  {
    TrailingZerosBound(x);
    Pow2Values();
    if TrailingZeros(x) > 31 {
      Pow2StrictlyIncreasing(31, TrailingZeros(x));
    }
  }

  /**
    A power of two converted to C `int`: unchanged below 2^31, the negative
    -2^31 at 2^31 (still 31 trailing zeros), and 0 from 2^32 on.
   */
  lemma CIntOfPow2(p: nat)
    ensures p < 31 ==> CInt(Pow2(p)) == Pow2(p)
    ensures p == 31 ==> CInt(Pow2(p)) == -TwoTo31
    ensures p <= 31 ==> CInt(Pow2(p)) != 0 && TrailingZeros(CInt(Pow2(p))) == p
    ensures p >= 32 ==> CInt(Pow2(p)) == 0
  {
    Pow2Values();
    if p < 31 {
      Pow2StrictlyIncreasing(p, 31);
      TrailingZerosOfOddMultiple(1, p);
    } else if p == 31 {
      TrailingZerosOfOddMultiple(-1, 31);
    } else {
      var m := Pow2(p - 32);
      Pow2Add(p - 32, 32);
      DivUnique(Pow2(p) + TwoTo31, TwoTo32, m, TwoTo31);
    }
  }

  /** The powers of two that appear as constants in the two programs. */
  lemma Pow2Values()
    ensures Pow2(10) == 1024
    ensures Pow2(20) == 0x10_0000
    ensures Pow2(30) == 0x4000_0000
    ensures Pow2(31) == TwoTo31
    ensures Pow2(32) == TwoTo32
    ensures Pow2(40) == 0x100_0000_0000
  {
    assert Pow2(5) == 32;
    assert Pow2(10) == 1024 by { Pow2Add(5, 5); }
    Pow2Add(10, 10);
    Pow2Add(20, 10);
    Pow2Add(30, 1);
    Pow2Add(30, 2);
    Pow2Add(30, 10);
  }

  // Nonlinear arithmetic the solver needs spelled out.

  lemma MulLe(a: nat, b: nat, c: nat)
    requires b <= c
    ensures a * b <= a * c
  {
  }

  lemma DivBelowIff(n: nat, d: nat, p: nat)
    requires d > 0
    ensures n / d < p <==> n < d * p
  {
    var q, r := n / d, n % d;
    assert n == d * q + r && 0 <= r < d;
    if q < p {
      MulLe(d, q + 1, p);
      assert d * (q + 1) == d * q + d;
    } else {
      MulLe(d, p, q);
    }
  }

  lemma DivDiv(x: nat, a: nat, b: nat)
    requires a > 0 && b > 0
    ensures x / a / b == x / (a * b)
  {
    var q1, r1 := x / a, x % a;
    var q2, r2 := q1 / b, q1 % b;
    var ab := a * b;
    assert x == a * q1 + r1;
    assert q1 == b * q2 + r2;
    assert a * q1 == ab * q2 + a * r2 by {
      MulDist(a, b * q2, r2);
      MulAssoc(a, b, q2);
    }
    MulLe(a, r2, b - 1);
    assert a * (b - 1) == ab - a by { MulDist(a, b - 1, 1); }
    assert x == ab * q2 + (a * r2 + r1);
    DivUnique(x, ab, q2, a * r2 + r1);
  }

  lemma MulDist(a: int, b: int, c: int)
    ensures a * (b + c) == a * b + a * c
  {
  }

  lemma MulAssoc(a: int, b: int, c: int)
    ensures a * (b * c) == (a * b) * c
  {
  }

  /** Multiplying by a positive factor keeps a strict order. */
  lemma MulStrict(a: int, b: int, c: int)
    requires c > 0 && a < b
    ensures a * c < b * c
  {
    assert (b - a) * c > 0;
  }

  lemma DivUnique(x: nat, d: nat, q: nat, r: nat)
    requires d > 0 && r < d && x == d * q + r
    ensures x / d == q
  {
    var q', r' := x / d, x % d;
    assert x == d * q' + r' && 0 <= r' < d;
    if q' > q {
      MulLe(d, q + 1, q');
    } else if q' < q {
      MulLe(d, q' + 1, q);
    }
  }
}

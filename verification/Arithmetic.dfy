/** Machine-integer views and the divisibility facts the other modules share. */
module Arithmetic {

  type byte = b: int | 0 <= b < 256

  const TWO32 := 0x1_0000_0000
  const TWO63 := 0x8000_0000_0000_0000
  const TWO64 := 0x1_0000_0000_0000_0000

  /** Reduction to 64 bits: what a wrapping `u64` operation keeps. */
  function WrapU64(x: int): (u: nat)
    ensures u < TWO64
  {
    x % TWO64
  }

  /** The same 64 bits read as a two's-complement `i64`. */
  function WrapI64(x: int): (i: int)
    ensures -TWO63 <= i < TWO63
    ensures -TWO63 <= x < TWO63 ==> i == x
  {
    var u := x % TWO64;
    if u < TWO63 then u else u - TWO64
  }

  function Abs(x: int): nat {
    if x < 0 then -x else x
  }

  function Min(x: nat, y: nat): nat {
    if x <= y then x else y
  }

  function Max(x: nat, y: nat): nat {
    if x <= y then y else x
  }

  predicate Divides(a: nat, x: int)
    requires a > 0
  {
    x % a == 0
  }

  lemma {:induction false} MultipleMod(k: int, a: nat)
    requires a > 0
    ensures (k * a) % a == 0
  {
    ModOfMultiplePlus(k, 0, a);
  }

  lemma {:induction false} DividesSum(a: nat, x: int, y: int)
    requires a > 0 && Divides(a, x)
    ensures Divides(a, x + y) <==> Divides(a, y)
    ensures Divides(a, y + x) <==> Divides(a, y)
    ensures Divides(a, y - x) <==> Divides(a, y)
  {
    var k, m := x / a, y / a;
    var r := y % a;
    assert x == k * a by { assert x == a * k + x % a; }
    assert y == m * a + r by { assert y == a * m + r; }
    assert x + y == (k + m) * a + r by { Distribute(k, m, a); }
    assert y - x == (m - k) * a + r by { Distribute(m, -k, a); assert (-k) * a == -(k * a); }
    ModOfMultiplePlus(k + m, r, a);
    ModOfMultiplePlus(m - k, r, a);
    ModOfMultiplePlus(m, r, a);
  }

  lemma {:induction false} Distribute(k: int, m: int, a: int)
    ensures (k + m) * a == k * a + m * a
  {
  }

  lemma {:induction false} ModOfMultiplePlus(k: int, r: int, a: nat)
    requires 0 <= r < a
    ensures (k * a + r) % a == r
    ensures (k * a + r) / a == k
  {
    var x := k * a + r;
    var q, s := x / a, x % a;
    assert x == a * q + s;
    assert a * q == q * a;
    assert (k - q) * a == k * a - q * a by { Distribute(k, -q, a); assert (-q) * a == -(q * a); }
    assert (k - q) * a == s - r;
    assert (q - k) * a == -((k - q) * a);
    if k - q >= 1 {
      MulAtLeast(k - q, a);
    } else if q - k >= 1 {
      MulAtLeast(q - k, a);
    }
  }

  lemma {:induction false} MulAtLeast(k: int, a: int)
    requires k >= 1 && a >= 0
    ensures k * a >= a
  {
  }

  /** `x.next_multiple_of(a)`: the least multiple of `a` that is not below `x`. */
  function NextMultipleOf(x: nat, a: nat): (r: nat)
    requires a > 0
    ensures x <= r < x + a
  {
    var rem := x % a;
    if rem == 0 then x else x + (a - rem)
  }

  lemma {:induction false} NextMultipleOfIsLeast(x: nat, a: nat)
    requires a > 0
    ensures Divides(a, NextMultipleOf(x, a))
    ensures forall m: nat :: x <= m && Divides(a, m) ==> NextMultipleOf(x, a) <= m
  {
    var rem := x % a;
    assert x == a * (x / a) + rem;
    assert a * (x / a) == (x / a) * a;
    MultipleMod(x / a, a);
    MultipleMod(x / a + 1, a);
    assert (x / a + 1) * a == (x / a) * a + a by { Distribute(x / a, 1, a); }
    forall m: nat | x <= m && Divides(a, m)
      ensures NextMultipleOf(x, a) <= m
    {
      if m < NextMultipleOf(x, a) {
        DividesSum(a, m, NextMultipleOf(x, a) - m);
        assert m + (NextMultipleOf(x, a) - m) == NextMultipleOf(x, a);
        assert 0 < NextMultipleOf(x, a) - m < a;
        SmallMod(NextMultipleOf(x, a) - m, a);
        assert false;
      }
    }
  }

  lemma {:induction false} ModAtMost(x: nat, a: nat)
    requires a > 0
    ensures x % a <= x
  {
    var q := x / a;
    assert x == a * q + x % a;
    if q >= 1 {
      MulAtLeast(q, a);
    }
  }

  lemma {:induction false} SmallMod(x: int, a: nat)
    requires 0 <= x < a
    ensures x % a == x && x / a == 0
  {
    ModOfMultiplePlus(0, x, a);
  }

  function Pow2(k: nat): (p: nat)
    ensures p >= 1
  {
    if k == 0 then 1 else 2 * Pow2(k - 1)
  }

  ghost predicate IsPow2(x: int) {
    exists k: nat :: x == Pow2(k)
  }

  lemma {:induction false} Pow2Monotone(j: nat, k: nat)
    requires j <= k
    ensures Pow2(j) <= Pow2(k)
    ensures j < k ==> 2 * Pow2(j) <= Pow2(k)
    ensures Pow2(k) == Pow2(k - j) * Pow2(j)
  {
    if j < k {
      Pow2Monotone(j, k - 1);
      assert Pow2(k - j) == 2 * Pow2(k - 1 - j);
      assert Pow2(k) == 2 * (Pow2(k - 1 - j) * Pow2(j));
    }
  }

  /** `n.next_power_of_two()`: the smallest power of two that is not below `n`. */
  function NextPowerOfTwo(n: nat): nat {
    Pow2(CeilLog2(n, 0))
  }

  function CeilLog2(n: nat, k: nat): (r: nat)
    ensures Pow2(r) >= n && r >= k
    decreases n - Pow2(k)
  {
    if Pow2(k) >= n then k else CeilLog2(n, k + 1)
  }

  lemma {:induction false} CeilLog2Least(n: nat, k: nat, j: nat)
    requires k <= j && Pow2(j) >= n
    ensures CeilLog2(n, k) <= j
    decreases n - Pow2(k)
  {
    if Pow2(k) < n {
      assert j != k;
      CeilLog2Least(n, k + 1, j);
    }
  }

  lemma {:induction false} NextPowerOfTwoIsLeast(n: nat)
    ensures IsPow2(NextPowerOfTwo(n)) && NextPowerOfTwo(n) >= n
    ensures forall k: nat :: Pow2(k) >= n ==> NextPowerOfTwo(n) <= Pow2(k)
  {
    forall k: nat | Pow2(k) >= n
      ensures NextPowerOfTwo(n) <= Pow2(k)
    {
      CeilLog2Least(n, 0, k);
      Pow2Monotone(CeilLog2(n, 0), k);
    }
  }
}

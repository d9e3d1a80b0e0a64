/** Power-of-two alignments. A mask keeps the low bits, which for a power of two is the remainder. */
module Alignments {
  import opened Arithmetic
  import opened Wrappers

  const NUM_ALIGNMENTS := 17

  datatype Alignment = Alignment(exponent: nat)
  {
    function Value(): (v: nat)
      ensures v > 0
    {
      Pow2(exponent)
    }

    /** `value & mask`. */
    function LowBits(value: nat): (r: nat)
      ensures r < Value()
    {
      value % Value()
    }

    function AlignUp(value: nat): (r: nat)
      ensures value <= r < value + Value()
    {
      NextMultipleOf(value, Value())
    }

    /** `value & !mask`. */
    function AlignDown(value: nat): (r: nat)
      ensures r <= value
    {
      ModAtMost(value, Value());
      value - LowBits(value)
    }

    method AlignModulo(refOffset: nat, start: nat) returns (offset: nat)
      ensures IsLeastCongruent(this, refOffset, start, offset)
    {
      var value := Value();
      offset := AlignUp(start);
      NextMultipleOfIsLeast(start, value);
      CongruentFrom(this, refOffset, start);
      if LowBits(offset) == LowBits(refOffset) {
        return;
      }
      var adjustment := LowBits(refOffset) + value - LowBits(offset);
      if adjustment > value {
        adjustment := adjustment - value;
      }
      offset := offset + adjustment;
    }
  }

  /** `Alignment::new`: only powers of two up to 2^16. */
  method New(raw: nat) returns (r: Result<Alignment, string>)
    ensures r.Ok? ==> r.value.Value() == raw && r.value.exponent <= 16
    ensures r.Err? ==> forall k: nat :: k <= 16 ==> Pow2(k) != raw
  {
    for k := 0 to NUM_ALIGNMENTS
      invariant forall j: nat :: j < k ==> Pow2(j) != raw
    {
      if Pow2(k) == raw {
        return Ok(Alignment(k));
      }
    }
    return Err("Unsupported alignment");
  }

  /** `r` is the smallest aligned-up position from `start` on that leaves the remainder of
      `refOffset`: at least `AlignUp(start)`, congruent, and nothing congruent lies between. */
  ghost predicate IsLeastCongruent(a: Alignment, refOffset: nat, start: nat, r: nat) {
    && a.AlignUp(start) <= r
    && a.LowBits(r) == a.LowBits(refOffset)
    && forall m: nat {:trigger a.LowBits(m)} ::
         a.AlignUp(start) <= m && a.LowBits(m) == a.LowBits(refOffset) ==> r <= m
  }

  /** From an aligned position, the next number with remainder `rem` is `rem` further on. */
  lemma {:induction false} CongruentFrom(a: Alignment, refOffset: nat, start: nat)
    ensures a.LowBits(a.AlignUp(start)) == 0
    ensures IsLeastCongruent(a, refOffset, start, a.AlignUp(start) + a.LowBits(refOffset))
  {
    var v, base, rem := a.Value(), a.AlignUp(start), a.LowBits(refOffset);
    NextMultipleOfIsLeast(start, v);
    DividesSum(v, base, 0);
    var q := base / v;
    assert base == q * v by { assert base == v * q + base % v; }
    ModOfMultiplePlus(q, rem, v);
    forall m: nat | base <= m && a.LowBits(m) == rem
      ensures base + rem <= m
    {
      if m < base + rem {
        ModOfMultiplePlus(q, m - base, v);
      }
    }
  }

  /** The two roundings are the nearest multiples on either side. */
  lemma {:induction false} AlignIsNearest(a: Alignment, value: nat)
    ensures Divides(a.Value(), a.AlignUp(value)) && Divides(a.Value(), a.AlignDown(value))
    ensures forall m: nat :: Divides(a.Value(), m) && value <= m ==> a.AlignUp(value) <= m
    ensures forall m: nat :: Divides(a.Value(), m) && m <= value ==> m <= a.AlignDown(value)
    ensures a.AlignUp(value) == a.AlignDown(value) + if Divides(a.Value(), value) then 0 else a.Value()
  {
    var v := a.Value();
    NextMultipleOfIsLeast(value, v);
    var q := value / v;
    assert a.AlignDown(value) == q * v by { assert value == v * q + value % v; }
    MultipleMod(q, v);
    forall m: nat | Divides(v, m) && m <= value
      ensures m <= a.AlignDown(value)
    {
      if m > a.AlignDown(value) {
        ModOfMultiplePlus(q, m - q * v, v);
      }
    }
  }

  /** Rounding to a coarser alignment first makes finer ones free. */
  lemma {:induction false} CoarserIsFiner(fine: Alignment, coarse: Alignment, x: nat)
    requires fine.exponent <= coarse.exponent && Divides(coarse.Value(), x)
    ensures Divides(fine.Value(), x)
  {
    Pow2Monotone(fine.exponent, coarse.exponent);
    var f, c, k := fine.Value(), coarse.Value(), Pow2(coarse.exponent - fine.exponent);
    var q := x / c;
    assert x == c * q;
    Regroup(q, k, f);
    MultipleMod(q * k, f);
  }

  lemma {:induction false} Regroup(q: nat, k: nat, f: nat)
    ensures (k * f) * q == (q * k) * f
  {
  }
}

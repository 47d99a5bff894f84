/** What the bit patterns of floats mean: keys order finite floats by the numbers they denote (IEEE 754
  binary formats; `total_cmp` in core/src/data/key.rs, equality in core/src/data/value.rs). */
module FloatOrder {
  import opened Data
  import opened KeyOrder
  import opened Numbers

  /** The number of patterns that share an exponent: 2^23 and 2^52. */
  const F32_STEPS: nat := 0x80_0000
  const F64_STEPS: nat := 0x10_0000_0000_0000

  function Pow2(n: nat): (r: nat)
    ensures r > 0
  {
    if n == 0 then 1 else 2 * Pow2(n - 1)
  }

  /** The number that a pattern without sign denotes, in units of the least positive one: the fraction
    alone below the first exponent, and above it the fraction behind a leading one, scaled. */
  function Units(m: nat, steps: nat): (r: int)
    requires steps > 0
    ensures r >= 0
  {
    var exponent, fraction := m / steps, m % steps;
    Parts(m, steps);
    if exponent == 0 then fraction else (steps + fraction) * Pow2(exponent - 1)
  }

  lemma UnitsStep(m: nat, steps: nat)
    requires steps > 0
    ensures Units(m, steps) < Units(m + 1, steps)
  {
    Parts(m, steps);
    NextQuotient(m, steps);
    var e, f := m / steps, m % steps;
    if f + 1 < steps {
      if e > 0 { ScaleUp(steps + f, steps + f + 1, Pow2(e - 1)); }
    } else if e > 0 {
      ScaleUp(steps + f, 2 * steps, Pow2(e - 1));
      assert (2 * steps) * Pow2(e - 1) == steps * Pow2(e);
    } else {
      assert Pow2(0) == 1;
    }
  }

  /** Larger patterns denote larger numbers. */
  lemma {:induction false} UnitsIncrease(m: nat, n: nat, steps: nat)
    requires m < n && steps > 0
    ensures Units(m, steps) < Units(n, steps)
  {
    hide Units;
    if m + 1 < n { UnitsIncrease(m, n - 1, steps); }
    UnitsStep(n - 1, steps);
  }

  /** The number that a pattern denotes; the highest bit is the sign. */
  function Number(bits: nat, sign: nat, steps: nat): int
    requires steps > 0
  {
    if bits >= sign then -Units(bits - sign, steps) else Units(bits, steps)
  }

  lemma ZeroUnits(m: nat, steps: nat)
    requires steps > 0
    ensures Units(m, steps) == 0 <==> m == 0
  {
    hide Units;
    assert Units(0, steps) == 0 by { DivisionIsUnique(0, 0, 0, steps); ZeroIsZero(steps); }
    if m > 0 { UnitsIncrease(0, m, steps); }
  }

  lemma ZeroIsZero(steps: nat)
    requires steps > 0
    ensures Units(0, steps) == 0
  {
    DivisionIsUnique(0, 0, 0, steps);
  }

  /** Ranks compare as numbers, and of the two zeros the negative one comes first. */
  lemma RanksCompareAsNumbers(a: nat, b: nat, sign: nat, steps: nat)
    requires steps > 0 && a < 2 * sign && b < 2 * sign
    ensures var x, y := Number(a, sign, steps), Number(b, sign, steps);
            CompareInt(TotalRank(a, sign), TotalRank(b, sign)) ==
              if x == 0 && y == 0 then CompareInt(if a >= sign then 0 else 1, if b >= sign then 0 else 1)
              else CompareInt(x, y)
  {
    hide Units;
    var m, n := Magnitude(a, sign), Magnitude(b, sign);
    ZeroUnits(m, steps);
    ZeroUnits(n, steps);
    if m < n { UnitsIncrease(m, n, steps); } else if n < m { UnitsIncrease(n, m, steps); }
  }

  predicate Finite32(bits: u32) { Magnitude(bits, 0x8000_0000) < 0xff * F32_STEPS }
  predicate Finite(bits: u64) { Magnitude(bits, 0x8000_0000_0000_0000) < 0x7ff * F64_STEPS }

  function Number32(bits: u32): int { Number(bits, 0x8000_0000, F32_STEPS) }
  function Number64(bits: u64): int { Number(bits, 0x8000_0000_0000_0000, F64_STEPS) }

  /** Keys of finite floats are in the order of the numbers they denote; -0 comes before +0. */
  lemma FloatKeysInOrder(a: u64, b: u64)
    requires Finite(a) && Finite(b)
    ensures Cmp(Key.F64(a), Key.F64(b)) ==
              if Number64(a) == 0 && Number64(b) == 0 then CompareInt(if a == 0 then 1 else 0, if b == 0 then 1 else 0)
              else CompareInt(Number64(a), Number64(b))
  {
    hide Units;
    RanksCompareAsNumbers(a, b, 0x8000_0000_0000_0000, F64_STEPS);
    ZeroUnits(Magnitude(a, 0x8000_0000_0000_0000), F64_STEPS);
    ZeroUnits(Magnitude(b, 0x8000_0000_0000_0000), F64_STEPS);
  }

  lemma SmallFloatKeysInOrder(a: u32, b: u32)
    requires Finite32(a) && Finite32(b)
    ensures Cmp(Key.F32(a), Key.F32(b)) ==
              if Number32(a) == 0 && Number32(b) == 0 then CompareInt(if a == 0 then 1 else 0, if b == 0 then 1 else 0)
              else CompareInt(Number32(a), Number32(b))
  {
    hide Units;
    RanksCompareAsNumbers(a, b, 0x8000_0000, F32_STEPS);
    ZeroUnits(Magnitude(a, 0x8000_0000), F32_STEPS);
    ZeroUnits(Magnitude(b, 0x8000_0000), F32_STEPS);
  }

  /** Infinities lie beyond all finite floats, and NaNs beyond the infinities of their sign. */
  lemma FloatKeysAtTheEnds(a: u64, infinity: u64, nan: u64)
    requires Finite(a) && infinity == 0x7ff * F64_STEPS && infinity < nan < 0x8000_0000_0000_0000
    ensures NaN64(nan) && NaN64(nan + 0x8000_0000_0000_0000)
    ensures !NaN64(infinity) && !NaN64(infinity + 0x8000_0000_0000_0000) && !NaN64(a)
    ensures Cmp(Key.F64(a), Key.F64(infinity)) == Less && Cmp(Key.F64(infinity), Key.F64(nan)) == Less
    ensures Cmp(Key.F64(infinity + 0x8000_0000_0000_0000), Key.F64(a)) == Less
    ensures Cmp(Key.F64(nan + 0x8000_0000_0000_0000), Key.F64(infinity + 0x8000_0000_0000_0000)) == Less
  {
  }

  lemma SmallFloatKeysAtTheEnds(a: u32, infinity: u32, nan: u32)
    requires Finite32(a) && infinity == 0xff * F32_STEPS && infinity < nan < 0x8000_0000
    ensures NaN32(nan) && NaN32(nan + 0x8000_0000)
    ensures !NaN32(infinity) && !NaN32(infinity + 0x8000_0000) && !NaN32(a)
    ensures Cmp(Key.F32(a), Key.F32(infinity)) == Less && Cmp(Key.F32(infinity), Key.F32(nan)) == Less
    ensures Cmp(Key.F32(infinity + 0x8000_0000), Key.F32(a)) == Less
    ensures Cmp(Key.F32(nan + 0x8000_0000), Key.F32(infinity + 0x8000_0000)) == Less
  {
  }

  /** Finite floats are equal exactly when they denote one number. */
  lemma FiniteFloatsEqualExactlyWhen(a: u64, b: u64)
    requires Finite(a) && Finite(b)
    ensures ValueEq(Value.F64(a), Value.F64(b)) <==> Number64(a) == Number64(b)
  {
    hide Units;
    SameNumber(a, b, 0x8000_0000_0000_0000, F64_STEPS);
  }

  lemma SmallFiniteFloatsEqualExactlyWhen(a: u32, b: u32)
    requires Finite32(a) && Finite32(b)
    ensures ValueEq(Value.F32(a), Value.F32(b)) <==> Number32(a) == Number32(b)
  {
    hide Units;
    SameNumber(a, b, 0x8000_0000, F32_STEPS);
  }

  lemma SameNumber(a: nat, b: nat, sign: nat, steps: nat)
    requires steps > 0 && a < 2 * sign && b < 2 * sign
    ensures Number(a, sign, steps) == Number(b, sign, steps) <==>
              a == b || (Magnitude(a, sign) == 0 && Magnitude(b, sign) == 0)
  {
    hide Units;
    var m, n := Magnitude(a, sign), Magnitude(b, sign);
    ZeroUnits(m, steps);
    ZeroUnits(n, steps);
    if m < n { UnitsIncrease(m, n, steps); } else if n < m { UnitsIncrease(n, m, steps); }
  }
}

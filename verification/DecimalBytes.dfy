/** The encoding of decimal keys (`Key::to_cmp_be_bytes`, core/src/data/key.rs).

  A decimal is a sign, a mantissa below 2^96 and a scale of at most 28 digits.  The encoding holds the
  whole part and the digits after the point, but not how many digits these are. */
module DecimalBytes {
  import opened Data
  import opened KeyOrder
  import opened KeyBytes
  import opened Numbers

  const MANTISSA_LIMIT := 0x1_0000_0000_0000_0000_0000_0000
  const MAX_SCALE := 28

  datatype Digits = Digits(positive: bool, mantissa: nat, scale: nat) {
    predicate Valid() { mantissa < MANTISSA_LIMIT && scale <= MAX_SCALE }
  }

  /** The digits before the point. */
  function Whole(d: Digits): nat { Parts(d.mantissa, Pow10(d.scale)); d.mantissa / Pow10(d.scale) }

  /** The digits after the point, read as a number. */
  function Fraction(d: Digits): nat { d.mantissa % Pow10(d.scale) }

  /** The digits after the point, filled up to the largest scale. */
  function Filled(d: Digits): nat
    requires d.Valid()
  {
    Fraction(d) * Pow10(MAX_SCALE - d.scale)
  }

  /** The whole part, in units of the largest scale. */
  function WholeUnits(d: Digits): nat { Whole(d) * Pow10(MAX_SCALE) }

  function Signed(d: Digits, n: nat): int { if d.positive then n else 0 - n }

  /** The number, in units of the largest scale. */
  function Scaled(d: Digits): int
    requires d.Valid()
  {
    Signed(d, d.mantissa * Pow10(MAX_SCALE - d.scale))
  }

  /** The number that the digits denote. */
  function NumberOf(d: Digits): real
    requires d.Valid()
  {
    Scaled(d) as real / Pow10(MAX_SCALE) as real
  }

  /** It is the mantissa with its sign, divided by the power of ten of the scale. */
  lemma NumberIsMantissaOverScale(d: Digits)
    requires d.Valid()
    ensures NumberOf(d) == (if d.positive then d.mantissa else 0 - d.mantissa) as real / Pow10(d.scale) as real
  {
    hide Pow10;
    var m, unit := if d.positive then d.mantissa else 0 - d.mantissa, Pow10(MAX_SCALE);
    FractionInUnits(m, d.scale, MAX_SCALE);
    NegatedProduct(d.mantissa, Pow10(MAX_SCALE - d.scale));
    assert Scaled(d) == m * Pow10(MAX_SCALE - d.scale);
    QuotientTimes(Scaled(d) as real, unit as real);
    SameProduct(NumberOf(d), m as real / Pow10(d.scale) as real, unit as real);
  }

  /** `Decimal::cmp`: by number, whatever the scale. */
  function CmpDecimals(a: Digits, b: Digits): Ordering
    requires a.Valid() && b.Valid()
  {
    CompareInt(Scaled(a), Scaled(b))
  }

  lemma PartsFit(d: Digits)
    requires d.Valid()
    ensures Whole(d) < MANTISSA_LIMIT && Fraction(d) < MANTISSA_LIMIT
    ensures FitsBytes(Signed(d, Whole(d)), 16) && FitsBytes(Signed(d, Fraction(d)), 16)
    ensures Signed(d, Whole(d)) + Pow256(16) >= 0 && Signed(d, Fraction(d)) + Pow256(16) >= 0
  {
    Parts(d.mantissa, Pow10(d.scale));
    Widths();
    assert Pow256(16) == 256 * Pow256(15);
  }

  function SignBytes(positive: bool): (r: seq<u8>)
    ensures |r| == 2
  {
    [VALUE, if positive then 1 else 0]
  }

  function EncodeDecimal(d: Digits): seq<u8>
    requires d.Valid()
  {
    PartsFit(d);
    SignBytes(d.positive)
      + (SignedToBe(Signed(d, Whole(d)), 16) + SignedToBe(Signed(d, Fraction(d)), 16))
  }

  // ----- numbers -----

  lemma SplitNumber(m: nat, p: nat, q: nat)
    requires p > 0
    ensures m * q == (m / p) * (p * q) + (m % p) * q
  {
    Parts(m, p);
    var w, r := m / p, m % p;
    Distributed(w, p, r, q);
  }

  lemma Distributed(w: int, p: int, r: int, q: int)
    ensures (w * p + r) * q == w * (p * q) + r * q
  {
    assert (w * p) * q == w * (p * q);
  }

  lemma FilledBelow(f: nat, p: nat, q: nat)
    requires f < p && q > 0
    ensures f * q < p * q
  {
  }

  /** The number is its whole part and its filled fraction. */
  lemma ScaledParts(d: Digits)
    requires d.Valid()
    ensures Scaled(d) == Signed(d, WholeUnits(d) + Filled(d))
    ensures Filled(d) < Pow10(MAX_SCALE)
  {
    hide Pow10;
    var p, q := Pow10(d.scale), Pow10(MAX_SCALE - d.scale);
    Pow10Add(d.scale, MAX_SCALE - d.scale);
    SplitNumber(d.mantissa, p, q);
    Parts(d.mantissa, p);
    FilledBelow(Fraction(d), p, q);
  }

  lemma ComparePairs(w: nat, f: nat, v: nat, g: nat, p: nat)
    requires f < p && g < p
    ensures CompareInt(w * p + f, v * p + g) == Then(CompareInt(w, v), CompareInt(f, g))
  {
    if w < v {
      assert w * p + p <= v * p by { ScaleMonotone(w + 1, v, p); assert (w + 1) * p == w * p + p; }
    } else if v < w {
      assert v * p + p <= w * p by { ScaleMonotone(v + 1, w, p); assert (v + 1) * p == v * p + p; }
    }
  }

  lemma CompareNegated(a: int, b: int)
    ensures CompareInt(-a, -b) == Reverse(CompareInt(a, b))
  {
  }

  /** Decimals of one sign compare by whole part, then by filled fraction. */
  lemma CmpByParts(a: Digits, b: Digits)
    requires a.Valid() && b.Valid() && a.positive == b.positive
    ensures var parts := Then(CompareInt(Whole(a), Whole(b)), CompareInt(Filled(a), Filled(b)));
            CmpDecimals(a, b) == if a.positive then parts else Reverse(parts)
  {
    hide Pow10, Whole, Filled;
    ScaledParts(a);
    ScaledParts(b);
    var p := Pow10(MAX_SCALE);
    ComparePairs(Whole(a), Filled(a), Whole(b), Filled(b), p);
    CompareNegated(WholeUnits(a) + Filled(a), WholeUnits(b) + Filled(b));
  }

  lemma DividedInOrder(x: int, y: int, k: nat)
    requires k > 0
    ensures CompareReal(x as real / k as real, y as real / k as real) == CompareInt(x, y)
  {
    var a, b, r := x as real / k as real, y as real / k as real, k as real;
    assert a * r == x as real && b * r == y as real;
    RealScale(a, b, r);
  }

  lemma RealScale(a: real, b: real, r: real)
    requires r > 0.0
    ensures a < b <==> a * r < b * r
    ensures a == b <==> a * r == b * r
  {
    if a < b {
      assert (b - a) * r > 0.0;
    } else if b < a {
      assert (a - b) * r > 0.0;
    }
  }

  /** The order of digits is the order of decimal keys. */
  lemma CmpIsKeyOrder(a: Digits, b: Digits)
    requires a.Valid() && b.Valid()
    ensures Cmp(Key.Decimal(NumberOf(a)), Key.Decimal(NumberOf(b))) == CmpDecimals(a, b)
  {
    hide Scaled, Pow10;
    DividedInOrder(Scaled(a), Scaled(b), Pow10(MAX_SCALE));
  }

  // ----- which decimals share an encoding -----

  /** The bytes after the tag and the sign. */
  function PartBytes(d: Digits): (r: seq<u8>)
    requires d.Valid()
  {
    PartsFit(d);
    SignedToBe(Signed(d, Whole(d)), 16) + SignedToBe(Signed(d, Fraction(d)), 16)
  }

  lemma EncodingIsSignAndParts(d: Digits)
    requires d.Valid()
    ensures EncodeDecimal(d) == SignBytes(d.positive) + PartBytes(d)
  {
    hide SignedToBe, Whole, Fraction, Pow256;
  }

  lemma SignBytesTell(p: bool, q: bool)
    ensures SignBytes(p) == SignBytes(q) <==> p == q
  {
    assert SignBytes(p)[1] == SignBytes(q)[1] <==> p == q;
  }

  /** Of two decimals of one sign, the parts are equal exactly when their bytes are. */
  lemma PartBytesTell(a: Digits, b: Digits)
    requires a.Valid() && b.Valid() && a.positive == b.positive
    ensures PartBytes(a) == PartBytes(b) <==> Whole(a) == Whole(b) && Fraction(a) == Fraction(b)
  {
    PartsFit(a);
    PartsFit(b);
    hide Pow256, SignedToBe, Whole, Fraction, FitsBytes;
    var wa, fa, wb, fb := Signed(a, Whole(a)), Signed(a, Fraction(a)), Signed(b, Whole(b)), Signed(b, Fraction(b));
    SignedInjective(wa, wb, 16);
    SignedInjective(fa, fb, 16);
    ConcatEqual(SignedToBe(wa, 16), SignedToBe(fa, 16), SignedToBe(wb, 16), SignedToBe(fb, 16));
  }

  /** Encodings are equal exactly when sign, whole part and the digits after the point are. */
  lemma DecimalEncodingsMeetExactlyWhen(a: Digits, b: Digits)
    requires a.Valid() && b.Valid()
    ensures EncodeDecimal(a) == EncodeDecimal(b) <==>
              a.positive == b.positive && Whole(a) == Whole(b) && Fraction(a) == Fraction(b)
  {
    hide EncodeDecimal, PartBytes, SignBytes, Whole, Fraction;
    EncodingIsSignAndParts(a);
    EncodingIsSignAndParts(b);
    SignBytesTell(a.positive, b.positive);
    ConcatEqual(SignBytes(a.positive), PartBytes(a), SignBytes(b.positive), PartBytes(b));
    if a.positive == b.positive { PartBytesTell(a, b); }
  }

  lemma FilledEqual(f: nat, m: nat, n: nat)
    requires m <= MAX_SCALE && n <= MAX_SCALE
    ensures f * Pow10(MAX_SCALE - m) == f * Pow10(MAX_SCALE - n) <==> f == 0 || m == n
  {
    hide Pow10;
    if m < n {
      Pow10Grows(MAX_SCALE - n, MAX_SCALE - m);
      if f > 0 { ScaleStrict(Pow10(MAX_SCALE - n), Pow10(MAX_SCALE - m), f); }
    } else if n < m {
      Pow10Grows(MAX_SCALE - m, MAX_SCALE - n);
      if f > 0 { ScaleStrict(Pow10(MAX_SCALE - m), Pow10(MAX_SCALE - n), f); }
    }
  }

  lemma ScaleStrict(p: nat, q: nat, f: nat)
    requires p < q && f > 0
    ensures f * p < f * q
  {
  }

  /** Two different numbers share an encoding exactly when they agree in sign, whole part and the digits
    after the point, but have different numbers of these digits, not all zero. */
  lemma DifferentDecimalsCollideExactlyWhen(a: Digits, b: Digits)
    requires a.Valid() && b.Valid()
    ensures EncodeDecimal(a) == EncodeDecimal(b) && CmpDecimals(a, b) != Equal <==>
              && a.positive == b.positive && Whole(a) == Whole(b) && Fraction(a) == Fraction(b)
              && Fraction(a) != 0 && a.scale != b.scale
  {
    DecimalEncodingsMeetExactlyWhen(a, b);
    if a.positive == b.positive && Whole(a) == Whole(b) && Fraction(a) == Fraction(b) {
      hide Pow10, EncodeDecimal, CmpDecimals;
      CmpByParts(a, b);
      FilledEqual(Fraction(a), a.scale, b.scale);
    }
  }

  // ----- which decimals are in order -----

  /** The digits after the point order the fractions as they order numbers. */
  predicate DigitsInOrder(a: Digits, b: Digits)
    requires a.Valid() && b.Valid()
  {
    CompareInt(Fraction(a), Fraction(b)) == CompareInt(Filled(a), Filled(b))
  }

  /** The pairs of decimals that the encoding orders as `cmp` does. */
  predicate FaithfulDecimals(a: Digits, b: Digits)
    requires a.Valid() && b.Valid()
  {
    if a.positive != b.positive then a.mantissa != 0 || b.mantissa != 0
    else if Whole(a) != Whole(b) then a.positive || (Whole(a) == 0) == (Whole(b) == 0)
    else DigitsInOrder(a, b) && (a.positive || (Fraction(a) == 0) == (Fraction(b) == 0))
  }

  lemma CompareSignedPairs(wa: int, fa: int, wb: int, fb: int, w: nat)
    requires w > 0 && FitsBytes(wa, w) && FitsBytes(fa, w) && FitsBytes(wb, w) && FitsBytes(fb, w)
    ensures CompareBytes(SignedToBe(wa, w) + SignedToBe(fa, w), SignedToBe(wb, w) + SignedToBe(fb, w))
         == Then(CompareSigned(wa, wb), CompareSigned(fa, fb))
  {
    assert Pow256(w) == 256 * Pow256(w - 1);
    assert 0 <= wa + Pow256(w) && 0 <= fa + Pow256(w) && 0 <= wb + Pow256(w) && 0 <= fb + Pow256(w);
    hide Pow256, SignedToBe, CompareBytes, FitsBytes;
    CompareConcat(SignedToBe(wa, w), SignedToBe(fa, w), SignedToBe(wb, w), SignedToBe(fb, w));
    SignedOrder(wa, wb, w);
    SignedOrder(fa, fb, w);
  }

  lemma CompareParts(a: Digits, b: Digits)
    requires a.Valid() && b.Valid()
    ensures CompareBytes(PartBytes(a), PartBytes(b)) ==
              Then(CompareSigned(Signed(a, Whole(a)), Signed(b, Whole(b))),
                   CompareSigned(Signed(a, Fraction(a)), Signed(b, Fraction(b))))
  {
    hide Pow256, SignedToBe, Whole, Fraction, CompareBytes, FitsBytes, CompareSigned;
    PartsFit(a);
    PartsFit(b);
    CompareSignedPairs(Signed(a, Whole(a)), Signed(a, Fraction(a)), Signed(b, Whole(b)), Signed(b, Fraction(b)), 16);
  }

  lemma CompareEncodings(a: Digits, b: Digits)
    requires a.Valid() && b.Valid()
    ensures CompareBytes(EncodeDecimal(a), EncodeDecimal(b)) ==
              if a.positive != b.positive then CompareInt(if a.positive then 1 else 0, if b.positive then 1 else 0)
              else Then(CompareSigned(Signed(a, Whole(a)), Signed(b, Whole(b))),
                        CompareSigned(Signed(a, Fraction(a)), Signed(b, Fraction(b))))
  {
    hide EncodeDecimal, PartBytes, SignBytes, Whole, Fraction, CompareBytes, CompareSigned;
    EncodingIsSignAndParts(a);
    EncodingIsSignAndParts(b);
    CompareConcat(SignBytes(a.positive), PartBytes(a), SignBytes(b.positive), PartBytes(b));
    CompareSigns(a.positive, b.positive);
    CompareParts(a, b);
  }

  function CompareSigned(a: int, b: int): Ordering {
    if (a < 0) == (b < 0) then CompareInt(a, b) else Reverse(CompareInt(a, b))
  }

  lemma CompareSigns(p: bool, q: bool)
    ensures CompareBytes(SignBytes(p), SignBytes(q)) == CompareInt(if p then 1 else 0, if q then 1 else 0)
  {
    var x, y := SignBytes(p), SignBytes(q);
    assert CompareBytes(x, y) == CompareBytes(x[1..], y[1..]);
    assert x[1..][1..] == [] && y[1..][1..] == [];
  }

  lemma ZeroExactlyWhen(d: Digits)
    requires d.Valid()
    ensures Scaled(d) == 0 <==> d.mantissa == 0
    ensures d.positive ==> Scaled(d) >= 0
    ensures !d.positive ==> Scaled(d) <= 0
    ensures Filled(d) == 0 <==> Fraction(d) == 0
  {
    hide Pow10, Fraction;
    var q := Pow10(MAX_SCALE - d.scale);
    Positive(d.mantissa, q);
    Positive(Fraction(d), q);
  }

  lemma Positive(m: nat, q: nat)
    requires q > 0
    ensures m * q >= 0 && (m * q == 0 <==> m == 0)
  {
  }

  lemma CompareNegatives(w: nat, v: nat)
    ensures CompareSigned(0 - w, 0 - v) == if (w == 0) == (v == 0) then Reverse(CompareInt(w, v)) else CompareInt(w, v)
    ensures CompareInt(w, v) == Equal <==> w == v
    ensures w == 0 && v > 0 ==> CompareInt(w, v) == Less
    ensures w > 0 && v == 0 ==> CompareInt(w, v) == Greater
  {
  }

  lemma ComparePositives(w: nat, v: nat)
    ensures CompareSigned(w, v) == CompareInt(w, v)
    ensures CompareInt(w, v) == Equal <==> w == v
  {
  }

  lemma PositivePairs(a: Digits, b: Digits)
    requires a.Valid() && b.Valid() && a.positive && b.positive
    ensures CompareBytes(EncodeDecimal(a), EncodeDecimal(b)) == CmpDecimals(a, b) <==> FaithfulDecimals(a, b)
  {
    hide EncodeDecimal, Whole, Fraction, Filled, CmpDecimals, CompareBytes, CompareSigned, CompareInt;
    CompareEncodings(a, b);
    CmpByParts(a, b);
    ComparePositives(Whole(a), Whole(b));
    ComparePositives(Fraction(a), Fraction(b));
  }

  lemma NegativePairs(a: Digits, b: Digits)
    requires a.Valid() && b.Valid() && !a.positive && !b.positive
    ensures CompareBytes(EncodeDecimal(a), EncodeDecimal(b)) == CmpDecimals(a, b) <==> FaithfulDecimals(a, b)
  {
    hide EncodeDecimal, Whole, Fraction, Filled, CmpDecimals, CompareBytes, CompareSigned, CompareInt;
    CompareEncodings(a, b);
    CmpByParts(a, b);
    ZeroExactlyWhen(a);
    ZeroExactlyWhen(b);
    CompareNegatives(Whole(a), Whole(b));
    CompareNegatives(Fraction(a), Fraction(b));
    CompareNegatives(Filled(a), Filled(b));
    ReverseTwice(CompareInt(Fraction(a), Fraction(b)), CompareInt(Filled(a), Filled(b)));
  }

  lemma ReverseTwice(o: Ordering, p: Ordering)
    ensures Reverse(o) == Reverse(p) <==> o == p
    ensures Reverse(o) == o <==> o == Equal
  {
  }

  lemma MixedPairs(a: Digits, b: Digits)
    requires a.Valid() && b.Valid() && a.positive != b.positive
    ensures CompareBytes(EncodeDecimal(a), EncodeDecimal(b)) == CmpDecimals(a, b) <==> FaithfulDecimals(a, b)
  {
    hide EncodeDecimal, Whole, Fraction, Filled, Scaled, CompareBytes;
    CompareEncodings(a, b);
    ZeroExactlyWhen(a);
    ZeroExactlyWhen(b);
  }

  /** The encoding orders two decimals as `cmp` does exactly when they are a faithful pair: decimals
    from zero on with one scale always are; fractions of different scales, zero whole parts of negative
    decimals and the two zeros need not be. */
  lemma DecimalOrderKeptExactlyWhenFaithful(a: Digits, b: Digits)
    requires a.Valid() && b.Valid()
    ensures CompareBytes(EncodeDecimal(a), EncodeDecimal(b)) == CmpDecimals(a, b) <==> FaithfulDecimals(a, b)
  {
    hide EncodeDecimal, CmpDecimals, CompareBytes, FaithfulDecimals;
    if a.positive != b.positive {
      MixedPairs(a, b);
    } else if a.positive {
      PositivePairs(a, b);
    } else {
      NegativePairs(a, b);
    }
  }

  lemma OneScaleInOrder(a: Digits, b: Digits)
    requires a.Valid() && b.Valid() && a.positive && b.positive && a.scale == b.scale
    ensures FaithfulDecimals(a, b)
  {
    hide Pow10, Whole, Fraction;
    CompareScaled(Fraction(a), Fraction(b), Pow10(MAX_SCALE - a.scale));
  }

  lemma CompareScaled(f: nat, g: nat, q: nat)
    requires q > 0
    ensures CompareInt(f * q, g * q) == CompareInt(f, g)
  {
    if f < g { ScaleStrict(f, g, q); } else if g < f { ScaleStrict(g, f, q); }
  }

  // ----- examples -----

  const ONE_AND_A_HALF := Digits(true, 15, 1)
  const ONE_AND_A_TWENTIETH := Digits(true, 105, 2)

  lemma TenAndHundred()
    ensures Pow10(1) == 10 && Pow10(2) == 100
  {
  }

  /** 1.5 and 1.05 are different numbers with one encoding. */
  lemma DifferentDecimalsCanCollide()
    ensures ONE_AND_A_HALF.Valid() && ONE_AND_A_TWENTIETH.Valid()
    ensures EncodeDecimal(ONE_AND_A_HALF) == EncodeDecimal(ONE_AND_A_TWENTIETH)
    ensures CmpDecimals(ONE_AND_A_HALF, ONE_AND_A_TWENTIETH) != Equal
  {
    TenAndHundred();
    hide EncodeDecimal, CmpDecimals;
    DifferentDecimalsCollideExactlyWhen(ONE_AND_A_HALF, ONE_AND_A_TWENTIETH);
  }
}

/** The order on keys (`Ord for Key`, core/src/data/key.rs). */
module KeyOrder {
  import opened Data

  datatype Ordering = Less | Equal | Greater

  function Reverse(o: Ordering): Ordering {
    match o
    case Less => Greater
    case Equal => Equal
    case Greater => Less
  }

  function CompareInt(a: int, b: int): Ordering {
    if a < b then Less else if a == b then Equal else Greater
  }

  function CompareReal(a: real, b: real): Ordering {
    if a < b then Less else if a == b then Equal else Greater
  }

  /** Lexicographic order: `first` decides, and `second` breaks its ties. */
  function Then(first: Ordering, second: Ordering): Ordering {
    if first == Equal then second else first
  }

  function CompareBytes(a: seq<u8>, b: seq<u8>): Ordering {
    if a == [] then (if b == [] then Equal else Less)
    else if b == [] then Greater
    else Then(CompareInt(a[0], b[0]), CompareBytes(a[1..], b[1..]))
  }

  function CompareTime(a: Time, b: Time): Ordering {
    Then(CompareInt(a.seconds, b.seconds), CompareInt(a.nanos, b.nanos))
  }

  function CompareTimestamp(a: Timestamp, b: Timestamp): Ordering {
    Then(CompareInt(a.days, b.days), CompareTime(a.time, b.time))
  }

  /** Months sort after microseconds of any size. */
  function CompareInterval(a: Interval, b: Interval): Ordering {
    match (a, b)
    case (Month(l), Month(r)) => CompareInt(l, r)
    case (Microsecond(l), Microsecond(r)) => CompareInt(l, r)
    case (Month(_), Microsecond(_)) => Greater
    case (Microsecond(_), Month(_)) => Less
  }

  function CompareInet(a: Inet, b: Inet): Ordering {
    match (a, b)
    case (V4(l), V4(r)) => CompareInt(l, r)
    case (V6(l), V6(r)) => CompareInt(l, r)
    case (V4(_), V6(_)) => Less
    case (V6(_), V4(_)) => Greater
  }

  /** The rank of a float's bits in IEEE 754 total order (`total_cmp`). */
  function TotalRank(bits: nat, sign: nat): int {
    if bits >= sign then -1 - (bits - sign) else bits
  }

  function ToOrder(k: Key): u8 {
    match k
    case I8(_) => 1
    case I16(_) => 2
    case I32(_) => 3
    case I64(_) => 4
    case I128(_) => 5
    case U8(_) => 6
    case U16(_) => 7
    case U32(_) => 8
    case U64(_) => 9
    case U128(_) => 10
    case F32(_) => 11
    case F64(_) => 12
    case Decimal(_) => 13
    case Bool(_) => 14
    case Str(_) => 15
    case Bytea(_) => 16
    case Date(_) => 17
    case Timestamp(_) => 18
    case Time(_) => 19
    case Interval(_) => 20
    case Uuid(_) => 21
    case Inet(_) => 22
    case None => 23
  }

  predicate SameVariant(a: Key, b: Key) { ToOrder(a) == ToOrder(b) }

  /** The arms of `cmp` for two keys of one variant. */
  function CmpSame(a: Key, b: Key): Ordering
    requires SameVariant(a, b)
  {
    match a
    case I8(l) => CompareInt(l, b.i8)
    case I16(l) => CompareInt(l, b.i16)
    case I32(l) => CompareInt(l, b.i32)
    case I64(l) => CompareInt(l, b.i64)
    case I128(l) => CompareInt(l, b.i128)
    case U8(l) => CompareInt(l, b.u8)
    case U16(l) => CompareInt(l, b.u16)
    case U32(l) => CompareInt(l, b.u32)
    case U64(l) => CompareInt(l, b.u64)
    case U128(l) => CompareInt(l, b.u128)
    case Uuid(l) => CompareInt(l, b.uuid)
    case F32(l) => CompareInt(TotalRank(l, F32_SIGN), TotalRank(b.f32, F32_SIGN))
    case F64(l) => CompareInt(TotalRank(l, F64_SIGN), TotalRank(b.f64, F64_SIGN))
    case Decimal(l) => CompareReal(l, b.decimal)
    case Bool(l) => CompareInt(if l then 1 else 0, if b.b then 1 else 0)
    case Str(l) => CompareBytes(l, b.str)
    case Bytea(l) => CompareBytes(l, b.bytea)
    case Date(l) => CompareInt(l, b.date)
    case Timestamp(l) => CompareTimestamp(l, b.timestamp)
    case Time(l) => CompareTime(l, b.time)
    case Interval(l) => CompareInterval(l, b.interval)
    case Inet(l) => CompareInet(l, b.inet)
    case None => Equal
  }

  /** `cmp`: keys of one variant by value; None after everything; otherwise by variant, backwards. */
  function Cmp(a: Key, b: Key): Ordering {
    if SameVariant(a, b) then CmpSame(a, b)
    else if a.None? then Greater
    else if b.None? then Less
    else if ToOrder(a) <= ToOrder(b) then Greater
    else Less
  }

  predicate Le(a: Key, b: Key) { Cmp(a, b) != Greater }

  /** Where the variant stands in the order: variants run backwards, None comes last. */
  function VariantRank(k: Key): int {
    if k.None? then 1 else -(ToOrder(k) as int)
  }

  /** The order of the variants, from least to greatest. */
  lemma VariantsAscend(a: Key, b: Key)
    requires || (a.Inet? && b.Uuid?) || (a.Uuid? && b.Interval?) || (a.Interval? && b.Time?)
             || (a.Time? && b.Timestamp?) || (a.Timestamp? && b.Date?) || (a.Date? && b.Bytea?)
             || (a.Bytea? && b.Str?) || (a.Str? && b.Bool?) || (a.Bool? && b.Decimal?)
             || (a.Decimal? && b.F64?) || (a.F64? && b.F32?) || (a.F32? && b.U128?)
             || (a.U128? && b.U64?) || (a.U64? && b.U32?) || (a.U32? && b.U16?)
             || (a.U16? && b.U8?) || (a.U8? && b.I128?) || (a.I128? && b.I64?)
             || (a.I64? && b.I32?) || (a.I32? && b.I16?) || (a.I16? && b.I8?) || (a.I8? && b.None?)
    ensures Cmp(a, b) == Less
  {
  }

  // ----- the byte order is a total order -----

  lemma {:induction false} BytesAntisymmetric(a: seq<u8>, b: seq<u8>)
    ensures CompareBytes(a, b) == Reverse(CompareBytes(b, a))
    ensures CompareBytes(a, b) == Equal <==> a == b
  {
    if a != [] && b != [] {
      BytesAntisymmetric(a[1..], b[1..]);
      assert a == [a[0]] + a[1..] && b == [b[0]] + b[1..];
    }
  }

  lemma {:induction false} BytesTransitive(a: seq<u8>, b: seq<u8>, c: seq<u8>)
    requires CompareBytes(a, b) != Greater && CompareBytes(b, c) != Greater
    ensures CompareBytes(a, c) != Greater
  {
    if a != [] && b != [] && c != [] {
      if a[0] == b[0] == c[0] {
        BytesTransitive(a[1..], b[1..], c[1..]);
      }
    }
  }

  // ----- keys of one variant, and keys of different variants -----

  lemma CmpAcrossVariants(a: Key, b: Key)
    requires !SameVariant(a, b)
    ensures Cmp(a, b) == CompareInt(VariantRank(a), VariantRank(b))
  {
  }

  lemma CmpWithinVariant(a: Key, b: Key)
    requires SameVariant(a, b)
    ensures Cmp(a, b) == Reverse(Cmp(b, a))
    ensures Cmp(a, b) == Equal <==> a == b
  {
    if a.Str? {
      BytesAntisymmetric(a.str, b.str);
    } else if a.Bytea? {
      BytesAntisymmetric(a.bytea, b.bytea);
    }
  }

  lemma TransitiveWithinVariant(a: Key, b: Key, c: Key)
    requires SameVariant(a, b) && SameVariant(b, c)
    requires Le(a, b) && Le(b, c)
    ensures Le(a, c)
  {
    if a.Str? {
      BytesTransitive(a.str, b.str, c.str);
    } else if a.Bytea? {
      BytesTransitive(a.bytea, b.bytea, c.bytea);
    }
  }

  // ----- the order on all keys -----

  /** `cmp` is antisymmetric and total, and only identical keys compare Equal. */
  lemma CmpAntisymmetric(a: Key, b: Key)
    ensures Cmp(a, b) == Reverse(Cmp(b, a))
    ensures Cmp(a, b) == Equal <==> a == b
    ensures Le(a, b) || Le(b, a)
  {
    hide Cmp, ToOrder;
    if SameVariant(a, b) {
      CmpWithinVariant(a, b);
    } else {
      CmpAcrossVariants(a, b);
      CmpAcrossVariants(b, a);
    }
  }

  lemma CmpTransitive(a: Key, b: Key, c: Key)
    requires Le(a, b) && Le(b, c)
    ensures Le(a, c)
  {
    if SameVariant(a, b) && SameVariant(b, c) {
      TransitiveWithinVariant(a, b, c);
    } else {
      LeRanks(a, b);
      LeRanks(b, c);
      RanksLe(a, c);
    }
  }

  lemma LeRanks(a: Key, b: Key)
    requires Le(a, b)
    ensures if SameVariant(a, b) then VariantRank(a) == VariantRank(b) else VariantRank(a) < VariantRank(b)
  {
  }

  lemma RanksLe(a: Key, b: Key)
    requires VariantRank(a) < VariantRank(b)
    ensures Le(a, b)
  {
  }

  /** None is the greatest key: NULLs sort last in ascending order. */
  lemma NoneIsGreatest(k: Key)
    ensures Le(k, Key.None)
    ensures Le(Key.None, k) <==> k.None?
  {
  }

  /** The order refines equality except on floats: two equal keys fail to compare Equal exactly
    when they are the two zeros of one width, or two different NaN bit patterns of one width. */
  lemma CmpAgreesWithEqualityUnlessFloat(a: Key, b: Key)
    ensures Cmp(a, b) == Equal ==> KeyEq(a, b)
    ensures KeyEq(a, b) && Cmp(a, b) != Equal <==>
            a != b && ((a.F32? && b.F32? && ((NaN32(a.f32) && NaN32(b.f32)) || {a.f32, b.f32} == {0, F32_SIGN}))
                       || (a.F64? && b.F64? && ((NaN64(a.f64) && NaN64(b.f64)) || {a.f64, b.f64} == {0, F64_SIGN})))
  {
    CmpAntisymmetric(a, b);
    if a.F32? && b.F32? && a != b && Magnitude(a.f32, F32_SIGN) == 0 && Magnitude(b.f32, F32_SIGN) == 0 {
      assert {a.f32, b.f32} == {0, F32_SIGN};
    }
    if a.F64? && b.F64? && a != b && Magnitude(a.f64, F64_SIGN) == 0 && Magnitude(b.f64, F64_SIGN) == 0 {
      assert {a.f64, b.f64} == {0, F64_SIGN};
    }
    if a.F32? && b.F32? && a != b && {a.f32, b.f32} == {0, F32_SIGN} {
      assert a.f32 in {0, F32_SIGN} && b.f32 in {0, F32_SIGN};
    }
    if a.F64? && b.F64? && a != b && {a.f64, b.f64} == {0, F64_SIGN} {
      assert a.f64 in {0, F64_SIGN} && b.f64 in {0, F64_SIGN};
    }
  }
}

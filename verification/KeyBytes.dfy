/** The big-endian encoding of keys that index storages compare byte by byte
  (`Key::to_cmp_be_bytes`, core/src/data/key.rs). */
module KeyBytes {
  import opened Data
  import opened KeyOrder

  const VALUE: u8 := 0
  const NONE: u8 := 1

  function Pow256(w: nat): (r: nat)
    ensures r > 0
  {
    if w == 0 then 1 else 256 * Pow256(w - 1)
  }

  /** The `w` bytes of `n`, most significant first. */
  function ToBe(n: nat, w: nat): (r: seq<u8>)
    ensures |r| == w
  {
    if w == 0 then [] else ToBe(n / 256, w - 1) + [n % 256]
  }

  /** Two's complement in `w` bytes. */
  function SignedToBe(n: int, w: nat): (r: seq<u8>)
    requires n < 0 ==> 0 <= n + Pow256(w)
    ensures |r| == w
  {
    ToBe(if n < 0 then n + Pow256(w) else n, w)
  }

  function Sign(n: int): u8 { if n >= 0 then 1 else 0 }

  lemma Widths()
    ensures Pow256(1) == 0x100 && Pow256(2) == 0x1_0000 && Pow256(4) == 0x1_0000_0000
    ensures Pow256(8) == 0x1_0000_0000_0000_0000
    ensures Pow256(16) == 0x1_0000_0000_0000_0000_0000_0000_0000_0000
  {
    assert Pow256(4) == 256 * (256 * Pow256(2));
    assert Pow256(6) == 256 * (256 * Pow256(4));
    assert Pow256(8) == 256 * (256 * Pow256(6));
    assert Pow256(10) == 256 * (256 * Pow256(8));
    assert Pow256(12) == 256 * (256 * Pow256(10));
    assert Pow256(14) == 256 * (256 * Pow256(12));
    assert Pow256(16) == 256 * (256 * Pow256(14));
  }

  function TimeBytes(t: Time): seq<u8> { ToBe(t.seconds, 4) + ToBe(t.nanos, 4) }

  predicate Encodable(k: Key) { !k.F32? && !k.F64? && !k.Decimal? }

  /** The encoding of every key but decimals, whose digits are not part of the model. */
  function Encode(k: Key): (r: Result<seq<u8>>)
    requires !k.Decimal?
    ensures r.Ok? <==> Encodable(k)
  {
    Widths();
    match k
    case Bool(v) => Ok([VALUE, if v then 1 else 0])
    case I8(v) => Ok([VALUE, Sign(v)] + SignedToBe(v, 1))
    case I16(v) => Ok([VALUE, Sign(v)] + SignedToBe(v, 2))
    case I32(v) => Ok([VALUE, Sign(v)] + SignedToBe(v, 4))
    case I64(v) => Ok([VALUE, Sign(v)] + SignedToBe(v, 8))
    case I128(v) => Ok([VALUE, Sign(v)] + SignedToBe(v, 16))
    case U8(v) => Ok([VALUE, 1] + ToBe(v, 1))
    case U16(v) => Ok([VALUE, 1] + ToBe(v, 2))
    case U32(v) => Ok([VALUE, 1] + ToBe(v, 4))
    case U64(v) => Ok([VALUE, 1] + ToBe(v, 8))
    case U128(v) => Ok([VALUE, 1] + ToBe(v, 16))
    case F32(_) => Err(Error("FLOAT data type cannot be converted to Big-Endian bytes for comparison"))
    case F64(_) => Err(Error("FLOAT data type cannot be converted to Big-Endian bytes for comparison"))
    case Str(v) => Ok([VALUE] + v)
    case Bytea(v) => Ok(v)
    case Inet(V4(v)) => Ok(ToBe(v, 4))
    case Inet(V6(v)) => Ok(ToBe(v, 16))
    case Date(v) => Ok([VALUE] + SignedToBe(v, 4))
    case Time(v) => Ok([VALUE] + TimeBytes(v))
    case Timestamp(v) => Ok([VALUE] + (SignedToBe(v.days, 4) + TimeBytes(v.time)))
    case Interval(Month(v)) => Ok([VALUE] + (SignedToBe(v, 4) + SignedToBe(0, 8)))
    case Interval(Microsecond(v)) => Ok([VALUE] + (SignedToBe(0, 4) + SignedToBe(v, 8)))
    case Uuid(v) => Ok([VALUE] + ToBe(v, 16))
    case None => Ok([NONE])
  }

  // ----- comparing concatenations and numbers -----

  /** Heads of one length decide first, the rest breaks ties. */
  lemma {:induction false} CompareConcat(h: seq<u8>, t: seq<u8>, h': seq<u8>, t': seq<u8>)
    requires |h| == |h'|
    ensures CompareBytes(h + t, h' + t') == Then(CompareBytes(h, h'), CompareBytes(t, t'))
  {
    if h == [] {
      assert h + t == t && h' + t' == t';
    } else {
      assert (h + t)[1..] == h[1..] + t && (h' + t')[1..] == h'[1..] + t';
      CompareConcat(h[1..], t, h'[1..], t');
    }
  }

  lemma {:induction false} CompareSelf(a: seq<u8>)
    ensures CompareBytes(a, a) == Equal
  {
    BytesAntisymmetric(a, a);
  }

  /** A proper prefix is less. */
  lemma ComparePrefix(h: seq<u8>, h': seq<u8>, t': seq<u8>)
    requires |h| == |h'| && t' != []
    ensures CompareBytes(h, h' + t') == Then(CompareBytes(h, h'), Less)
  {
    assert h + [] == h;
    CompareConcat(h, [], h', t');
  }

  lemma {:induction false} ToBeOrder(a: nat, b: nat, w: nat)
    requires a < Pow256(w) && b < Pow256(w)
    ensures CompareBytes(ToBe(a, w), ToBe(b, w)) == CompareInt(a, b)
  {
    if w > 0 {
      ToBeOrder(a / 256, b / 256, w - 1);
      CompareConcat(ToBe(a / 256, w - 1), [a % 256], ToBe(b / 256, w - 1), [b % 256]);
    }
  }

  predicate FitsBytes(n: int, w: nat)
    requires w > 0
  {
    -(128 * Pow256(w - 1)) <= n < 128 * Pow256(w - 1)
  }

  /** Two's complement alone orders numbers of one sign; numbers of different sign come out reversed. */
  lemma SignedOrder(a: int, b: int, w: nat)
    requires w > 0 && FitsBytes(a, w) && FitsBytes(b, w)
    ensures CompareBytes(SignedToBe(a, w), SignedToBe(b, w)) ==
            if (a < 0) == (b < 0) then CompareInt(a, b) else Reverse(CompareInt(a, b))
  {
    var a', b' := if a < 0 then a + Pow256(w) else a, if b < 0 then b + Pow256(w) else b;
    ToBeOrder(a', b', w);
  }

  /** With the sign byte in front, all numbers come out in order. */
  lemma SignByteOrder(a: int, b: int, w: nat)
    requires w > 0 && FitsBytes(a, w) && FitsBytes(b, w)
    ensures CompareBytes([VALUE, Sign(a)] + SignedToBe(a, w), [VALUE, Sign(b)] + SignedToBe(b, w)) == CompareInt(a, b)
  {
    CompareConcat([VALUE, Sign(a)], SignedToBe(a, w), [VALUE, Sign(b)], SignedToBe(b, w));
    SignedOrder(a, b, w);
    assert [VALUE, Sign(a)][1..] == [Sign(a)] && [VALUE, Sign(b)][1..] == [Sign(b)];
  }

  lemma PrefixOrder(p: seq<u8>, a: seq<u8>, b: seq<u8>)
    ensures CompareBytes(p + a, p + b) == CompareBytes(a, b)
  {
    CompareConcat(p, a, p, b);
    CompareSelf(p);
  }

  lemma TimeOrder(a: Time, b: Time)
    ensures CompareBytes(TimeBytes(a), TimeBytes(b)) == CompareTime(a, b)
  {
    Widths();
    CompareConcat(ToBe(a.seconds, 4), ToBe(a.nanos, 4), ToBe(b.seconds, 4), ToBe(b.nanos, 4));
    ToBeOrder(a.seconds, b.seconds, 4);
    ToBeOrder(a.nanos, b.nanos, 4);
  }

  // ----- when the encoding keeps the order -----

  /** The pairs of keys of one column (one variant, or NULL) that the encoding orders as `cmp` does. */
  predicate Faithful(a: Key, b: Key) {
    match (a, b)
    case (Date(l), Date(r)) => (l < 0) == (r < 0)
    case (Timestamp(l), Timestamp(r)) => (l.days < 0) == (r.days < 0)
    case (Interval(Month(l)), Interval(Month(r))) => (l < 0) == (r < 0)
    case (Interval(Microsecond(l)), Interval(Microsecond(r))) => (l < 0) == (r < 0)
    case (Interval(Month(m)), Interval(Microsecond(_))) => m != 0
    case (Interval(Microsecond(_)), Interval(Month(m))) => m != 0
    case (Inet(V4(l)), Inet(V6(r))) => l <= r / 0x1_0000_0000_0000_0000_0000_0000
    case (Inet(V6(l)), Inet(V4(r))) => r <= l / 0x1_0000_0000_0000_0000_0000_0000
    case (None, Bytea(v)) => v == [] || v[0] == 0
    case (Bytea(v), None) => v == [] || v[0] == 0
    case (None, Inet(v)) => LeadingZero(v)
    case (Inet(v), None) => LeadingZero(v)
    case _ => true
  }

  predicate LeadingZero(v: Inet) {
    match v
    case V4(n) => n < 0x100_0000
    case V6(n) => n < 0x1_0000_0000_0000_0000_0000_0000_0000_00
  }

  ghost predicate InOrder(a: Key, b: Key)
    requires Encodable(a) && Encodable(b)
  {
    CompareBytes(Encode(a).value, Encode(b).value) == Cmp(a, b)
  }

  lemma SignedIntegersInOrder(a: Key, b: Key)
    requires SameVariant(a, b) && (a.I8? || a.I16? || a.I32? || a.I64? || a.I128?)
    ensures InOrder(a, b)
  {
    Widths();
    match (a, b) {
      case (I8(l), I8(r)) => SignByteOrder(l, r, 1);
      case (I16(l), I16(r)) => SignByteOrder(l, r, 2);
      case (I32(l), I32(r)) => assert Pow256(4) == 256 * Pow256(3); SignByteOrder(l, r, 4);
      case (I64(l), I64(r)) => assert Pow256(8) == 256 * Pow256(7); SignByteOrder(l, r, 8);
      case (I128(l), I128(r)) => assert Pow256(16) == 256 * Pow256(15); SignByteOrder(l, r, 16);
    }
  }

  lemma UnsignedIntegersInOrder(a: Key, b: Key)
    requires SameVariant(a, b) && (a.U8? || a.U16? || a.U32? || a.U64? || a.U128?)
    ensures InOrder(a, b)
  {
    Widths();
    match (a, b) {
      case (U8(l), U8(r)) => PrefixOrder([VALUE, 1], ToBe(l, 1), ToBe(r, 1)); ToBeOrder(l, r, 1);
      case (U16(l), U16(r)) => PrefixOrder([VALUE, 1], ToBe(l, 2), ToBe(r, 2)); ToBeOrder(l, r, 2);
      case (U32(l), U32(r)) => PrefixOrder([VALUE, 1], ToBe(l, 4), ToBe(r, 4)); ToBeOrder(l, r, 4);
      case (U64(l), U64(r)) => PrefixOrder([VALUE, 1], ToBe(l, 8), ToBe(r, 8)); ToBeOrder(l, r, 8);
      case (U128(l), U128(r)) => PrefixOrder([VALUE, 1], ToBe(l, 16), ToBe(r, 16)); ToBeOrder(l, r, 16);
    }
  }

  lemma DatesInOrder(a: Key, b: Key)
    requires SameVariant(a, b) && (a.Date? || a.Timestamp? || a.Time?)
    ensures InOrder(a, b) <==> Faithful(a, b)
  {
    Widths();
    assert Pow256(4) == 256 * Pow256(3);
    match (a, b) {
      case (Date(l), Date(r)) =>
        PrefixOrder([VALUE], SignedToBe(l, 4), SignedToBe(r, 4));
        SignedOrder(l, r, 4);
      case (Time(l), Time(r)) =>
        PrefixOrder([VALUE], TimeBytes(l), TimeBytes(r));
        TimeOrder(l, r);
      case (Timestamp(l), Timestamp(r)) =>
        var dl, dr, tl, tr := SignedToBe(l.days, 4), SignedToBe(r.days, 4), TimeBytes(l.time), TimeBytes(r.time);
        PrefixOrder([VALUE], dl + tl, dr + tr);
        CompareConcat(dl, tl, dr, tr);
        SignedOrder(l.days, r.days, 4);
        TimeOrder(l.time, r.time);
    }
  }

  /** An interval is encoded as months then microseconds, one of them zero. */
  lemma IntervalsInOrder(a: Interval, b: Interval)
    ensures InOrder(Key.Interval(a), Key.Interval(b)) <==> Faithful(Key.Interval(a), Key.Interval(b))
  {
    IntervalWidths(a);
    IntervalWidths(b);
    hide Encode, Pow256, SignedToBe;
    var hma, hua := SignedToBe(Months(a), 4), SignedToBe(Micros(a), 8);
    var hmb, hub := SignedToBe(Months(b), 4), SignedToBe(Micros(b), 8);
    PrefixOrder([VALUE], hma + hua, hmb + hub);
    CompareConcat(hma, hua, hmb, hub);
    SignedOrder(Months(a), Months(b), 4);
    SignedOrder(Micros(a), Micros(b), 8);
  }

  function Months(a: Interval): int { if a.Month? then a.months else 0 }

  function Micros(a: Interval): int { if a.Month? then 0 else a.microseconds }

  lemma IntervalWidths(a: Interval)
    ensures FitsBytes(Months(a), 4) && FitsBytes(Micros(a), 8)
    ensures Months(a) + Pow256(4) >= 0 && Micros(a) + Pow256(8) >= 0
    ensures Encode(Key.Interval(a)).value == [VALUE] + (SignedToBe(Months(a), 4) + SignedToBe(Micros(a), 8))
  {
    Widths();
    assert Pow256(4) == 256 * Pow256(3) && Pow256(8) == 256 * Pow256(7);
  }

  lemma {:induction false} ToBeJoin(x: nat, y: nat, hi: nat, lo: nat)
    requires y < Pow256(lo)
    ensures ToBe(x * Pow256(lo) + y, hi + lo) == ToBe(x, hi) + ToBe(y, lo)
  {
    if lo == 0 {
      assert ToBe(x, hi) + [] == ToBe(x, hi);
    } else {
      var p := Pow256(lo - 1);
      var n := x * Pow256(lo) + y;
      assert n == 256 * (x * p + y / 256) + y % 256;
      ToBeJoin(x, y / 256, hi, lo - 1);
    }
  }

  /** Addresses carry no length: an IPv4 address sorts among IPv6 addresses by its four bytes. */
  lemma InetsInOrder(a: Inet, b: Inet)
    ensures InOrder(Key.Inet(a), Key.Inet(b)) <==> Faithful(Key.Inet(a), Key.Inet(b))
  {
    Widths();
    match (a, b) {
      case (V4(l), V4(r)) => ToBeOrder(l, r, 4);
      case (V6(l), V6(r)) => ToBeOrder(l, r, 16);
      case (V4(l), V6(r)) => MixedInets(l, r);
      case (V6(l), V4(r)) =>
        MixedInets(r, l);
        BytesAntisymmetric(ToBe(r, 4), ToBe(l, 16));
    }
  }

  lemma TwelveBytes()
    ensures Pow256(12) == 0x1_0000_0000_0000_0000_0000_0000
  {
    Widths();
    assert Pow256(10) == 256 * (256 * Pow256(8));
    assert Pow256(12) == 256 * (256 * Pow256(10));
  }

  lemma MixedInets(l: u32, r: u128)
    ensures CompareBytes(ToBe(l, 4), ToBe(r, 16)) ==
            if l <= r / 0x1_0000_0000_0000_0000_0000_0000 then Less else Greater
  {
    TwelveBytes();
    Widths();
    hide Pow256, ToBe, CompareBytes;
    var hi, lo := r / 0x1_0000_0000_0000_0000_0000_0000, r % 0x1_0000_0000_0000_0000_0000_0000;
    assert hi * Pow256(12) + lo == r;
    ToBeJoin(hi, lo, 4, 12);
    ComparePrefix(ToBe(l, 4), ToBe(hi, 4), ToBe(lo, 12));
    ToBeOrder(l, hi, 4);
  }

  /** One byte against the None encoding: the first byte decides. */
  lemma AgainstNone(bytes: seq<u8>)
    ensures CompareBytes(bytes, [NONE]) == Less <==> bytes == [] || bytes[0] == 0
  {
  }

  lemma LeadingByte(hi: nat, lo: nat, w: nat)
    requires hi < 256 && lo < Pow256(w)
    ensures ToBe(hi * Pow256(w) + lo, 1 + w)[0] == hi
  {
    ToBeJoin(hi, lo, 1, w);
    assert ToBe(hi, 1) == ToBe(hi / 256, 0) + [hi % 256];
  }

  lemma InetAgainstNone(v: Inet)
    ensures InOrder(Key.Inet(v), Key.None) <==> LeadingZero(v)
  {
    Widths();
    match v {
      case V4(n) =>
        assert Pow256(4) == 256 * Pow256(3);
        var hi, lo := n / 0x100_0000, n % 0x100_0000;
        assert hi * Pow256(3) + lo == n;
        LeadingByte(hi, lo, 3);
        AgainstNone(ToBe(n, 4));
      case V6(n) =>
        assert Pow256(16) == 256 * Pow256(15);
        var hi, lo := n / 0x1_0000_0000_0000_0000_0000_0000_0000_00, n % 0x1_0000_0000_0000_0000_0000_0000_0000_00;
        assert hi * Pow256(15) + lo == n;
        LeadingByte(hi, lo, 15);
        AgainstNone(ToBe(n, 16));
    }
  }

  lemma NoneBytes()
    ensures Encode(Key.None) == Ok([NONE])
  {
  }

  lemma OwnBytes(v: seq<u8>)
    ensures Encode(Key.Bytea(v)) == Ok(v)
  {
  }

  lemma LeadsWithValue(k: Key)
    requires Encodable(k) && !k.None? && !k.Inet? && !k.Bytea?
    ensures Encode(k).value != [] && Encode(k).value[0] == VALUE
  {
    hide ToBe, SignedToBe, TimeBytes;
  }

  lemma WithNone(k: Key)
    requires Encodable(k) && !k.None?
    ensures InOrder(k, Key.None) <==> Faithful(k, Key.None)
  {
    hide Encode, CompareBytes;
    NoneBytes();
    AgainstNone(Encode(k).value);
    if k.Inet? {
      InetAgainstNone(k.inet);
    } else if k.Bytea? {
      OwnBytes(k.bytea);
    } else {
      LeadsWithValue(k);
    }
  }

  lemma NoneInOrder(k: Key)
    requires Encodable(k)
    ensures InOrder(k, Key.None) <==> Faithful(k, Key.None)
    ensures InOrder(Key.None, k) <==> Faithful(Key.None, k)
  {
    if !k.None? {
      WithNone(k);
      BytesAntisymmetric(Encode(k).value, [NONE]);
    }
  }

  lemma UuidsInOrder(l: u128, r: u128)
    ensures InOrder(Key.Uuid(l), Key.Uuid(r))
  {
    hide ToBe, CompareBytes;
    Widths();
    PrefixOrder([VALUE], ToBe(l, 16), ToBe(r, 16));
    ToBeOrder(l, r, 16);
  }

  lemma TruthsInOrder(l: bool, r: bool)
    ensures InOrder(Key.Bool(l), Key.Bool(r))
  {
    var vl, vr: u8 := if l then 1 else 0, if r then 1 else 0;
    PrefixOrder([VALUE], [vl], [vr]);
    assert [VALUE] + [vl] == [VALUE, vl] && [VALUE] + [vr] == [VALUE, vr];
  }

  lemma TextsInOrder(l: seq<u8>, r: seq<u8>)
    ensures InOrder(Key.Str(l), Key.Str(r))
  {
    hide CompareBytes;
    PrefixOrder([VALUE], l, r);
  }

  lemma BytesInOrder(l: seq<u8>, r: seq<u8>)
    ensures InOrder(Key.Bytea(l), Key.Bytea(r))
  {
    hide Encode, CompareBytes;
    OwnBytes(l);
    OwnBytes(r);
  }

  lemma OthersInOrder(a: Key, b: Key)
    requires SameVariant(a, b) && (a.Uuid? || a.Str? || a.Bytea? || a.Bool?)
    ensures InOrder(a, b)
  {
    hide InOrder;
    match (a, b)
    case (Uuid(l), Uuid(r)) => UuidsInOrder(l, r);
    case (Str(l), Str(r)) => TextsInOrder(l, r);
    case (Bytea(l), Bytea(r)) => BytesInOrder(l, r);
    case (Bool(l), Bool(r)) => TruthsInOrder(l, r);
  }

  lemma PlainPairsAreFaithful(a: Key, b: Key)
    requires SameVariant(a, b) || a.None? || b.None?
    ensures !a.None? && !b.None? && !a.Date? && !a.Timestamp? && !a.Time? && !a.Interval? && !a.Inet? ==> Faithful(a, b)
  {
  }

  /** The encoding orders two keys of one column as `cmp` does exactly when the pair is faithful:
    always for booleans, integers of every width, text, bytes, UUIDs and times; for dates and
    timestamps when both day numbers have one sign; for intervals and addresses as spelled out. */
  lemma EncodingKeepsOrderExactlyWhenFaithful(a: Key, b: Key)
    requires Encodable(a) && Encodable(b)
    requires SameVariant(a, b) || a.None? || b.None?
    ensures InOrder(a, b) <==> Faithful(a, b)
  {
    hide InOrder, Faithful;
    PlainPairsAreFaithful(a, b);
    if b.None? {
      NoneInOrder(a);
    } else if a.None? {
      NoneInOrder(b);
    } else if a.I8? || a.I16? || a.I32? || a.I64? || a.I128? {
      SignedIntegersInOrder(a, b);
    } else if a.U8? || a.U16? || a.U32? || a.U64? || a.U128? {
      UnsignedIntegersInOrder(a, b);
    } else if a.Date? || a.Timestamp? || a.Time? {
      DatesInOrder(a, b);
    } else if a.Interval? {
      IntervalsInOrder(a.interval, b.interval);
    } else if a.Inet? {
      InetsInOrder(a.inet, b.inet);
    } else {
      OthersInOrder(a, b);
    }
  }

  /** Hence no two different keys of a faithful pair share an encoding. */
  lemma EncodingInjectiveOnFaithfulPairs(a: Key, b: Key)
    requires Encodable(a) && Encodable(b)
    requires SameVariant(a, b) || a.None? || b.None?
    requires Faithful(a, b)
    ensures Encode(a).value == Encode(b).value <==> a == b
  {
    hide Encode, Cmp;
    EncodingKeepsOrderExactlyWhenFaithful(a, b);
    BytesAntisymmetric(Encode(a).value, Encode(b).value);
    CmpAntisymmetric(a, b);
  }

  // ----- which keys share an encoding -----

  /** Two different keys of one column with one encoding. */
  predicate Collides(a: Key, b: Key) {
    match (a, b)
    case (Interval(Month(m)), Interval(Microsecond(u))) => m == 0 && u == 0
    case (Interval(Microsecond(u)), Interval(Month(m))) => m == 0 && u == 0
    case (None, Bytea(v)) => v == [NONE]
    case (Bytea(v), None) => v == [NONE]
    case _ => false
  }

  lemma SignedInjective(a: int, b: int, w: nat)
    requires w > 0 && FitsBytes(a, w) && FitsBytes(b, w)
    ensures SignedToBe(a, w) == SignedToBe(b, w) <==> a == b
  {
    SignedOrder(a, b, w);
    CompareSelf(SignedToBe(a, w));
  }

  lemma ConcatEqual(a: seq<u8>, b: seq<u8>, c: seq<u8>, d: seq<u8>)
    requires |a| == |c|
    ensures a + b == c + d <==> a == c && b == d
  {
    if a + b == c + d {
      assert a == (a + b)[..|a|] && c == (c + d)[..|c|];
      assert b == (a + b)[|a|..] && d == (c + d)[|c|..];
    }
  }

  lemma DatesApart(a: Key, b: Key)
    requires (a.Date? && b.Date?) || (a.Timestamp? && b.Timestamp?)
    requires !Faithful(a, b)
    ensures Encode(a).value != Encode(b).value
  {
    Widths();
    assert Pow256(4) == 256 * Pow256(3);
    var l, r := if a.Date? then a.date else a.timestamp.days, if b.Date? then b.date else b.timestamp.days;
    SignedInjective(l, r, 4);
    var x := if a.Date? then [] else TimeBytes(a.timestamp.time);
    var y := if b.Date? then [] else TimeBytes(b.timestamp.time);
    ConcatEqual(SignedToBe(l, 4), x, SignedToBe(r, 4), y);
    ConcatEqual([VALUE], SignedToBe(l, 4) + x, [VALUE], SignedToBe(r, 4) + y);
    assert SignedToBe(l, 4) + [] == SignedToBe(l, 4) && SignedToBe(r, 4) + [] == SignedToBe(r, 4);
  }

  lemma IntervalsApart(a: Interval, b: Interval)
    ensures var x, y := Key.Interval(a), Key.Interval(b);
            Encode(x).value == Encode(y).value <==> x == y || Collides(x, y)
  {
    IntervalWidths(a);
    IntervalWidths(b);
    hide Encode, Pow256, SignedToBe, FitsBytes;
    var hma, hua := SignedToBe(Months(a), 4), SignedToBe(Micros(a), 8);
    var hmb, hub := SignedToBe(Months(b), 4), SignedToBe(Micros(b), 8);
    SignedInjective(Months(a), Months(b), 4);
    SignedInjective(Micros(a), Micros(b), 8);
    ConcatEqual(hma, hua, hmb, hub);
    ConcatEqual([VALUE], hma + hua, [VALUE], hmb + hub);
  }

  lemma OddPairsApart(a: Key, b: Key)
    requires Encodable(a) && Encodable(b) && !Faithful(a, b)
    requires (a.Inet? && b.Inet?) || a.None? || b.None?
    ensures Encode(a).value == Encode(b).value <==> Collides(a, b)
  {
  }

  lemma FaithfulPairsDoNotCollide(a: Key, b: Key)
    requires Faithful(a, b)
    ensures !Collides(a, b)
  {
  }

  lemma UnfaithfulPairs(a: Key, b: Key)
    requires !Faithful(a, b)
    ensures a != b
    ensures || (a.Date? && b.Date?) || (a.Timestamp? && b.Timestamp?) || (a.Interval? && b.Interval?)
            || (a.Inet? && b.Inet?) || a.None? || b.None?
    ensures a.Date? && b.Date? ==> !Collides(a, b)
    ensures a.Timestamp? && b.Timestamp? ==> !Collides(a, b)
  {
  }

  /** Two keys of one column, or one and None, share an encoding exactly when they are equal or the
    zeros of the two kinds of intervals or None and the single byte 1: faithful or not. */
  lemma EncodingsMeetExactlyWhen(a: Key, b: Key)
    requires Encodable(a) && Encodable(b)
    requires SameVariant(a, b) || a.None? || b.None?
    ensures Encode(a).value == Encode(b).value <==> a == b || Collides(a, b)
  {
    hide Encode, Faithful, Collides, SameVariant;
    if a.Interval? && b.Interval? {
      IntervalsApart(a.interval, b.interval);
    } else if Faithful(a, b) {
      EncodingInjectiveOnFaithfulPairs(a, b);
      FaithfulPairsDoNotCollide(a, b);
    } else {
      UnfaithfulPairs(a, b);
      if (a.Date? && b.Date?) || (a.Timestamp? && b.Timestamp?) {
        DatesApart(a, b);
      } else {
        OddPairsApart(a, b);
      }
    }
  }

  // ----- pairs whose order the encoding breaks -----

  /** The last day before the common era and its first: `cmp` and the bytes disagree. */
  lemma DatesAroundDayZero()
    ensures Cmp(Key.Date(-1), Key.Date(1)) == Less
    ensures CompareBytes(Encode(Key.Date(-1)).value, Encode(Key.Date(1)).value) != Less
  {
    EncodingKeepsOrderExactlyWhenFaithful(Key.Date(-1), Key.Date(1));
  }

  /** A negative interval and a positive one. */
  lemma IntervalsAroundZero()
    ensures var a, b := Key.Interval(Month(-1)), Key.Interval(Month(1));
            CompareBytes(Encode(a).value, Encode(b).value) != Cmp(a, b)
  {
    EncodingKeepsOrderExactlyWhenFaithful(Key.Interval(Month(-1)), Key.Interval(Month(1)));
  }

  /** An IPv4 address and a small IPv6 one. */
  lemma AddressesOfTwoKinds()
    ensures var a, b := Key.Inet(V4(0x7f00_0001)), Key.Inet(V6(1));
            CompareBytes(Encode(a).value, Encode(b).value) != Cmp(a, b)
  {
    EncodingKeepsOrderExactlyWhenFaithful(Key.Inet(V4(0x7f00_0001)), Key.Inet(V6(1)));
  }
}

/** What the bytes of an encoded key hold, position by position (`Key::to_cmp_be_bytes`,
  core/src/data/key.rs).  Reading them back gives the key. */
module KeyLayout {
  import opened Data
  import opened KeyBytes

  /** The number that big-endian bytes denote. */
  function FromBe(bytes: seq<u8>): nat {
    if bytes == [] then 0 else 256 * FromBe(bytes[..|bytes| - 1]) + bytes[|bytes| - 1]
  }

  lemma {:induction false} ReadsBack(n: nat, w: nat)
    requires n < Pow256(w)
    ensures FromBe(ToBe(n, w)) == n
  {
    if w > 0 {
      ReadsBack(n / 256, w - 1);
      assert ToBe(n, w)[..w - 1] == ToBe(n / 256, w - 1);
    }
  }

  /** The number in the bytes, as two's complement. */
  ghost predicate HoldsSigned(bytes: seq<u8>, v: int) {
    FromBe(bytes) == if v < 0 then v + Pow256(|bytes|) else v
  }

  lemma SignedReadsBack(v: int, w: nat)
    requires w > 0 && FitsBytes(v, w)
    ensures HoldsSigned(SignedToBe(v, w), v)
  {
    assert Pow256(w) == 256 * Pow256(w - 1);
    ReadsBack(if v < 0 then v + Pow256(w) else v, w);
  }

  /** A tag, the sign, and the number in `w` bytes. */
  ghost predicate HoldsInteger(bytes: seq<u8>, v: int, w: nat) {
    |bytes| == 2 + w && bytes[0] == 0 && bytes[1] == (if v >= 0 then 1 else 0) && HoldsSigned(bytes[2..], v)
  }

  ghost predicate HoldsTime(bytes: seq<u8>, t: Time) {
    |bytes| == 8 && FromBe(bytes[..4]) == t.seconds && FromBe(bytes[4..]) == t.nanos
  }

  /** The layout of every key that is encoded; decimals are in `DecimalBytes`. */
  ghost predicate Holds(bytes: seq<u8>, k: Key) {
    match k
    case Bool(v) => bytes == [0, if v then 1 else 0]
    case I8(v) => HoldsInteger(bytes, v, 1)
    case I16(v) => HoldsInteger(bytes, v, 2)
    case I32(v) => HoldsInteger(bytes, v, 4)
    case I64(v) => HoldsInteger(bytes, v, 8)
    case I128(v) => HoldsInteger(bytes, v, 16)
    case U8(v) => HoldsInteger(bytes, v, 1)
    case U16(v) => HoldsInteger(bytes, v, 2)
    case U32(v) => HoldsInteger(bytes, v, 4)
    case U64(v) => HoldsInteger(bytes, v, 8)
    case U128(v) => HoldsInteger(bytes, v, 16)
    case Str(v) => |bytes| == 1 + |v| && bytes[0] == 0 && bytes[1..] == v
    case Bytea(v) => bytes == v
    case Inet(V4(v)) => |bytes| == 4 && FromBe(bytes) == v
    case Inet(V6(v)) => |bytes| == 16 && FromBe(bytes) == v
    case Date(v) => |bytes| == 5 && bytes[0] == 0 && HoldsSigned(bytes[1..], v)
    case Time(v) => |bytes| == 9 && bytes[0] == 0 && HoldsTime(bytes[1..], v)
    case Timestamp(v) =>
      |bytes| == 13 && bytes[0] == 0 && HoldsSigned(bytes[1..5], v.days) && HoldsTime(bytes[5..], v.time)
    case Interval(Month(v)) =>
      |bytes| == 13 && bytes[0] == 0 && HoldsSigned(bytes[1..5], v) && FromBe(bytes[5..]) == 0
    case Interval(Microsecond(v)) =>
      |bytes| == 13 && bytes[0] == 0 && FromBe(bytes[1..5]) == 0 && HoldsSigned(bytes[5..], v)
    case Uuid(v) => |bytes| == 17 && bytes[0] == 0 && FromBe(bytes[1..]) == v
    case None => bytes == [1]
    case _ => false
  }

  lemma SignedIntegerHeld(v: int, w: nat)
    requires w > 0 && FitsBytes(v, w)
    ensures HoldsInteger([VALUE, Sign(v)] + SignedToBe(v, w), v, w)
  {
    SignedReadsBack(v, w);
    assert ([VALUE, Sign(v)] + SignedToBe(v, w))[2..] == SignedToBe(v, w);
  }

  lemma UnsignedIntegerHeld(v: nat, w: nat)
    requires v < Pow256(w)
    ensures HoldsInteger([VALUE, 1] + ToBe(v, w), v, w)
  {
    ReadsBack(v, w);
    assert ([VALUE, 1] + ToBe(v, w))[2..] == ToBe(v, w);
  }

  lemma TimeHeld(t: Time)
    ensures HoldsTime(TimeBytes(t), t)
  {
    Widths();
    ReadsBack(t.seconds, 4);
    ReadsBack(t.nanos, 4);
    assert TimeBytes(t)[..4] == ToBe(t.seconds, 4) && TimeBytes(t)[4..] == ToBe(t.nanos, 4);
  }

  lemma IntegersHeld(k: Key)
    requires k.I8? || k.I16? || k.I32? || k.I64? || k.I128? || k.U8? || k.U16? || k.U32? || k.U64? || k.U128?
    ensures Encode(k).Ok? && Holds(Encode(k).value, k)
  {
    hide HoldsInteger, ToBe, SignedToBe;
    Widths();
    HalfWidths();
    match k {
      case I8(v) => SignedIntegerHeld(v, 1);
      case I16(v) => SignedIntegerHeld(v, 2);
      case I32(v) => SignedIntegerHeld(v, 4);
      case I64(v) => SignedIntegerHeld(v, 8);
      case I128(v) => SignedIntegerHeld(v, 16);
      case U8(v) => UnsignedIntegerHeld(v, 1);
      case U16(v) => UnsignedIntegerHeld(v, 2);
      case U32(v) => UnsignedIntegerHeld(v, 4);
      case U64(v) => UnsignedIntegerHeld(v, 8);
      case U128(v) => UnsignedIntegerHeld(v, 16);
    }
  }

  lemma HalfWidths()
    ensures Pow256(0) == 1 && Pow256(1) == 256 * Pow256(0) && Pow256(2) == 256 * Pow256(1)
    ensures Pow256(4) == 256 * Pow256(3) && Pow256(8) == 256 * Pow256(7) && Pow256(16) == 256 * Pow256(15)
  {
  }

  lemma Cut(a: seq<u8>, b: seq<u8>)
    ensures var bytes := [VALUE] + (a + b);
            |bytes| == 1 + |a| + |b| && bytes[0] == 0 && bytes[1..1 + |a|] == a && bytes[1 + |a|..] == b
  {
  }

  lemma CutAll(a: seq<u8>)
    ensures |[VALUE] + a| == 1 + |a| && ([VALUE] + a)[0] == 0 && ([VALUE] + a)[1..] == a
  {
  }

  lemma DateHeld(v: i32)
    ensures Holds(Encode(Key.Date(v)).value, Key.Date(v))
  {
    hide HoldsSigned, SignedToBe;
    Widths();
    HalfWidths();
    SignedReadsBack(v, 4);
    CutAll(SignedToBe(v, 4));
  }

  lemma TimeOfDayHeld(v: Time)
    ensures Holds(Encode(Key.Time(v)).value, Key.Time(v))
  {
    hide HoldsTime, TimeBytes;
    TimeHeld(v);
    CutAll(TimeBytes(v));
  }

  lemma TimestampHeld(v: Timestamp)
    ensures Holds(Encode(Key.Timestamp(v)).value, Key.Timestamp(v))
  {
    hide HoldsTime, HoldsSigned, SignedToBe, TimeBytes;
    Widths();
    HalfWidths();
    SignedReadsBack(v.days, 4);
    TimeHeld(v.time);
    Cut(SignedToBe(v.days, 4), TimeBytes(v.time));
  }

  lemma ZeroReadsBack(w: nat)
    ensures FromBe(SignedToBe(0, w)) == 0
  {
    ReadsBack(0, w);
  }

  lemma MonthsHeld(v: i32)
    ensures Holds(Encode(Key.Interval(Month(v))).value, Key.Interval(Month(v)))
  {
    hide HoldsSigned, SignedToBe, FromBe;
    Widths();
    HalfWidths();
    SignedReadsBack(v, 4);
    ZeroReadsBack(8);
    Cut(SignedToBe(v, 4), SignedToBe(0, 8));
  }

  lemma MicrosecondsHeld(v: i64)
    ensures Holds(Encode(Key.Interval(Microsecond(v))).value, Key.Interval(Microsecond(v)))
  {
    hide HoldsSigned, SignedToBe, FromBe;
    Widths();
    HalfWidths();
    SignedReadsBack(v, 8);
    ZeroReadsBack(4);
    Cut(SignedToBe(0, 4), SignedToBe(v, 8));
  }

  lemma UuidHeld(v: u128)
    ensures Holds(Encode(Key.Uuid(v)).value, Key.Uuid(v))
  {
    hide ToBe, FromBe;
    Widths();
    ReadsBack(v, 16);
    CutAll(ToBe(v, 16));
  }

  lemma AddressHeld(v: Inet)
    ensures Holds(Encode(Key.Inet(v)).value, Key.Inet(v))
  {
    hide ToBe, FromBe;
    Widths();
    match v
    case V4(n) => ReadsBack(n, 4);
    case V6(n) => ReadsBack(n, 16);
  }

  lemma TextHeld(v: seq<u8>)
    ensures Holds(Encode(Key.Str(v)).value, Key.Str(v))
  {
    CutAll(v);
  }

  lemma TruthHeld(v: bool)
    ensures Holds(Encode(Key.Bool(v)).value, Key.Bool(v))
  {
  }

  lemma BytesHeld(v: seq<u8>)
    ensures Holds(Encode(Key.Bytea(v)).value, Key.Bytea(v))
  {
    hide Encode;
    OwnBytes(v);
  }

  lemma NullHeld()
    ensures Holds(Encode(Key.None).value, Key.None)
  {
    hide Encode;
    NoneBytes();
  }

  /** Every key but floats and decimals is encoded, and its bytes hold it. */
  lemma EncodingHoldsKey(k: Key)
    requires !k.F32? && !k.F64? && !k.Decimal?
    ensures Encode(k).Ok? && Holds(Encode(k).value, k)
  {
    hide Encode, Holds;
    match k
    case Date(v) => DateHeld(v);
    case Time(v) => TimeOfDayHeld(v);
    case Timestamp(v) => TimestampHeld(v);
    case Interval(Month(v)) => MonthsHeld(v);
    case Interval(Microsecond(v)) => MicrosecondsHeld(v);
    case Uuid(v) => UuidHeld(v);
    case Inet(v) => AddressHeld(v);
    case Bool(v) => TruthHeld(v);
    case Str(v) => TextHeld(v);
    case Bytea(v) => BytesHeld(v);
    case None => NullHeld();
    case _ => IntegersHeld(k);
  }
}

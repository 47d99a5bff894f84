/** Values, keys and types as the engine stores them (core/src/data/value.rs, core/src/data/key.rs).

  Integers carry the source's widths as subset types.  A float is its IEEE 754 bit pattern, so that
  NaN and signed zero behave exactly as in the source.  A decimal is the number it denotes.  Text is
  its UTF-8 bytes, which is what the source compares.  A date is its day number from the common era.
*/
module Data {

  type u8 = x: int | 0 <= x < 0x100
  type u16 = x: int | 0 <= x < 0x1_0000
  type u32 = x: int | 0 <= x < 0x1_0000_0000
  type u64 = x: int | 0 <= x < 0x1_0000_0000_0000_0000
  type u128 = x: int | 0 <= x < 0x1_0000_0000_0000_0000_0000_0000_0000_0000
  type i8 = x: int | -0x80 <= x < 0x80
  type i16 = x: int | -0x8000 <= x < 0x8000
  type i32 = x: int | -0x8000_0000 <= x < 0x8000_0000
  type i64 = x: int | -0x8000_0000_0000_0000 <= x < 0x8000_0000_0000_0000
  type i128 = x: int | -0x8000_0000_0000_0000_0000_0000_0000_0000 <= x < 0x8000_0000_0000_0000_0000_0000_0000_0000

  datatype Option<+T> = None | Some(value: T)

  datatype Error = Error(message: string)

  datatype Result<+T> = Ok(value: T) | Err(error: Error) {
    predicate IsFailure() { Err? }
    function PropagateFailure<U>(): Result<U> requires Err? { Err(error) }
    function Extract(): T requires Ok? { value }
  }

  datatype Tribool = True | False | Null

  function ToTribool(b: bool): Tribool { if b then Tribool.True else Tribool.False }

  datatype Interval = Month(months: i32) | Microsecond(microseconds: i64)
  datatype Inet = V4(v4: u32) | V6(v6: u128)
  datatype Time = Time(seconds: u32, nanos: u32)
  datatype Timestamp = Timestamp(days: i32, time: Time)

  datatype Value =
    | Bool(b: bool)
    | I8(i8: i8) | I16(i16: i16) | I32(i32: i32) | I64(i64: i64) | I128(i128: i128)
    | U8(u8: u8) | U16(u16: u16) | U32(u32: u32) | U64(u64: u64) | U128(u128: u128)
    | F32(f32: u32) | F64(f64: u64)
    | Decimal(decimal: real)
    | Str(str: seq<u8>)
    | Bytea(bytea: seq<u8>)
    | Inet(inet: Inet)
    | Date(date: i32)
    | Timestamp(timestamp: Timestamp)
    | Time(time: Time)
    | Interval(interval: Interval)
    | Uuid(uuid: u128)
    | Map(entries: seq<Entry>)
    | List(elements: seq<Value>)
    | Point(x: u64, y: u64)
    | Null

  datatype Entry = Entry(name: string, value: Value)

  type Row = seq<Value>

  datatype Key =
    | I8(i8: i8) | I16(i16: i16) | I32(i32: i32) | I64(i64: i64) | I128(i128: i128)
    | U8(u8: u8) | U16(u16: u16) | U32(u32: u32) | U64(u64: u64) | U128(u128: u128)
    | F32(f32: u32) | F64(f64: u64)
    | Decimal(decimal: real)
    | Bool(b: bool)
    | Str(str: seq<u8>)
    | Bytea(bytea: seq<u8>)
    | Date(date: i32)
    | Timestamp(timestamp: Timestamp)
    | Time(time: Time)
    | Interval(interval: Interval)
    | Uuid(uuid: u128)
    | Inet(inet: Inet)
    | None

  datatype DataType =
    | Boolean | Int8 | Int16 | Int32 | Int | Int128
    | Uint8 | Uint16 | Uint32 | Uint64 | Uint128
    | Float32 | Float | DecimalType | Text | ByteaType | InetType | DateType | TimestampType
    | TimeType | IntervalType | UuidType | MapType | ListType | PointType

  /** The type of a value; Null has none. */
  function GetType(v: Value): Option<DataType> {
    match v
    case I8(_) => Some(Int8)
    case I16(_) => Some(Int16)
    case I32(_) => Some(Int32)
    case I64(_) => Some(Int)
    case I128(_) => Some(Int128)
    case U8(_) => Some(Uint8)
    case U16(_) => Some(Uint16)
    case U32(_) => Some(Uint32)
    case U64(_) => Some(Uint64)
    case U128(_) => Some(Uint128)
    case F32(_) => Some(Float32)
    case F64(_) => Some(Float)
    case Decimal(_) => Some(DecimalType)
    case Bool(_) => Some(Boolean)
    case Str(_) => Some(Text)
    case Bytea(_) => Some(ByteaType)
    case Inet(_) => Some(InetType)
    case Date(_) => Some(DateType)
    case Timestamp(_) => Some(TimestampType)
    case Time(_) => Some(TimeType)
    case Interval(_) => Some(IntervalType)
    case Uuid(_) => Some(UuidType)
    case Map(_) => Some(MapType)
    case List(_) => Some(ListType)
    case Point(_, _) => Some(PointType)
    case Null => Option.None
  }

  lemma NullHasNoType(v: Value)
    ensures v.Null? <==> GetType(v) == Option.None
  {
  }

  /** `validate_type` and `validate_null` accept the value. */
  predicate Fits(v: Value, dataType: DataType, nullable: bool) {
    if v.Null? then nullable else GetType(v) == Some(dataType)
  }

  /** The end of `try_into_value`: the converted value must fit the column. */
  function Fitting(v: Result<Value>, dataType: DataType, nullable: bool): Result<Value> {
    if v.Ok? && !Fits(v.value, dataType, nullable) then Err(Error("incompatible value")) else v
  }

  predicate IsFloat(t: DataType) { t == Float || t == Float32 }

  /** `Key::try_from`: maps, lists and points are no keys. */
  function ToKey(v: Value): Result<Key> {
    match v
    case Bool(x) => Ok(Key.Bool(x))
    case I8(x) => Ok(Key.I8(x))
    case I16(x) => Ok(Key.I16(x))
    case I32(x) => Ok(Key.I32(x))
    case I64(x) => Ok(Key.I64(x))
    case I128(x) => Ok(Key.I128(x))
    case U8(x) => Ok(Key.U8(x))
    case U16(x) => Ok(Key.U16(x))
    case U32(x) => Ok(Key.U32(x))
    case U64(x) => Ok(Key.U64(x))
    case U128(x) => Ok(Key.U128(x))
    case F32(x) => Ok(Key.F32(x))
    case F64(x) => Ok(Key.F64(x))
    case Decimal(x) => Ok(Key.Decimal(x))
    case Str(x) => Ok(Key.Str(x))
    case Bytea(x) => Ok(Key.Bytea(x))
    case Inet(x) => Ok(Key.Inet(x))
    case Date(x) => Ok(Key.Date(x))
    case Timestamp(x) => Ok(Key.Timestamp(x))
    case Time(x) => Ok(Key.Time(x))
    case Interval(x) => Ok(Key.Interval(x))
    case Uuid(x) => Ok(Key.Uuid(x))
    case Null => Ok(Key.None)
    case Map(_) => Err(Error("MAP data type cannot be used as Key"))
    case List(_) => Err(Error("LIST data type cannot be used as Key"))
    case Point(_, _) => Err(Error("POINT data type cannot be used as Key"))
  }

  /** A NULL or a key of this type. */
  predicate OfType(v: Value, t: DataType) { v.Null? || GetType(v) == Some(t) }

  /** A type whose values are keys and compare exactly. */
  predicate KeyType(t: DataType) { !IsFloat(t) && t != MapType && t != ListType && t != PointType }

  lemma KeysOfKeyType(v: Value, t: DataType)
    requires OfType(v, t) && KeyType(t)
    ensures ToKey(v).Ok? && !v.F32? && !v.F64?
  {
  }

  /** `From<Key> for Value`: the value that a key was made of. */
  function FromKey(k: Key): Value {
    match k
    case Bool(x) => Value.Bool(x)
    case I8(x) => Value.I8(x)
    case I16(x) => Value.I16(x)
    case I32(x) => Value.I32(x)
    case I64(x) => Value.I64(x)
    case I128(x) => Value.I128(x)
    case U8(x) => Value.U8(x)
    case U16(x) => Value.U16(x)
    case U32(x) => Value.U32(x)
    case U64(x) => Value.U64(x)
    case U128(x) => Value.U128(x)
    case F32(x) => Value.F32(x)
    case F64(x) => Value.F64(x)
    case Decimal(x) => Value.Decimal(x)
    case Str(x) => Value.Str(x)
    case Bytea(x) => Value.Bytea(x)
    case Inet(x) => Value.Inet(x)
    case Date(x) => Value.Date(x)
    case Timestamp(x) => Value.Timestamp(x)
    case Time(x) => Value.Time(x)
    case Interval(x) => Value.Interval(x)
    case Uuid(x) => Value.Uuid(x)
    case None => Value.Null
  }

  /** A value is recovered from its key. */
  lemma KeyRoundTrip(v: Value)
    requires ToKey(v).Ok?
    ensures FromKey(ToKey(v).value) == v
  {
  }

  /** Different values have different keys. */
  lemma KeysInjective(a: Value, b: Value)
    requires ToKey(a).Ok? && ToKey(b).Ok?
    ensures ToKey(a).value == ToKey(b).value <==> a == b
  {
    hide ToKey, FromKey;
    KeyRoundTrip(a);
    KeyRoundTrip(b);
  }

  // ----- floats as bit patterns -----

  const F32_SIGN := 0x8000_0000
  const F32_INFINITY := 0x7f80_0000
  const F32_NAN := 0x7fc0_0000
  const F64_SIGN := 0x8000_0000_0000_0000
  const F64_INFINITY := 0x7ff0_0000_0000_0000
  const F64_NAN := 0x7ff8_0000_0000_0000

  function Magnitude(bits: nat, sign: nat): nat { if bits >= sign then bits - sign else bits }

  predicate NaN32(bits: u32) { Magnitude(bits, F32_SIGN) > F32_INFINITY }
  predicate NaN64(bits: u64) { Magnitude(bits, F64_SIGN) > F64_INFINITY }

  /** Float equality as `Value`, `Point` and `OrderedFloat` define it: NaN equals NaN, -0 equals +0. */
  predicate Eq32(a: u32, b: u32) {
    (NaN32(a) && NaN32(b)) ||
    (!NaN32(a) && !NaN32(b) && (a == b || (Magnitude(a, F32_SIGN) == 0 && Magnitude(b, F32_SIGN) == 0)))
  }

  predicate Eq64(a: u64, b: u64) {
    (NaN64(a) && NaN64(b)) ||
    (!NaN64(a) && !NaN64(b) && (a == b || (Magnitude(a, F64_SIGN) == 0 && Magnitude(b, F64_SIGN) == 0)))
  }

  /** The bits fed to the hasher: one pattern for all NaNs, one for both zeros. */
  function HashBits32(a: u32): u32 {
    if NaN32(a) then F32_NAN else if Magnitude(a, F32_SIGN) == 0 then 0 else a
  }

  function HashBits64(a: u64): u64 {
    if NaN64(a) then F64_NAN else if Magnitude(a, F64_SIGN) == 0 then 0 else a
  }

  // ----- equality and hashing of values -----

  /** `PartialEq for Value`. */
  predicate ValueEq(a: Value, b: Value)
    decreases a, 1
  {
    match (a, b)
    case (F32(x), F32(y)) => Eq32(x, y)
    case (F64(x), F64(y)) => Eq64(x, y)
    case (Point(x, y), Point(x', y')) => Eq64(x, x') && Eq64(y, y')
    case (List(x), List(y)) => RowEq(x, y)
    case (Map(x), Map(y)) =>
      |x| == |y| && forall i | 0 <= i < |x| :: x[i].name == y[i].name && ValueEq(x[i].value, y[i].value)
    case _ => a == b
  }

  /** Equality of two lists of values, also the equality of rows that DISTINCT and GROUP BY use. */
  predicate RowEq(a: seq<Value>, b: seq<Value>)
    decreases a, 0
  {
    |a| == |b| && forall i | 0 <= i < |a| :: ValueEq(a[i], b[i])
  }

  /** The value that `Hash for Value` feeds to the hasher, as a value: the discriminant is the
    constructor, floats are replaced by their canonical bits. */
  function HashFeed(v: Value): Value {
    match v
    case F32(x) => Value.F32(HashBits32(x))
    case F64(x) => Value.F64(HashBits64(x))
    case Point(x, y) => Value.Point(HashBits64(x), HashBits64(y))
    case List(x) => Value.List(HashFeeds(x))
    case Map(x) => Value.Map(HashEntries(x))
    case _ => v
  }

  function HashEntries(x: seq<Entry>): (r: seq<Entry>)
    ensures |r| == |x|
  {
    seq(|x|, i requires 0 <= i < |x| => Entry(x[i].name, HashFeed(x[i].value)))
  }

  function HashFeeds(vs: seq<Value>): (r: seq<Value>)
    ensures |r| == |vs|
  {
    seq(|vs|, i requires 0 <= i < |vs| => HashFeed(vs[i]))
  }

  /** Two values are equal exactly when they feed the hasher the same data.  Hence equality is an
    equivalence and hashing respects it, NaN and signed zero included, at every nesting depth. */
  lemma {:induction false} EqualExactlyWhenHashedAlike(a: Value, b: Value)
    ensures ValueEq(a, b) <==> HashFeed(a) == HashFeed(b)
    decreases a
  {
    if a.List? && b.List? {
      var x, y := a.elements, b.elements;
      forall i | 0 <= i < |x| && |x| == |y|
        ensures ValueEq(x[i], y[i]) <==> HashFeeds(x)[i] == HashFeeds(y)[i]
      {
        EqualExactlyWhenHashedAlike(x[i], y[i]);
      }
    } else if a.Map? && b.Map? {
      var x, y := a.entries, b.entries;
      forall i | 0 <= i < |x| && |x| == |y|
        ensures EntryEq(x[i], y[i]) <==> HashEntries(x)[i] == HashEntries(y)[i]
      {
        EqualExactlyWhenHashedAlike(x[i].value, y[i].value);
      }
      EntriesEqual(x, y);
    } else {
      LeavesEqualExactlyWhenHashedAlike(a, b);
    }
  }

  lemma LeavesEqualExactlyWhenHashedAlike(a: Value, b: Value)
    requires !(a.List? && b.List?) && !(a.Map? && b.Map?)
    ensures ValueEq(a, b) <==> HashFeed(a) == HashFeed(b)
  {
  }

  predicate EntryEq(a: Entry, b: Entry) { a.name == b.name && ValueEq(a.value, b.value) }

  lemma MapsEqualByEntry(x: seq<Entry>, y: seq<Entry>)
    ensures ValueEq(Value.Map(x), Value.Map(y)) <==> |x| == |y| && forall i | 0 <= i < |x| :: EntryEq(x[i], y[i])
  {
  }

  lemma EntriesEqual(x: seq<Entry>, y: seq<Entry>)
    requires |x| == |y| ==> forall i | 0 <= i < |x| :: EntryEq(x[i], y[i]) <==> HashEntries(x)[i] == HashEntries(y)[i]
    ensures ValueEq(Value.Map(x), Value.Map(y)) <==> HashEntries(x) == HashEntries(y)
  {
    hide EntryEq, HashEntries, ValueEq;
    MapsEqualByEntry(x, y);
    var p, q := HashEntries(x), HashEntries(y);
    assert |x| == |y| ==> (p == q <==> forall i | 0 <= i < |x| :: p[i] == q[i]);
  }

  lemma {:induction false} RowsEqualExactlyWhenHashedAlike(a: Row, b: Row)
    ensures RowEq(a, b) <==> HashFeeds(a) == HashFeeds(b)
  {
    if |a| == |b| {
      forall i | 0 <= i < |a| ensures ValueEq(a[i], b[i]) <==> HashFeeds(a)[i] == HashFeeds(b)[i] {
        EqualExactlyWhenHashedAlike(a[i], b[i]);
      }
    }
  }

  predicate IsInteger(v: Value) {
    || v.I8? || v.I16? || v.I32? || v.I64? || v.I128?
    || v.U8? || v.U16? || v.U32? || v.U64? || v.U128?
  }

  /** The number that an integer of any width denotes. */
  function IntegerOf(v: Value): int
    requires IsInteger(v)
  {
    match v
    case I8(x) => x
    case I16(x) => x
    case I32(x) => x
    case I64(x) => x
    case I128(x) => x
    case U8(x) => x
    case U16(x) => x
    case U32(x) => x
    case U64(x) => x
    case U128(x) => x
  }

  const I64_LIMIT := 0x8000_0000_0000_0000
  const I128_LIMIT := 0x8000_0000_0000_0000_0000_0000_0000_0000

  function Pow10(n: nat): (r: nat)
    ensures r > 0
  {
    if n == 0 then 1 else 10 * Pow10(n - 1)
  }

  /** The timestamp is midnight of the date. */
  predicate Midnight(date: i32, timestamp: Timestamp) {
    timestamp == Timestamp.Timestamp(date, Time.Time(0, 0))
  }

  /** `evaluate_eq`.  Integers of all widths compare as numbers.  A float on the left, and an integer
    on the left of anything that is neither an integer nor a boolean, is compared by converting or
    approximate arithmetic of foreign libraries; `approx` stands for it. */
  function EvaluateEq(approx: (Value, Value) -> bool, a: Value, b: Value): Tribool {
    if a.Null? || b.Null? then Tribool.Null
    else if IsInteger(a) then
      ToTribool(if IsInteger(b) then IntegerOf(a) == IntegerOf(b) else !b.Bool? && approx(a, b))
    else if a.F32? || a.F64? then ToTribool(approx(a, b))
    else if a.Date? && b.Timestamp? then ToTribool(Midnight(a.date, b.timestamp))
    else if a.Timestamp? && b.Date? then ToTribool(Midnight(b.date, a.timestamp))
    else ToTribool(ValueEq(a, b))
  }

  /** The hash map of the hash join and the set of a unique constraint compare keys with this: the
    derived equality, in which floats compare as `OrderedFloat`. */
  predicate KeyEq(a: Key, b: Key) {
    match (a, b)
    case (F32(x), F32(y)) => Eq32(x, y)
    case (F64(x), F64(y)) => Eq64(x, y)
    case _ => a == b
  }

  function Canonical(k: Key): (r: Key)
    ensures r.None? <==> k.None?
  {
    match k
    case F32(x) => Key.F32(HashBits32(x))
    case F64(x) => Key.F64(HashBits64(x))
    case _ => k
  }

  /** Equal keys are keys of one type. */
  lemma KeyEqOfOneType(a: Key, b: Key)
    requires KeyEq(a, b)
    ensures GetType(FromKey(a)) == GetType(FromKey(b))
  {
    if !(a.F32? && b.F32?) && !(a.F64? && b.F64?) {
      hide FromKey, GetType;
      assert a == b;
    }
  }

  lemma KeyEqCanonical(a: Key, b: Key)
    ensures KeyEq(a, b) <==> Canonical(a) == Canonical(b)
  {
  }

  // ----- values of one type -----

  lemma PlainValuesEqual(a: Value, b: Value)
    requires ToKey(a).Ok? && !a.F32? && !a.F64?
    ensures ValueEq(a, b) <==> a == b
  {
  }

  lemma NumbersOfOneType(a: Value, b: Value)
    requires GetType(a) == GetType(b) && IsInteger(a)
    ensures IsInteger(b) && (IntegerOf(a) == IntegerOf(b) <==> a == b)
  {
  }

  /** Keys of one type other than a float are equal for SQL exactly when they are the same value. */
  lemma OneTypeEq(approx: (Value, Value) -> bool, a: Value, b: Value)
    requires ToKey(a).Ok? && GetType(a) == GetType(b) && !a.Null? && !a.F32? && !a.F64?
    ensures EvaluateEq(approx, a, b) == ToTribool(a == b)
  {
    hide ToKey, ValueEq, GetType, IntegerOf;
    NullHasNoType(a);
    NullHasNoType(b);
    PlainValuesEqual(a, b);
    if IsInteger(a) {
      NumbersOfOneType(a, b);
    } else {
      DatesOfOneType(a, b);
    }
  }

  lemma DatesOfOneType(a: Value, b: Value)
    requires GetType(a) == GetType(b)
    ensures !(a.Date? && b.Timestamp?) && !(a.Timestamp? && b.Date?)
  {
  }
}

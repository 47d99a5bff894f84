/** Literals and what they become (core/src/executor/evaluate/evaluated/eq.rs,
  core/src/executor/evaluate/evaluated/convert/number.rs and text.rs, core/src/executor/evaluate/evaluated.rs,
  core/src/data/bigdecimal_ext.rs).

  A literal keeps its digits or its text until it meets a type.  Three dispatches of the engine decide
  then what it stands for: comparison with a value, conversion to the type of a column, and conversion
  without any type. */
module Literals {
  import opened Data

  /** A number is its digits and the number of them after the point, as written: 1 is not written as 1.0. */
  datatype Literal = Number(digits: int, scale: int) | Text(text: seq<u8>)

  /** What is left to foreign libraries: rounding a number to a float or a decimal, and reading text.
    `looseDate` reads the further forms of `parse_date`; `document` reads MAP, LIST and POINT. */
  datatype Parsing = Parsing(
    f32: Literal -> Option<u32>,
    f64: Literal -> Option<u64>,
    decimal: Literal -> Option<real>,
    isoDate: seq<u8> -> Option<i32>,
    looseDate: seq<u8> -> Option<i32>,
    timestamp: seq<u8> -> Option<Timestamp>,
    time: seq<u8> -> Option<Time>,
    uuid: seq<u8> -> Option<u128>,
    inet: seq<u8> -> Option<Inet>,
    interval: seq<u8> -> Option<Interval>,
    hex: seq<u8> -> Option<seq<u8>>,
    document: (DataType, seq<u8>) -> Option<Value>,
    uuidOfBytes: seq<u8> -> Option<u128>)

  function OrFail(v: Option<Value>): Result<Value> {
    if v.Some? then Ok(v.value) else Err(Error("literal does not convert"))
  }

  // ----- numbers -----

  /** `==` of big decimals: as numbers, however written. */
  predicate SameNumber(a: Literal, b: Literal)
    requires a.Number? && b.Number?
  {
    if a.scale <= b.scale then a.digits * Pow10(b.scale - a.scale) == b.digits
    else a.digits == b.digits * Pow10(a.scale - b.scale)
  }

  /** The integer of that width, if it holds the number. */
  function IntegerOfType(t: DataType, n: int): (r: Option<Value>)
    ensures r.Some? ==> IsInteger(r.value) && IntegerOf(r.value) == n && GetType(r.value) == Some(t)
  {
    match t
    case Int8 => if -0x80 <= n < 0x80 then Some(Value.I8(n)) else Option.None
    case Int16 => if -0x8000 <= n < 0x8000 then Some(Value.I16(n)) else Option.None
    case Int32 => if -0x8000_0000 <= n < 0x8000_0000 then Some(Value.I32(n)) else Option.None
    case Int => if -I64_LIMIT <= n < I64_LIMIT then Some(Value.I64(n)) else Option.None
    case Int128 => if -I128_LIMIT <= n < I128_LIMIT then Some(Value.I128(n)) else Option.None
    case Uint8 => if 0 <= n < 0x100 then Some(Value.U8(n)) else Option.None
    case Uint16 => if 0 <= n < 0x1_0000 then Some(Value.U16(n)) else Option.None
    case Uint32 => if 0 <= n < 0x1_0000_0000 then Some(Value.U32(n)) else Option.None
    case Uint64 => if 0 <= n < 2 * I64_LIMIT then Some(Value.U64(n)) else Option.None
    case Uint128 => if 0 <= n < 2 * I128_LIMIT then Some(Value.U128(n)) else Option.None
    case _ => Option.None
  }

  /** `to_i8` to `to_u128`: only of numbers written without a point or an exponent. */
  function ToInteger(t: DataType, l: Literal): Option<Value> {
    if l.Number? && l.scale == 0 then IntegerOfType(t, l.digits) else Option.None
  }

  /** The address with that number: IPv4 if it fits, else IPv6. */
  function NumberToInet(l: Literal): Option<Value> {
    var v4, v6 := ToInteger(Uint32, l), ToInteger(Uint128, l);
    if v4.Some? then Some(Value.Inet(V4(v4.value.u32)))
    else if v6.Some? then Some(Value.Inet(V6(v6.value.u128)))
    else Option.None
  }

  // ----- comparison with a value -----

  /** `==` of floats: NaN equals nothing. */
  predicate Ieee32(a: u32, b: u32) { !NaN32(a) && Eq32(a, b) }
  predicate Ieee64(a: u64, b: u64) { !NaN64(a) && Eq64(a, b) }

  /** `value_eq_with_literal`. */
  function ValueEqLiteral(p: Parsing, v: Value, l: Literal): Tribool {
    if v.Null? then Tribool.Null
    else ToTribool(
      match l
      case Number(_, _) =>
        if IsInteger(v) then ToInteger(GetType(v).value, l) == Some(v)
        else if v.F32? then p.f32(l).Some? && Ieee32(v.f32, p.f32(l).value)
        else if v.F64? then p.f64(l).Some? && Ieee64(v.f64, p.f64(l).value)
        else v.Inet? && NumberToInet(l) == Some(v)
      case Text(text) =>
        match v
        case Str(s) => s == text
        case Date(d) => p.isoDate(text) == Some(d)
        case Timestamp(s) => p.timestamp(text) == Some(s)
        case Time(s) => p.time(text) == Some(s)
        case Uuid(u) => p.uuid(text) == Some(u)
        case Inet(i) => p.inet(text) == Some(i)
        case _ => false)
  }

  predicate SameLiteral(a: Literal, b: Literal) {
    match (a, b)
    case (Number(_, _), Number(_, _)) => SameNumber(a, b)
    case (Text(s), Text(t)) => s == t
    case _ => false
  }

  // ----- conversion to the type of a column -----

  /** `parse_date`: the ISO form first. */
  function ParseDate(p: Parsing, text: seq<u8>): Option<i32> {
    if p.isoDate(text).Some? then p.isoDate(text) else p.looseDate(text)
  }

  /** `number_to_value`. */
  function NumberToValue(p: Parsing, t: DataType, l: Literal): Option<Value>
    requires l.Number?
  {
    match t
    case Float32 => if p.f32(l).Some? then Some(Value.F32(p.f32(l).value)) else Option.None
    case Float => if p.f64(l).Some? then Some(Value.F64(p.f64(l).value)) else Option.None
    case DecimalType => if p.decimal(l).Some? then Some(Value.Decimal(p.decimal(l).value)) else Option.None
    case InetType => NumberToInet(l)
    case _ => ToInteger(t, l)
  }

  /** `text_to_value`. */
  function TextToValue(p: Parsing, t: DataType, text: seq<u8>): Option<Value> {
    match t
    case Text => Some(Value.Str(text))
    case ByteaType => if p.hex(text).Some? then Some(Value.Bytea(p.hex(text).value)) else Option.None
    case InetType => if p.inet(text).Some? then Some(Value.Inet(p.inet(text).value)) else Option.None
    case IntervalType => if p.interval(text).Some? then Some(Value.Interval(p.interval(text).value)) else Option.None
    case DateType => if ParseDate(p, text).Some? then Some(Value.Date(ParseDate(p, text).value)) else Option.None
    case TimestampType =>
      if p.timestamp(text).Some? then Some(Value.Timestamp(p.timestamp(text).value)) else Option.None
    case TimeType => if p.time(text).Some? then Some(Value.Time(p.time(text).value)) else Option.None
    case UuidType => if p.uuid(text).Some? then Some(Value.Uuid(p.uuid(text).value)) else Option.None
    case MapType => p.document(t, text)
    case ListType => p.document(t, text)
    case PointType => p.document(t, text)
    case _ => Option.None
  }

  function LiteralOfType(p: Parsing, t: DataType, l: Literal): Option<Value> {
    match l
    case Number(_, _) => NumberToValue(p, t, l)
    case Text(text) => TextToValue(p, t, text)
  }

  // ----- conversion without a type -----

  predicate Finite64(bits: u64) { Magnitude(bits, F64_SIGN) < F64_INFINITY }

  /** `Value::try_from`: an INT if it is one, else a finite FLOAT; text is TEXT. */
  function LiteralValue(p: Parsing, l: Literal): Result<Value> {
    match l
    case Number(_, _) =>
      var n := ToInteger(Int, l);
      if n.Some? then Ok(n.value)
      else if p.f64(l).Some? && Finite64(p.f64(l).value) then Ok(Value.F64(p.f64(l).value))
      else OrFail(Option.None)
    case Text(text) => Ok(Value.Str(text))
  }
}

/** What literals denote: exactly which values a literal stands for in a column of a type, and without any
  type (core/src/executor/evaluate/evaluated/convert/number.rs and text.rs, core/src/executor/evaluate/evaluated.rs). */
module LiteralMeaning {
  import opened Data
  import opened Literals
  import opened Numbers

  // ----- numbers -----

  /** The number that the digits denote. */
  ghost function Denoted(l: Literal): real
    requires l.Number?
  {
    if l.scale >= 0 then l.digits as real / Pow10(l.scale) as real else (l.digits * Pow10(-l.scale)) as real
  }

  /** In units small enough for all its digits, a literal is an integer. */
  lemma DenotedInUnits(l: Literal, n: nat)
    requires l.Number? && l.scale <= n
    ensures Denoted(l) * Pow10(n) as real == (l.digits * Pow10(n - l.scale)) as real
  {
    hide Pow10;
    if l.scale >= 0 { FractionInUnits(l.digits, l.scale, n); } else { WholeInUnits(l.digits, -l.scale, n); }
  }

  lemma ScaledAlike(a: Literal, b: Literal, n: nat)
    requires a.Number? && b.Number? && a.scale <= b.scale <= n
    ensures a.digits * Pow10(n - a.scale) == b.digits * Pow10(n - b.scale) <==>
              a.digits * Pow10(b.scale - a.scale) == b.digits
  {
    hide Pow10;
    Pow10Add(b.scale - a.scale, n - b.scale);
    ReassociateIntegers(a.digits, Pow10(b.scale - a.scale), Pow10(n - b.scale));
    SameIntegerProduct(a.digits * Pow10(b.scale - a.scale), b.digits, Pow10(n - b.scale));
  }

  lemma IntegersAsReals(x: int, y: int)
    ensures x as real == y as real <==> x == y
  {
  }

  lemma DenoteOneNumber(a: Literal, b: Literal, n: nat)
    requires a.Number? && b.Number? && a.scale <= b.scale <= n
    ensures a.digits * Pow10(b.scale - a.scale) == b.digits <==> Denoted(a) == Denoted(b)
  {
    hide Denoted, Pow10;
    var x, y := a.digits * Pow10(n - a.scale), b.digits * Pow10(n - b.scale);
    DenotedInUnits(a, n);
    DenotedInUnits(b, n);
    SameProduct(Denoted(a), Denoted(b), Pow10(n) as real);
    IntegersAsReals(x, y);
    ScaledAlike(a, b, n);
  }

  /** Two numbers are equal exactly when they denote one number, however they are written. */
  lemma SameNumberExactlyWhen(a: Literal, b: Literal)
    requires a.Number? && b.Number?
    ensures SameLiteral(a, b) <==> Denoted(a) == Denoted(b)
  {
    hide Denoted, Pow10;
    if a.scale <= b.scale {
      DenoteOneNumber(a, b, if b.scale < 0 then 0 else b.scale);
    } else {
      DenoteOneNumber(b, a, if a.scale < 0 then 0 else a.scale);
    }
  }

  // ----- conversion -----

  lemma IntegerOfTypeExactlyWhen(t: DataType, n: int, v: Value)
    ensures IntegerOfType(t, n) == Some(v) <==> IsInteger(v) && IntegerOf(v) == n && GetType(v) == Some(t)
  {
  }

  predicate IsDocument(t: DataType) { t == MapType || t == ListType || t == PointType }

  /** The value that the literal stands for in a column of the type. */
  ghost predicate StandsFor(p: Parsing, l: Literal, t: DataType, v: Value) {
    if IsDocument(t) then l.Text? && p.document(t, l.text) == Some(v)
    else if IsInteger(v) then GetType(v) == Some(t) && l == Number(IntegerOf(v), 0)
    else match v
      case F32(bits) => t == Float32 && l.Number? && p.f32(l) == Some(bits)
      case F64(bits) => t == Float && l.Number? && p.f64(l) == Some(bits)
      case Decimal(d) => t == DecimalType && l.Number? && p.decimal(l) == Some(d)
      case Inet(V4(n)) => t == InetType && (l == Number(n, 0) || (l.Text? && p.inet(l.text) == Some(V4(n))))
      case Inet(V6(n)) =>
        t == InetType && ((l == Number(n, 0) && n >= 0x1_0000_0000) || (l.Text? && p.inet(l.text) == Some(V6(n))))
      case Str(text) => t == DataType.Text && l == Literal.Text(text)
      case Bytea(bytes) => t == ByteaType && l.Text? && p.hex(l.text) == Some(bytes)
      case Uuid(u) => t == UuidType && l.Text? && p.uuid(l.text) == Some(u)
      case Time(s) => t == TimeType && l.Text? && p.time(l.text) == Some(s)
      case Timestamp(s) => t == TimestampType && l.Text? && p.timestamp(l.text) == Some(s)
      case Interval(i) => t == IntervalType && l.Text? && p.interval(l.text) == Some(i)
      case Date(d) =>
        t == DateType && l.Text? &&
        (p.isoDate(l.text) == Some(d) || (p.isoDate(l.text).None? && p.looseDate(l.text) == Some(d)))
      case _ => false
  }

  lemma NumberToInetExactlyWhen(l: Literal, v: Value)
    ensures NumberToInet(l) == Some(v) <==>
              v.Inet? && if v.inet.V4? then l == Number(v.inet.v4, 0)
                         else l == Number(v.inet.v6, 0) && v.inet.v6 >= 0x1_0000_0000
  {
  }

  lemma NumberConvertsExactlyWhen(p: Parsing, t: DataType, l: Literal, v: Value)
    requires l.Number?
    ensures NumberToValue(p, t, l) == Some(v) <==> StandsFor(p, l, t, v)
  {
    hide NumberToInet, IntegerOfType;
    NumberToInetExactlyWhen(l, v);
    IntegerOfTypeExactlyWhen(t, l.digits, v);
  }

  lemma TextConvertsExactlyWhen(p: Parsing, t: DataType, l: Literal, v: Value)
    requires l.Text?
    ensures TextToValue(p, t, l.text) == Some(v) <==> StandsFor(p, l, t, v)
  {
  }

  /** A literal converts to the type of a column exactly when it stands for a value of it, and gives that
    value. */
  lemma LiteralConvertsExactlyWhen(p: Parsing, t: DataType, l: Literal, v: Value)
    ensures LiteralOfType(p, t, l) == Some(v) <==> StandsFor(p, l, t, v)
  {
    hide StandsFor, NumberToValue, TextToValue;
    if l.Number? { NumberConvertsExactlyWhen(p, t, l, v); } else { TextConvertsExactlyWhen(p, t, l, v); }
  }

  /** Without a type, a number is an INT if it is written as one and fits, else a finite FLOAT; text is
    TEXT. */
  ghost predicate ReadAs(p: Parsing, l: Literal, v: Value) {
    || (v.I64? && l == Number(v.i64, 0))
    || (v.Str? && l == Literal.Text(v.str))
    || (v.F64? && l.Number? && p.f64(l) == Some(v.f64)
        && !(l.scale == 0 && -0x8000_0000_0000_0000 <= l.digits < 0x8000_0000_0000_0000)
        && (v.f64 < 0x7ff0_0000_0000_0000 || 0x8000_0000_0000_0000 <= v.f64 < 0xfff0_0000_0000_0000))
  }

  lemma UntypedLiteralExactlyWhen(p: Parsing, l: Literal, v: Value)
    ensures LiteralValue(p, l) == Ok(v) <==> ReadAs(p, l, v)
  {
  }

  /** Comparing a value with a literal: where the literal stands for at most one value of its type, the two
    are equal exactly when it stands for that one. */
  lemma LiteralEqualsExactlyWhen(p: Parsing, l: Literal, v: Value)
    requires IsInteger(v) || v.Str? || v.Inet? || v.Timestamp? || v.Time? || v.Uuid?
    ensures ValueEqLiteral(p, v, l) == ToTribool(StandsFor(p, l, GetType(v).value, v))
  {
    hide NumberToInet, IntegerOfType;
    NumberToInetExactlyWhen(l, v);
    if l.Number? { IntegerOfTypeExactlyWhen(GetType(v).value, l.digits, v); }
  }

  /** The other types: NULL compares as NULL, a date is read in the ISO form only, a float is compared as
    IEEE 754 has it, and all else equals no literal. */
  lemma LiteralComparesExactlyWhen(p: Parsing, l: Literal, v: Value)
    ensures ValueEqLiteral(p, v, l) == Tribool.Null <==> v.Null?
    ensures v.Date? ==> (ValueEqLiteral(p, v, l) == Tribool.True <==> l.Text? && p.isoDate(l.text) == Some(v.date))
    ensures v.F64? ==> (ValueEqLiteral(p, v, l) == Tribool.True <==>
              l.Number? && p.f64(l).Some? && !NaN64(v.f64) && ValueEq(v, Value.F64(p.f64(l).value)))
    ensures v.F32? ==> (ValueEqLiteral(p, v, l) == Tribool.True <==>
              l.Number? && p.f32(l).Some? && !NaN32(v.f32) && ValueEq(v, Value.F32(p.f32(l).value)))
    ensures v.Bool? || v.Decimal? || v.Bytea? || v.Interval? || v.Map? || v.List? || v.Point? ==>
              ValueEqLiteral(p, v, l) == Tribool.False
  {
    hide NumberToInet, IntegerOfType;
  }
}

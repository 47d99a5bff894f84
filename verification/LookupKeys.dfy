/** What a primary-key lookup looks for and what a scan compares with.  The lookup converts a literal to
  the type of the column (core/src/executor/evaluate/evaluated/convert/number.rs and text.rs); the scan
  compares with it unconverted (core/src/executor/evaluate/evaluated/eq.rs).  The two do not cover the
  same types. */
module LookupKeys {
  import opened Data
  import opened Literals
  import opened Expressions
  import opened JoinFacts

  /** Comparing a value of the type with `ev` means comparing it with `v`. */
  ghost predicate ComparesAs(sem: Semantics, ev: Evaluated, v: Value, dataType: DataType) {
    forall a: Value | GetType(a) == Some(dataType) ::
      && (EvalEq(sem, Val(a), ev) == TRUE <==> a == v)
      && (EvalEq(sem, ev, Val(a)) == TRUE <==> a == v)
  }

  // ----- values -----

  /** True of every value that is itself a key of that type. */
  lemma SameTypeComparesAs(sem: Semantics, v: Value, dataType: DataType)
    requires GetType(v) == Some(dataType) && !IsFloat(dataType) && ToKey(v).Ok?
    ensures ComparesAs(sem, Val(v), v, dataType)
  {
    assert !v.F32? && !v.F64?;
    forall a: Value | GetType(a) == Some(dataType)
      ensures EvalEq(sem, Val(a), Val(v)) == TRUE <==> a == v
      ensures EvalEq(sem, Val(v), Val(a)) == TRUE <==> a == v
    {
      SameTypeEq(sem, a, v);
    }
  }

  lemma SameTypeEq(sem: Semantics, a: Value, v: Value)
    requires GetType(a) == GetType(v) && ToKey(v).Ok? && !v.F32? && !v.F64?
    requires GetType(v).Some?
    ensures EvalEq(sem, Val(a), Val(v)) == TRUE <==> a == v
    ensures EvalEq(sem, Val(v), Val(a)) == TRUE <==> a == v
  {
    hide GetType, ToKey, EvaluateEq;
    NullHasNoType(a);
    NullHasNoType(v);
    OneTypeEq(sem.approx, v, a);
    EqIsSymmetricOnOneType(sem.approx, a, v);
  }

  lemma EqIsSymmetricOnOneType(approx: (Value, Value) -> bool, a: Value, v: Value)
    requires GetType(a) == GetType(v) && ToKey(v).Ok? && !v.Null? && !v.F32? && !v.F64?
    ensures EvaluateEq(approx, a, v) == ToTribool(a == v)
  {
    hide ToKey, GetType, EvaluateEq;
    KeysByType(a, v);
    OneTypeEq(approx, a, v);
  }

  lemma KeysByType(a: Value, v: Value)
    requires GetType(a) == GetType(v) && ToKey(v).Ok? && !v.Null? && !v.F32? && !v.F64?
    ensures ToKey(a).Ok? && !a.Null? && !a.F32? && !a.F64?
  {
  }

  /** Bytes looked up in a UUID column are converted, and equal no UUID when compared. */
  lemma BytesEqualNoUuid(sem: Semantics, v: Value)
    requires v.Bytea?
    ensures ComparesAs(sem, Val(v), Value.Null, UuidType)
  {
  }

  // ----- literals -----

  /** The value of the type that the comparison takes the literal for, if any. */
  function ComparedLiteral(p: Parsing, t: DataType, l: Literal): (r: Option<Value>)
    ensures r.Some? ==> GetType(r.value) == Some(t)
  {
    match l
    case Number(_, _) => if t == InetType then NumberToInet(l) else ToInteger(t, l)
    case Text(text) =>
      match t
      case Text => Some(Value.Str(text))
      case DateType => if p.isoDate(text).Some? then Some(Value.Date(p.isoDate(text).value)) else Option.None
      case TimestampType =>
        if p.timestamp(text).Some? then Some(Value.Timestamp(p.timestamp(text).value)) else Option.None
      case TimeType => if p.time(text).Some? then Some(Value.Time(p.time(text).value)) else Option.None
      case UuidType => if p.uuid(text).Some? then Some(Value.Uuid(p.uuid(text).value)) else Option.None
      case InetType => if p.inet(text).Some? then Some(Value.Inet(p.inet(text).value)) else Option.None
      case _ => Option.None
  }

  lemma LiteralEqualsCompared(p: Parsing, t: DataType, l: Literal, a: Value)
    requires GetType(a) == Some(t) && !IsFloat(t)
    ensures ValueEqLiteral(p, a, l) == Tribool.True <==> ComparedLiteral(p, t, l) == Some(a)
  {
  }

  lemma LiteralComparesAs(sem: Semantics, t: DataType, l: Literal)
    requires !IsFloat(t)
    ensures var r := ComparedLiteral(sem.parsing, t, l);
            ComparesAs(sem, Raw(l), if r.Some? then r.value else Value.Null, t)
  {
    hide ValueEqLiteral, ComparedLiteral, GetType;
    var r := ComparedLiteral(sem.parsing, t, l);
    forall a: Value | GetType(a) == Some(t)
      ensures EvalEq(sem, Val(a), Raw(l)) == TRUE <==> r == Some(a)
      ensures EvalEq(sem, Raw(l), Val(a)) == TRUE <==> r == Some(a)
    {
      NullHasNoType(a);
      LiteralEqualsCompared(sem.parsing, t, l, a);
    }
    NullHasNoType(Value.Null);
  }

  // ----- what is looked up is what is compared with -----

  /** The scan compares with what the lookup looks for.  It has no comparison of a DECIMAL with a number
    nor of a BYTEA or an INTERVAL with text, reads dates in the ISO form only, and does not take bytes
    for a UUID. */
  predicate ComparesConverted(p: Parsing, ev: Evaluated, t: DataType) {
    match ev
    case Raw(Number(_, _)) => t != DecimalType
    case Raw(Text(text)) => t != ByteaType && t != IntervalType && (t == DateType ==> p.isoDate(text).Some?)
    case Slice(_) => true
    case Val(v) => !(v.Bytea? && t == UuidType)
  }

  lemma ConvertedLiteralIsCompared(p: Parsing, t: DataType, l: Literal, v: Value)
    requires !IsFloat(t) && LiteralOfType(p, t, l) == Some(v) && GetType(v) == Some(t) && ToKey(v).Ok?
    ensures ComparedLiteral(p, t, l) == if ComparesConverted(p, Raw(l), t) then Some(v) else Option.None
  {
  }

  lemma ConvertedSliceIsCompared(sem: Semantics, ev: Evaluated, dataType: DataType, v: Value)
    requires ev.Slice? && Converted(sem.parsing, ev, dataType) == Ok(v) && GetType(v) == Some(dataType)
    ensures ComparesAs(sem, ev, v, dataType)
  {
  }

  /** For everything that converts to a key of the column's type: the scan compares with the converted
    value exactly when `ComparesConverted`; otherwise it finds no value of the type equal at all. */
  lemma ScanComparesExactlyWhen(sem: Semantics, ev: Evaluated, dataType: DataType, v: Value)
    requires Converted(sem.parsing, ev, dataType) == Ok(v) && GetType(v) == Some(dataType)
    requires !IsFloat(dataType) && ToKey(v).Ok?
    ensures ComparesAs(sem, ev, v, dataType) <==> ComparesConverted(sem.parsing, ev, dataType)
    ensures ComparesAs(sem, ev, Value.Null, dataType) <==> !ComparesConverted(sem.parsing, ev, dataType)
  {
    NullHasNoType(v);
    OneMeaning(sem, ev, v, dataType);
    hide ComparesAs, ToKey, GetType, ComparedLiteral;
    match ev
    case Raw(l) =>
      ConvertedLiteralIsCompared(sem.parsing, dataType, l, v);
      LiteralComparesAs(sem, dataType, l);
    case Slice(_) => ConvertedSliceIsCompared(sem, ev, dataType, v);
    case Val(w) =>
      if w.Bytea? && dataType == UuidType {
        BytesEqualNoUuid(sem, w);
      } else {
        SameTypeComparesAs(sem, v, dataType);
      }
  }

  /** A value of the type is equal or is not. */
  lemma OneMeaning(sem: Semantics, ev: Evaluated, v: Value, dataType: DataType)
    requires GetType(v) == Some(dataType) && !v.Null?
    ensures !(ComparesAs(sem, ev, v, dataType) && ComparesAs(sem, ev, Value.Null, dataType))
  {
    hide EvalEq;
    if ComparesAs(sem, ev, v, dataType) { assert EvalEq(sem, Val(v), ev) == TRUE; }
  }
}

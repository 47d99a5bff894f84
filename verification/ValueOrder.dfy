/** The order of values (`evaluate_cmp`, core/src/data/value.rs). */
module ValueOrder {
  import opened Data
  import opened KeyOrder
  import opened Literals

  /** Intervals of two kinds are not compared. */
  function IntervalCmp(a: Interval, b: Interval): Option<Ordering> {
    if a.Month? == b.Month? then Some(CompareInterval(a, b)) else Option.None
  }

  /** `evaluate_cmp`.  NULL is compared with nothing.  Integers compare as numbers if the right one fits
    the type of the left one.  `guess` stands for the comparisons that foreign libraries make: of a
    float with anything, and of an integer with what is neither an integer nor a boolean. */
  function EvaluateCmp(guess: (Value, Value) -> Option<Ordering>, a: Value, b: Value): Option<Ordering> {
    if a.Null? || b.Null? then Option.None
    else if IsInteger(a) then
      if IsInteger(b) then
        if IntegerOfType(GetType(a).value, IntegerOf(b)).Some? then Some(CompareInt(IntegerOf(a), IntegerOf(b)))
        else Option.None
      else if b.Bool? then Option.None
      else guess(a, b)
    else if a.F32? || a.F64? then guess(a, b)
    else match (a, b)
      case (Decimal(l), Decimal(r)) => Some(CompareReal(l, r))
      case (Bool(l), Bool(r)) => Some(CompareInt(if l then 1 else 0, if r then 1 else 0))
      case (Str(l), Str(r)) => Some(CompareBytes(l, r))
      case (Bytea(l), Bytea(r)) => Some(CompareBytes(l, r))
      case (Inet(l), Inet(r)) => Some(CompareInet(l, r))
      case (Date(l), Date(r)) => Some(CompareInt(l, r))
      case (Date(l), Timestamp(r)) => Some(CompareTimestamp(Timestamp.Timestamp(l, Time.Time(0, 0)), r))
      case (Timestamp(l), Date(r)) => Some(CompareTimestamp(l, Timestamp.Timestamp(r, Time.Time(0, 0))))
      case (Timestamp(l), Timestamp(r)) => Some(CompareTimestamp(l, r))
      case (Time(l), Time(r)) => Some(CompareTime(l, r))
      case (Interval(l), Interval(r)) => IntervalCmp(l, r)
      case (Uuid(l), Uuid(r)) => Some(CompareInt(l, r))
      case _ => Option.None
  }

  /** Two values of one type that is no float; intervals of one kind. */
  predicate Comparable(a: Value, b: Value, t: DataType) {
    && GetType(a) == GetType(b) == Some(t) && KeyType(t)
    && (a.Interval? && b.Interval? ==> a.interval.Month? == b.interval.Month?)
  }

  lemma IntegersOfOneType(guess: (Value, Value) -> Option<Ordering>, a: Value, b: Value)
    requires IsInteger(a) && GetType(a) == GetType(b)
    ensures IsInteger(b) && EvaluateCmp(guess, a, b) == Some(CompareInt(IntegerOf(a), IntegerOf(b)))
  {
  }

  lemma IntegerKeysOfOneType(a: Value, b: Value)
    requires IsInteger(a) && GetType(a) == GetType(b)
    ensures IsInteger(b) && ToKey(a).Ok? && ToKey(b).Ok?
    ensures Cmp(ToKey(a).value, ToKey(b).value) == CompareInt(IntegerOf(a), IntegerOf(b))
  {
    hide CompareInt;
    match a {
      case I8(_) => assert b.I8?;
      case I16(_) => assert b.I16?;
      case I32(_) => assert b.I32?;
      case I64(_) => assert b.I64?;
      case I128(_) => assert b.I128?;
      case U8(_) => assert b.U8?;
      case U16(_) => assert b.U16?;
      case U32(_) => assert b.U32?;
      case U64(_) => assert b.U64?;
      case U128(_) => assert b.U128?;
    }
  }

  lemma ConstructorByType(v: Value)
    ensures v.Bool? <==> GetType(v) == Some(Boolean)
    ensures v.Decimal? <==> GetType(v) == Some(DecimalType)
    ensures v.Str? <==> GetType(v) == Some(DataType.Text)
    ensures v.Bytea? <==> GetType(v) == Some(ByteaType)
    ensures v.Inet? <==> GetType(v) == Some(InetType)
    ensures v.Date? <==> GetType(v) == Some(DateType)
    ensures v.Timestamp? <==> GetType(v) == Some(TimestampType)
    ensures v.Time? <==> GetType(v) == Some(TimeType)
    ensures v.Interval? <==> GetType(v) == Some(IntervalType)
    ensures v.Uuid? <==> GetType(v) == Some(UuidType)
  {
  }

  lemma TextsCompareAsKeys(guess: (Value, Value) -> Option<Ordering>, a: Value, b: Value)
    requires || (a.Bool? && b.Bool?) || (a.Decimal? && b.Decimal?) || (a.Str? && b.Str?)
             || (a.Bytea? && b.Bytea?) || (a.Inet? && b.Inet?)
    ensures ToKey(a).Ok? && ToKey(b).Ok? && SameVariant(ToKey(a).value, ToKey(b).value)
    ensures EvaluateCmp(guess, a, b) == Some(CmpSame(ToKey(a).value, ToKey(b).value))
  {
    hide CompareInt, CompareReal, CompareBytes, CompareInet;
  }

  lemma TimesCompareAsKeys(guess: (Value, Value) -> Option<Ordering>, a: Value, b: Value)
    requires || (a.Date? && b.Date?) || (a.Timestamp? && b.Timestamp?) || (a.Time? && b.Time?) || (a.Uuid? && b.Uuid?)
             || (a.Interval? && b.Interval? && a.interval.Month? == b.interval.Month?)
    ensures ToKey(a).Ok? && ToKey(b).Ok? && SameVariant(ToKey(a).value, ToKey(b).value)
    ensures EvaluateCmp(guess, a, b) == Some(CmpSame(ToKey(a).value, ToKey(b).value))
  {
    hide CompareInt, CompareTime, CompareTimestamp, CompareInterval;
  }

  lemma OthersCompareAsKeys(guess: (Value, Value) -> Option<Ordering>, a: Value, b: Value, t: DataType)
    requires Comparable(a, b, t) && !IsInteger(a)
    ensures ToKey(a).Ok? && ToKey(b).Ok? && SameVariant(ToKey(a).value, ToKey(b).value)
    ensures EvaluateCmp(guess, a, b) == Some(CmpSame(ToKey(a).value, ToKey(b).value))
  {
    NoFloatOfKeyType(a, t);
    hide ToKey, EvaluateCmp, CmpSame, ToOrder, GetType, KeyType, IsInteger;
    ConstructorByType(a);
    ConstructorByType(b);
    if a.Bool? || a.Decimal? || a.Str? || a.Bytea? || a.Inet? {
      TextsCompareAsKeys(guess, a, b);
    } else {
      TimesCompareAsKeys(guess, a, b);
    }
  }

  lemma NoFloatOfKeyType(v: Value, t: DataType)
    requires GetType(v) == Some(t) && KeyType(t)
    ensures || IsInteger(v) || v.Bool? || v.Decimal? || v.Str? || v.Bytea? || v.Inet? || v.Date? || v.Timestamp?
            || v.Time? || v.Interval? || v.Uuid?
  {
  }

  /** Such values compare as their keys. */
  lemma ComparesAsKeys(guess: (Value, Value) -> Option<Ordering>, a: Value, b: Value, t: DataType)
    requires Comparable(a, b, t)
    ensures ToKey(a).Ok? && ToKey(b).Ok?
    ensures EvaluateCmp(guess, a, b) == Some(Cmp(ToKey(a).value, ToKey(b).value))
  {
    if IsInteger(a) {
      hide EvaluateCmp, ToKey, Cmp, GetType;
      IntegersOfOneType(guess, a, b);
      IntegerKeysOfOneType(a, b);
    } else {
      hide EvaluateCmp, ToKey, CmpSame, ToOrder, GetType, KeyType;
      OthersCompareAsKeys(guess, a, b, t);
    }
  }

  /** On comparable values, `evaluate_cmp` reverses when swapped and is transitive, so it is a total order. */
  lemma CmpOrdersOneType(guess: (Value, Value) -> Option<Ordering>, a: Value, b: Value, d: Value, t: DataType)
    requires Comparable(a, b, t) && Comparable(b, d, t)
    ensures EvaluateCmp(guess, a, b).Some? && EvaluateCmp(guess, b, a) == Some(Reverse(EvaluateCmp(guess, a, b).value))
    ensures EvaluateCmp(guess, a, b) != Some(Greater) && EvaluateCmp(guess, b, d) != Some(Greater) ==>
              EvaluateCmp(guess, a, d) != Some(Greater)
  {
    hide *;
    ComparableChain(a, b, d, t);
    ComparesAsKeys(guess, a, b, t);
    ComparesAsKeys(guess, b, a, t);
    ComparesAsKeys(guess, b, d, t);
    ComparesAsKeys(guess, a, d, t);
    KeysInOrder(ToKey(a).value, ToKey(b).value, ToKey(d).value);
  }

  lemma KeysInOrder(x: Key, y: Key, z: Key)
    ensures Cmp(y, x) == Reverse(Cmp(x, y))
    ensures Cmp(x, y) != Greater && Cmp(y, z) != Greater ==> Cmp(x, z) != Greater
  {
    hide Cmp;
    CmpAntisymmetric(x, y);
    if Le(x, y) && Le(y, z) { CmpTransitive(x, y, z); }
  }

  lemma ComparableChain(a: Value, b: Value, d: Value, t: DataType)
    requires Comparable(a, b, t) && Comparable(b, d, t)
    ensures Comparable(b, a, t) && Comparable(a, d, t)
  {
  }
}

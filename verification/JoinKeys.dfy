/** What a hash join hashes: values of one type and literals.  A literal is hashed as the value it has
  without a type (core/src/executor/evaluate/evaluated.rs) and compared by the type of the other side
  (core/src/executor/evaluate/evaluated/eq.rs). */
module JoinKeys {
  import opened Data
  import opened Literals
  import opened Expressions
  import opened JoinFacts

  // ----- values of one type -----

  /** Values of one type that is not a float always agree with their hashes. */
  lemma OneTypeHashes(sem: Semantics, a: Value, b: Value, t: DataType)
    requires OfType(a, t) && OfType(b, t) && KeyType(t)
    ensures HashAgrees(sem, Val(a), Val(b))
  {
    KeysOfKeyType(a, t);
    KeysOfKeyType(b, t);
    hide ToKey, HashAgrees, GetType;
    HashAgreesExactlyWhen(sem, a, b);
  }

  // ----- a value and a literal -----

  lemma LiteralIsKey(p: Parsing, l: Literal)
    ensures LiteralValue(p, l).Ok? ==> ToKey(LiteralValue(p, l).value).Ok? && !LiteralValue(p, l).value.Null?
  {
  }

  /** When a key and a literal meet in the hash table exactly if SQL calls them equal.  The literal is
    hashed as INT, FLOAT or TEXT; a key of another type that it equals does not meet it. */
  predicate LiteralHashes(p: Parsing, a: Value, l: Literal) {
    match l
    case Number(digits, scale) =>
      if IsInteger(a) then a.I64? || scale != 0 || digits != IntegerOf(a)
      else if a.F32? then p.f32(l).Some? ==> !Ieee32(a.f32, p.f32(l).value)
      else if a.F64? then
        p.f64(l).Some? && Ieee64(a.f64, p.f64(l).value) ==> ToInteger(Int, l).None? && Finite64(p.f64(l).value)
      else a.Inet? ==> NumberToInet(l) != Some(a)
    case Text(text) =>
      match a
      case Date(d) => p.isoDate(text) != Some(d)
      case Timestamp(s) => p.timestamp(text) != Some(s)
      case Time(s) => p.time(text) != Some(s)
      case Uuid(u) => p.uuid(text) != Some(u)
      case Inet(i) => p.inet(text) != Some(i)
      case _ => true
  }

  /** The literal without a type and the key are one key. */
  predicate MeetsLiteral(p: Parsing, a: Value, l: Literal)
    requires ToKey(a).Ok?
  {
    var v := LiteralValue(p, l);
    v.Ok? && ToKey(v.value).Ok? && !a.Null? && KeyEq(ToKey(a).value, ToKey(v.value).value)
  }

  lemma HashAgreesUnfolds(sem: Semantics, a: Value, l: Literal)
    requires ToKey(a).Ok?
    ensures var agrees := (MeetsLiteral(sem.parsing, a, l) <==>
                            ValueEqLiteral(sem.parsing, a, l) == Tribool.True);
            (HashAgrees(sem, Val(a), Raw(l)) <==> agrees) && (HashAgrees(sem, Raw(l), Val(a)) <==> agrees)
  {
    hide ToKey, KeyEq, LiteralValue, Canonical;
    LiteralIsKey(sem.parsing, l);
    NullKey(a);
    var v := LiteralValue(sem.parsing, l);
    if v.Ok? {
      NullKey(v.value);
      KeyEqCanonical(ToKey(a).value, ToKey(v.value).value);
    }
    assert SameKey(sem, Val(a), Raw(l)) <==> MeetsLiteral(sem.parsing, a, l);
    assert SameKey(sem, Raw(l), Val(a)) <==> MeetsLiteral(sem.parsing, a, l);
    hide SameKey, MeetsLiteral, ValueEqLiteral;
    assert EvalEq(sem, Val(a), Raw(l)) == TRUE <==> !a.Null? && ValueEqLiteral(sem.parsing, a, l) == Tribool.True;
    assert EvalEq(sem, Raw(l), Val(a)) == TRUE <==> !a.Null? && ValueEqLiteral(sem.parsing, a, l) == Tribool.True;
    NullEqualsNoLiteral(sem.parsing, l);
  }

  lemma NullEqualsNoLiteral(p: Parsing, l: Literal)
    ensures ValueEqLiteral(p, Value.Null, l) == Tribool.Null
  {
  }

  lemma IntegerFitsItsType(a: Value, n: int)
    requires IsInteger(a)
    ensures GetType(a).Some? && (IntegerOfType(GetType(a).value, n) == Some(a) <==> n == IntegerOf(a))
  {
  }

  lemma NumberMeets(p: Parsing, a: Value, l: Literal)
    requires l.Number? && ToKey(a).Ok? && !a.Null?
    ensures (MeetsLiteral(p, a, l) <==> ValueEqLiteral(p, a, l) == Tribool.True) <==> LiteralHashes(p, a, l)
  {
    if IsInteger(a) {
      hide IntegerOfType, IntegerOf, GetType;
      IntegerFitsItsType(a, l.digits);
      IntegersMeet(p, a, l);
    } else if a.F32? || a.F64? {
    } else {
      OthersMeetNoNumber(p, a, l);
      hide MeetsLiteral;
    }
  }

  lemma IntegersMeet(p: Parsing, a: Value, l: Literal)
    requires l.Number? && IsInteger(a)
    ensures ToKey(a).Ok? && (MeetsLiteral(p, a, l) <==> a.I64? && l.scale == 0 && l.digits == a.i64)
  {
  }

  lemma OthersMeetNoNumber(p: Parsing, a: Value, l: Literal)
    requires l.Number? && ToKey(a).Ok? && !IsInteger(a) && !a.F32? && !a.F64?
    ensures !MeetsLiteral(p, a, l)
  {
  }

  lemma TextMeets(p: Parsing, a: Value, l: Literal)
    requires l.Text? && ToKey(a).Ok? && !a.Null?
    ensures (MeetsLiteral(p, a, l) <==> ValueEqLiteral(p, a, l) == Tribool.True) <==> LiteralHashes(p, a, l)
  {
    TextMeetsText(p, a, l);
    hide MeetsLiteral;
  }

  lemma TextMeetsText(p: Parsing, a: Value, l: Literal)
    requires l.Text? && ToKey(a).Ok? && !a.Null?
    ensures MeetsLiteral(p, a, l) <==> a == Value.Str(l.text)
  {
  }

  lemma NullHashes(p: Parsing, l: Literal)
    ensures LiteralHashes(p, Value.Null, l)
  {
  }

  /** For every key and every literal, whichever is the build side: hashing agrees with `=` exactly
    when `LiteralHashes` says so. */
  lemma LiteralAgreesExactlyWhen(sem: Semantics, a: Value, l: Literal)
    requires ToKey(a).Ok?
    ensures HashAgrees(sem, Val(a), Raw(l)) <==> LiteralHashes(sem.parsing, a, l)
    ensures HashAgrees(sem, Raw(l), Val(a)) <==> LiteralHashes(sem.parsing, a, l)
  {
    hide HashAgrees, MeetsLiteral, ValueEqLiteral, LiteralHashes, ToKey;
    HashAgreesUnfolds(sem, a, l);
    if a.Null? {
      NullHashes(sem.parsing, l);
      NullEqualsNoLiteral(sem.parsing, l);
      NullMeetsNothing(sem.parsing, l);
    } else if l.Number? {
      NumberMeets(sem.parsing, a, l);
    } else {
      TextMeets(sem.parsing, a, l);
    }
  }

  lemma NullMeetsNothing(p: Parsing, l: Literal)
    ensures ToKey(Value.Null).Ok? && !MeetsLiteral(p, Value.Null, l)
  {
  }

  // ----- a column and a literal -----

  /** Hashing agrees on all values of the type: the literal is hashed as a value of it, or equals none. */
  predicate LiteralKept(p: Parsing, t: DataType, l: Literal) {
    match l
    case Number(_, _) =>
      if t == Int then true
      else if t == InetType then NumberToInet(l).None?
      else ToInteger(t, l).None?
    case Text(text) =>
      match t
      case DateType => p.isoDate(text).None?
      case TimestampType => p.timestamp(text).None?
      case TimeType => p.time(text).None?
      case UuidType => p.uuid(text).None?
      case InetType => p.inet(text).None?
      case _ => true
  }

  /** The value of the type that the literal equals, where hashing misses it. */
  function Missed(p: Parsing, t: DataType, l: Literal): (v: Value)
    requires KeyType(t) && !LiteralKept(p, t, l)
    ensures GetType(v) == Some(t) && ToKey(v).Ok? && !LiteralHashes(p, v, l)
    ensures ValueEqLiteral(p, v, l) == Tribool.True
  {
    match l
    case Number(_, _) =>
      if t == InetType then NumberToInet(l).value
      else
        IntegersAreKeys(ToInteger(t, l).value);
        IntegerFitsItsType(ToInteger(t, l).value, l.digits);
        ToInteger(t, l).value
    case Text(text) =>
      match t
      case DateType => Value.Date(p.isoDate(text).value)
      case TimestampType => Value.Timestamp(p.timestamp(text).value)
      case TimeType => Value.Time(p.time(text).value)
      case UuidType => Value.Uuid(p.uuid(text).value)
      case InetType => Value.Inet(p.inet(text).value)
  }

  lemma KeptHashes(p: Parsing, t: DataType, l: Literal, a: Value)
    requires KeyType(t) && LiteralKept(p, t, l) && OfType(a, t)
    ensures LiteralHashes(p, a, l)
  {
    if IsInteger(a) {
      hide IntegerOfType;
      IntegerFitsItsType(a, if l.Number? then l.digits else 0);
    }
  }

  /** For every type of a column that is no float and every literal: hashing agrees with `=` on all
    values of the column exactly when the literal is kept. */
  lemma ColumnAgreesExactlyWhenKept(sem: Semantics, t: DataType, l: Literal)
    requires KeyType(t)
    ensures (forall a | OfType(a, t) :: HashAgrees(sem, Val(a), Raw(l))) <==> LiteralKept(sem.parsing, t, l)
  {
    hide HashAgrees, LiteralHashes, ToKey, KeyType, GetType;
    if LiteralKept(sem.parsing, t, l) {
      forall a | OfType(a, t) ensures HashAgrees(sem, Val(a), Raw(l)) {
        KeysOfKeyType(a, t);
        KeptHashes(sem.parsing, t, l, a);
        LiteralAgreesExactlyWhen(sem, a, l);
      }
    } else {
      var a := Missed(sem.parsing, t, l);
      LiteralAgreesExactlyWhen(sem, a, l);
      assert OfType(a, t);
    }
  }

  // ----- two literals -----

  /** Two literals meet in the hash table exactly if they are equal: an INT is hashed as INT, any other
    number as the FLOAT it rounds to. */
  predicate LiteralPairHashes(p: Parsing, a: Literal, b: Literal) {
    if !(a.Number? && b.Number?) then true
    else
      var i, j := ToInteger(Int, a).Some?, ToInteger(Int, b).Some?;
      if i && j then true
      else if i || j then !SameNumber(a, b)
      else
        SameNumber(a, b) <==>
          && p.f64(a).Some? && p.f64(b).Some? && Finite64(p.f64(a).value) && Finite64(p.f64(b).value)
          && Eq64(p.f64(a).value, p.f64(b).value)
  }

  lemma IntegersSameNumber(a: Literal, b: Literal)
    requires a.Number? && b.Number? && a.scale == b.scale
    ensures SameNumber(a, b) <==> a.digits == b.digits
  {
  }

  lemma SameNumberSymmetric(a: Literal, b: Literal)
    requires a.Number? && b.Number?
    ensures SameNumber(a, b) <==> SameNumber(b, a)
  {
    hide Pow10;
    if a.scale == b.scale {
      IntegersSameNumber(a, b);
      IntegersSameNumber(b, a);
    }
  }

  lemma LiteralsAgreeExactlyWhen(sem: Semantics, a: Literal, b: Literal)
    ensures HashAgrees(sem, Raw(a), Raw(b)) <==> LiteralPairHashes(sem.parsing, a, b)
  {
    if a.Number? && b.Number? {
      hide SameNumber, SameKey, ToInteger, Finite64, Eq64;
      SameNumberSymmetric(a, b);
      NumbersMeet(sem, a, b);
      IntegersMeetExactlyWhenSame(a, b);
    } else {
      TextsMeet(sem, a, b);
      hide SameKey;
    }
  }

  lemma IntegersMeetExactlyWhenSame(a: Literal, b: Literal)
    requires a.Number? && b.Number?
    ensures ToInteger(Int, a).Some? && ToInteger(Int, b).Some? ==>
              (ToInteger(Int, a) == ToInteger(Int, b) <==> SameNumber(a, b))
  {
    hide SameNumber;
    if a.scale == b.scale { IntegersSameNumber(a, b); }
  }

  lemma TextsMeet(sem: Semantics, a: Literal, b: Literal)
    requires !(a.Number? && b.Number?)
    ensures SameKey(sem, Raw(a), Raw(b)) <==> SameLiteral(a, b)
    ensures SameLiteral(a, b) <==> SameLiteral(b, a)
  {
  }

  lemma NumbersMeet(sem: Semantics, a: Literal, b: Literal)
    requires a.Number? && b.Number?
    ensures SameKey(sem, Raw(a), Raw(b)) <==>
              var i, j, p := ToInteger(Int, a), ToInteger(Int, b), sem.parsing;
              if i.Some? || j.Some? then i == j
              else
                && p.f64(a).Some? && p.f64(b).Some? && Finite64(p.f64(a).value) && Finite64(p.f64(b).value)
                && Eq64(p.f64(a).value, p.f64(b).value)
  {
  }

  // ----- everything that has one type -----

  /** The value, or what the literal is hashed as, is NULL or of the type. */
  predicate HashedAs(p: Parsing, v: Evaluated, t: DataType) {
    AsValue(p, v).Ok? && OfType(AsValue(p, v).value, t)
  }

  lemma SlicesHashAsText(sem: Semantics, a: Evaluated, b: Evaluated)
    ensures HashAgrees(sem, a, b) <==> HashAgrees(sem, Unsliced(a), Unsliced(b))
  {
    hide EvaluateEq, ValueEqLiteral, ToKey, Canonical, SameLiteral;
    assert AsKey(sem, a) == AsKey(sem, Unsliced(a)) && AsKey(sem, b) == AsKey(sem, Unsliced(b));
    assert IsNull(a) <==> IsNull(Unsliced(a));
    assert IsNull(b) <==> IsNull(Unsliced(b));
  }

  lemma TypedLiteral(p: Parsing, l: Literal, t: DataType)
    requires KeyType(t) && HashedAs(p, Raw(l), t)
    ensures LiteralKept(p, t, l)
    ensures l.Number? ==> ToInteger(Int, l).Some?
  {
  }

  /** Values and literals that are hashed as one type other than a float agree with their hashes. */
  lemma OneTypeAgrees(sem: Semantics, a: Evaluated, b: Evaluated, t: DataType)
    requires KeyType(t) && HashedAs(sem.parsing, a, t) && HashedAs(sem.parsing, b, t)
    ensures HashAgrees(sem, a, b)
  {
    hide HashAgrees, KeyType, OfType, ToKey, LiteralKept, LiteralHashes;
    SlicesHashAsText(sem, a, b);
    var x, y := Unsliced(a), Unsliced(b);
    if x.Raw? { TypedLiteral(sem.parsing, x.literal, t); }
    if y.Raw? { TypedLiteral(sem.parsing, y.literal, t); }
    if x.Val? && y.Val? {
      OneTypeHashes(sem, x.value, y.value, t);
    } else if x.Val? {
      KeysOfKeyType(x.value, t);
      KeptHashes(sem.parsing, t, y.literal, x.value);
      LiteralAgreesExactlyWhen(sem, x.value, y.literal);
    } else if y.Val? {
      KeysOfKeyType(y.value, t);
      KeptHashes(sem.parsing, t, x.literal, y.value);
      LiteralAgreesExactlyWhen(sem, y.value, x.literal);
    } else {
      LiteralsAgreeExactlyWhen(sem, x.literal, y.literal);
    }
  }
}

/** What AND, `=` and conversion to a column compute, without their definitions
  (core/src/executor/evaluate.rs, core/src/executor/evaluate/evaluated.rs, core/src/data/value.rs). */
module ExpressionMeaning {
  import opened Data
  import opened Literals
  import opened LiteralMeaning
  import opened Expressions
  import opened KeyOrder
  import opened ValueOrder

  const NULL := Val(Value.Null)

  ghost predicate IsTruth(v: Result<Evaluated>) { v == Ok(Val(Value.Bool(true))) || v == Ok(Val(Value.Bool(false))) }

  /** AND is NULL as soon as one side is NULL, whatever the other side is; otherwise both sides must be
    booleans, and it is true exactly when both are. */
  lemma AndIs(sem: Semantics, c: Context, left: Expr, right: Expr)
    ensures var l, r, v := Eval(sem, c, left), Eval(sem, c, right), Eval(sem, c, And(left, right));
            && (v == Ok(NULL) <==> l.Ok? && r.Ok? && (l.value == NULL || r.value == NULL))
            && (v == Ok(Val(Value.Bool(true))) <==>
                  l == Ok(Val(Value.Bool(true))) && r == Ok(Val(Value.Bool(true))))
            && (v == Ok(Val(Value.Bool(false))) <==>
                  IsTruth(l) && IsTruth(r) && (l == Ok(Val(Value.Bool(false))) || r == Ok(Val(Value.Bool(false)))))
            && (v.Ok? ==> v.value == NULL || IsTruth(v))
  {
    hide Eval;
    AndEvaluates(sem, c, left, right);
  }

  lemma AndEvaluates(sem: Semantics, c: Context, left: Expr, right: Expr)
    ensures var l, r := Eval(sem, c, left), Eval(sem, c, right);
            Eval(sem, c, And(left, right)) ==
              if l.Err? then Err(l.error) else if r.Err? then Err(r.error) else EvalAnd(l.value, r.value)
  {
    hide EvalAnd;
  }

  /** A row passes a conjunction exactly when it passes both sides. */
  lemma ConjunctionHoldsExactlyWhen(sem: Semantics, c: Context, left: Expr, right: Expr)
    ensures Holds(sem, c, And(left, right)) <==> Holds(sem, c, left) && Holds(sem, c, right)
  {
    hide Eval;
    AndIs(sem, c, left, right);
  }

  /** The timestamp is the first instant of the date. */
  predicate FirstInstant(date: i32, t: Timestamp) { t.days == date && t.time.seconds == t.time.nanos == 0 }

  /** Two values compare as NULL exactly when one of them is NULL.  Values of one type compare exactly,
    integers of any types as numbers, a date with a timestamp as its first instant. */
  lemma EqualsIs(sem: Semantics, c: Context, left: Expr, right: Expr, a: Value, b: Value)
    requires Eval(sem, c, left) == Ok(Val(a)) && Eval(sem, c, right) == Ok(Val(b))
    ensures var v := Eval(sem, c, Eq(left, right));
            && (v == Ok(NULL) <==> a.Null? || b.Null?)
            && (GetType(a) == GetType(b) && ToKey(a).Ok? && !a.Null? && !a.F32? && !a.F64? ==>
                  v == Ok(Val(Value.Bool(a == b))))
            && (IsInteger(a) && IsInteger(b) ==> v == Ok(Val(Value.Bool(IntegerOf(a) == IntegerOf(b)))))
            && (a.Date? && b.Timestamp? ==> v == Ok(Val(Value.Bool(FirstInstant(a.date, b.timestamp)))))
            && (a.Timestamp? && b.Date? ==> v == Ok(Val(Value.Bool(FirstInstant(b.date, a.timestamp)))))
  {
    hide GetType, ToKey, EvaluateEq, Eval, FirstInstant, IntegerOf;
    EqEvaluates(sem, c, left, right);
    EqualityNull(sem.approx, a, b);
    EqualityMixed(sem.approx, a, b);
    if GetType(a) == GetType(b) && ToKey(a).Ok? && !a.Null? && !a.F32? && !a.F64? { OneTypeEq(sem.approx, a, b); }
  }

  lemma EqEvaluates(sem: Semantics, c: Context, left: Expr, right: Expr)
    ensures var l, r := Eval(sem, c, left), Eval(sem, c, right);
            Eval(sem, c, Eq(left, right)) ==
              if l.Err? then Err(l.error) else if r.Err? then Err(r.error) else Ok(EvalEq(sem, l.value, r.value))
  {
    hide EvalEq, EvalAnd, Lookup, LookupAlias;
  }

  lemma EqualityNull(approx: (Value, Value) -> bool, a: Value, b: Value)
    ensures EvaluateEq(approx, a, b) == Tribool.Null <==> a.Null? || b.Null?
  {
    hide IntegerOf, ValueEq;
  }

  lemma EqualityMixed(approx: (Value, Value) -> bool, a: Value, b: Value)
    ensures IsInteger(a) && IsInteger(b) ==> EvaluateEq(approx, a, b) == ToTribool(IntegerOf(a) == IntegerOf(b))
    ensures a.Date? && b.Timestamp? ==> EvaluateEq(approx, a, b) == ToTribool(FirstInstant(a.date, b.timestamp))
    ensures a.Timestamp? && b.Date? ==> EvaluateEq(approx, a, b) == ToTribool(FirstInstant(b.date, a.timestamp))
  {
    hide IntegerOf, ValueEq;
  }

  /** The outcome is the literal, or text sliced off that reads as the literal. */
  ghost predicate Reads(ev: Result<Evaluated>, l: Literal) {
    ev == Ok(Raw(l)) || (l.Text? && ev == Ok(Slice(l.text)))
  }

  /** A value and a literal or sliced text, either way round. */
  lemma EqualsLiteralIs(sem: Semantics, c: Context, left: Expr, right: Expr, v: Value, l: Literal)
    requires Eval(sem, c, left) == Ok(Val(v)) && Reads(Eval(sem, c, right), l)
    requires IsInteger(v) || v.Str? || v.Inet? || v.Timestamp? || v.Time? || v.Uuid?
    ensures var truth := Ok(Val(Value.Bool(StandsFor(sem.parsing, l, GetType(v).value, v))));
            Eval(sem, c, Eq(left, right)) == Eval(sem, c, Eq(right, left)) == truth
  {
    hide StandsFor, ValueEqLiteral, GetType, Eval;
    EqEvaluates(sem, c, left, right);
    EqEvaluates(sem, c, right, left);
    LiteralEqualsExactlyWhen(sem.parsing, l, v);
  }

  /** Two literals, or sliced texts, are equal exactly when they are one number or one text. */
  lemma LiteralsEqualExactlyWhen(sem: Semantics, c: Context, left: Expr, right: Expr, a: Literal, b: Literal)
    requires Reads(Eval(sem, c, left), a) && Reads(Eval(sem, c, right), b)
    ensures Eval(sem, c, Eq(left, right)) ==
              Ok(Val(Value.Bool(if a.Number? && b.Number? then Denoted(a) == Denoted(b) else a == b)))
  {
    hide Eval, Denoted, SameNumber;
    EqEvaluates(sem, c, left, right);
    if a.Number? && b.Number? { SameNumberExactlyWhen(a, b); }
  }

  /** What a column of the type takes: a literal for what it stands for, bytes for the UUID they are read
    as, and any other value as it is, provided it is of the type or a NULL that may be stored. */
  ghost predicate Takes(p: Parsing, ev: Evaluated, t: DataType, nullable: bool, v: Value) {
    && (if v.Null? then nullable else GetType(v) == Some(t))
    && match ev
       case Raw(l) => StandsFor(p, l, t, v)
       case Slice(text) => v == Value.Str(text)
       case Val(w) =>
         if w.Bytea? && t == UuidType then v.Uuid? && p.uuidOfBytes(w.bytea) == Some(v.uuid) else v == w
  }

  lemma ConvertedExactlyWhen(p: Parsing, ev: Evaluated, t: DataType, v: Value)
    ensures Converted(p, ev, t) == Ok(v) <==>
              match ev
              case Raw(l) => StandsFor(p, l, t, v)
              case Slice(text) => v == Value.Str(text)
              case Val(w) =>
                if w.Bytea? && t == UuidType then v.Uuid? && p.uuidOfBytes(w.bytea) == Some(v.uuid) else v == w
  {
    hide StandsFor, LiteralOfType;
    if ev.Raw? { LiteralConvertsExactlyWhen(p, t, ev.literal, v); }
  }

  lemma FittingExactlyWhen(r: Result<Value>, t: DataType, nullable: bool, v: Value)
    ensures Fitting(r, t, nullable) == Ok(v) <==> r == Ok(v) && if v.Null? then nullable else GetType(v) == Some(t)
  {
    hide GetType;
  }

  lemma TakenExactlyWhen(p: Parsing, ev: Evaluated, t: DataType, nullable: bool, v: Value)
    ensures TryIntoValue(p, ev, t, nullable) == Ok(v) <==> Takes(p, ev, t, nullable, v)
  {
    hide StandsFor, Converted, Fitting, GetType;
    ConvertedExactlyWhen(p, ev, t, v);
    FittingExactlyWhen(Converted(p, ev, t), t, nullable, v);
  }

  /** What an expression is worth where no type is given. */
  ghost predicate Worth(p: Parsing, ev: Evaluated, v: Value) {
    match ev
    case Raw(l) => ReadAs(p, l, v)
    case Slice(text) => v == Value.Str(text)
    case Val(w) => v == w
  }

  lemma WorthExactlyWhen(p: Parsing, ev: Evaluated, v: Value)
    ensures AsValue(p, ev) == Ok(v) <==> Worth(p, ev, v)
  {
    hide ReadAs, LiteralValue;
    if ev.Raw? { UntypedLiteralExactlyWhen(p, ev.literal, v); }
  }

  // ----- order of values -----

  /** An integer type that holds the number. */
  ghost predicate HeldBy(t: Option<DataType>, n: int) {
    exists v: Value :: GetType(v) == t && IsInteger(v) && IntegerOf(v) == n
  }

  lemma HeldExactlyWhen(t: DataType, n: int)
    ensures IntegerOfType(t, n).Some? <==> HeldBy(Some(t), n)
  {
    hide IntegerOfType, IntegerOf, GetType;
    if HeldBy(Some(t), n) {
      var v: Value :| GetType(v) == Some(t) && IsInteger(v) && IntegerOf(v) == n;
      IntegerOfTypeExactlyWhen(t, n, v);
    }
    if IntegerOfType(t, n).Some? {
      var v := IntegerOfType(t, n).value;
      IntegerOfTypeExactlyWhen(t, n, v);
    }
  }

  /** Two integers are compared as numbers exactly when the type of the left one holds the right one. */
  lemma IntegersComparedExactlyWhen(guess: (Value, Value) -> Option<Ordering>, a: Value, b: Value)
    requires IsInteger(a) && IsInteger(b)
    ensures EvaluateCmp(guess, a, b) ==
              if HeldBy(GetType(a), IntegerOf(b)) then Some(CompareInt(IntegerOf(a), IntegerOf(b))) else Option.None
  {
    hide IntegerOfType, IntegerOf, HeldBy;
    HeldExactlyWhen(GetType(a).value, IntegerOf(b));
  }

  /** A date and a timestamp compare as instants, the date at its first one. */
  lemma InstantsCompared(guess: (Value, Value) -> Option<Ordering>, date: i32, t: Timestamp)
    ensures var c := EvaluateCmp(guess, Value.Date(date), Value.Timestamp(t));
            && (c == Some(Equal) <==> FirstInstant(date, t))
            && (c == Some(Less) <==> date <= t.days && !FirstInstant(date, t))
            && (c == Some(Greater) <==> date > t.days)
            && EvaluateCmp(guess, Value.Timestamp(t), Value.Date(date)) == Some(Reverse(c.value))
  {
  }

  /** Other values are compared exactly when they are of one type that has an order; a month and
    microseconds are not. */
  lemma OthersComparedExactlyWhen(guess: (Value, Value) -> Option<Ordering>, a: Value, b: Value)
    requires !IsInteger(a) && !a.F32? && !a.F64?
    requires !(a.Date? && b.Timestamp?) && !(a.Timestamp? && b.Date?)
    ensures EvaluateCmp(guess, a, b).Some? <==>
              && !a.Null? && GetType(a) == GetType(b) && KeyType(GetType(a).value)
              && (a.Interval? && b.Interval? ==> (a.interval.Month? <==> b.interval.Month?))
  {
    hide CompareBytes, CompareInterval, CompareInet, CompareTimestamp, CompareTime;
  }

  lemma IntegersAgainstBooleans(guess: (Value, Value) -> Option<Ordering>, a: Value, b: Value)
    requires (IsInteger(a) && b.Bool?) || a.Null? || b.Null?
    ensures EvaluateCmp(guess, a, b).None?
  {
  }
}

/** Joins on an equality of a column and a literal, `ON x = 1`: exactly when the hash plan is right
  (core/src/plan/join.rs, core/src/executor/join.rs, core/src/executor/evaluate/evaluated/eq.rs). */
module JoinLiterals {
  import opened Data
  import opened Literals
  import opened Expressions
  import opened JoinPlanning
  import opened Joins
  import opened JoinFacts
  import opened JoinKeys
  import opened JoinRuns
  import opened JoinColumns

  // ----- plans -----

  /** A literal can be evaluated anywhere, so `x = literal` is always hashed.  With a column of the
    joined relation the literal is the probe side; with one of the left row it is the build side. */
  lemma LiteralPlan(rel: Relation, inner: Scope, name: Expr, literal: Literal)
    requires IsName(name)
    ensures var plan := Plan(ColumnScopes(rel, inner), Eq(name, Constant(literal)));
            && (!Foreign(rel, name) ==> plan == Planned(Hash(name, Constant(literal), Option.None), Option.None))
            && (Foreign(rel, name) && Evaluable(Some(inner), name) ==>
                  plan == Planned(Hash(Constant(literal), name, Option.None), Option.None))
  {
    var on := Eq(name, Constant(literal));
    var scopes := ColumnScopes(rel, inner);
    var keys, values := scopes.Keys(), scopes.Values();
    var es := SplitConjuncts(on);
    assert es == [on] && es[0 + 1..] + es[..0] == [];
    KnownToRelation(rel, name);
    assert Evaluable(Some(inner), name) ==> Evaluable(values, name);
    var sides := Candidate(keys, values, on);
    assert !Foreign(rel, name) ==> sides == Some(HashSides(name, Constant(literal)));
    assert Foreign(rel, name) && Evaluable(Some(inner), name) ==> sides == Some(HashSides(Constant(literal), name));
  }

  /** The equality never fails on a pair that provides the column. */
  lemma LiteralPairIsBoolean(sem: Semantics, rel: Relation, l: Context, r: Row, name: Expr, literal: Literal)
    requires IsName(name) && Named(PairContext(rel, Option.None, l, r), name).Some?
    ensures var c, on := PairContext(rel, Option.None, l, r), Eq(name, Constant(literal));
            && AllBoolean(sem, c, SplitConjuncts(on))
            && (CheckExpr(sem, c, on) == Ok(true) <==> EvalEq(sem, Val(Named(c, name).value), Raw(literal)) == TRUE)
            && CheckExpr(sem, c, on).Ok?
  {
    hide EvaluatedEq;
    var c, on := PairContext(rel, Option.None, l, r), Eq(name, Constant(literal));
    NamedEvaluates(sem, c, name);
    var a := Val(Named(c, name).value);
    assert Eval(sem, c, Constant(literal)) == Ok(Raw(literal));
    assert Eval(sem, c, on) == Ok(EvalEq(sem, a, Raw(literal)));
    EqualityIsBoolean(sem, a, Raw(literal));
    ConditionFromTribool(sem, a, Raw(literal));
    assert SplitConjuncts(on) == [on];
  }

  // ----- a column of the joined relation -----

  lemma KeptLiteralIsRight(
      sem: Semantics, rel: Relation, types: seq<DataType>, rows: seq<Row>, operator: Operator, inner: Scope,
      l: Context, name: Expr, literal: Literal, t: DataType)
    requires IsName(name) && !Foreign(rel, name) && KeyType(t)
    requires |types| == |rel.columns| && Declares(rel, types, name, t) && RowsFit(types, rows)
    requires LiteralValue(sem.parsing, literal).Ok? && LiteralKept(sem.parsing, t, literal)
    ensures RightOn(sem, rel, rows, operator, inner, l, Eq(name, Constant(literal)))
  {
    hide Plan, HashAgrees, AsKey, Foreign, LiteralKept, LiteralValue, KeyType, Joined, NestedLoopJoin, Separated;
    var relation, scopes, on := rel.(rows := rows), ColumnScopes(rel, inner), Eq(name, Constant(literal));
    SameNamesForeign(rel, relation, name);
    LiteralPlan(rel, inner, name, literal);
    LiteralIsForeign(rel, relation, literal);
    assert AsKey(sem, Raw(literal)).Ok? by { LiteralHasKey(sem, literal); }
    assert Eval(sem, l, Constant(literal)) == Ok(Raw(literal));
    ColumnAgreesExactlyWhenKept(sem, t, literal);
    forall j | 0 <= j < |rows|
      ensures |rows[j]| == |rel.columns|
      ensures BuildKey(sem, BuildContext(relation, Option.None, rows[j]), name, Option.None).Ok?
      ensures HashAgrees(sem, Eval(sem, BuildContext(relation, Option.None, rows[j]), name).value, Raw(literal))
      ensures AllBoolean(sem, PairContext(relation, Option.None, l, rows[j]), SplitConjuncts(on))
    {
      LiteralRowRuns(sem, relation, types, l, rows[j], name, literal, t);
    }
    TopLevelPlanIsSeparated(relation, scopes, on, [Ok(l)]);
    SeparatedJoinIsNestedLoop(sem, Option.None, relation, operator, scopes, on, [Ok(l)]);
  }

  lemma LiteralIsForeign(rel: Relation, relation: Relation, literal: Literal)
    ensures Foreign(rel, Constant(literal)) && Foreign(relation, Constant(literal))
  {
  }

  lemma LiteralHasKey(sem: Semantics, literal: Literal)
    ensures AsKey(sem, Raw(literal)).Ok? <==> LiteralValue(sem.parsing, literal).Ok?
    ensures AsKey(sem, Raw(literal)).Ok? ==> !AsKey(sem, Raw(literal)).value.None?
  {
    hide ToKey, LiteralValue;
    LiteralIsKey(sem.parsing, literal);
    if LiteralValue(sem.parsing, literal).Ok? { NullKey(LiteralValue(sem.parsing, literal).value); }
  }

  lemma LiteralRowRuns(
      sem: Semantics, rel: Relation, types: seq<DataType>, l: Context, r: Row, name: Expr, literal: Literal,
      t: DataType)
    requires IsName(name) && !Foreign(rel, name) && KeyType(t)
    requires |types| == |rel.columns| && Declares(rel, types, name, t) && RowFits(types, r)
    requires forall a | OfType(a, t) :: HashAgrees(sem, Val(a), Raw(literal))
    ensures BuildKey(sem, BuildContext(rel, Option.None, r), name, Option.None).Ok?
    ensures HashAgrees(sem, Eval(sem, BuildContext(rel, Option.None, r), name).value, Raw(literal))
    ensures AllBoolean(sem, PairContext(rel, Option.None, l, r), SplitConjuncts(Eq(name, Constant(literal))))
  {
    hide HashAgrees, Foreign, KeyType, Named, ToKey, Position;
    var build := BuildContext(rel, Option.None, r);
    OwnNameIsProvided(rel, Option.None, r, name);
    OwnNameIsProvided(rel, Some(l), r, name);
    NamedEvaluates(sem, build, name);
    KeysOfKeyType(Named(build, name).value, t);
    LiteralPairIsBoolean(sem, rel, l, r, name, literal);
  }

  /** The nested loop finds the row that holds the value of the literal. */
  lemma SampleMatchesLiteral(
      sem: Semantics, rel: Relation, types: seq<DataType>, operator: Operator, l: Context, name: Expr,
      literal: Literal, t: DataType, o: Value)
    requires IsName(name) && !Foreign(rel, name) && |types| == |rel.columns| && Declares(rel, types, name, t)
    requires rel.rows == [Sample(types, t, o)] && !o.Null?
    requires ValueEqLiteral(sem.parsing, o, literal) == Tribool.True
    ensures NestedLoopJoin(sem, Option.None, rel, operator, Some(Eq(name, Constant(literal))), [Ok(l)])
         == [Ok(JoinedRow(rel, l, rel.rows[0]))]
  {
    hide Foreign, NestedLoopJoin, ValueEqLiteral, Named, CheckExpr;
    OwnNameIsProvided(rel, Some(l), rel.rows[0], name);
    LiteralPairIsBoolean(sem, rel, l, rel.rows[0], name, literal);
    EqualBothWays(sem, o, literal);
    OneRowNestedLoop(sem, rel, operator, Eq(name, Constant(literal)), l, true);
  }

  /** The hash join does not find it. */
  lemma SampleMissesLiteral(
      sem: Semantics, rel: Relation, types: seq<DataType>, operator: Operator, l: Context, name: Expr,
      literal: Literal, t: DataType, o: Value)
    requires IsName(name) && !Foreign(rel, name) && |types| == |rel.columns| && Declares(rel, types, name, t)
    requires rel.rows == [Sample(types, t, o)] && !o.Null? && ToKey(o).Ok?
    requires LiteralValue(sem.parsing, literal).Ok? && !LiteralHashes(sem.parsing, o, literal)
    requires ValueEqLiteral(sem.parsing, o, literal) == Tribool.True
    ensures Joined(sem, Option.None,
              Clause(rel, operator, Planned(Hash(name, Constant(literal), Option.None), Option.None)), [Ok(l)])
         == Ok(Padded(rel, operator, l, []))
    ensures Nulls(rel) != rel.rows[0]
  {
    hide AsKey, Foreign, LiteralHashes, LiteralValue, Joined, ToKey, ValueEqLiteral, Named, Eval, Nulls, Padded;
    var r := rel.rows[0];
    OwnNameIsProvided(rel, Option.None, r, name);
    NamedEvaluates(sem, BuildContext(rel, Option.None, r), name);
    LiteralHasKey(sem, literal);
    PlainKey(sem, o);
    LiteralEvaluates(sem, l, literal);
    EqualNotHashed(sem, o, literal);
    OneRowHashJoin(sem, rel, operator, name, Constant(literal), l, Val(o), Raw(literal));
    NullsDiffer(rel, r, Position(rel.columns, ColumnName(name)).value);
  }

  lemma EqualNotHashed(sem: Semantics, o: Value, literal: Literal)
    requires !o.Null? && ToKey(o).Ok? && !LiteralHashes(sem.parsing, o, literal)
    requires ValueEqLiteral(sem.parsing, o, literal) == Tribool.True
    ensures !SameKey(sem, Val(o), Raw(literal))
  {
    hide LiteralHashes, ToKey, SameKey, ValueEqLiteral, EvalEq;
    LiteralAgreesExactlyWhen(sem, o, literal);
    EqualBothWays(sem, o, literal);
  }

  /** A literal that is not kept misses the row that holds its value. */
  lemma MissedLiteralIsWrong(
      sem: Semantics, rel: Relation, types: seq<DataType>, operator: Operator, inner: Scope, l: Context, name: Expr,
      literal: Literal, t: DataType)
    requires IsName(name) && !Foreign(rel, name) && KeyType(t)
    requires |types| == |rel.columns| && Declares(rel, types, name, t)
    requires LiteralValue(sem.parsing, literal).Ok? && !LiteralKept(sem.parsing, t, literal)
    ensures var r := Sample(types, t, Missed(sem.parsing, t, literal));
            RowsFit(types, [r]) && !RightOn(sem, rel, [r], operator, inner, l, Eq(name, Constant(literal)))
  {
    hide Plan, Foreign, LiteralKept, LiteralValue, LiteralHashes, KeyType, Joined, NestedLoopJoin, GetType, ToKey,
      ValueEqLiteral, Nulls, Missed;
    var o := Missed(sem.parsing, t, literal);
    NullHasNoType(o);
    var r := Sample(types, t, o);
    var relation := rel.(rows := [r]);
    SameNamesForeign(rel, relation, name);
    LiteralPlan(rel, inner, name, literal);
    SampleMatchesLiteral(sem, relation, types, operator, l, name, literal, t, o);
    SampleMissesLiteral(sem, relation, types, operator, l, name, literal, t, o);
  }

  lemma PlainKey(sem: Semantics, o: Value)
    requires ToKey(o).Ok? && !o.Null?
    ensures AsKey(sem, Val(o)).Ok? && !AsKey(sem, Val(o)).value.None?
  {
    NullKey(o);
  }

  lemma LiteralEvaluates(sem: Semantics, c: Context, literal: Literal)
    ensures Eval(sem, c, Constant(literal)) == Ok(Raw(literal))
  {
  }

  lemma EqualBothWays(sem: Semantics, a: Value, literal: Literal)
    ensures EvalEq(sem, Val(a), Raw(literal)) == EvalEq(sem, Raw(literal), Val(a))
    ensures !a.Null? && ValueEqLiteral(sem.parsing, a, literal) == Tribool.True ==>
              EvalEq(sem, Val(a), Raw(literal)) == TRUE
  {
    hide ValueEqLiteral;
  }

  /** The theorem for `ON x = literal` with a column of the joined relation: the planned join yields the
    rows of the nested loop, for all rows of the schema, exactly when the literal has a value without a
    type and the type of the column keeps it.  It holds for every left row and both operators. */
  lemma LiteralJoinIsRightExactlyWhenKept(
      sem: Semantics, rel: Relation, types: seq<DataType>, operator: Operator, inner: Scope, l: Context, name: Expr,
      literal: Literal, t: DataType)
    requires IsName(name) && !Foreign(rel, name) && KeyType(t)
    requires |types| == |rel.columns| && Declares(rel, types, name, t)
    ensures (forall rows | RowsFit(types, rows) ::
              RightOn(sem, rel, rows, operator, inner, l, Eq(name, Constant(literal))))
            <==> LiteralValue(sem.parsing, literal).Ok? && LiteralKept(sem.parsing, t, literal)
  {
    hide Foreign, LiteralKept, LiteralValue, KeyType, RightOn, Plan;
    if LiteralValue(sem.parsing, literal).Err? {
      LiteralPlan(rel, inner, name, literal);
      LiteralHasKey(sem, literal);
      FailingProbeIsWrong(sem, rel, operator, inner, l, Eq(name, Constant(literal)));
      assert RowsFit(types, []);
    } else if LiteralKept(sem.parsing, t, literal) {
      forall rows | RowsFit(types, rows)
        ensures RightOn(sem, rel, rows, operator, inner, l, Eq(name, Constant(literal)))
      {
        KeptLiteralIsRight(sem, rel, types, rows, operator, inner, l, name, literal, t);
      }
    } else {
      MissedLiteralIsWrong(sem, rel, types, operator, inner, l, name, literal, t);
    }
  }

  // ----- a column of the left row -----

  lemma LiteralKeyIsRight(
      sem: Semantics, rel: Relation, rows: seq<Row>, operator: Operator, inner: Scope, l: Context, name: Expr,
      literal: Literal)
    requires IsName(name) && Foreign(rel, name) && Evaluable(Some(inner), name) && Named(l, name).Some?
    requires Rectangular(rel.(rows := rows))
    requires LiteralValue(sem.parsing, literal).Ok? && ToKey(Named(l, name).value).Ok?
    requires LiteralHashes(sem.parsing, Named(l, name).value, literal)
    ensures RightOn(sem, rel, rows, operator, inner, l, Eq(name, Constant(literal)))
  {
    hide Plan, HashAgrees, Foreign, LiteralHashes, LiteralValue, Joined, NestedLoopJoin, Separated, ToKey, Named;
    var relation, scopes, on := rel.(rows := rows), ColumnScopes(rel, inner), Eq(name, Constant(literal));
    var a := Named(l, name).value;
    SameNamesForeign(rel, relation, name);
    LiteralPlan(rel, inner, name, literal);
    LiteralAgreesExactlyWhen(sem, a, literal);
    LiteralHasKey(sem, literal);
    NamedEvaluates(sem, l, name);
    forall j | 0 <= j < |rows|
      ensures Eval(sem, BuildContext(relation, Option.None, rows[j]), Constant(literal)) == Ok(Raw(literal))
      ensures BuildKey(sem, BuildContext(relation, Option.None, rows[j]), Constant(literal), Option.None).Ok?
      ensures AllBoolean(sem, PairContext(relation, Option.None, l, rows[j]), SplitConjuncts(on))
    {
      ForeignNameInPair(relation, l, rows[j], name);
      LiteralPairIsBoolean(sem, relation, l, rows[j], name, literal);
    }
    TopLevelPlanIsSeparated(relation, scopes, on, [Ok(l)]);
    SeparatedJoinIsNestedLoop(sem, Option.None, relation, operator, scopes, on, [Ok(l)]);
  }

  lemma ForeignNameInPair(rel: Relation, l: Context, r: Row, name: Expr)
    requires IsName(name) && Foreign(rel, name)
    ensures Named(PairContext(rel, Option.None, l, r), name) == Named(l, name)
  {
  }

  /** With any one row, the plan and the nested loop part when hashing does not agree. */
  lemma UnhashedLiteralIsWrong(
      sem: Semantics, rel: Relation, r: Row, operator: Operator, inner: Scope, l: Context, name: Expr,
      literal: Literal)
    requires IsName(name) && Foreign(rel, name) && Evaluable(Some(inner), name) && Named(l, name).Some?
    requires r != Nulls(rel) && LiteralValue(sem.parsing, literal).Ok? && ToKey(Named(l, name).value).Ok?
    requires !LiteralHashes(sem.parsing, Named(l, name).value, literal)
    ensures !RightOn(sem, rel, [r], operator, inner, l, Eq(name, Constant(literal)))
  {
    hide Plan, HashAgrees, Foreign, LiteralHashes, LiteralValue, Joined, NestedLoopJoin, ToKey, Named, AsKey, Eval,
      CheckExpr, EvalEq;
    var relation, on, a := rel.(rows := [r]), Eq(name, Constant(literal)), Named(l, name).value;
    SameNamesForeign(rel, relation, name);
    LiteralPlan(rel, inner, name, literal);
    ForeignNameInPair(relation, l, r, name);
    LiteralPairIsBoolean(sem, relation, l, r, name, literal);
    var pass := CheckExpr(sem, PairContext(relation, Option.None, l, r), on).value;
    OneRowNestedLoop(sem, relation, operator, on, l, pass);
    LiteralEvaluates(sem, BuildContext(relation, Option.None, r), literal);
    LiteralHasKey(sem, literal);
    NamedEvaluates(sem, l, name);
    ValueHasKey(sem, a);
    OneRowHashJoin(sem, relation, operator, Constant(literal), name, l, Raw(literal), Val(a));
    PartedByHash(sem, a, literal);
  }

  lemma ValueHasKey(sem: Semantics, a: Value)
    ensures AsKey(sem, Val(a)).Ok? <==> ToKey(a).Ok?
  {
  }

  lemma PartedByHash(sem: Semantics, a: Value, literal: Literal)
    requires ToKey(a).Ok? && !LiteralHashes(sem.parsing, a, literal)
    ensures SameKey(sem, Raw(literal), Val(a)) <==> EvalEq(sem, Val(a), Raw(literal)) != TRUE
  {
    hide LiteralHashes, ToKey, SameKey, EvalEq;
    LiteralAgreesExactlyWhen(sem, a, literal);
    EqualBothWays(sem, a, literal);
  }

  /** A literal without a value cannot be the key of any row. */
  lemma ValuelessLiteralIsWrong(
      sem: Semantics, rel: Relation, r: Row, operator: Operator, inner: Scope, l: Context, name: Expr,
      literal: Literal)
    requires IsName(name) && Foreign(rel, name) && Evaluable(Some(inner), name)
    requires LiteralValue(sem.parsing, literal).Err?
    ensures !RightOn(sem, rel, [r], operator, inner, l, Eq(name, Constant(literal)))
  {
    hide Plan, Foreign, LiteralValue, NestedLoopJoin, AsKey;
    LiteralPlan(rel, inner, name, literal);
    LiteralHasKey(sem, literal);
    var build := BuildContext(rel.(rows := [r]), Option.None, r);
    assert BuildKey(sem, build, Constant(literal), Option.None).Err?;
    var rows := [r];
    assert rows[..0] == [];
    assert BuildEntries(sem, Option.None, rel.(rows := rows), Constant(literal), Option.None, rows).Err?;
  }

  /** The theorem for `ON x = literal` with a column of the left row: the planned join yields the rows of
    the nested loop, for all rows of the schema, exactly when literal and value are keys and their
    hashes agree.  The relation is one that can hold a row other than NULLs. */
  lemma LiteralProbedIsRightExactlyWhen(
      sem: Semantics, rel: Relation, types: seq<DataType>, r: Row, operator: Operator, inner: Scope, l: Context,
      name: Expr, literal: Literal)
    requires IsName(name) && Foreign(rel, name) && Evaluable(Some(inner), name) && Shows(inner, l)
    requires |types| == |rel.columns| && RowFits(types, r) && r != Nulls(rel)
    ensures Named(l, name).Some?
    ensures (forall rows | RowsFit(types, rows) ::
              RightOn(sem, rel, rows, operator, inner, l, Eq(name, Constant(literal))))
            <==> && LiteralValue(sem.parsing, literal).Ok? && ToKey(Named(l, name).value).Ok?
                 && LiteralHashes(sem.parsing, Named(l, name).value, literal)
  {
    hide Foreign, LiteralHashes, LiteralValue, RightOn, Plan, Evaluable, ToKey, Shows, Nulls, Named, RowFits;
    KnownNameIsProvided(inner, l, name);
    var on, a := Eq(name, Constant(literal)), Named(l, name).value;
    assert RowsFit(types, [r]) && RowsFit(types, []);
    if LiteralValue(sem.parsing, literal).Err? {
      ValuelessLiteralIsWrong(sem, rel, r, operator, inner, l, name, literal);
    } else if ToKey(a).Err? {
      LiteralPlan(rel, inner, name, literal);
      NamedEvaluates(sem, l, name);
      ValueHasKey(sem, a);
      FailingProbeIsWrong(sem, rel, operator, inner, l, on);
    } else if LiteralHashes(sem.parsing, a, literal) {
      forall rows | RowsFit(types, rows) ensures RightOn(sem, rel, rows, operator, inner, l, on) {
        FittingIsRectangular(rel, types, rows);
        LiteralKeyIsRight(sem, rel, rows, operator, inner, l, name, literal);
      }
    } else {
      UnhashedLiteralIsWrong(sem, rel, r, operator, inner, l, name, literal);
    }
  }

  lemma FittingIsRectangular(rel: Relation, types: seq<DataType>, rows: seq<Row>)
    requires |types| == |rel.columns| && RowsFit(types, rows)
    ensures Rectangular(rel.(rows := rows))
  {
    forall i | 0 <= i < |rows| ensures |rows[i]| == |rel.columns| { assert RowFits(types, rows[i]); }
  }

  // ----- two joins on a literal that go wrong -----

  const ONE := Literal.Number(1, 0)
  const BYTES: Relation := Relation("A", ["x"], [[Value.I8(1)]])
  const ANY: Context := Data("B", ["y"], [Value.I64(7)], Option.None)

  /** `B JOIN A(x INT8) ON x = 1` with the row (1) of A: a row for the nested loop, and none for the
    planned join, which hashes the literal as INT.  No error is reported. */
  lemma NarrowColumnLosesTheRow(sem: Semantics)
    ensures NestedLoopJoin(sem, Option.None, BYTES, Inner, Some(Eq(X, Constant(ONE))), [Ok(ANY)])
         == [Ok(JoinedRow(BYTES, ANY, BYTES.rows[0]))]
    ensures Joined(sem, Option.None, Clause(BYTES, Inner, Plan(ColumnScopes(BYTES, B_SCOPE), Eq(X, Constant(ONE)))),
              [Ok(ANY)])
         == Ok([])
  {
    hide Plan, Joined, NestedLoopJoin;
    var o, types := Value.I8(1), [Int8];
    assert !Foreign(BYTES, X) && Declares(BYTES, types, X, Int8);
    assert Sample(types, Int8, o) == [o] == BYTES.rows[0];
    assert LiteralValue(sem.parsing, ONE) == Ok(Value.I64(1)) && !LiteralHashes(sem.parsing, o, ONE);
    assert ValueEqLiteral(sem.parsing, o, ONE) == Tribool.True;
    LiteralPlan(BYTES, B_SCOPE, X, ONE);
    SampleMatchesLiteral(sem, BYTES, types, Inner, ANY, X, ONE, Int8, o);
    SampleMissesLiteral(sem, BYTES, types, Inner, ANY, X, ONE, Int8, o);
  }

  /** Written `ON 1 = x`, a column of the joined relation becomes the probe side, and a left row without
    that name is an error, even on an INT column, where `ON x = 1` is right. */
  lemma ReversedLiteralFails(
      sem: Semantics, rel: Relation, operator: Operator, inner: Scope, l: Context, name: Expr, literal: Literal)
    requires IsName(name) && !Foreign(rel, name) && Named(l, name).None?
    ensures Plan(ColumnScopes(rel, inner), Eq(Constant(literal), name))
         == Planned(Hash(Constant(literal), name, Option.None), Option.None)
    ensures !RightOn(sem, rel, [], operator, inner, l, Eq(Constant(literal), name))
  {
    var on := Eq(Constant(literal), name);
    var es := SplitConjuncts(on);
    assert es == [on] && es[0 + 1..] + es[..0] == [];
    var scopes := ColumnScopes(rel, inner);
    KnownToRelation(rel, name);
    assert Candidate(scopes.Keys(), scopes.Values(), on) == Some(HashSides(Constant(literal), name));
    hide Plan;
    NamedEvaluates(sem, l, name);
    FailingProbeIsWrong(sem, rel, operator, inner, l, on);
  }
}

/** The hash join computes what the nested loop over the whole ON condition computes. */
module JoinFacts {
  import opened Data
  import opened Expressions
  import opened JoinPlanning
  import opened Joins

  const TRUE := Val(Value.Bool(true))

  // ----- when hashing agrees with SQL equality -----

  predicate SameKey(sem: Semantics, k: Evaluated, v: Evaluated) {
    && AsKey(sem, k).Ok? && AsKey(sem, v).Ok?
    && !AsKey(sem, k).value.None?
    && Canonical(AsKey(sem, k).value) == Canonical(AsKey(sem, v).value)
  }

  /** The two values meet in the hash table exactly when SQL calls them equal, whichever is written first. */
  predicate HashAgrees(sem: Semantics, k: Evaluated, v: Evaluated) {
    && (SameKey(sem, k, v) <==> EvalEq(sem, k, v) == TRUE)
    && (SameKey(sem, k, v) <==> EvalEq(sem, v, k) == TRUE)
  }

  lemma NullKey(v: Value)
    requires ToKey(v).Ok?
    ensures ToKey(v).value.None? <==> v.Null?
  {
  }

  lemma PlainKeysEqual(a: Value, k: Key)
    requires ToKey(a).Ok? && !a.F32? && !a.F64?
    ensures KeyEq(ToKey(a).value, k) <==> ToKey(a).value == k
  {
  }

  /** Two values of one type other than a float are equal exactly when their keys are. */
  lemma KeysOfOneType(a: Value, b: Value)
    requires ToKey(a).Ok? && ToKey(b).Ok? && GetType(a) == GetType(b) && !a.F32? && !a.F64?
    ensures ValueEq(a, b) <==> KeyEq(ToKey(a).value, ToKey(b).value)
    ensures !b.F32? && !b.F64?
  {
    hide ToKey, KeyEq, ValueEq, GetType;
    PlainValuesEqual(a, b);
    PlainKeysEqual(a, ToKey(b).value);
    FloatsOfOneType(a, b);
    KeysInjective(a, b);
  }

  lemma FloatsOfOneType(a: Value, b: Value)
    requires GetType(a) == GetType(b)
    ensures a.F32? || a.F64? <==> b.F32? || b.F64?
  {
  }

  lemma DifferentTypesUnequalKeys(a: Value, b: Value)
    requires ToKey(a).Ok? && ToKey(b).Ok? && GetType(a) != GetType(b)
    ensures !KeyEq(ToKey(a).value, ToKey(b).value)
  {
    hide ToKey, FromKey, KeyEq, GetType;
    KeyRoundTrip(a);
    KeyRoundTrip(b);
    if KeyEq(ToKey(a).value, ToKey(b).value) { KeyEqOfOneType(ToKey(a).value, ToKey(b).value); }
  }

  lemma DifferentTypesUnequal(a: Value, b: Value)
    requires GetType(a) != GetType(b)
    ensures !ValueEq(a, b)
  {
  }

  /** The comparison of this pair is left to foreign arithmetic, and calls it equal. */
  predicate Guessed(approx: (Value, Value) -> bool, a: Value, b: Value) {
    (a.F32? || a.F64? || (IsInteger(a) && !IsInteger(b) && !b.Bool?)) && approx(a, b)
  }

  /** When a pair of keys meets in the hash table exactly if SQL calls it equal. */
  predicate Hashes(approx: (Value, Value) -> bool, a: Value, b: Value)
    requires ToKey(a).Ok? && ToKey(b).Ok?
  {
    if a.Null? || b.Null? then true
    else if GetType(a) == GetType(b) then
      (a.F32? || a.F64? ==> approx(a, b) == approx(b, a) == KeyEq(ToKey(a).value, ToKey(b).value))
    else if IsInteger(a) && IsInteger(b) then IntegerOf(a) != IntegerOf(b)
    else if a.Date? && b.Timestamp? then !Midnight(a.date, b.timestamp)
    else if a.Timestamp? && b.Date? then !Midnight(b.date, a.timestamp)
    else !Guessed(approx, a, b) && !Guessed(approx, b, a)
  }

  /** Values of two different types never meet in the table, so hashing agrees exactly when the
    comparison calls them unequal both ways round. */
  lemma MixedTypesAgree(sem: Semantics, a: Value, b: Value)
    requires ToKey(a).Ok? && ToKey(b).Ok? && !a.Null? && !b.Null? && GetType(a) != GetType(b)
    ensures HashAgrees(sem, Val(a), Val(b)) <==>
              EvaluateEq(sem.approx, a, b) != Tribool.True && EvaluateEq(sem.approx, b, a) != Tribool.True
  {
    hide ToKey, KeyEq, GetType, EvaluateEq, Canonical;
    DifferentTypesUnequalKeys(a, b);
    KeyEqCanonical(ToKey(a).value, ToKey(b).value);
  }

  /** Integers of two widths: the hash join is right exactly when they are different numbers.  Equal
    numbers of two widths are equal for the nested loop and never meet in the table. */
  lemma IntegersOfTwoTypesAgreeExactlyWhenUnequal(sem: Semantics, a: Value, b: Value)
    requires IsInteger(a) && IsInteger(b) && GetType(a) != GetType(b)
    ensures ToKey(a).Ok? && ToKey(b).Ok?
    ensures HashAgrees(sem, Val(a), Val(b)) <==> IntegerOf(a) != IntegerOf(b)
  {
    IntegersAreKeys(a);
    IntegersAreKeys(b);
    hide ToKey, GetType, HashAgrees, IntegerOf;
    MixedTypesAgree(sem, a, b);
  }

  lemma IntegersAreKeys(v: Value)
    requires IsInteger(v)
    ensures ToKey(v).Ok? && !v.Null?
  {
  }

  /** Keys of one type other than a float meet exactly when they are equal. */
  lemma PlainValuesAgree(sem: Semantics, a: Value, b: Value)
    requires ToKey(a).Ok? && ToKey(b).Ok? && !a.Null? && !b.Null? && GetType(a) == GetType(b)
    requires !a.F32? && !a.F64?
    ensures HashAgrees(sem, Val(a), Val(b))
  {
    hide ToKey, KeyEq, Canonical, GetType, ValueEq, EvaluateEq;
    NullKey(a);
    KeyEqCanonical(ToKey(a).value, ToKey(b).value);
    FloatsOfOneType(a, b);
    OneTypeEq(sem.approx, a, b);
    OneTypeEq(sem.approx, b, a);
    KeysOfOneType(a, b);
    PlainValuesEqual(a, b);
  }

  lemma NullsAgree(sem: Semantics, a: Value, b: Value)
    requires ToKey(a).Ok? && ToKey(b).Ok? && (a.Null? || b.Null?)
    ensures HashAgrees(sem, Val(a), Val(b))
  {
    hide ToKey, EvaluateEq;
    NullKey(a);
    NullKey(b);
  }

  /** Floats of one type are compared by foreign arithmetic. */
  lemma FloatsAgreeExactlyWhen(sem: Semantics, a: Value, b: Value)
    requires ToKey(a).Ok? && ToKey(b).Ok? && GetType(a) == GetType(b) && (a.F32? || a.F64?)
    ensures HashAgrees(sem, Val(a), Val(b)) <==> Hashes(sem.approx, a, b)
  {
    FloatsOfOneType(a, b);
    hide ToKey, KeyEq, Canonical, GetType;
    NullKey(a);
    KeyEqCanonical(ToKey(a).value, ToKey(b).value);
  }

  lemma MixedTypesAgreeExactlyWhen(sem: Semantics, a: Value, b: Value)
    requires ToKey(a).Ok? && ToKey(b).Ok? && !a.Null? && !b.Null? && GetType(a) != GetType(b)
    ensures HashAgrees(sem, Val(a), Val(b)) <==> Hashes(sem.approx, a, b)
  {
    hide ToKey, KeyEq, GetType, ValueEq, IntegerOf, Midnight, HashAgrees;
    MixedTypesAgree(sem, a, b);
    DifferentTypesUnequal(a, b);
    DifferentTypesUnequal(b, a);
  }

  /** For every pair of keys of any types: hashing agrees with `=` exactly when `Hashes` says so. */
  lemma HashAgreesExactlyWhen(sem: Semantics, a: Value, b: Value)
    requires ToKey(a).Ok? && ToKey(b).Ok?
    ensures HashAgrees(sem, Val(a), Val(b)) <==> Hashes(sem.approx, a, b)
  {
    hide ToKey, KeyEq, GetType, HashAgrees, IntegerOf, Midnight, Guessed;
    if a.Null? || b.Null? {
      NullsAgree(sem, a, b);
    } else if GetType(a) != GetType(b) {
      hide Hashes;
      MixedTypesAgreeExactlyWhen(sem, a, b);
    } else if a.F32? || a.F64? {
      hide Hashes;
      FloatsAgreeExactlyWhen(sem, a, b);
    } else {
      PlainValuesAgree(sem, a, b);
    }
  }

  // ----- names -----

  /** No name in the expression is one that the joined relation provides. */
  predicate Foreign(rel: Relation, e: Expr)
    decreases e
  {
    match e
    case Identifier(name) => name !in rel.columns
    case CompoundIdentifier(alias, name) => alias != rel.alias || name !in rel.columns
    case Constant(_) => true
    case ValueOf(_) => true
    case Nested(inner) => Foreign(rel, inner)
    case And(left, right) => Foreign(rel, left) && Foreign(rel, right)
    case Eq(left, right) => Foreign(rel, left) && Foreign(rel, right)
    case Operation(_, args) => forall i | 0 <= i < |args| :: Foreign(rel, args[i])
  }

  /** Every name in the expression is provided by the joined relation or unknown to the left row. */
  predicate Sheltered(rel: Relation, l: Context, e: Expr)
    decreases e
  {
    match e
    case Identifier(name) => name in rel.columns || Lookup(l, name).None?
    case CompoundIdentifier(alias, name) =>
      (alias == rel.alias && name in rel.columns) || LookupAlias(l, alias, name).None?
    case Constant(_) => true
    case ValueOf(_) => true
    case Nested(inner) => Sheltered(rel, l, inner)
    case And(left, right) => Sheltered(rel, l, left) && Sheltered(rel, l, right)
    case Eq(left, right) => Sheltered(rel, l, left) && Sheltered(rel, l, right)
    case Operation(_, args) => forall i | 0 <= i < |args| :: Sheltered(rel, l, args[i])
  }

  lemma {:induction false} ForeignNamesAgree(rel: Relation, outer: Option<Context>, l: Context, r: Row, e: Expr)
    requires Foreign(rel, e)
    ensures Agree(Surroundings(outer, l), PairContext(rel, outer, l, r), e)
    decreases e
  {
    match e
    case Identifier(_) =>
    case CompoundIdentifier(_, _) =>
    case Constant(_) =>
    case ValueOf(_) =>
    case Nested(inner) => ForeignNamesAgree(rel, outer, l, r, inner);
    case And(left, right) => ForeignNamesAgree(rel, outer, l, r, left); ForeignNamesAgree(rel, outer, l, r, right);
    case Eq(left, right) => ForeignNamesAgree(rel, outer, l, r, left); ForeignNamesAgree(rel, outer, l, r, right);
    case Operation(_, args) =>
      forall i | 0 <= i < |args| ensures Agree(Surroundings(outer, l), PairContext(rel, outer, l, r), args[i]) {
        ForeignNamesAgree(rel, outer, l, r, args[i]);
      }
  }

  lemma {:induction false} ShelteredNamesAgree(rel: Relation, outer: Option<Context>, l: Context, r: Row, e: Expr)
    requires Sheltered(rel, l, e) && |r| == |rel.columns|
    ensures Agree(BuildContext(rel, outer, r), PairContext(rel, outer, l, r), e)
    decreases e
  {
    match e
    case Identifier(_) =>
    case CompoundIdentifier(_, _) =>
    case Constant(_) =>
    case ValueOf(_) =>
    case Nested(inner) => ShelteredNamesAgree(rel, outer, l, r, inner);
    case And(left, right) => ShelteredNamesAgree(rel, outer, l, r, left); ShelteredNamesAgree(rel, outer, l, r, right);
    case Eq(left, right) => ShelteredNamesAgree(rel, outer, l, r, left); ShelteredNamesAgree(rel, outer, l, r, right);
    case Operation(_, args) =>
      forall i | 0 <= i < |args| ensures Agree(BuildContext(rel, outer, r), PairContext(rel, outer, l, r), args[i]) {
        ShelteredNamesAgree(rel, outer, l, r, args[i]);
      }
  }

  /** The planner's scope for the relation: its columns, or nothing where the schema is unknown. */
  predicate Describes(scope: Option<Scope>, rel: Relation) {
    scope.None? || scope == Some(Columns(rel.alias, rel.columns, Option.None))
  }

  /** What the relation alone can evaluate is sheltered from every left row. */
  lemma {:induction false} EvaluableIsSheltered(scope: Option<Scope>, rel: Relation, l: Context, e: Expr)
    requires Describes(scope, rel) && Evaluable(scope, e)
    ensures Sheltered(rel, l, e)
    decreases e
  {
    match e
    case Identifier(_) =>
    case CompoundIdentifier(_, _) =>
    case Constant(_) =>
    case ValueOf(_) =>
    case Nested(inner) => EvaluableIsSheltered(scope, rel, l, inner);
    case And(left, right) => EvaluableIsSheltered(scope, rel, l, left); EvaluableIsSheltered(scope, rel, l, right);
    case Eq(left, right) => EvaluableIsSheltered(scope, rel, l, left); EvaluableIsSheltered(scope, rel, l, right);
    case Operation(_, args) =>
      forall i | 0 <= i < |args| ensures Sheltered(rel, l, args[i]) { EvaluableIsSheltered(scope, rel, l, args[i]); }
  }

  function Filled(rel: Relation, b: bool): Row { seq(|rel.columns|, _ => Value.Bool(b)) }

  lemma ShadowedNameDiffers(rel: Relation, outer: Option<Context>, l: Context, e: Expr)
    requires (e.Identifier? || e.CompoundIdentifier?) && !Foreign(rel, e)
    ensures !Agree(Surroundings(outer, l), PairContext(rel, outer, l, Filled(rel, true)), e)
         || !Agree(Surroundings(outer, l), PairContext(rel, outer, l, Filled(rel, false)), e)
  {
  }

  /** A probe column means the same with and without the joined row, for every row that could be
    joined, exactly when the relation does not provide it. */
  lemma ProbeNameStableExactlyWhenForeign(rel: Relation, outer: Option<Context>, l: Context, e: Expr)
    requires e.Identifier? || e.CompoundIdentifier?
    ensures (forall r: Row | |r| == |rel.columns| :: Agree(Surroundings(outer, l), PairContext(rel, outer, l, r), e))
            <==> Foreign(rel, e)
  {
    hide Agree, Foreign;
    if Foreign(rel, e) {
      forall r: Row | |r| == |rel.columns| ensures Agree(Surroundings(outer, l), PairContext(rel, outer, l, r), e) {
        ForeignNamesAgree(rel, outer, l, r, e);
      }
    } else {
      ShadowedNameDiffers(rel, outer, l, e);
    }
  }

  lemma NamedInPair(rel: Relation, outer: Option<Context>, l: Context, r: Row, e: Expr)
    requires IsName(e) && |r| == |rel.columns|
    ensures var here := Named(Data(rel.alias, rel.columns, r, Option.None), e);
            && (here.Some? <==> !Foreign(rel, e))
            && Named(PairContext(rel, outer, l, r), e) == OrElse(here, Named(Surroundings(outer, l), e))
            && Named(BuildContext(rel, outer, r), e)
               == (if outer.Some? then OrElse(here, Named(outer.value, e)) else here)
            && Named(Surroundings(outer, l), e)
               == (if outer.Some? then OrElse(Named(l, e), Named(outer.value, e)) else Named(l, e))
  {
  }

  /** A build column means the same with and without the left row exactly when the relation provides
    it, the left row does not, or the left row and the enclosing query say the same. */
  lemma BuildNameStableExactlyWhen(rel: Relation, outer: Option<Context>, l: Context, r: Row, e: Expr)
    requires IsName(e) && |r| == |rel.columns|
    ensures Agree(BuildContext(rel, outer, r), PairContext(rel, outer, l, r), e) <==>
              || !Foreign(rel, e) || Named(l, e).None?
              || (outer.Some? && Named(outer.value, e) == Named(l, e))
  {
    hide Lookup, LookupAlias, Foreign;
    NamedInPair(rel, outer, l, r, e);
  }

  // ----- one pair -----

  /** On this pair the ON condition has no errors, the parts of the plan see the names as the
    condition does, and hashing agrees with the comparison. */
  predicate Aligned(
      sem: Semantics, outer: Option<Context>, rel: Relation, executor: Executor, on: Expr, l: Context, r: Row)
    requires executor.Hash?
  {
    var build, pair := BuildContext(rel, outer, r), PairContext(rel, outer, l, r);
    && AllBoolean(sem, pair, SplitConjuncts(on))
    && Agree(build, pair, executor.key)
    && (executor.filter.Some? ==> Agree(build, pair, executor.filter.value))
    && Agree(Surroundings(outer, l), pair, executor.value)
    && Eval(sem, pair, executor.key).Ok? && Eval(sem, pair, executor.value).Ok?
    && HashAgrees(sem, Eval(sem, pair, executor.key).value, Eval(sem, pair, executor.value).value)
  }

  /** The equality holds exactly when the build key and the probe key meet. */
  lemma EqualityIsSameKey(sem: Semantics, c: Context, key: Expr, value: Expr, equality: Expr)
    requires equality == Eq(key, value) || equality == Eq(value, key)
    requires Eval(sem, c, key).Ok? && Eval(sem, c, value).Ok?
    requires HashAgrees(sem, Eval(sem, c, key).value, Eval(sem, c, value).value)
    ensures Holds(sem, c, equality) <==> SameKey(sem, Eval(sem, c, key).value, Eval(sem, c, value).value)
  {
    hide SameKey, AsKey, EvaluatedEq;
    var k, v := Eval(sem, c, key).value, Eval(sem, c, value).value;
    if equality == Eq(key, value) {
      assert Eval(sem, c, equality) == Ok(EvalEq(sem, k, v));
      ConditionFromTribool(sem, k, v);
    } else {
      assert Eval(sem, c, equality) == Ok(EvalEq(sem, v, k));
      ConditionFromTribool(sem, v, k);
    }
  }

  lemma ConditionFromTribool(sem: Semantics, a: Evaluated, b: Evaluated)
    ensures var v := EvalEq(sem, a, b);
            v == TRUE <==> !IsNull(v) && ToBool(v) == Ok(true)
    ensures EvalEq(sem, a, b).Val?
  {
    hide EvaluatedEq;
  }

  lemma EqualityIsBoolean(sem: Semantics, a: Evaluated, b: Evaluated)
    ensures var v := EvalEq(sem, a, b); IsNull(v) || ToBool(v).Ok?
  {
    hide EvaluatedEq;
  }

  /** A row is found under the probe key and passes the residual constraint exactly when the pair
    satisfies the whole ON condition. */
  lemma PairMatches(sem: Semantics, outer: Option<Context>, rel: Relation, scopes: Scopes, on: Expr, l: Context, r: Row)
    requires var plan := Plan(scopes, on);
             && plan.executor.Hash? && Aligned(sem, outer, rel, plan.executor, on, l, r)
             && BuildKey(sem, BuildContext(rel, outer, r), plan.executor.key, plan.executor.filter).Ok?
             && ProbeKey(sem, outer, plan.executor.value, l).Ok?
    ensures var plan := Plan(scopes, on);
            var found := BuildKey(sem, BuildContext(rel, outer, r), plan.executor.key, plan.executor.filter)
                         == Ok(Some(ProbeKey(sem, outer, plan.executor.value, l).value));
            && (found ==> Match(sem, outer, rel, plan.constraint, l, r) == Match(sem, outer, rel, Some(on), l, r))
            && (!found ==> Match(sem, outer, rel, Some(on), l, r) == [])
  {
    hide Plan, SplitConjuncts, Eval, AsKey, HashAgrees, Agree, Canonical, EvalEq;
    var plan := Plan(scopes, on);
    var build, pair := BuildContext(rel, outer, r), PairContext(rel, outer, l, r);
    var key, value, filter := plan.executor.key, plan.executor.value, plan.executor.filter;
    var equality := PlanKeepsMeaning(sem, pair, scopes, on);
    AgreeingContextsEvaluateAlike(sem, build, pair, key);
    AgreeingContextsEvaluateAlike(sem, Surroundings(outer, l), pair, value);
    if filter.Some? { AgreeingContextsEvaluateAlike(sem, build, pair, filter.value); }
    EqualityIsSameKey(sem, pair, key, value, equality);
    SplitPreservesMeaning(sem, pair, on);
  }

  // ----- all pairs -----

  ghost predicate RowsAligned(
      sem: Semantics, outer: Option<Context>, rel: Relation, executor: Executor, on: Expr, l: Context, rows: seq<Row>)
    requires executor.Hash?
  {
    && ProbeKey(sem, outer, executor.value, l).Ok?
    && forall i | 0 <= i < |rows| :: Aligned(sem, outer, rel, executor, on, l, rows[i])
  }

  ghost predicate Buildable(sem: Semantics, outer: Option<Context>, rel: Relation, executor: Executor, rows: seq<Row>)
    requires executor.Hash?
  {
    forall i | 0 <= i < |rows| :: BuildKey(sem, BuildContext(rel, outer, rows[i]), executor.key, executor.filter).Ok?
  }

  lemma {:induction false} BuildSucceeds(
      sem: Semantics, outer: Option<Context>, rel: Relation, executor: Executor, rows: seq<Row>)
    requires executor.Hash? && Buildable(sem, outer, rel, executor, rows)
    ensures BuildEntries(sem, outer, rel, executor.key, executor.filter, rows).Ok?
  {
    hide BuildKey;
    if rows != [] { BuildSucceeds(sem, outer, rel, executor, rows[..|rows| - 1]); }
  }

  lemma {:induction false} ProbeFindsMatches(
      sem: Semantics, outer: Option<Context>, rel: Relation, scopes: Scopes, on: Expr, l: Context, rows: seq<Row>)
    requires var plan := Plan(scopes, on);
             && plan.executor.Hash? && RowsAligned(sem, outer, rel, plan.executor, on, l, rows)
             && Buildable(sem, outer, rel, plan.executor, rows)
             && BuildEntries(sem, outer, rel, plan.executor.key, plan.executor.filter, rows).Ok?
    ensures var plan := Plan(scopes, on);
            var entries := BuildEntries(sem, outer, rel, plan.executor.key, plan.executor.filter, rows).value;
            var probe := ProbeKey(sem, outer, plan.executor.value, l).value;
            Matches(sem, outer, rel, plan.constraint, l, RowsUnder(entries, probe))
              == Matches(sem, outer, rel, Some(on), l, rows)
    decreases |rows|
  {
    hide Plan, Aligned, BuildKey, ProbeKey, Match, Matches, RowsUnder;
    if rows == [] {
      NothingMatches(sem, outer, rel, on, l);
    } else {
      var n := |rows| - 1;
      var plan := Plan(scopes, on);
      var key, filter := plan.executor.key, plan.executor.filter;
      var probe := ProbeKey(sem, outer, plan.executor.value, l).value;
      BuildSucceeds(sem, outer, rel, plan.executor, rows[..n]);
      ProbeFindsMatches(sem, outer, rel, scopes, on, l, rows[..n]);
      PairMatches(sem, outer, rel, scopes, on, l, rows[n]);
      var init := BuildEntries(sem, outer, rel, key, filter, rows[..n]).value;
      var entries := BuildEntries(sem, outer, rel, key, filter, rows).value;
      var k := BuildKey(sem, BuildContext(rel, outer, rows[n]), key, filter).value;
      ProbeStep(sem, outer, rel, plan.constraint, on, l, init, k, rows[n], probe, rows[..n]);
      assert rows == rows[..n] + [rows[n]];
      assert entries == if k.Some? then init + [BuildEntry(k.value, rows[n])] else init;
    }
  }

  lemma NothingMatches(sem: Semantics, outer: Option<Context>, rel: Relation, on: Expr, l: Context)
    ensures forall e, k :: Matches(sem, outer, rel, e, l, RowsUnder([], k)) == []
    ensures Matches(sem, outer, rel, Some(on), l, []) == []
  {
  }

  lemma ProbeStep(
      sem: Semantics, outer: Option<Context>, rel: Relation, constraint: Option<Expr>, on: Expr, l: Context,
      init: seq<BuildEntry>, k: Option<Key>, row: Row, probe: Key, rows: seq<Row>)
    requires Matches(sem, outer, rel, constraint, l, RowsUnder(init, probe))
        == Matches(sem, outer, rel, Some(on), l, rows)
    requires if k == Some(probe)
             then Match(sem, outer, rel, constraint, l, row) == Match(sem, outer, rel, Some(on), l, row)
             else Match(sem, outer, rel, Some(on), l, row) == []
    ensures var entries := if k.Some? then init + [BuildEntry(k.value, row)] else init;
            Matches(sem, outer, rel, constraint, l, RowsUnder(entries, probe))
              == Matches(sem, outer, rel, Some(on), l, rows + [row])
  {
    hide Match, Matches, RowsUnder;
    MatchesAppend(sem, outer, rel, constraint, l, RowsUnder(init, probe), row);
    MatchesAppend(sem, outer, rel, Some(on), l, rows, row);
    if k.Some? { RowsUnderAppend(init, BuildEntry(k.value, row), probe); }
    assert RowsUnder(init, probe) + [] == RowsUnder(init, probe);
    var m := Matches(sem, outer, rel, Some(on), l, rows);
    assert m + [] == m;
  }

  lemma RowsUnderAppend(entries: seq<BuildEntry>, entry: BuildEntry, key: Key)
    ensures RowsUnder(entries + [entry], key) == RowsUnder(entries, key) + if entry.key == key then [entry.row] else []
  {
    assert (entries + [entry])[..|entries|] == entries;
  }

  lemma MatchesAppend(
      sem: Semantics, outer: Option<Context>, rel: Relation, on: Option<Expr>, l: Context, rows: seq<Row>, row: Row)
    ensures Matches(sem, outer, rel, on, l, rows + [row])
         == Matches(sem, outer, rel, on, l, rows) + Match(sem, outer, rel, on, l, row)
  {
    hide Match;
    assert (rows + [row])[..|rows|] == rows;
  }

  // ----- the theorem -----

  /** Every row can be hashed and every pair is aligned with the plan. */
  ghost predicate HashPlanApplies(
      sem: Semantics, outer: Option<Context>, rel: Relation, executor: Executor, on: Expr, left: seq<Item>)
    requires executor.Hash?
  {
    && Buildable(sem, outer, rel, executor, rel.rows)
    && forall i | 0 <= i < |left| && left[i].Ok? :: RowsAligned(sem, outer, rel, executor, on, left[i].value, rel.rows)
  }

  ghost predicate NestedPlanApplies(sem: Semantics, outer: Option<Context>, rel: Relation, on: Expr, left: seq<Item>) {
    forall i, j | 0 <= i < |left| && left[i].Ok? && 0 <= j < |rel.rows| ::
      AllBoolean(sem, PairContext(rel, outer, left[i].value, rel.rows[j]), SplitConjuncts(on))
  }

  ghost predicate PlanApplies(
      sem: Semantics, outer: Option<Context>, rel: Relation, executor: Executor, on: Expr, left: seq<Item>)
  {
    if executor.Hash? then HashPlanApplies(sem, outer, rel, executor, on, left)
    else NestedPlanApplies(sem, outer, rel, on, left)
  }

  /** The planned join yields the same rows in the same order as checking the whole ON condition on
    every pair, for inner and left outer joins. */
  lemma PlannedJoinIsNestedLoop(
      sem: Semantics, outer: Option<Context>, rel: Relation, operator: Operator, scopes: Scopes, on: Expr,
      left: seq<Item>)
    requires PlanApplies(sem, outer, rel, Plan(scopes, on).executor, on, left)
    ensures Joined(sem, outer, Clause(rel, operator, Plan(scopes, on)), left)
         == Ok(NestedLoopJoin(sem, outer, rel, operator, Some(on), left))
  {
    hide Plan, RowsAligned, NestedPlanApplies, BuildEntries, Probe, Matches, Padded, FlatMap;
    var clause := Clause(rel, operator, Plan(scopes, on));
    var reference := l => Padded(rel, operator, l, Matches(sem, outer, rel, Some(on), l, rel.rows));
    var entries := [];
    if clause.plan.executor.Hash? {
      BuildSucceeds(sem, outer, rel, clause.plan.executor, rel.rows);
      entries := BuildEntries(sem, outer, rel, clause.plan.executor.key, clause.plan.executor.filter, rel.rows).value;
    }
    JoinedPerRow(sem, outer, clause, entries, left);
    var f := PerRow(sem, outer, clause, entries);
    forall i | 0 <= i < |left| && left[i].Ok? ensures f(left[i].value) == reference(left[i].value) {
      if clause.plan.executor.Hash? {
        HashedRowIsNestedLoop(sem, outer, rel, operator, scopes, on, left[i].value, entries);
      } else {
        ScannedRowIsNestedLoop(sem, outer, rel, scopes, on, left, i, rel.rows);
      }
    }
    FlatMapCongruent(f, reference, left);
  }

  lemma HashedRowIsNestedLoop(
      sem: Semantics, outer: Option<Context>, rel: Relation, operator: Operator, scopes: Scopes, on: Expr, l: Context,
      entries: seq<BuildEntry>)
    requires var plan := Plan(scopes, on);
             && plan.executor.Hash? && RowsAligned(sem, outer, rel, plan.executor, on, l, rel.rows)
             && Buildable(sem, outer, rel, plan.executor, rel.rows)
             && BuildEntries(sem, outer, rel, plan.executor.key, plan.executor.filter, rel.rows) == Ok(entries)
    ensures PerRow(sem, outer, Clause(rel, operator, Plan(scopes, on)), entries)(l)
         == Padded(rel, operator, l, Matches(sem, outer, rel, Some(on), l, rel.rows))
  {
    hide Plan, Aligned, BuildKey, ProbeKey, Matches, RowsUnder, BuildEntries, Padded;
    ProbeFindsMatches(sem, outer, rel, scopes, on, l, rel.rows);
  }

  lemma {:induction false} ScannedRowIsNestedLoop(
      sem: Semantics, outer: Option<Context>, rel: Relation, scopes: Scopes, on: Expr, left: seq<Item>, i: nat,
      rows: seq<Row>)
    requires var plan := Plan(scopes, on);
             plan.executor.NestedLoop? && NestedPlanApplies(sem, outer, rel, on, left)
    requires i < |left| && left[i].Ok? && rows <= rel.rows
    ensures Matches(sem, outer, rel, Plan(scopes, on).constraint, left[i].value, rows)
         == Matches(sem, outer, rel, Some(on), left[i].value, rows)
    decreases |rows|
  {
    hide Plan, CheckExpr, SplitConjuncts;
    if rows != [] {
      var n := |rows| - 1;
      ScannedRowIsNestedLoop(sem, outer, rel, scopes, on, left, i, rows[..n]);
      assert rows[n] == rel.rows[n];
      var pair := PairContext(rel, outer, left[i].value, rows[n]);
      var equality := PlanKeepsMeaning(sem, pair, scopes, on);
      SplitPreservesMeaning(sem, pair, on);
    }
  }
}

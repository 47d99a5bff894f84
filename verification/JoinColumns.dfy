/** Joins on an equality of two columns: exactly when the hash plan is right, and what it does when it
  is not (core/src/plan/join.rs, core/src/executor/join.rs). */
module JoinColumns {
  import opened Data
  import opened Expressions
  import opened JoinPlanning
  import opened Joins
  import opened JoinFacts
  import opened JoinKeys
  import opened JoinRuns

  // ----- rows of one type -----

  /** A row of the schema: one value of its column's type, or NULL, for each column. */
  ghost predicate RowFits(types: seq<DataType>, r: Row) {
    |r| == |types| && forall j | 0 <= j < |r| :: OfType(r[j], types[j])
  }

  ghost predicate RowsFit(types: seq<DataType>, rows: seq<Row>) {
    forall i | 0 <= i < |rows| :: RowFits(types, rows[i])
  }

  function ColumnName(e: Expr): string
    requires IsName(e)
  {
    if e.Identifier? then e.name else e.column
  }

  /** If the relation provides the name, the schema gives its column the type. */
  ghost predicate Declares(rel: Relation, types: seq<DataType>, e: Expr, t: DataType)
    requires IsName(e) && |types| == |rel.columns|
  {
    var at := Position(rel.columns, ColumnName(e));
    !Foreign(rel, e) && at.Some? ==> types[at.value] == t
  }

  /** If the row context provides the name, then with a value of the type. */
  ghost predicate Holds(c: Context, e: Expr, t: DataType)
    requires IsName(e)
  {
    Named(c, e).Some? ==> OfType(Named(c, e).value, t)
  }

  /** The row context is one that the planner's scope describes. */
  ghost predicate Shows(scope: Scope, c: Context) {
    match scope
    case Columns(alias, columns, next) =>
      && c.Data? && c.alias == alias && c.columns == columns && |c.values| == |columns|
      && (next.Some? <==> c.next.Some?)
      && (next.Some? ==> Shows(next.value, c.next.value))
    case Either(left, right) => c.Bridge? && Shows(left, c.left) && Shows(right, c.right)
  }

  /** What the scope knows, a row it describes provides. */
  lemma {:induction false} KnownNameIsProvided(scope: Scope, c: Context, e: Expr)
    requires Shows(scope, c) && IsName(e)
    ensures Evaluable(Some(scope), e) ==> Named(c, e).Some?
    decreases scope
  {
    match scope
    case Columns(_, _, next) => if next.Some? { KnownNameIsProvided(next.value, c.next.value, e); }
    case Either(left, right) =>
      KnownNameIsProvided(left, c.left, e);
      KnownNameIsProvided(right, c.right, e);
  }

  /** A name of the relation is provided by each of its rows, with the value of its column. */
  lemma OwnNameIsProvided(rel: Relation, next: Option<Context>, r: Row, e: Expr)
    requires IsName(e) && !Foreign(rel, e) && |r| == |rel.columns|
    ensures var at := Position(rel.columns, ColumnName(e));
            at.Some? && Named(Data(rel.alias, rel.columns, r, next), e) == Some(r[at.value])
  {
    assert RowValue(rel.columns, r, ColumnName(e)).Some?;
  }

  // ----- the plan of an equality of two columns -----

  function ColumnScopes(rel: Relation, inner: Scope): Scopes {
    Scopes(Option.None, Some(inner), Some(Columns(rel.alias, rel.columns, Option.None)))
  }

  /** Such an equality is always planned whole: the key is a column of the joined relation. */
  lemma ColumnPlan(rel: Relation, inner: Scope, on: Expr)
    requires on.Eq? && IsName(on.left) && IsName(on.right) && Plan(ColumnScopes(rel, inner), on).executor.Hash?
    ensures var plan := Plan(ColumnScopes(rel, inner), on);
            && plan.constraint.None? && plan.executor.filter.None?
            && (on == Eq(plan.executor.key, plan.executor.value) || on == Eq(plan.executor.value, plan.executor.key))
            && IsName(plan.executor.key) && !Foreign(rel, plan.executor.key)
            && IsName(plan.executor.value)
            && (Foreign(rel, plan.executor.value) ==> Evaluable(Some(inner), plan.executor.value))
  {
    var scopes := ColumnScopes(rel, inner);
    var keys, values := scopes.Keys(), scopes.Values();
    var es := SplitConjuncts(on);
    assert es == [on];
    var at := FirstCandidate(keys, values, es);
    assert at == Some(0);
    var sides := Candidate(keys, values, on).value;
    assert es[0 + 1..] + es[..0] == [];
    assert Plan(scopes, on) == Planned(Hash(sides.key, sides.value, Option.None), Option.None);
    KnownToRelation(rel, sides.key);
    KnownToRelation(rel, sides.value);
    if Foreign(rel, sides.value) { KnownBesideRelation(rel, inner, sides.value); }
  }

  lemma KnownToRelation(rel: Relation, e: Expr)
    requires IsName(e)
    ensures Evaluable(Some(Columns(rel.alias, rel.columns, Option.None)), e) <==> !Foreign(rel, e)
  {
  }

  lemma KnownBesideRelation(rel: Relation, inner: Scope, e: Expr)
    requires IsName(e) && Foreign(rel, e)
      && Evaluable(Some(Either(Columns(rel.alias, rel.columns, Option.None), inner)), e)
    ensures Evaluable(Some(inner), e)
  {
    var own := Columns(rel.alias, rel.columns, Option.None);
    if e.Identifier? {
      assert !ContainsColumn(own, e.name);
      assert ContainsColumn(Either(own, inner), e.name);
    } else {
      assert !ContainsAliasedColumn(own, e.alias, e.column);
      assert ContainsAliasedColumn(Either(own, inner), e.alias, e.column);
    }
  }

  // ----- a foreign probe column -----

  lemma ColumnPairIsBoolean(sem: Semantics, rel: Relation, l: Context, r: Row, on: Expr)
    requires on.Eq? && IsName(on.left) && IsName(on.right)
    requires Named(PairContext(rel, Option.None, l, r), on.left).Some?
    requires Named(PairContext(rel, Option.None, l, r), on.right).Some?
    ensures AllBoolean(sem, PairContext(rel, Option.None, l, r), SplitConjuncts(on))
  {
    var c := PairContext(rel, Option.None, l, r);
    NamedEvaluates(sem, c, on.left);
    NamedEvaluates(sem, c, on.right);
    var a, b := Eval(sem, c, on.left).value, Eval(sem, c, on.right).value;
    assert Eval(sem, c, on) == Ok(EvalEq(sem, a, b));
    EqualityIsBoolean(sem, a, b);
    assert SplitConjuncts(on) == [on];
  }

  /** The left row is one that the scope describes, and the compared columns have one type. */
  ghost predicate Compares(
      rel: Relation, types: seq<DataType>, inner: Scope, l: Context, on: Expr, t: DataType)
    requires |types| == |rel.columns| && on.Eq? && IsName(on.left) && IsName(on.right)
  {
    var executor := Plan(ColumnScopes(rel, inner), on).executor;
    && KeyType(t) && Shows(inner, l)
    && Declares(rel, types, on.left, t) && Declares(rel, types, on.right, t)
    && (executor.Hash? && IsName(executor.value) ==> Holds(l, executor.value, t))
  }

  /** With a foreign probe column nothing fails, and everything hashes as it compares. */
  lemma ForeignColumnsRun(
      sem: Semantics, rel: Relation, types: seq<DataType>, inner: Scope, l: Context, on: Expr, t: DataType)
    requires on.Eq? && IsName(on.left) && IsName(on.right) && Plan(ColumnScopes(rel, inner), on).executor.Hash?
    requires Foreign(rel, Plan(ColumnScopes(rel, inner), on).executor.value)
    requires |types| == |rel.columns| && RowsFit(types, rel.rows) && Compares(rel, types, inner, l, on, t)
    ensures Runs(sem, Option.None, rel, Plan(ColumnScopes(rel, inner), on).executor, on, [Ok(l)])
  {
    hide Plan, Shows, GetType, ToKey, Eval, KeyType, Position;
    ColumnPlan(rel, inner, on);
    var executor := Plan(ColumnScopes(rel, inner), on).executor;
    var key, value := executor.key, executor.value;
    KnownNameIsProvided(inner, l, value);
    NamedEvaluates(sem, l, value);
    var v := Named(l, value).value;
    KeysOfKeyType(v, t);
    forall j | 0 <= j < |rel.rows|
      ensures BuildKey(sem, BuildContext(rel, Option.None, rel.rows[j]), key, Option.None).Ok?
      ensures HashAgrees(sem, Eval(sem, BuildContext(rel, Option.None, rel.rows[j]), key).value,
          Eval(sem, l, value).value)
      ensures AllBoolean(sem, PairContext(rel, Option.None, l, rel.rows[j]), SplitConjuncts(on))
    {
      var r := rel.rows[j];
      var build, pair := BuildContext(rel, Option.None, r), PairContext(rel, Option.None, l, r);
      assert RowFits(types, r);
      OwnNameIsProvided(rel, Option.None, r, key);
      OwnNameIsProvided(rel, Some(l), r, key);
      NamedEvaluates(sem, build, key);
      var k := Named(build, key).value;
      KeysOfKeyType(k, t);
      OneTypeHashes(sem, k, v, t);
      ForeignNamesAgree(rel, Option.None, l, r, value);
      assert Named(pair, value) == Named(l, value);
      ColumnPairIsBoolean(sem, rel, l, r, on);
    }
  }

  // ----- a relation of one row -----

  lemma SingleLeftRow(f: Context -> seq<Item>, l: Context)
    ensures FlatMap(f, [Ok(l)]) == f(l)
  {
    var left: seq<Item> := [Ok(l)];
    assert left[..0] == [] && FlatMap(f, left[..0]) == [];
    assert FlatMap(f, left) == [] + f(l);
  }

  /** The hash join of one left row with one row of the relation. */
  lemma OneRowHashJoin(
      sem: Semantics, rel: Relation, operator: Operator, key: Expr, value: Expr, l: Context, k: Evaluated,
      v: Evaluated)
    requires |rel.rows| == 1
    requires Eval(sem, BuildContext(rel, Option.None, rel.rows[0]), key) == Ok(k)
    requires AsKey(sem, k).Ok? && !AsKey(sem, k).value.None?
    requires Eval(sem, l, value) == Ok(v) && AsKey(sem, v).Ok?
    ensures Joined(sem, Option.None, Clause(rel, operator, Planned(Hash(key, value, Option.None), Option.None)),
              [Ok(l)])
         == Ok(Padded(rel, operator, l, if SameKey(sem, k, v) then [Ok(JoinedRow(rel, l, rel.rows[0]))] else []))
  {
    hide Eval, Canonical, AsKey;
    var clause := Clause(rel, operator, Planned(Hash(key, value, Option.None), Option.None));
    var entry := BuildEntry(Canonical(AsKey(sem, k).value), rel.rows[0]);
    assert BuildEntries(sem, Option.None, rel, key, Option.None, rel.rows) == Ok([entry]) by {
      assert rel.rows[..0] == [] && BuildEntries(sem, Option.None, rel, key, Option.None, rel.rows[..0]) == Ok([]);
      assert [] + [entry] == [entry];
      assert BuildKey(sem, BuildContext(rel, Option.None, rel.rows[0]), key, Option.None) == Ok(Some(entry.key));
    }
    hide BuildEntries;
    JoinedPerRow(sem, Option.None, clause, [entry], [Ok(l)]);
    var f := PerRow(sem, Option.None, clause, [entry]);
    SingleLeftRow(f, l);
    var probe := Canonical(AsKey(sem, v).value);
    assert ProbeKey(sem, Option.None, value, l) == Ok(probe);
    RowsUnderAppend([], entry, probe);
    assert [] + [entry] == [entry];
    OneRowMatches(sem, rel, Option.None, l, rel.rows[0], true);
    assert Matches(sem, Option.None, rel, Option.None, l, []) == [];
  }

  lemma OneRowMatches(sem: Semantics, rel: Relation, on: Option<Expr>, l: Context, r: Row, pass: bool)
    requires Check(sem, PairContext(rel, Option.None, l, r), on) == Ok(pass)
    ensures Matches(sem, Option.None, rel, on, l, [r]) == if pass then [Ok(JoinedRow(rel, l, r))] else []
  {
    hide Check;
    MatchesAppend(sem, Option.None, rel, on, l, [], r);
    assert [] + [r] == [r];
    assert Matches(sem, Option.None, rel, on, l, []) == [];
  }

  lemma OneRowNestedLoop(sem: Semantics, rel: Relation, operator: Operator, on: Expr, l: Context, pass: bool)
    requires |rel.rows| == 1 && CheckExpr(sem, PairContext(rel, Option.None, l, rel.rows[0]), on) == Ok(pass)
    ensures NestedLoopJoin(sem, Option.None, rel, operator, Some(on), [Ok(l)])
         == Padded(rel, operator, l, if pass then [Ok(JoinedRow(rel, l, rel.rows[0]))] else [])
  {
    hide CheckExpr;
    OneRowMatches(sem, rel, Some(on), l, rel.rows[0], pass);
    assert rel.rows == [rel.rows[0]];
    SingleLeftRow(c => Padded(rel, operator, c, Matches(sem, Option.None, rel, Some(on), c, rel.rows)), l);
  }

  // ----- a probe column of the joined relation -----

  /** Some value that differs from this one. */
  function Other(v: Value, x: Value, y: Value): (o: Value)
    requires x != y
    ensures o != v && (o == x || o == y)
  {
    if x == v then y else x
  }

  /** A row of the schema with this value in every column of the type. */
  function Sample(types: seq<DataType>, t: DataType, o: Value): (r: Row)
    ensures |r| == |types| && forall j | 0 <= j < |r| :: r[j] == if types[j] == t then o else Value.Null
  {
    seq(|types|, j requires 0 <= j < |types| => if types[j] == t then o else Value.Null)
  }

  /** The planned join of one left row equals the nested loop, with these rows of the relation. */
  ghost predicate RightOn(
      sem: Semantics, rel: Relation, rows: seq<Row>, operator: Operator, inner: Scope, l: Context, on: Expr)
  {
    var relation := rel.(rows := rows);
    Joined(sem, Option.None, Clause(relation, operator, Plan(ColumnScopes(rel, inner), on)), [Ok(l)])
    == Ok(NestedLoopJoin(sem, Option.None, relation, operator, Some(on), [Ok(l)]))
  }

  lemma ForeignProbeIsRight(
      sem: Semantics, rel: Relation, types: seq<DataType>, rows: seq<Row>, operator: Operator, inner: Scope,
      l: Context, on: Expr, t: DataType)
    requires on.Eq? && IsName(on.left) && IsName(on.right) && Plan(ColumnScopes(rel, inner), on).executor.Hash?
    requires Foreign(rel, Plan(ColumnScopes(rel, inner), on).executor.value)
    requires |types| == |rel.columns| && RowsFit(types, rows) && Compares(rel, types, inner, l, on, t)
    ensures RightOn(sem, rel, rows, operator, inner, l, on)
  {
    hide Plan, Shows, Runs, Separated, Joined, NestedLoopJoin;
    var relation, scopes := rel.(rows := rows), ColumnScopes(rel, inner);
    assert ColumnScopes(relation, inner) == scopes;
    SameNamesForeign(rel, relation, Plan(scopes, on).executor.value);
    SameNamesForeign(rel, relation, on.left);
    SameNamesForeign(rel, relation, on.right);
    assert forall r | r in rows :: RowFits(types, r);
    ForeignColumnsRun(sem, relation, types, inner, l, on, t);
    TopLevelPlanIsSeparated(relation, scopes, on, [Ok(l)]);
    SeparatedJoinIsNestedLoop(sem, Option.None, relation, operator, scopes, on, [Ok(l)]);
  }

  lemma {:induction false} SameNamesForeign(a: Relation, b: Relation, e: Expr)
    requires a.alias == b.alias && a.columns == b.columns
    ensures Foreign(a, e) <==> Foreign(b, e)
    decreases e
  {
    match e
    case Identifier(_) =>
    case CompoundIdentifier(_, _) =>
    case Constant(_) =>
    case ValueOf(_) =>
    case Nested(inner) => SameNamesForeign(a, b, inner);
    case And(left, right) => SameNamesForeign(a, b, left); SameNamesForeign(a, b, right);
    case Eq(left, right) => SameNamesForeign(a, b, left); SameNamesForeign(a, b, right);
    case Operation(_, args) =>
      forall i | 0 <= i < |args| ensures Foreign(a, args[i]) <==>
        Foreign(b, args[i]) { SameNamesForeign(a, b, args[i]); }
  }

  /** A probe side that fails on the left row fails even without any rows of the relation. */
  lemma FailingProbeIsWrong(sem: Semantics, rel: Relation, operator: Operator, inner: Scope, l: Context, on: Expr)
    requires Plan(ColumnScopes(rel, inner), on).executor.Hash?
    requires ProbeKey(sem, Option.None, Plan(ColumnScopes(rel, inner), on).executor.value, l).Err?
    ensures !RightOn(sem, rel, [], operator, inner, l, on)
  {
    hide Plan, ProbeKey;
    var relation := rel.(rows := []);
    var clause := Clause(relation, operator, Plan(ColumnScopes(rel, inner), on));
    assert BuildEntries(sem, Option.None, relation, clause.plan.executor.key, clause.plan.executor.filter, [])
      == Ok([]);
    JoinedPerRow(sem, Option.None, clause, [], [Ok(l)]);
    SingleLeftRow(PerRow(sem, Option.None, clause, []), l);
    SingleLeftRow(c => Padded(relation, operator, c, Matches(sem, Option.None, relation, Some(on), c, [])), l);
  }

  /** In a row with one key in all columns of the type, two own columns of the type are equal. */
  lemma SamplePairHolds(
      sem: Semantics, rel: Relation, types: seq<DataType>, l: Context, on: Expr, o: Value, t: DataType)
    requires on.Eq? && IsName(on.left) && IsName(on.right) && !Foreign(rel, on.left) && !Foreign(rel, on.right)
    requires |types| == |rel.columns| && Declares(rel, types, on.left, t) && Declares(rel, types, on.right, t)
    requires GetType(o) == Some(t) && KeyType(t) && !o.Null?
    ensures CheckExpr(sem, PairContext(rel, Option.None, l, Sample(types, t, o)), on) == Ok(true)
  {
    hide GetType, ToKey, EvaluateEq;
    var r := Sample(types, t, o);
    var c := PairContext(rel, Option.None, l, r);
    OwnNameIsProvided(rel, Some(l), r, on.left);
    OwnNameIsProvided(rel, Some(l), r, on.right);
    NamedEvaluates(sem, c, on.left);
    NamedEvaluates(sem, c, on.right);
    KeysOfKeyType(o, t);
    OneTypeEq(sem.approx, o, o);
    assert Eval(sem, c, on) == Ok(TRUE);
  }

  lemma DifferentKeys(sem: Semantics, a: Value, b: Value, t: DataType)
    requires OfType(a, t) && OfType(b, t) && KeyType(t) && a != b
    ensures AsKey(sem, Val(a)).Ok? && AsKey(sem, Val(b)).Ok? && !SameKey(sem, Val(a), Val(b))
    ensures AsKey(sem, Val(a)).value.None? <==> a.Null?
  {
    KeysOfKeyType(a, t);
    KeysOfKeyType(b, t);
    KeysInjective(a, b);
    NullKey(a);
    hide ToKey;
    PlainCanonical(a);
    PlainCanonical(b);
  }

  lemma PlainCanonical(v: Value)
    requires ToKey(v).Ok? && !v.F32? && !v.F64?
    ensures Canonical(ToKey(v).value) == ToKey(v).value
  {
  }

  /** With a key in its own column that differs from the probed one, the only row is not found. */
  lemma SampleIsNotFound(
      sem: Semantics, rel: Relation, types: seq<DataType>, operator: Operator, key: Expr, value: Expr, l: Context,
      t: DataType, o: Value)
    requires IsName(key) && IsName(value) && !Foreign(rel, key) && |types| == |rel.columns|
    requires rel.rows == [Sample(types, t, o)] && Declares(rel, types, key, t) && KeyType(t)
    requires Named(l, value).Some? && Holds(l, value, t)
    requires GetType(o) == Some(t) && !o.Null? && o != Named(l, value).value
    ensures Joined(sem, Option.None, Clause(rel, operator, Planned(Hash(key, value, Option.None), Option.None)),
              [Ok(l)])
         == Ok(Padded(rel, operator, l, []))
    ensures Sample(types, t, o) != Nulls(rel)
  {
    hide GetType, ToKey, Canonical, Eval, Joined, Named, Foreign, Padded;
    var r := Sample(types, t, o);
    OwnNameIsProvided(rel, Option.None, r, key);
    NamedEvaluates(sem, BuildContext(rel, Option.None, r), key);
    NamedEvaluates(sem, l, value);
    DifferentKeys(sem, o, Named(l, value).value, t);
    OneRowHashJoin(sem, rel, operator, key, value, l, Val(o), Val(Named(l, value).value));
    NullsDiffer(rel, r, Position(rel.columns, ColumnName(key)).value);
  }

  lemma NullsDiffer(rel: Relation, r: Row, at: nat)
    requires |r| == |rel.columns| && at < |r| && !r[at].Null?
    ensures Nulls(rel) != r
  {
    assert Nulls(rel)[at] != r[at];
  }

  /** A probe column of the relation whose name the left row knows too compares with the wrong row. */
  lemma ShadowedProbeIsWrong(
      sem: Semantics, rel: Relation, types: seq<DataType>, operator: Operator, inner: Scope, l: Context, on: Expr,
      t: DataType, o: Value)
    requires on.Eq? && IsName(on.left) && IsName(on.right) && Plan(ColumnScopes(rel, inner), on).executor.Hash?
    requires !Foreign(rel, Plan(ColumnScopes(rel, inner), on).executor.value)
    requires IsName(Plan(ColumnScopes(rel, inner), on).executor.value)
      && Named(l, Plan(ColumnScopes(rel, inner), on).executor.value).Some?
    requires |types| == |rel.columns| && Compares(rel, types, inner, l, on, t)
    requires GetType(o) == Some(t) && !o.Null? && o != Named(l, Plan(ColumnScopes(rel, inner), on).executor.value).value
    ensures !RightOn(sem, rel, [Sample(types, t, o)], operator, inner, l, on)
  {
    hide Plan, GetType, CheckExpr, Joined, NestedLoopJoin, Named, Foreign, Shows, OfType, KeyType, Nulls;
    var r := Sample(types, t, o);
    var relation := rel.(rows := [r]);
    var plan := Plan(ColumnScopes(rel, inner), on);
    ColumnPlan(rel, inner, on);
    SameNamesForeign(rel, relation, plan.executor.key);
    SameNamesForeign(rel, relation, plan.executor.value);
    SamplePairHolds(sem, relation, types, l, on, o, t);
    OneRowNestedLoop(sem, relation, operator, on, l, true);
    SampleIsNotFound(sem, relation, types, operator, plan.executor.key, plan.executor.value, l, t, o);
    assert plan == Planned(Hash(plan.executor.key, plan.executor.value, Option.None), Option.None);
  }

  /** The theorem for `ON a = b` with two columns of one type: planned as a hash join, it yields the rows
    of the nested loop, for all rows of the schema, exactly when the probe column is not one that the
    joined relation provides.  This holds for every left row and both operators. */
  lemma ColumnJoinIsRightExactlyWhenProbeIsForeign(
      sem: Semantics, rel: Relation, types: seq<DataType>, operator: Operator, inner: Scope, l: Context, on: Expr,
      t: DataType, x: Value, y: Value)
    requires on.Eq? && IsName(on.left) && IsName(on.right) && Plan(ColumnScopes(rel, inner), on).executor.Hash?
    requires |types| == |rel.columns| && Compares(rel, types, inner, l, on, t)
    requires GetType(x) == GetType(y) == Some(t) && x != y
    ensures (forall rows | RowsFit(types, rows) :: RightOn(sem, rel, rows, operator, inner, l, on))
            <==> Foreign(rel, Plan(ColumnScopes(rel, inner), on).executor.value)
  {
    hide Plan, Shows, RightOn, GetType;
    var value := Plan(ColumnScopes(rel, inner), on).executor.value;
    ColumnPlan(rel, inner, on);
    if Foreign(rel, value) {
      forall rows | RowsFit(types, rows) ensures RightOn(sem, rel, rows, operator, inner, l, on) {
        ForeignProbeIsRight(sem, rel, types, rows, operator, inner, l, on, t);
      }
    } else if Named(l, value).None? {
      NamedEvaluates(sem, l, value);
      FailingProbeIsWrong(sem, rel, operator, inner, l, on);
      assert RowsFit(types, []);
    } else {
      NullHasNoType(x);
      NullHasNoType(y);
      var o := Other(Named(l, value).value, x, y);
      ShadowedProbeIsWrong(sem, rel, types, operator, inner, l, on, t, o);
      assert RowsFit(types, [Sample(types, t, o)]);
    }
  }

  // ----- whole FROM clauses -----

  /** What is hashed are NULLs, keys and literals of one type, and the build filter never fails. */
  ghost predicate TypedSides(sem: Semantics, rel: Relation, executor: Executor, t: DataType, left: seq<Item>)
    requires executor.Hash?
  {
    && KeyType(t)
    && (forall j | 0 <= j < |rel.rows| ::
          var build := BuildContext(rel, Option.None, rel.rows[j]);
          EvaluatesTo(sem, build, executor.key, t) && BooleanIfAny(sem, build, executor.filter))
    && (forall i | 0 <= i < |left| && left[i].Ok? :: EvaluatesTo(sem, left[i].value, executor.value, t))
  }

  predicate EvaluatesTo(sem: Semantics, c: Context, e: Expr, t: DataType) {
    var v := Eval(sem, c, e);
    v.Ok? && HashedAs(sem.parsing, v.value, t)
  }

  lemma TypedIsKey(sem: Semantics, c: Context, e: Expr, t: DataType)
    requires KeyType(t) && EvaluatesTo(sem, c, e, t)
    ensures AsKey(sem, Eval(sem, c, e).value).Ok?
  {
    hide Eval, AsValue, ToKey;
    KeysOfKeyType(AsValue(sem.parsing, Eval(sem, c, e).value).value, t);
  }

  lemma TypedSidesHash(sem: Semantics, rel: Relation, executor: Executor, t: DataType, left: seq<Item>)
    requires executor.Hash? && TypedSides(sem, rel, executor, t, left)
    ensures Hashable(sem, Option.None, rel, executor, left)
  {
    hide Eval, HashedAs, HashAgrees, AsKey, KeyType;
    forall j | 0 <= j < |rel.rows|
      ensures BuildKey(sem, BuildContext(rel, Option.None, rel.rows[j]), executor.key, executor.filter).Ok?
    {
      var build := BuildContext(rel, Option.None, rel.rows[j]);
      assert EvaluatesTo(sem, build, executor.key, t) && BooleanIfAny(sem, build, executor.filter);
      TypedIsKey(sem, build, executor.key, t);
    }
    forall i | 0 <= i < |left| && left[i].Ok? ensures ProbeKey(sem, Option.None, executor.value, left[i].value).Ok? {
      assert EvaluatesTo(sem, left[i].value, executor.value, t);
      TypedIsKey(sem, left[i].value, executor.value, t);
    }
    forall i, j | 0 <= i < |left| && left[i].Ok? && 0 <= j < |rel.rows|
      ensures HashAgrees(sem, Eval(sem, BuildContext(rel, Option.None, rel.rows[j]), executor.key).value,
                              Eval(sem, Surroundings(Option.None, left[i].value), executor.value).value)
    {
      var build := BuildContext(rel, Option.None, rel.rows[j]);
      assert EvaluatesTo(sem, build, executor.key, t) && EvaluatesTo(sem, left[i].value, executor.value, t);
      OneTypeAgrees(sem, Eval(sem, build, executor.key).value, Eval(sem, left[i].value, executor.value).value, t);
    }
  }

  /** On the rows that reach it, each join has conjuncts that do not fail; a hash join probes with
    foreign names only, and hashes values of one type. */
  ghost predicate AllTyped(
      sem: Semantics, inner: Option<Scope>, joins: seq<Written>, types: seq<DataType>, left: seq<Item>)
    requires |types| == |joins|
    decreases |joins|
  {
    joins != [] ==>
      var j := joins[0];
      var executor := j.Planned(Option.None, inner).executor;
      && (j.on.Some? ==>
            && Rectangular(j.relation)
            && NestedPlanApplies(sem, Option.None, j.relation, j.on.value, left)
            && (executor.Hash? ==>
                  Foreign(j.relation, executor.value) && TypedSides(sem, j.relation, executor, types[0], left)))
      && AllTyped(sem, j.Extend(inner), joins[1..], types[1..],
                  NestedLoopJoin(sem, Option.None, j.relation, j.operator, j.on, left))
  }

  lemma {:induction false} TypedJoinsRun(
      sem: Semantics, inner: Option<Scope>, joins: seq<Written>, types: seq<DataType>, left: seq<Item>)
    requires |types| == |joins| && AllTyped(sem, inner, joins, types, left)
    ensures AllRun(sem, Option.None, Option.None, inner, joins, left)
    decreases |joins|
  {
    hide Plan, Rectangular, NestedPlanApplies, Hashable, TypedSides, Separated, NestedLoopJoin, Foreign;
    if joins != [] {
      var j := joins[0];
      var rows := NestedLoopJoin(sem, Option.None, j.relation, j.operator, j.on, left);
      TypedJoinsRun(sem, j.Extend(inner), joins[1..], types[1..], rows);
      if j.on.Some? {
        var executor := j.Planned(Option.None, inner).executor;
        if executor.Hash? { TypedSidesHash(sem, j.relation, executor, types[0], left); }
        TopLevelPlanIsSeparated(j.relation, Scopes(Option.None, inner, j.Current()), j.on.value, left);
      }
    }
  }

  /** A FROM clause outside any other query, planned and run, gives the rows of the nested loops as
    written, if conjuncts do not fail, hash joins probe with foreign names and hash values of one type. */
  lemma TypedFromClauseIsReference(
      sem: Semantics, inner: Option<Scope>, joins: seq<Written>, types: seq<DataType>, left: seq<Item>)
    requires |types| == |joins| && AllTyped(sem, inner, joins, types, left)
    ensures JoinedAll(sem, Option.None, PlanAll(Option.None, inner, joins), left)
         == Ok(Reference(sem, Option.None, joins, left))
  {
    hide AllTyped, AllRun, JoinedAll, Reference, PlanAll;
    TypedJoinsRun(sem, inner, joins, types, left);
    PlannedFromClauseIsReference(sem, Option.None, Option.None, inner, joins, left);
  }

  // ----- two joins that go wrong without an error -----

  const X := Identifier("x")
  const Y := Identifier("y")
  const A: Relation := Relation("A", ["x", "y"], [[Value.I64(1), Value.I64(2)]])
  const B: Context := Data("B", ["y"], [Value.I64(1)], Option.None)
  const B_SCOPE: Scope := Columns("B", ["y"], Option.None)

  lemma ShadowedPlan()
    ensures Plan(ColumnScopes(A, B_SCOPE), Eq(X, Y)) == Planned(Hash(X, Y, Option.None), Option.None)
  {
    var on := Eq(X, Y);
    var es := SplitConjuncts(on);
    assert es == [on] && es[0 + 1..] + es[..0] == [];
    var scopes := ColumnScopes(A, B_SCOPE);
    assert Candidate(scopes.Keys(), scopes.Values(), on) == Some(HashSides(X, Y));
  }

  lemma ShadowedNames(next: Option<Context>)
    ensures Lookup(Data("A", ["x", "y"], A.rows[0], next), "x") == Some(Value.I64(1))
    ensures Lookup(Data("A", ["x", "y"], A.rows[0], next), "y") == Some(Value.I64(2))
    ensures Lookup(B, "y") == Some(Value.I64(1))
  {
    assert A.columns[1..] == ["y"];
    assert RowValue(A.columns, A.rows[0], "x") == Some(Value.I64(1));
    assert RowValue(A.columns, A.rows[0], "y") == Some(Value.I64(2));
    assert RowValue(["y"], [Value.I64(1)], "y") == Some(Value.I64(1));
  }

  lemma UnequalIntegers(sem: Semantics, c: Context)
    requires Lookup(c, "x") == Some(Value.I64(1)) && Lookup(c, "y") == Some(Value.I64(2))
    ensures CheckExpr(sem, c, Eq(X, Y)) == Ok(false)
  {
    assert Eval(sem, c, X) == Ok(Val(Value.I64(1))) && Eval(sem, c, Y) == Ok(Val(Value.I64(2)));
  }

  /** `B(y) JOIN A(x, y) ON x = y` with the rows (1) and (1, 2): in the condition both names are columns
    of A, 1 and 2, and no pair satisfies it.  The plan probes with the y of B and emits the pair. */
  lemma ShadowedProbeEmitsWrongRow(sem: Semantics)
    ensures NestedLoopJoin(sem, Option.None, A, Inner, Some(Eq(X, Y)), [Ok(B)]) == []
    ensures Joined(sem, Option.None, Clause(A, Inner, Plan(ColumnScopes(A, B_SCOPE), Eq(X, Y))), [Ok(B)])
         == Ok([Ok(JoinedRow(A, B, A.rows[0]))])
  {
    hide Joined, NestedLoopJoin, Plan, CheckExpr;
    ShadowedPlan();
    ShadowedNames(Option.None);
    ShadowedNames(Some(B));
    UnequalIntegers(sem, PairContext(A, Option.None, B, A.rows[0]));
    OneRowNestedLoop(sem, A, Inner, Eq(X, Y), B, false);
    OneRowHashJoin(sem, A, Inner, X, Y, B, Val(Value.I64(1)), Val(Value.I64(1)));
  }

  const WIDE: Relation := Relation("A", ["x"], [[Value.I64(1)]])
  const NARROW: Context := Data("B", ["y"], [Value.I8(1)], Option.None)

  lemma MixedWidthsPlan()
    ensures Plan(ColumnScopes(WIDE, B_SCOPE), Eq(X, Y)) == Planned(Hash(X, Y, Option.None), Option.None)
  {
    var on := Eq(X, Y);
    var es := SplitConjuncts(on);
    assert es == [on] && es[0 + 1..] + es[..0] == [];
    var scopes := ColumnScopes(WIDE, B_SCOPE);
    assert Candidate(scopes.Keys(), scopes.Values(), on) == Some(HashSides(X, Y));
  }

  lemma MixedWidthsNames(sem: Semantics)
    ensures Eval(sem, BuildContext(WIDE, Option.None, WIDE.rows[0]), X) == Ok(Val(Value.I64(1)))
    ensures Eval(sem, NARROW, Y) == Ok(Val(Value.I8(1)))
    ensures CheckExpr(sem, PairContext(WIDE, Option.None, NARROW, WIDE.rows[0]), Eq(X, Y)) == Ok(true)
  {
    var pair := PairContext(WIDE, Option.None, NARROW, WIDE.rows[0]);
    assert RowValue(["x"], [Value.I64(1)], "x") == Some(Value.I64(1));
    assert RowValue(["y"], [Value.I8(1)], "y") == Some(Value.I8(1));
    assert RowValue(["x"], [Value.I64(1)], "y") == Option.None;
    assert Lookup(pair, "x") == Some(Value.I64(1)) && Lookup(pair, "y") == Some(Value.I8(1));
    assert Eval(sem, pair, X) == Ok(Val(Value.I64(1))) && Eval(sem, pair, Y) == Ok(Val(Value.I8(1)));
    assert Eval(sem, pair, Eq(X, Y)) == Ok(TRUE);
  }

  /** `B(y INT8) JOIN A(x INT) ON x = y` with the rows (1) and (1): a row for the nested loop, because
    integers of all widths compare as numbers, and none for the planned join. */
  lemma MixedWidthsLoseTheRow(sem: Semantics)
    ensures NestedLoopJoin(sem, Option.None, WIDE, Inner, Some(Eq(X, Y)), [Ok(NARROW)])
         == [Ok(JoinedRow(WIDE, NARROW, WIDE.rows[0]))]
    ensures Joined(sem, Option.None, Clause(WIDE, Inner, Plan(ColumnScopes(WIDE, B_SCOPE), Eq(X, Y))), [Ok(NARROW)])
         == Ok([])
  {
    hide Joined, NestedLoopJoin, Plan, CheckExpr, Eval;
    MixedWidthsPlan();
    MixedWidthsNames(sem);
    OneRowNestedLoop(sem, WIDE, Inner, Eq(X, Y), NARROW, true);
    OneRowHashJoin(sem, WIDE, Inner, X, Y, NARROW, Val(Value.I64(1)), Val(Value.I8(1)));
  }
}

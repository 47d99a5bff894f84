/** Whole FROM clauses: every join is planned, then all of them run (core/src/plan/join.rs,
  core/src/executor/join.rs). */
module JoinRuns {
  import opened Data
  import opened Expressions
  import opened JoinPlanning
  import opened Joins
  import opened JoinFacts

  // ----- one planned join -----

  ghost predicate Rectangular(rel: Relation) {
    forall i | 0 <= i < |rel.rows| :: |rel.rows[i]| == |rel.columns|
  }

  /** The values that are hashed can be keys, and their comparison agrees with their keys. */
  ghost predicate Hashable(sem: Semantics, outer: Option<Context>, rel: Relation, executor: Executor, left: seq<Item>)
    requires executor.Hash?
  {
    && Buildable(sem, outer, rel, executor, rel.rows)
    && (forall i | 0 <= i < |left| && left[i].Ok? :: ProbeKey(sem, outer, executor.value, left[i].value).Ok?)
    && (forall i, j | 0 <= i < |left| && left[i].Ok? && 0 <= j < |rel.rows| ::
          HashAgrees(sem, Eval(sem, BuildContext(rel, outer, rel.rows[j]), executor.key).value,
                          Eval(sem, Surroundings(outer, left[i].value), executor.value).value))
  }

  /** No conjunct of the ON condition fails on any pair, and the plan's keys can be hashed. */
  ghost predicate Runs(
      sem: Semantics, outer: Option<Context>, rel: Relation, executor: Executor, on: Expr, left: seq<Item>)
  {
    && NestedPlanApplies(sem, outer, rel, on, left)
    && (executor.Hash? ==> Hashable(sem, outer, rel, executor, left))
  }

  /** The probe side names nothing of the joined relation; the build side names nothing of the left rows. */
  ghost predicate Separated(rel: Relation, executor: Executor, left: seq<Item>) {
    executor.Hash? ==>
      && Foreign(rel, executor.value)
      && forall i | 0 <= i < |left| && left[i].Ok? ::
           && Sheltered(rel, left[i].value, executor.key)
           && (executor.filter.Some? ==> Sheltered(rel, left[i].value, executor.filter.value))
  }

  lemma SeparatedPairIsAligned(
      sem: Semantics, outer: Option<Context>, rel: Relation, executor: Executor, on: Expr, left: seq<Item>, i: nat,
      j: nat)
    requires executor.Hash? && Rectangular(rel) && Runs(sem, outer, rel, executor, on, left) &&
        Separated(rel, executor, left)
    requires i < |left| && left[i].Ok? && j < |rel.rows|
    ensures Aligned(sem, outer, rel, executor, on, left[i].value, rel.rows[j])
  {
    hide Eval, AsKey, HashAgrees, Agree, Foreign, Sheltered, SplitConjuncts, AllBoolean;
    var l, r := left[i].value, rel.rows[j];
    var build, pair := BuildContext(rel, outer, r), PairContext(rel, outer, l, r);
    ShelteredNamesAgree(rel, outer, l, r, executor.key);
    if executor.filter.Some? { ShelteredNamesAgree(rel, outer, l, r, executor.filter.value); }
    ForeignNamesAgree(rel, outer, l, r, executor.value);
    AgreeingContextsEvaluateAlike(sem, build, pair, executor.key);
    AgreeingContextsEvaluateAlike(sem, Surroundings(outer, l), pair, executor.value);
    assert BuildKey(sem, BuildContext(rel, outer, rel.rows[j]), executor.key, executor.filter).Ok?;
  }

  /** A planned join whose two sides are separated yields exactly the rows of the nested loop. */
  lemma SeparatedJoinIsNestedLoop(
      sem: Semantics, outer: Option<Context>, rel: Relation, operator: Operator, scopes: Scopes, on: Expr,
      left: seq<Item>)
    requires var executor := Plan(scopes, on).executor;
             Rectangular(rel) && Runs(sem, outer, rel, executor, on, left) && Separated(rel, executor, left)
    ensures Joined(sem, outer, Clause(rel, operator, Plan(scopes, on)), left)
         == Ok(NestedLoopJoin(sem, outer, rel, operator, Some(on), left))
  {
    hide Plan, Aligned, ProbeKey, Rectangular, Separated, NestedPlanApplies, Buildable, Joined;
    var executor := Plan(scopes, on).executor;
    if executor.Hash? {
      forall i | 0 <= i < |left| && left[i].Ok?
        ensures RowsAligned(sem, outer, rel, executor, on, left[i].value, rel.rows) {
        forall j | 0 <= j < |rel.rows| ensures Aligned(sem, outer, rel, executor, on, left[i].value, rel.rows[j]) {
          SeparatedPairIsAligned(sem, outer, rel, executor, on, left, i, j);
        }
      }
    }
    PlannedJoinIsNestedLoop(sem, outer, rel, operator, scopes, on, left);
  }

  lemma PlanIsEvaluable(scopes: Scopes, on: Expr)
    ensures var executor := Plan(scopes, on).executor;
            executor.Hash? ==>
              Evaluable(scopes.Keys(), executor.key) &&
                (executor.filter.Some? ==> Evaluable(scopes.Keys(), executor.filter.value))
  {
  }

  /** Without an enclosing query the build side is separated by construction: the planner hashes
    only what the joined relation alone can evaluate. */
  lemma TopLevelPlanIsSeparated(rel: Relation, scopes: Scopes, on: Expr, left: seq<Item>)
    requires scopes.outer.None? && Describes(scopes.current, rel)
    requires var executor := Plan(scopes, on).executor; executor.Hash? ==> Foreign(rel, executor.value)
    ensures Separated(rel, Plan(scopes, on).executor, left)
  {
    hide Plan, Evaluable, Sheltered, Foreign;
    var executor := Plan(scopes, on).executor;
    PlanIsEvaluable(scopes, on);
    if executor.Hash? {
      forall i | 0 <= i < |left| && left[i].Ok?
        ensures Sheltered(rel, left[i].value, executor.key)
        ensures executor.filter.Some? ==> Sheltered(rel, left[i].value, executor.filter.value)
      {
        EvaluableIsSheltered(scopes.current, rel, left[i].value, executor.key);
        if executor.filter.Some? { EvaluableIsSheltered(scopes.current, rel, left[i].value, executor.filter.value); }
      }
    }
  }

  // ----- all joins of a FROM clause -----

  /** A join as written.  `known` tells whether the planner has a schema for the relation. */
  datatype Written = Written(relation: Relation, operator: Operator, on: Option<Expr>, known: bool) {
    function Current(): Option<Scope> {
      if known then Some(Columns(relation.alias, relation.columns, Option.None)) else Option.None
    }

    function Extend(inner: Option<Scope>): Option<Scope> {
      if known then Some(Columns(relation.alias, relation.columns, inner)) else inner
    }

    /** The executor and constraint the planner chooses. */
    function Planned(outer: Option<Scope>, inner: Option<Scope>): Planned {
      match on
      case Some(e) => Plan(Scopes(outer, inner, Current()), e)
      case None => JoinPlanning.Planned(NestedLoop, Option.None)
    }
  }

  function PlanAll(outer: Option<Scope>, inner: Option<Scope>, joins: seq<Written>): seq<Clause>
    decreases |joins|
  {
    if joins == [] then []
    else
      var first := Clause(joins[0].relation, joins[0].operator, joins[0].Planned(outer, inner));
      [first] + PlanAll(outer, joins[0].Extend(inner), joins[1..])
  }

  /** The names known before the join at `i`. */
  function ScopeBefore(init: Option<Scope>, joins: seq<Written>, i: nat): Option<Scope>
    requires i <= |joins|
  {
    if i == 0 then init else joins[i - 1].Extend(ScopeBefore(init, joins, i - 1))
  }

  ghost predicate Offers(join: Written, name: string) { join.known && name in join.relation.columns }

  /** A column is known before a join exactly when a relation before it has it and its schema is known. */
  lemma {:induction false} KnownBeforeExactlyWhen(init: Option<Scope>, joins: seq<Written>, i: nat, name: string)
    requires i <= |joins|
    ensures Evaluable(ScopeBefore(init, joins, i), Identifier(name)) <==>
              Evaluable(init, Identifier(name)) || exists j | 0 <= j < i :: Offers(joins[j], name)
  {
    if i > 0 {
      KnownBeforeExactlyWhen(init, joins, i - 1, name);
      assert Evaluable(ScopeBefore(init, joins, i), Identifier(name)) <==>
               Offers(joins[i - 1], name) || Evaluable(ScopeBefore(init, joins, i - 1), Identifier(name));
    }
  }

  /** An aliased column is known before a join exactly when the nearest relation of that alias has it. */
  lemma {:induction false} AliasKnownBeforeExactlyWhen(
      init: Option<Scope>, joins: seq<Written>, i: nat, alias: string, name: string)
    requires i <= |joins|
    ensures Evaluable(ScopeBefore(init, joins, i), CompoundIdentifier(alias, name)) <==>
              || (exists j | 0 <= j < i :: NearestIs(joins, i, j, alias) && name in joins[j].relation.columns)
              || (Evaluable(init, CompoundIdentifier(alias, name)) && forall j | 0 <= j < i :: !Bears(joins[j], alias))
  {
    if i > 0 {
      AliasKnownBeforeExactlyWhen(init, joins, i - 1, alias, name);
      if Bears(joins[i - 1], alias) {
        assert NearestIs(joins, i, i - 1, alias);
      } else {
        assert forall j | 0 <= j < i - 1 :: NearestIs(joins, i, j, alias) <==> NearestIs(joins, i - 1, j, alias);
      }
    }
  }

  ghost predicate Bears(join: Written, alias: string) { join.known && join.relation.alias == alias }

  ghost predicate NearestIs(joins: seq<Written>, i: nat, j: nat, alias: string)
    requires j < i <= |joins|
  {
    Bears(joins[j], alias) && forall k | j < k < i :: !Bears(joins[k], alias)
  }

  /** What the planner knows when it plans the join at `i`. */
  function ScopesAt(outer: Option<Scope>, init: Option<Scope>, joins: seq<Written>, i: nat): Scopes
    requires i < |joins|
  {
    Scopes(outer, ScopeBefore(init, joins, i), joins[i].Current())
  }

  /** The build side of a join may name columns of its relation and of the enclosing query, the probe side
    besides these columns of the relations before it. */
  lemma NamesKnownAt(outer: Option<Scope>, init: Option<Scope>, joins: seq<Written>, i: nat, name: string)
    requires i < |joins|
    ensures var e, scopes := Identifier(name), ScopesAt(outer, init, joins, i);
            && (Evaluable(scopes.Keys(), e) <==> Offers(joins[i], name) || Evaluable(outer, e))
            && (Evaluable(scopes.Values(), e) <==>
                 || Evaluable(outer, e) || Evaluable(init, e) || exists j | 0 <= j <= i :: Offers(joins[j], name))
  {
    ScopesKnow(ScopesAt(outer, init, joins, i), Identifier(name));
    KnownBeforeExactlyWhen(init, joins, i, name);
    assert Evaluable(joins[i].Current(), Identifier(name)) <==> Offers(joins[i], name);
  }

  /** Each join is planned with the names before it. */
  lemma {:induction false} PlannedAt(outer: Option<Scope>, init: Option<Scope>, joins: seq<Written>, i: nat)
    requires i < |joins|
    ensures var clauses := PlanAll(outer, init, joins);
            && |clauses| == |joins|
            && clauses[i].relation == joins[i].relation && clauses[i].operator == joins[i].operator
            && clauses[i].plan == if joins[i].on.None? then JoinPlanning.Planned(NestedLoop, Option.None)
                                  else Plan(ScopesAt(outer, init, joins, i), joins[i].on.value)
    decreases |joins|
  {
    hide Plan;
    PlanAllLength(outer, init, joins);
    if i > 0 {
      PlannedAt(outer, joins[0].Extend(init), joins[1..], i - 1);
      ScopeShifts(init, joins, i);
    }
  }

  lemma {:induction false} PlanAllLength(outer: Option<Scope>, init: Option<Scope>, joins: seq<Written>)
    ensures |PlanAll(outer, init, joins)| == |joins|
    decreases |joins|
  {
    hide Plan;
    if joins != [] { PlanAllLength(outer, joins[0].Extend(init), joins[1..]); }
  }

  lemma {:induction false} ScopeShifts(init: Option<Scope>, joins: seq<Written>, i: nat)
    requires 0 < i <= |joins|
    ensures ScopeBefore(joins[0].Extend(init), joins[1..], i - 1) == ScopeBefore(init, joins, i)
  {
    if i > 1 { ScopeShifts(init, joins, i - 1); }
  }

  lemma NextClause(
      outer: Option<Scope>, inner: Option<Scope>, joins: seq<Written>, i: nat, clauses: seq<Clause>)
    requires i < |joins|
    ensures var clause := Clause(joins[i].relation, joins[i].operator, joins[i].Planned(outer, inner));
            clauses + PlanAll(outer, inner, joins[i..]) ==
              clauses + [clause] + PlanAll(outer, joins[i].Extend(inner), joins[i + 1..])
  {
    hide Plan;
    assert joins[i..][0] == joins[i] && joins[i..][1..] == joins[i + 1..];
  }

  /** `table_with_joins`: each join sees the relations before it. */
  method PlanJoins(outer: Option<Scope>, init: Option<Scope>, joins: seq<Written>) returns (clauses: seq<Clause>)
    ensures clauses == PlanAll(outer, init, joins)
  {
    hide Plan;
    clauses := [];
    var inner := init;
    for i := 0 to |joins|
      invariant clauses + PlanAll(outer, inner, joins[i..]) == PlanAll(outer, init, joins)
    {
      var join := joins[i];
      var plan := JoinPlanning.Planned(NestedLoop, Option.None);
      if join.on.Some? {
        plan := PlanJoinCondition(Scopes(outer, inner, join.Current()), join.on.value);
      }
      var clause := Clause(join.relation, join.operator, plan);
      NextClause(outer, inner, joins, i, clauses);
      clauses, inner := clauses + [clause], join.Extend(inner);
    }
  }

  /** The meaning of a FROM clause: nested loops over the conditions as written. */
  function Reference(sem: Semantics, outer: Option<Context>, joins: seq<Written>, left: seq<Item>): seq<Item> {
    if joins == [] then left
    else
      var j := joins[0];
      Reference(sem, outer, joins[1..], NestedLoopJoin(sem, outer, j.relation, j.operator, j.on, left))
  }

  /** Each join runs without errors on the rows that reach it, and its sides are separated. */
  ghost predicate AllRun(
      sem: Semantics, outer: Option<Context>, os: Option<Scope>, inner: Option<Scope>, joins: seq<Written>,
      left: seq<Item>)
    decreases |joins|
  {
    joins != [] ==>
      var j := joins[0];
      && (j.on.Some? ==>
            && Rectangular(j.relation)
            && Runs(sem, outer, j.relation, j.Planned(os, inner).executor, j.on.value, left)
            && Separated(j.relation, j.Planned(os, inner).executor, left))
      && AllRun(sem, outer, os, j.Extend(inner), joins[1..],
                NestedLoopJoin(sem, outer, j.relation, j.operator, j.on, left))
  }

  /** Planning and running any number of joins gives the rows of the nested loops as written. */
  lemma {:induction false} PlannedFromClauseIsReference(
      sem: Semantics, outer: Option<Context>, os: Option<Scope>, inner: Option<Scope>, joins: seq<Written>,
      left: seq<Item>)
    requires AllRun(sem, outer, os, inner, joins, left)
    ensures JoinedAll(sem, outer, PlanAll(os, inner, joins), left) == Ok(Reference(sem, outer, joins, left))
    decreases |joins|
  {
    hide Plan, Runs, Separated, Rectangular, NestedLoopJoin, Joined;
    if joins != [] {
      var j := joins[0];
      var clauses := PlanAll(os, inner, joins);
      var rows := NestedLoopJoin(sem, outer, j.relation, j.operator, j.on, left);
      FirstJoin(sem, outer, os, inner, joins, left);
      assert clauses[1..] == PlanAll(os, j.Extend(inner), joins[1..]);
      PlannedFromClauseIsReference(sem, outer, os, j.Extend(inner), joins[1..], rows);
    }
  }

  lemma FirstJoin(
      sem: Semantics, outer: Option<Context>, os: Option<Scope>, inner: Option<Scope>, joins: seq<Written>,
      left: seq<Item>)
    requires joins != [] && AllRun(sem, outer, os, inner, joins, left)
    ensures var j := joins[0];
            Joined(sem, outer, PlanAll(os, inner, joins)[0], left)
              == Ok(NestedLoopJoin(sem, outer, j.relation, j.operator, j.on, left))
  {
    hide Plan, Runs, Separated, Rectangular, NestedLoopJoin;
    var j := joins[0];
    if j.on.Some? {
      hide Joined;
      SeparatedJoinIsNestedLoop(sem, outer, j.relation, j.operator, Scopes(os, inner, j.Current()), j.on.value, left);
    }
  }

  // ----- outer and inner joins -----

  /** `at` picks `part` out of `whole`, in order. */
  predicate Picks(part: seq<Item>, whole: seq<Item>, at: seq<nat>) {
    && |at| == |part|
    && (forall i, j | 0 <= i < j < |at| :: at[i] < at[j])
    && (forall i | 0 <= i < |at| :: at[i] < |whole| && part[i] == whole[at[i]])
  }

  /** The number of left rows without a match. */
  function Unmatched(sem: Semantics, outer: Option<Context>, rel: Relation, on: Option<Expr>, left: seq<Item>): nat {
    if left == [] then 0
    else
      var n := |left| - 1;
      Unmatched(sem, outer, rel, on, left[..n]) +
      if left[n].Ok? && Matches(sem, outer, rel, on, left[n].value, rel.rows) == [] then 1 else 0
  }

  /** The item is a left row without a match, extended with NULLs. */
  ghost predicate Padding(
      sem: Semantics, outer: Option<Context>, rel: Relation, on: Option<Expr>, left: seq<Item>, item: Item)
  {
    exists i | 0 <= i < |left| ::
      left[i].Ok? && Matches(sem, outer, rel, on, left[i].value, rel.rows) == []
      && item == Ok(JoinedRow(rel, left[i].value, Nulls(rel)))
  }

  lemma PaddingInPrefix(
      sem: Semantics, outer: Option<Context>, rel: Relation, on: Option<Expr>, left: seq<Item>, n: nat, item: Item)
    requires n <= |left| && Padding(sem, outer, rel, on, left[..n], item)
    ensures Padding(sem, outer, rel, on, left, item)
  {
    hide Matches;
    var i :| 0 <= i < n && left[..n][i].Ok? && Matches(sem, outer, rel, on, left[..n][i].value, rel.rows) == []
      && item == Ok(JoinedRow(rel, left[..n][i].value, Nulls(rel)));
    assert left[..n][i] == left[i];
  }

  lemma PicksAppend(part: seq<Item>, whole: seq<Item>, at: seq<nat>, items: seq<Item>) returns (more: seq<nat>)
    requires Picks(part, whole, at)
    ensures Picks(part + items, whole + items, more)
    ensures forall k | 0 <= k < |whole| + |items| :: k !in more ==> k < |whole| && k !in at
  {
    more := at + seq(|items|, k => |whole| + k);
    forall k: nat | |whole| <= k < |whole| + |items| ensures k in more { assert more[|at| + (k - |whole|)] == k; }
    forall i | 0 <= i < |at| ensures at[i] in more { assert more[i] == at[i]; }
  }

  function Contribution(
      sem: Semantics, outer: Option<Context>, rel: Relation, operator: Operator, on: Option<Expr>,
      item: Item): seq<Item>
  {
    if item.Ok? then Padded(rel, operator, item.value, Matches(sem, outer, rel, on, item.value, rel.rows)) else [item]
  }

  /** What the last left row adds to the result. */
  lemma LastRow(
      sem: Semantics, outer: Option<Context>, rel: Relation, operator: Operator, on: Option<Expr>, left: seq<Item>)
    requires left != []
    ensures var n := |left| - 1;
            NestedLoopJoin(sem, outer, rel, operator, on, left)
              == NestedLoopJoin(sem, outer, rel, operator, on, left[..n])
                + Contribution(sem, outer, rel, operator, on, left[n])
  {
    hide Matches, Padded;
    var f := l => Padded(rel, operator, l, Matches(sem, outer, rel, on, l, rel.rows));
    FlatMapCongruent(f, f, left);
  }

  /** A left outer join holds the rows of the inner join in their order, and besides them exactly one
    row of NULLs for each left row without a match. */
  lemma {:induction false} OuterJoinExtendsInner(
      sem: Semantics, outer: Option<Context>, rel: Relation, on: Option<Expr>, left: seq<Item>)
    returns (at: seq<nat>)
    ensures var inner := NestedLoopJoin(sem, outer, rel, Inner, on, left);
            var all := NestedLoopJoin(sem, outer, rel, LeftOuter, on, left);
            && |all| == |inner| + Unmatched(sem, outer, rel, on, left)
            && Picks(inner, all, at)
            && forall k | 0 <= k < |all| && k !in at :: Padding(sem, outer, rel, on, left, all[k])
  {
    hide Matches, NestedLoopJoin, Padding, Picks;
    if left == [] {
      at := NoPicks(sem, outer, rel, on);
    } else {
      var n := |left| - 1;
      var init := OuterJoinExtendsInner(sem, outer, rel, on, left[..n]);
      LastRow(sem, outer, rel, Inner, on, left);
      LastRow(sem, outer, rel, LeftOuter, on, left);
      var inner := NestedLoopJoin(sem, outer, rel, Inner, on, left[..n]);
      var all := NestedLoopJoin(sem, outer, rel, LeftOuter, on, left[..n]);
      var whole := NestedLoopJoin(sem, outer, rel, LeftOuter, on, left);
      var items := Contribution(sem, outer, rel, Inner, on, left[n]);
      at := PicksAppend(inner, all, init, items);
      if items == [] {
        assert all + items == all && inner + items == inner;
        PicksLonger(inner, all, at, whole);
        assert Padding(sem, outer, rel, on, left, whole[|all|]) by { UnmatchedIsPadding(sem, outer, rel, on, left, n); }
      }
      forall k | 0 <= k < |whole| && k !in at ensures Padding(sem, outer, rel, on, left, whole[k]) {
        if k < |all| { PaddingInPrefix(sem, outer, rel, on, left, n, all[k]); }
      }
    }
  }

  lemma NoPicks(sem: Semantics, outer: Option<Context>, rel: Relation, on: Option<Expr>) returns (at: seq<nat>)
    ensures NestedLoopJoin(sem, outer, rel, Inner, on, []) == NestedLoopJoin(sem, outer, rel, LeftOuter, on, []) == []
    ensures Picks([], [], at)
  {
    at := [];
  }

  lemma PicksLonger(part: seq<Item>, whole: seq<Item>, at: seq<nat>, longer: seq<Item>)
    requires Picks(part, whole, at) && whole <= longer
    ensures Picks(part, longer, at)
  {
  }

  lemma UnmatchedIsPadding(
      sem: Semantics, outer: Option<Context>, rel: Relation, on: Option<Expr>, left: seq<Item>, i: nat)
    requires i < |left| && left[i].Ok? && Matches(sem, outer, rel, on, left[i].value, rel.rows) == []
    ensures Padding(sem, outer, rel, on, left, Ok(JoinedRow(rel, left[i].value, Nulls(rel))))
  {
    hide Matches;
  }

  // ----- where the plan and the condition part -----

  /** A probe column that only the joined relation provides fails on every left row, whatever the
    rows hold: together with `SeparatedJoinIsNestedLoop` this bounds where the hash plan works. */
  lemma OwnProbeColumnAlwaysFails(
      sem: Semantics, outer: Option<Context>, clause: Clause, entries: seq<BuildEntry>, l: Context)
    requires clause.plan.executor.Hash?
    requires match clause.plan.executor.value
             case Identifier(name) => Lookup(Surroundings(outer, l), name).None?
             case CompoundIdentifier(alias, name) => LookupAlias(Surroundings(outer, l), alias, name).None?
             case _ => false
    ensures PerRow(sem, outer, clause, entries)(l) == [Err(Error("identifier not found"))]
  {
    hide Matches;
    assert ProbeKey(sem, outer, clause.plan.executor.value, l) == Err(Error("identifier not found"));
  }

  const A_X := CompoundIdentifier("A", "x")
  const A_Y := CompoundIdentifier("A", "y")
  const LEFT := Data("B", ["z"], [Value.I64(1)], Option.None)
  const OWN := Relation("A", ["x", "y"], [[Value.I64(1), Value.I64(1)]])
  const OWN_SCOPES := Scopes(Option.None, Some(Columns("B", ["z"], Option.None)),
    Some(Columns("A", ["x", "y"], Option.None)))
  const OWN_PLAN := Planned(Hash(A_X, A_Y, Option.None), Option.None)

  /** Comparing two columns of the joined relation is planned as a hash join ... */
  lemma OwnColumnsAreHashed()
    ensures Plan(OWN_SCOPES, Eq(A_X, A_Y)) == OWN_PLAN && !Foreign(OWN, A_Y)
  {
    assert SplitConjuncts(Eq(A_X, A_Y)) == [Eq(A_X, A_Y)];
    assert Candidate(OWN_SCOPES.Keys(), OWN_SCOPES.Values(), Eq(A_X, A_Y)) == Some(HashSides(A_X, A_Y));
  }

  lemma OwnColumn(sem: Semantics, c: Context)
    requires c.Data? && c.alias == OWN.alias && c.columns == OWN.columns && c.values == OWN.rows[0]
    ensures Eval(sem, c, A_X) == Eval(sem, c, A_Y) == Ok(Val(Value.I64(1)))
  {
    assert OWN.columns[1..] == ["y"];
    assert RowValue(OWN.columns, OWN.rows[0], "x") == Some(Value.I64(1));
    assert RowValue(OWN.columns, OWN.rows[0], "y") == Some(Value.I64(1));
    assert LookupAlias(c, "A", "x") == Some(Value.I64(1));
    assert LookupAlias(c, "A", "y") == Some(Value.I64(1));
  }

  lemma OwnPairMatches(sem: Semantics)
    ensures Matches(sem, Option.None, OWN, Some(Eq(A_X, A_Y)), LEFT, OWN.rows)
        == [Ok(JoinedRow(OWN, LEFT, OWN.rows[0]))]
  {
    var on, c := Eq(A_X, A_Y), PairContext(OWN, Option.None, LEFT, OWN.rows[0]);
    OwnColumn(sem, c);
    assert Eval(sem, c, on) == Ok(TRUE);
    hide Matches, Eval;
    MatchesAppend(sem, Option.None, OWN, Some(on), LEFT, [], OWN.rows[0]);
    NothingMatches(sem, Option.None, OWN, on, LEFT);
    assert OWN.rows == [] + [OWN.rows[0]];
  }

  lemma OwnRowIsHashed(sem: Semantics) returns (entries: seq<BuildEntry>)
    ensures BuildEntries(sem, Option.None, OWN, A_X, Option.None, OWN.rows) == Ok(entries)
  {
    OwnColumn(sem, BuildContext(OWN, Option.None, OWN.rows[0]));
    hide Eval;
    BuildSucceeds(sem, Option.None, OWN, OWN_PLAN.executor, OWN.rows);
    entries := BuildEntries(sem, Option.None, OWN, A_X, Option.None, OWN.rows).value;
  }

  lemma UnknownToLeftRow(sem: Semantics)
    ensures ProbeKey(sem, Option.None, A_Y, LEFT) == Err(Error("identifier not found"))
  {
    assert LookupAlias(LEFT, "A", "y") == Option.None;
  }

  /** ... whose probe side the left row cannot evaluate: `B JOIN A ON A.x = A.y` yields an error for
    a pair that satisfies its condition. */
  lemma ComparingOwnColumnsFails(sem: Semantics)
    ensures NestedLoopJoin(sem, Option.None, OWN, Inner, Some(Eq(A_X, A_Y)), [Ok(LEFT)])
         == [Ok(JoinedRow(OWN, LEFT, OWN.rows[0]))]
    ensures Joined(sem, Option.None, Clause(OWN, Inner, OWN_PLAN), [Ok(LEFT)])
        == Ok([Err(Error("identifier not found"))])
  {
    hide Eval, Matches, NestedLoopJoin, Joined, ProbeKey, BuildEntries;
    var on, clause, left := Some(Eq(A_X, A_Y)), Clause(OWN, Inner, OWN_PLAN), [Ok(LEFT)];
    OwnPairMatches(sem);
    LastRow(sem, Option.None, OWN, Inner, on, left);
    assert NestedLoopJoin(sem, Option.None, OWN, Inner, on, [])
      == [] by { var _ := NoPicks(sem, Option.None, OWN, on); }
    var entries := OwnRowIsHashed(sem);
    UnknownToLeftRow(sem);
    JoinedPerRow(sem, Option.None, clause, entries, left);
    var f := PerRow(sem, Option.None, clause, entries);
    var failure: Item := Err(Error("identifier not found"));
    assert f(LEFT) == [failure];
    assert left[..0] == [] && FlatMap(f, []) == [];
    assert FlatMap(f, left) == [failure];
  }
}

/** Choosing the executor of a join and splitting its ON condition (core/src/plan/join.rs,
  core/src/plan/context.rs, core/src/plan/expr/evaluable.rs). */
module JoinPlanning {
  import opened Data
  import opened Expressions

  // ----- which names are known at planning time -----

  /** The planner's `Context`: aliases and column names without values. */
  datatype Scope =
    | Columns(alias: string, columns: seq<string>, next: Option<Scope>)
    | Either(left: Scope, right: Scope)

  /** `Context::concat`. */
  function Concat(a: Option<Scope>, b: Option<Scope>): Option<Scope> {
    if a.None? then b else if b.None? then a else Some(Either(a.value, b.value))
  }

  predicate ContainsColumn(s: Scope, name: string) {
    match s
    case Columns(_, columns, next) => name in columns || (next.Some? && ContainsColumn(next.value, name))
    case Either(left, right) => ContainsColumn(left, name) || ContainsColumn(right, name)
  }

  /** An alias that matches hides the relations behind it, even if it lacks the column. */
  predicate ContainsAliasedColumn(s: Scope, alias: string, name: string) {
    match s
    case Columns(a, columns, next) =>
      if a == alias then name in columns else next.Some? && ContainsAliasedColumn(next.value, alias, name)
    case Either(left, right) => ContainsAliasedColumn(left, alias, name) || ContainsAliasedColumn(right, alias, name)
  }

  /** `evaluable::check_expr`: the scope knows every name in the expression. */
  predicate Evaluable(s: Option<Scope>, e: Expr)
    decreases e
  {
    match e
    case Identifier(name) => s.Some? && ContainsColumn(s.value, name)
    case CompoundIdentifier(alias, name) => s.Some? && ContainsAliasedColumn(s.value, alias, name)
    case Constant(_) => true
    case ValueOf(_) => true
    case Nested(inner) => Evaluable(s, inner)
    case And(left, right) => Evaluable(s, left) && Evaluable(s, right)
    case Eq(left, right) => Evaluable(s, left) && Evaluable(s, right)
    case Operation(_, args) => forall i | 0 <= i < |args| :: Evaluable(s, args[i])
  }

  // ----- the plan of one join -----

  datatype Executor = NestedLoop | Hash(key: Expr, value: Expr, filter: Option<Expr>)

  datatype Planned = Planned(executor: Executor, constraint: Option<Expr>)

  datatype HashSides = HashSides(key: Expr, value: Expr)

  /** `match_hash_join_candidate`. */
  function Candidate(keys: Option<Scope>, values: Option<Scope>, e: Expr): (r: Option<HashSides>)
    ensures r.Some? ==> e == Eq(r.value.key, r.value.value) || e == Eq(r.value.value, r.value.key)
    ensures r.Some? ==> Evaluable(keys, r.value.key)
    ensures r.Some? <==>
              e.Eq? && ((Evaluable(keys, e.left) && Evaluable(values, e.right)) ||
                        (Evaluable(keys, e.right) && (Evaluable(keys, e.left) || Evaluable(values, e.left))))
  {
    if !e.Eq? then Option.None
    else if Evaluable(keys, e.left) && Evaluable(values, e.right) then Some(HashSides(e.left, e.right))
    else if Evaluable(keys, e.right) && (Evaluable(keys, e.left) || Evaluable(values, e.left)) then
      Some(HashSides(e.right, e.left))
    else Option.None
  }

  function MergePair(a: Option<Expr>, b: Option<Expr>): Option<Expr> {
    if a.None? then b else if b.None? then a else Some(And(a.value, b.value))
  }

  /** `find_evaluable`: the part of a conjunction that the scope can evaluate, and the rest. */
  function FindEvaluable(s: Option<Scope>, e: Expr): (r: (Option<Expr>, Option<Expr>))
    ensures r.0.Some? ==> Evaluable(s, r.0.value)
  {
    match e
    case And(left, right) =>
      var l, r := FindEvaluable(s, left), FindEvaluable(s, right);
      (MergePair(l.0, r.0), MergePair(l.1, r.1))
    case _ => if Evaluable(s, e) then (Some(e), Option.None) else (Option.None, Some(e))
  }

  /** The position of the first conjunct that can drive a hash join. */
  function FirstCandidate(keys: Option<Scope>, values: Option<Scope>, es: seq<Expr>): (r: Option<nat>)
    ensures r.Some? ==> r.value < |es| && Candidate(keys, values, es[r.value]).Some?
    ensures r.Some? ==> forall i | 0 <= i < r.value :: Candidate(keys, values, es[i]).None?
    ensures r.None? ==> forall i | 0 <= i < |es| :: Candidate(keys, values, es[i]).None?
  {
    if es == [] then Option.None
    else if Candidate(keys, values, es[0]).Some? then Some(0)
    else match FirstCandidate(keys, values, es[1..])
      case Some(i) => Some(i + 1)
      case None => Option.None
  }

  function Split(keys: Option<Scope>, rest: seq<Expr>): (Option<Expr>, Option<Expr>) {
    match MergeConjuncts(rest)
    case Some(e) => FindEvaluable(keys, e)
    case None => (Option.None, Option.None)
  }

  /** The names of the enclosing query, of the relations joined so far, and of the relation to join. */
  datatype Scopes = Scopes(outer: Option<Scope>, inner: Option<Scope>, current: Option<Scope>) {
    function Keys(): Option<Scope> { Concat(current, outer) }

    /** The planner lets the probe side see the joined relation as well. */
    function Values(): Option<Scope> { Concat(Concat(current, inner), outer) }
  }

  /** A name is known to the build side through the relation to join or the enclosing query, and to the
    probe side through the relations joined so far as well. */
  lemma ScopesKnow(scopes: Scopes, e: Expr)
    requires IsName(e)
    ensures Evaluable(scopes.Keys(), e) <==> Evaluable(scopes.current, e) || Evaluable(scopes.outer, e)
    ensures Evaluable(scopes.Values(), e) <==>
              Evaluable(scopes.current, e) || Evaluable(scopes.inner, e) || Evaluable(scopes.outer, e)
  {
    hide Evaluable, Concat;
    ConcatKnows(scopes.current, scopes.outer, e);
    ConcatKnows(scopes.current, scopes.inner, e);
    ConcatKnows(Concat(scopes.current, scopes.inner), scopes.outer, e);
  }

  lemma ConcatKnows(a: Option<Scope>, b: Option<Scope>, e: Expr)
    requires IsName(e)
    ensures Evaluable(Concat(a, b), e) <==> Evaluable(a, e) || Evaluable(b, e)
  {
  }

  /** The plan that `PlanJoinCondition` computes. */
  function Plan(scopes: Scopes, e: Expr): Planned {
    var keys, values := scopes.Keys(), scopes.Values();
    var es := SplitConjuncts(e);
    match FirstCandidate(keys, values, es)
    case None => Planned(NestedLoop, MergeConjuncts(es))
    case Some(i) =>
      var sides := Candidate(keys, values, es[i]).value;
      var parts := Split(keys, es[i + 1..] + es[..i]);
      Planned(Hash(sides.key, sides.value, parts.0), parts.1)
  }

  /** `plan_join_condition`. */
  method PlanJoinCondition(scopes: Scopes, e: Expr)
    returns (plan: Planned)
    ensures plan == Plan(scopes, e)
  {
    hide Evaluable, SplitConjuncts, MergeConjuncts, FindEvaluable;
    var keys, values := scopes.Keys(), scopes.Values();
    var candidate: Option<HashSides> := Option.None;
    var before: seq<Expr>, after: seq<Expr> := [], [];
    var es := SplitConjuncts(e);
    for k := 0 to |es|
      invariant candidate.None? ==> before == es[..k] && after == []
      invariant candidate.None? ==> forall i | 0 <= i < k :: Candidate(keys, values, es[i]).None?
      invariant candidate.Some? ==>
        var i := |before|;
        i < k && before == es[..i] && after == es[i + 1..k] && candidate == Candidate(keys, values, es[i]) &&
        forall j | 0 <= j < i :: Candidate(keys, values, es[j]).None?
    {
      if candidate.None? {
        candidate := Candidate(keys, values, es[k]);
        if candidate.None? { before := before + [es[k]]; }
      } else {
        after := after + [es[k]];
      }
    }
    if candidate.None? {
      assert before == es;
      return Planned(NestedLoop, MergeConjuncts(before));
    }
    assert FirstCandidate(keys, values, es) == Some(|before|);
    assert after == es[|before| + 1..];
    var parts := Split(keys, after + before);
    return Planned(Hash(candidate.value.key, candidate.value.value, parts.0), parts.1);
  }

  // ----- the plan keeps the meaning of the condition -----

  function AndLeaves(e: Expr): seq<Expr> {
    match e
    case And(left, right) => AndLeaves(left) + AndLeaves(right)
    case _ => [e]
  }

  predicate NoAnds(es: seq<Expr>) { forall i | 0 <= i < |es| :: !es[i].And? }

  function LeavesOf(e: Option<Expr>): seq<Expr> { if e.Some? then AndLeaves(e.value) else [] }

  /** The expressions that the scope can evaluate, or those that it cannot, in order. */
  function Those(s: Option<Scope>, es: seq<Expr>, known: bool): seq<Expr> {
    if es == [] then []
    else (if Evaluable(s, es[0]) == known then [es[0]] else []) + Those(s, es[1..], known)
  }

  lemma {:induction false} ThoseConcat(s: Option<Scope>, a: seq<Expr>, b: seq<Expr>, known: bool)
    ensures Those(s, a + b, known) == Those(s, a, known) + Those(s, b, known)
  {
    hide Evaluable;
    if a == [] {
      assert a + b == b;
    } else {
      assert (a + b)[1..] == a[1..] + b;
      ThoseConcat(s, a[1..], b, known);
    }
  }

  lemma MergeLeaves(a: Option<Expr>, b: Option<Expr>)
    ensures LeavesOf(MergePair(a, b)) == LeavesOf(a) + LeavesOf(b)
  {
  }

  lemma EvaluablesOfAnd(s: Option<Scope>, left: Expr, right: Expr)
    ensures AndLeaves(And(left, right)) == AndLeaves(left) + AndLeaves(right)
    ensures FindEvaluable(s, And(left, right)) ==
              (MergePair(FindEvaluable(s, left).0, FindEvaluable(s, right).0),
               MergePair(FindEvaluable(s, left).1, FindEvaluable(s, right).1))
  {
    hide Evaluable, MergePair;
  }

  lemma EvaluablesOfOne(s: Option<Scope>, e: Expr)
    requires !e.And?
    ensures LeavesOf(FindEvaluable(s, e).0) == Those(s, AndLeaves(e), true)
    ensures LeavesOf(FindEvaluable(s, e).1) == Those(s, AndLeaves(e), false)
  {
    hide Evaluable, MergePair;
    assert AndLeaves(e) == [e] && [e][1..] == [];
  }

  /** The filter of the build side consists of exactly the conjuncts that the scope can evaluate, and the
    residual constraint of exactly the others, each in their order. */
  lemma {:induction false} FindEvaluableSplits(s: Option<Scope>, e: Expr)
    ensures LeavesOf(FindEvaluable(s, e).0) == Those(s, AndLeaves(e), true)
    ensures LeavesOf(FindEvaluable(s, e).1) == Those(s, AndLeaves(e), false)
  {
    hide FindEvaluable, LeavesOf, AndLeaves, Those, MergePair;
    if e.And? {
      var l, r := FindEvaluable(s, e.left), FindEvaluable(s, e.right);
      FindEvaluableSplits(s, e.left);
      FindEvaluableSplits(s, e.right);
      EvaluablesOfAnd(s, e.left, e.right);
      MergeLeaves(l.0, r.0);
      MergeLeaves(l.1, r.1);
      ThoseConcat(s, AndLeaves(e.left), AndLeaves(e.right), true);
      ThoseConcat(s, AndLeaves(e.left), AndLeaves(e.right), false);
    } else {
      EvaluablesOfOne(s, e);
    }
  }

  lemma {:induction false} SplitLeavesNoAnd(e: Expr)
    ensures NoAnds(SplitConjuncts(e))
  {
    match e
    case And(left, right) => SplitLeavesNoAnd(left); SplitLeavesNoAnd(right);
    case Nested(inner) => SplitLeavesNoAnd(inner);
    case _ =>
  }

  lemma {:induction false} MergeKeepsLeaves(es: seq<Expr>)
    requires es != [] && NoAnds(es)
    ensures AndLeaves(MergeConjuncts(es).value) == es
  {
    if |es| > 1 {
      var n := |es| - 1;
      MergeKeepsLeaves(es[..n]);
      assert es == es[..n] + [es[n]];
    }
  }

  lemma MergePairHolds(sem: Semantics, c: Context, a: Option<Expr>, b: Option<Expr>)
    requires BooleanIfAny(sem, c, a) && BooleanIfAny(sem, c, b)
    ensures BooleanIfAny(sem, c, MergePair(a, b))
    ensures HoldsIfAny(sem, c, MergePair(a, b)) <==> HoldsIfAny(sem, c, a) && HoldsIfAny(sem, c, b)
  {
    hide CheckExpr;
    if a.Some? && b.Some? { AndHolds(sem, c, a.value, b.value); }
  }

  /** Splitting off the evaluable part loses nothing. */
  lemma {:induction false} FindEvaluableKeepsMeaning(sem: Semantics, c: Context, s: Option<Scope>, e: Expr)
    requires AllBoolean(sem, c, AndLeaves(e))
    ensures var r := FindEvaluable(s, e);
            && BooleanIfAny(sem, c, r.0) && BooleanIfAny(sem, c, r.1)
            && (HoldsIfAny(sem, c, r.0) && HoldsIfAny(sem, c, r.1) <==> AllHold(sem, c, AndLeaves(e)))
  {
    hide CheckExpr, Evaluable;
    match e
    case And(left, right) =>
      AllBooleanConcat(sem, c, AndLeaves(left), AndLeaves(right));
      AllHoldConcat(sem, c, AndLeaves(left), AndLeaves(right));
      FindEvaluableKeepsMeaning(sem, c, s, left);
      FindEvaluableKeepsMeaning(sem, c, s, right);
      var l, r := FindEvaluable(s, left), FindEvaluable(s, right);
      MergePairHolds(sem, c, l.0, r.0);
      MergePairHolds(sem, c, l.1, r.1);
    case _ => assert AndLeaves(e)[0] == e;
  }

  lemma SplitKeepsMeaning(sem: Semantics, c: Context, s: Option<Scope>, rest: seq<Expr>)
    requires AllBoolean(sem, c, rest) && NoAnds(rest)
    ensures var r := Split(s, rest);
            && BooleanIfAny(sem, c, r.0) && BooleanIfAny(sem, c, r.1)
            && (HoldsIfAny(sem, c, r.0) && HoldsIfAny(sem, c, r.1) <==> AllHold(sem, c, rest))
  {
    hide CheckExpr, FindEvaluable, AndLeaves;
    if rest != [] {
      MergeKeepsLeaves(rest);
      FindEvaluableKeepsMeaning(sem, c, s, MergeConjuncts(rest).value);
    }
  }

  lemma SplitParts(s: Option<Scope>, rest: seq<Expr>)
    requires NoAnds(rest)
    ensures LeavesOf(Split(s, rest).0) == Those(s, rest, true) && LeavesOf(Split(s, rest).1) == Those(s, rest, false)
  {
    hide FindEvaluable, AndLeaves;
    if rest != [] {
      MergeKeepsLeaves(rest);
      FindEvaluableSplits(s, MergeConjuncts(rest).value);
    }
  }

  /** The left side can be the key and the right side the value of a hash join. */
  predicate DrivesForward(scopes: Scopes, e: Expr) {
    e.Eq? && Evaluable(scopes.Keys(), e.left) && Evaluable(scopes.Values(), e.right)
  }

  predicate Drives(scopes: Scopes, e: Expr) {
    e.Eq? && (DrivesForward(scopes, e) ||
      (Evaluable(scopes.Keys(), e.right) && (Evaluable(scopes.Keys(), e.left) || Evaluable(scopes.Values(), e.left))))
  }

  /** The whole plan: a nested loop over all conjuncts exactly when none of them can drive a hash join; else
    the first that can gives key and value, the filter consists of those of the others that the build side
    can evaluate, and the constraint of the rest, what followed the equality before what preceded it. */
  lemma PlanIs(scopes: Scopes, e: Expr) returns (i: nat)
    ensures var es, plan := SplitConjuncts(e), Plan(scopes, e);
            && (plan.executor.NestedLoop? ==>
                 LeavesOf(plan.constraint) == es && forall j | 0 <= j < |es| :: !Drives(scopes, es[j]))
            && (plan.executor.Hash? ==>
                 && i < |es| && Drives(scopes, es[i]) && (forall j | 0 <= j < i :: !Drives(scopes, es[j]))
                 && es[i] == (if DrivesForward(scopes, es[i]) then Eq(plan.executor.key, plan.executor.value)
                              else Eq(plan.executor.value, plan.executor.key))
                 && var rest := es[i + 1..] + es[..i];
                    && LeavesOf(plan.executor.filter) == Those(scopes.Keys(), rest, true)
                    && LeavesOf(plan.constraint) == Those(scopes.Keys(), rest, false))
  {
    hide Evaluable, Split, MergeConjuncts, LeavesOf, Those;
    var keys, values := scopes.Keys(), scopes.Values();
    var es := SplitConjuncts(e);
    SplitLeavesNoAnd(e);
    match FirstCandidate(keys, values, es) {
      case None =>
        i := 0;
        MergedLeaves(es);
      case Some(k) =>
        i := k;
        SplitParts(keys, es[k + 1..] + es[..k]);
    }
  }

  lemma MergedLeaves(es: seq<Expr>)
    requires NoAnds(es)
    ensures LeavesOf(MergeConjuncts(es)) == es
  {
    if es != [] { MergeKeepsLeaves(es); }
  }

  /** The equality of a hash plan, in the order in which it was written. */
  predicate EqualityHolds(sem: Semantics, c: Context, key: Expr, value: Expr, e: Expr) {
    (e == Eq(key, value) || e == Eq(value, key)) && Holds(sem, c, e)
  }

  ghost predicate PlanHolds(sem: Semantics, c: Context, plan: Planned, equality: Expr) {
    && HoldsIfAny(sem, c, plan.constraint)
    && (plan.executor.Hash? ==>
          && EqualityHolds(sem, c, plan.executor.key, plan.executor.value, equality)
          && HoldsIfAny(sem, c, plan.executor.filter))
  }

  /** Wherever every conjunct evaluates to a boolean or NULL, the equality, the build-side filter and
    the residual constraint together hold exactly when the ON condition holds. */
  lemma PlanKeepsMeaning(sem: Semantics, c: Context, scopes: Scopes, e: Expr)
    returns (equality: Expr)
    requires AllBoolean(sem, c, SplitConjuncts(e))
    ensures var plan := Plan(scopes, e);
            && BooleanIfAny(sem, c, plan.constraint)
            && (plan.executor.Hash? ==>
                  && BooleanIfAny(sem, c, plan.executor.filter) && IsBoolean(sem, c, equality)
                  && equality in {Eq(plan.executor.key, plan.executor.value),
                     Eq(plan.executor.value, plan.executor.key)})
            && (PlanHolds(sem, c, plan, equality) <==> Holds(sem, c, e))
  {
    hide CheckExpr, Evaluable, Split, MergeConjuncts;
    var keys, values := scopes.Keys(), scopes.Values();
    var es := SplitConjuncts(e);
    SplitPreservesMeaning(sem, c, e);
    match FirstCandidate(keys, values, es) {
      case None =>
        MergePreservesMeaning(sem, c, es);
        equality := e;
      case Some(i) =>
        equality := es[i];
        var rest := es[i + 1..] + es[..i];
        RestOfConjuncts(sem, c, es, i);
        SplitLeavesNoAnd(e);
        SplitKeepsMeaning(sem, c, keys, rest);
    }
  }

  lemma RestOfConjuncts(sem: Semantics, c: Context, es: seq<Expr>, i: nat)
    requires i < |es| && AllBoolean(sem, c, es)
    ensures AllBoolean(sem, c, es[i + 1..] + es[..i])
    ensures AllHold(sem, c, es) <==> Holds(sem, c, es[i]) && AllHold(sem, c, es[i + 1..] + es[..i])
  {
    hide CheckExpr;
    AllHoldConcat(sem, c, es[i + 1..], es[..i]);
    assert es == es[..i] + ([es[i]] + es[i + 1..]);
    AllHoldConcat(sem, c, es[..i], [es[i]] + es[i + 1..]);
    AllHoldConcat(sem, c, [es[i]], es[i + 1..]);
  }
}

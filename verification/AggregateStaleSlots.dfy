/** Which slots of an earlier plan survive planning. */
module AggregateStaleSlots {
  import opened Data
  import opened AggregatePlanning
  import opened AggregateErasure

  // ----- a statement without any slots -----

  function CleanExpr(e: Expr): Expr
    decreases e, 1
  {
    match e
    case Leaf(_) => e
    case Apply(op, args) => Apply(op, CleanAll(args))
    case Subquery(op, args, query) => Subquery(op, CleanAll(args), CleanQuery(query))
    case Aggregate(kind, arg, distinct, _) =>
      Aggregate(kind, if arg.Some? then Some(CleanExpr(arg.value)) else Option.None, distinct, Option.None)
  }

  function CleanAll(es: seq<Expr>): seq<Expr>
    decreases es, 0
  {
    if es == [] then [] else [CleanExpr(es[0])] + CleanAll(es[1..])
  }

  function CleanRows(rows: seq<ValuesRow>): seq<ValuesRow>
    decreases rows, 0
  {
    if rows == [] then [] else [ValuesRow(CleanAll(rows[0].exprs))] + CleanRows(rows[1..])
  }

  function CleanSource(s: Source): Source
    decreases s, 1
  {
    match s
    case Table(name, exprs) => Table(name, CleanAll(exprs))
    case Derived(query, exprs) => Derived(CleanQuery(query), CleanAll(exprs))
    case Series(size, exprs) => Series(CleanExpr(size), CleanAll(exprs))
  }

  function CleanSources(ss: seq<Source>): seq<Source>
    decreases ss, 0
  {
    if ss == [] then [] else [CleanSource(ss[0])] + CleanSources(ss[1..])
  }

  function CleanQuery(q: Query): Query
    decreases q, 1
  {
    match q
    case Values(rows, limits) => Values(CleanRows(rows), CleanAll(limits))
    case Select(sources, projection, selection, groupBy, having, _, orderBy, limits) =>
      Select(CleanSources(sources), CleanAll(projection), CleanAll(selection), CleanAll(groupBy), CleanAll(having),
             Option.None, CleanAll(orderBy), CleanAll(limits))
  }

  function CleanStatement(s: Statement): Statement {
    match s
    case OfQuery(q) => OfQuery(CleanQuery(q))
    case OfExprs(es) => OfExprs(CleanAll(es))
  }

  // ----- slots that planning does not assign -----

  /** The subqueries of the expression hold no slot outside their bound clauses; if `loose`, the
    expression itself holds none either. */
  predicate NoLoose(e: Expr, loose: bool)
    decreases e, 1
  {
    match e
    case Leaf(_) => true
    case Apply(_, args) => NoLooseIn(args, loose)
    case Subquery(_, args, query) => NoLooseIn(args, loose) && NoLooseSlots(query)
    case Aggregate(_, arg, _, slot) => (loose ==> slot.None?) && (arg.Some? ==> NoLoose(arg.value, loose))
  }

  predicate NoLooseIn(es: seq<Expr>, loose: bool)
    decreases es, 0
  {
    es == [] || (NoLoose(es[0], loose) && NoLooseIn(es[1..], loose))
  }

  predicate NoLooseInRows(rows: seq<ValuesRow>)
    decreases rows, 0
  {
    rows == [] || (NoLooseIn(rows[0].exprs, true) && NoLooseInRows(rows[1..]))
  }

  predicate NoLooseInSource(s: Source)
    decreases s, 1
  {
    && NoLooseIn(s.exprs, true)
    && match s
       case Table(_, _) => true
       case Derived(query, _) => NoLooseSlots(query)
       case Series(size, _) => NoLoose(size, true)
  }

  predicate NoLooseInSources(ss: seq<Source>)
    decreases ss, 0
  {
    ss == [] || (NoLooseInSource(ss[0]) && NoLooseInSources(ss[1..]))
  }

  /** No slot anywhere but in projections, HAVING and ORDER BY. */
  predicate NoLooseSlots(q: Query)
    decreases q, 1
  {
    match q
    case Values(rows, limits) => NoLooseInRows(rows) && NoLooseIn(limits, true)
    case Select(sources, projection, selection, groupBy, having, _, orderBy, limits) =>
      && NoLooseInSources(sources) && NoLooseIn(selection, true) && NoLooseIn(groupBy, true) && NoLooseIn(limits, true)
      && NoLooseIn(projection, false) && NoLooseIn(having, false) && NoLooseIn(orderBy, false)
  }

  predicate NoLooseInStatement(s: Statement) {
    match s
    case OfQuery(q) => NoLooseSlots(q)
    case OfExprs(es) => NoLooseIn(es, true)
  }

  // ----- erasing cleans exactly the statements without loose slots -----

  lemma ConsEqual<T>(a: T, x: seq<T>, b: T, y: seq<T>)
    ensures [a] + x == [b] + y <==> a == b && x == y
  {
    if [a] + x == [b] + y {
      assert ([a] + x)[0] == a && ([b] + y)[0] == b;
      assert ([a] + x)[1..] == x && ([b] + y)[1..] == y;
    }
  }

  function Forget(e: Expr, loose: bool): Expr { if loose then EraseExpr(e) else Strip(EraseExpr(e)) }

  function ForgetAll(es: seq<Expr>, loose: bool): seq<Expr> { if loose then EraseAll(es) else StripAll(EraseAll(es)) }

  lemma ForgetFirst(es: seq<Expr>, loose: bool)
    requires es != []
    ensures ForgetAll(es, loose) == [Forget(es[0], loose)] + ForgetAll(es[1..], loose)
  {
    assert EraseAll(es)[1..] == EraseAll(es[1..]);
  }

  lemma {:induction false} ForgettingCleansExpr(e: Expr, loose: bool)
    ensures Forget(e, loose) == CleanExpr(e) <==> NoLoose(e, loose)
    decreases e, 1
  {
    match e
    case Leaf(_) =>
    case Apply(_, args) => ForgettingCleansAll(args, loose);
    case Subquery(_, args, query) => ForgettingCleansAll(args, loose); ErasingCleansQuery(query);
    case Aggregate(_, arg, _, _) => if arg.Some? { ForgettingCleansExpr(arg.value, loose); }
  }

  lemma {:induction false} ForgettingCleansAll(es: seq<Expr>, loose: bool)
    ensures ForgetAll(es, loose) == CleanAll(es) <==> NoLooseIn(es, loose)
    decreases es, 0
  {
    if es != [] {
      ForgettingCleansExpr(es[0], loose);
      ForgettingCleansAll(es[1..], loose);
      ForgetFirst(es, loose);
      ConsEqual(Forget(es[0], loose), ForgetAll(es[1..], loose), CleanExpr(es[0]), CleanAll(es[1..]));
    }
  }

  lemma {:induction false} ErasingCleansRows(rows: seq<ValuesRow>)
    ensures EraseRows(rows) == CleanRows(rows) <==> NoLooseInRows(rows)
    decreases rows, 0
  {
    if rows != [] {
      ForgettingCleansAll(rows[0].exprs, true);
      ErasingCleansRows(rows[1..]);
      ConsEqual(ValuesRow(EraseAll(rows[0].exprs)), EraseRows(rows[1..]), ValuesRow(CleanAll(rows[0].exprs)),
        CleanRows(rows[1..]));
    }
  }

  lemma {:induction false} ErasingCleansSource(s: Source)
    ensures EraseSource(s) == CleanSource(s) <==> NoLooseInSource(s)
    decreases s, 1
  {
    ForgettingCleansAll(s.exprs, true);
    match s
    case Table(_, _) =>
    case Derived(query, _) => ErasingCleansQuery(query);
    case Series(size, _) => ForgettingCleansExpr(size, true);
  }

  lemma {:induction false} ErasingCleansSources(ss: seq<Source>)
    ensures EraseSources(ss) == CleanSources(ss) <==> NoLooseInSources(ss)
    decreases ss, 0
  {
    if ss != [] {
      ErasingCleansSource(ss[0]);
      ErasingCleansSources(ss[1..]);
      ConsEqual(EraseSource(ss[0]), EraseSources(ss[1..]), CleanSource(ss[0]), CleanSources(ss[1..]));
    }
  }

  lemma {:induction false} ErasingCleansQuery(q: Query)
    ensures EraseQuery(q) == CleanQuery(q) <==> NoLooseSlots(q)
    decreases q, 1
  {
    match q
    case Values(rows, limits) => ErasingCleansRows(rows); ForgettingCleansAll(limits, true);
    case Select(sources, projection, selection, groupBy, having, _, orderBy, limits) =>
      ErasingCleansSources(sources);
      ForgettingCleansAll(projection, false);
      ForgettingCleansAll(selection, true);
      ForgettingCleansAll(groupBy, true);
      ForgettingCleansAll(having, false);
      ForgettingCleansAll(orderBy, false);
      ForgettingCleansAll(limits, true);
  }

  // ----- a clean statement holds no loose slots -----

  lemma {:induction false} CleanExprIsClean(e: Expr, loose: bool)
    ensures NoLoose(CleanExpr(e), loose) && CleanExpr(CleanExpr(e)) == CleanExpr(e)
    decreases e, 1
  {
    match e
    case Leaf(_) =>
    case Apply(_, args) => CleanAllIsClean(args, loose);
    case Subquery(_, args, query) => CleanAllIsClean(args, loose); CleanQueryIsClean(query);
    case Aggregate(_, arg, _, _) => if arg.Some? { CleanExprIsClean(arg.value, loose); }
  }

  lemma {:induction false} CleanAllIsClean(es: seq<Expr>, loose: bool)
    ensures NoLooseIn(CleanAll(es), loose) && CleanAll(CleanAll(es)) == CleanAll(es)
    decreases es, 0
  {
    if es != [] {
      CleanExprIsClean(es[0], loose);
      CleanAllIsClean(es[1..], loose);
      assert CleanAll(es)[1..] == CleanAll(es[1..]);
    }
  }

  lemma {:induction false} CleanRowsAreClean(rows: seq<ValuesRow>)
    ensures NoLooseInRows(CleanRows(rows)) && CleanRows(CleanRows(rows)) == CleanRows(rows)
    decreases rows, 0
  {
    if rows != [] {
      CleanAllIsClean(rows[0].exprs, true);
      CleanRowsAreClean(rows[1..]);
      assert CleanRows(rows)[1..] == CleanRows(rows[1..]);
    }
  }

  lemma {:induction false} CleanSourcesAreClean(ss: seq<Source>)
    ensures NoLooseInSources(CleanSources(ss)) && CleanSources(CleanSources(ss)) == CleanSources(ss)
    decreases ss, 0
  {
    if ss != [] {
      var s := ss[0];
      CleanAllIsClean(s.exprs, true);
      if s.Derived? { CleanQueryIsClean(s.query); }
      if s.Series? { CleanExprIsClean(s.size, true); }
      CleanSourcesAreClean(ss[1..]);
      assert CleanSources(ss)[1..] == CleanSources(ss[1..]);
    }
  }

  lemma {:induction false} CleanQueryIsClean(q: Query)
    ensures NoLooseSlots(CleanQuery(q)) && CleanQuery(CleanQuery(q)) == CleanQuery(q)
    decreases q, 1
  {
    match q
    case Values(rows, limits) => CleanRowsAreClean(rows); CleanAllIsClean(limits, true);
    case Select(sources, projection, selection, groupBy, having, _, orderBy, limits) =>
      CleanSourcesAreClean(sources);
      CleanAllIsClean(projection, false);
      CleanAllIsClean(selection, true);
      CleanAllIsClean(groupBy, true);
      CleanAllIsClean(having, false);
      CleanAllIsClean(orderBy, false);
      CleanAllIsClean(limits, true);
  }

  // ----- the theorem -----

  lemma ErasingCleans(s: Statement)
    ensures EraseStatement(s) == CleanStatement(s) <==> NoLooseInStatement(s)
    ensures EraseStatement(CleanStatement(s)) == CleanStatement(s)
  {
    match s
    case OfQuery(q) =>
      ErasingCleansQuery(q);
      CleanQueryIsClean(q);
      ErasingCleansQuery(CleanQuery(q));
    case OfExprs(es) =>
      ForgettingCleansAll(es, true);
      CleanAllIsClean(es, true);
      ForgettingCleansAll(CleanAll(es), true);
  }

  /** Planning a statement with arbitrary slots gives the plan of the statement without slots exactly
    when no slot stands where planning does not bind: in WHERE, GROUP BY, join conditions, series
    sizes, LIMIT, OFFSET, VALUES or the expressions of UPDATE and DELETE, at any depth. */
  lemma StaleSlotsVanishExactlyWhen(s: Statement)
    ensures PlanStatement(s) == PlanStatement(CleanStatement(s)) <==> NoLooseInStatement(s)
  {
    hide PlanStatement, EraseStatement, CleanStatement, NoLooseInStatement;
    ErasingCleans(s);
    SamePlanExactlyWhenSameStatement(s, CleanStatement(s));
  }

  /** An example: the slot of an aggregate in WHERE survives. */
  lemma StaleSlotInWhereSurvives(slot: nat)
    ensures var stale := Aggregate(Count, Option.None, false, Some(slot));
            var s := OfQuery(Select([Table("Item", [])], [Leaf("id")], [stale], [], [], Option.None, [], []));
            PlanStatement(s) == s && PlanStatement(s) != PlanStatement(CleanStatement(s))
  {
    var stale := Aggregate(Count, Option.None, false, Some(slot));
    var q := Select([Table("Item", [])], [Leaf("id")], [stale], [], [], Option.None, [], []);
    var ids := q.projection;
    assert PlanAll(ids) == [PlanExpr(ids[0])] + PlanAll(ids[1..]);
    assert PlanAll(q.selection) == [PlanExpr(stale)] + PlanAll(q.selection[1..]);
    assert PlanSources(q.sources) == [PlanSource(q.sources[0])] + PlanSources(q.sources[1..]);
    assert BindAll(ids, []) == ([ids[0]] + BindAll(ids[1..], []).0, BindAll(ids[1..], []).1);
    StaleSlotsVanishExactlyWhen(OfQuery(q));
    assert !NoLooseIn([stale], true);
  }
}

/** Aggregate planning depends on nothing but the plan without the slots that it assigns. */
module AggregateErasure {
  import opened Data
  import opened AggregatePlanning

  // ----- forgetting slots -----

  /** Forgets the slots of the expression itself, not those inside subqueries. */
  function Strip(e: Expr): Expr
    decreases e, 1
  {
    match e
    case Leaf(_) => e
    case Apply(op, args) => Apply(op, StripAll(args))
    case Subquery(op, args, query) => Subquery(op, StripAll(args), query)
    case Aggregate(kind, arg, distinct, _) =>
      Aggregate(kind, if arg.Some? then Some(Strip(arg.value)) else Option.None, distinct, Option.None)
  }

  function StripAll(es: seq<Expr>): seq<Expr>
    decreases es, 0
  {
    if es == [] then [] else [Strip(es[0])] + StripAll(es[1..])
  }

  /** Forgets what planning assigns inside the subqueries of the expression. */
  function EraseExpr(e: Expr): Expr
    decreases e, 1
  {
    match e
    case Leaf(_) => e
    case Apply(op, args) => Apply(op, EraseAll(args))
    case Subquery(op, args, query) => Subquery(op, EraseAll(args), EraseQuery(query))
    case Aggregate(kind, arg, distinct, slot) =>
      if arg.None? then e else Aggregate(kind, Some(EraseExpr(arg.value)), distinct, slot)
  }

  function EraseAll(es: seq<Expr>): seq<Expr>
    decreases es, 0
  {
    if es == [] then [] else [EraseExpr(es[0])] + EraseAll(es[1..])
  }

  function EraseRows(rows: seq<ValuesRow>): seq<ValuesRow>
    decreases rows, 0
  {
    if rows == [] then [] else [ValuesRow(EraseAll(rows[0].exprs))] + EraseRows(rows[1..])
  }

  function EraseSource(s: Source): Source
    decreases s, 1
  {
    match s
    case Table(name, exprs) => Table(name, EraseAll(exprs))
    case Derived(query, exprs) => Derived(EraseQuery(query), EraseAll(exprs))
    case Series(size, exprs) => Series(EraseExpr(size), EraseAll(exprs))
  }

  function EraseSources(ss: seq<Source>): seq<Source>
    decreases ss, 0
  {
    if ss == [] then [] else [EraseSource(ss[0])] + EraseSources(ss[1..])
  }

  /** Forgets exactly what planning assigns: the slots in projection, HAVING and ORDER BY and the list
    of aggregates, at every nesting depth. */
  function EraseQuery(q: Query): Query
    decreases q, 1
  {
    match q
    case Values(rows, limits) => Values(EraseRows(rows), EraseAll(limits))
    case Select(sources, projection, selection, groupBy, having, _, orderBy, limits) =>
      Select(EraseSources(sources), StripAll(EraseAll(projection)), EraseAll(selection), EraseAll(groupBy),
             StripAll(EraseAll(having)), Option.None, StripAll(EraseAll(orderBy)), EraseAll(limits))
  }

  function EraseStatement(s: Statement): Statement {
    match s
    case OfQuery(q) => OfQuery(EraseQuery(q))
    case OfExprs(es) => OfExprs(EraseAll(es))
  }

  // ----- binding and stripping -----

  /** Binding does not read the slots it finds. */
  lemma {:induction false} BindIgnoresSlots(e: Expr, aggregates: seq<Expr>)
    ensures Bind(Strip(e), aggregates) == Bind(e, aggregates)
    decreases e, 1
  {
    match e
    case Leaf(_) =>
    case Apply(_, args) => BindAllIgnoresSlots(args, aggregates);
    case Subquery(_, args, _) => BindAllIgnoresSlots(args, aggregates);
    case Aggregate(kind, arg, distinct, slot) =>
      if arg.None? {
        EntryIgnoresSlot(e, Strip(e), aggregates);
      } else {
        BindIgnoresSlots(arg.value, aggregates);
        var r := Bind(arg.value, aggregates);
        EntryIgnoresSlot(e.(arg := Some(r.0)), Aggregate(kind, Some(r.0), distinct, Option.None), r.1);
      }
  }

  lemma EntryIgnoresSlot(a: Expr, b: Expr, aggregates: seq<Expr>)
    requires SameAggregate(a, b)
    ensures BindAggregate(a, aggregates) == BindAggregate(b, aggregates)
  {
    FindIgnoresSlot(a, b, aggregates);
  }

  lemma {:induction false} FindIgnoresSlot(a: Expr, b: Expr, aggregates: seq<Expr>)
    requires SameAggregate(a, b)
    ensures Find(aggregates, a) == Find(aggregates, b)
  {
    if aggregates != [] { FindIgnoresSlot(a, b, aggregates[..|aggregates| - 1]); }
  }

  lemma {:induction false} BindAllIgnoresSlots(es: seq<Expr>, aggregates: seq<Expr>)
    ensures BindAll(StripAll(es), aggregates) == BindAll(es, aggregates)
    decreases es, 0
  {
    if es != [] {
      BindIgnoresSlots(es[0], aggregates);
      BindAllIgnoresSlots(es[1..], Bind(es[0], aggregates).1);
      assert StripAll(es)[1..] == StripAll(es[1..]);
    }
  }

  /** Binding changes nothing but slots. */
  lemma {:induction false} BindOnlyAddsSlots(e: Expr, aggregates: seq<Expr>)
    ensures Strip(Bind(e, aggregates).0) == Strip(e)
    decreases e, 1
  {
    match e
    case Leaf(_) =>
    case Apply(_, args) => BindAllOnlyAddsSlots(args, aggregates);
    case Subquery(_, args, _) => BindAllOnlyAddsSlots(args, aggregates);
    case Aggregate(_, arg, _, _) => if arg.Some? { BindOnlyAddsSlots(arg.value, aggregates); }
  }

  lemma {:induction false} BindAllOnlyAddsSlots(es: seq<Expr>, aggregates: seq<Expr>)
    ensures StripAll(BindAll(es, aggregates).0) == StripAll(es)
    decreases es, 0
  {
    if es != [] {
      BindOnlyAddsSlots(es[0], aggregates);
      var first := Bind(es[0], aggregates);
      var rest := BindAll(es[1..], first.1);
      BindAllOnlyAddsSlots(es[1..], first.1);
      assert ([first.0] + rest.0)[1..] == rest.0;
    }
  }

  // ----- stripping commutes with planning and erasing -----

  lemma {:induction false} PlanStripped(e: Expr)
    ensures PlanExpr(Strip(e)) == Strip(PlanExpr(e))
    decreases e, 1
  {
    match e
    case Leaf(_) =>
    case Apply(_, args) => PlanAllStripped(args);
    case Subquery(_, args, _) => PlanAllStripped(args);
    case Aggregate(_, arg, _, _) => if arg.Some? { PlanStripped(arg.value); }
  }

  lemma {:induction false} PlanAllStripped(es: seq<Expr>)
    ensures PlanAll(StripAll(es)) == StripAll(PlanAll(es))
    decreases es, 0
  {
    if es != [] {
      PlanStripped(es[0]);
      PlanAllStripped(es[1..]);
      assert StripAll(es)[1..] == StripAll(es[1..]) && PlanAll(es)[1..] == PlanAll(es[1..]);
    }
  }

  lemma {:induction false} EraseStripped(e: Expr)
    ensures EraseExpr(Strip(e)) == Strip(EraseExpr(e))
    decreases e, 1
  {
    match e
    case Leaf(_) =>
    case Apply(_, args) => EraseAllStripped(args);
    case Subquery(_, args, _) => EraseAllStripped(args);
    case Aggregate(_, arg, _, _) => if arg.Some? { EraseStripped(arg.value); }
  }

  lemma {:induction false} EraseAllStripped(es: seq<Expr>)
    ensures EraseAll(StripAll(es)) == StripAll(EraseAll(es))
    decreases es, 0
  {
    if es != [] {
      EraseStripped(es[0]);
      EraseAllStripped(es[1..]);
      assert StripAll(es)[1..] == StripAll(es[1..]) && EraseAll(es)[1..] == EraseAll(es[1..]);
    }
  }

  // ----- planning ignores what it assigns -----

  lemma {:induction false} PlanErasedExpr(e: Expr)
    ensures PlanExpr(EraseExpr(e)) == PlanExpr(e)
    decreases e, 1
  {
    match e
    case Leaf(_) =>
    case Apply(_, args) => PlanErasedAll(args);
    case Subquery(_, args, query) => PlanErasedAll(args); PlanErasedQuery(query);
    case Aggregate(_, arg, _, _) => if arg.Some? { PlanErasedExpr(arg.value); }
  }

  lemma {:induction false} PlanErasedAll(es: seq<Expr>)
    ensures PlanAll(EraseAll(es)) == PlanAll(es)
    decreases es, 0
  {
    if es != [] {
      PlanErasedExpr(es[0]);
      PlanErasedAll(es[1..]);
      assert EraseAll(es)[1..] == EraseAll(es[1..]);
    }
  }

  lemma {:induction false} PlanErasedRows(rows: seq<ValuesRow>)
    ensures PlanRows(EraseRows(rows)) == PlanRows(rows)
    decreases rows, 0
  {
    if rows != [] {
      PlanErasedAll(rows[0].exprs);
      PlanErasedRows(rows[1..]);
      assert EraseRows(rows)[1..] == EraseRows(rows[1..]);
    }
  }

  lemma {:induction false} PlanErasedSources(ss: seq<Source>)
    ensures PlanSources(EraseSources(ss)) == PlanSources(ss)
    decreases ss, 0
  {
    if ss != [] {
      var s := ss[0];
      PlanErasedAll(s.exprs);
      if s.Derived? { PlanErasedQuery(s.query); }
      if s.Series? { PlanErasedExpr(s.size); }
      PlanErasedSources(ss[1..]);
      assert EraseSources(ss)[1..] == EraseSources(ss[1..]);
    }
  }

  /** A clause that is bound: planned and bound alike with and without stale slots. */
  lemma {:induction false} BoundClauseIgnoresSlots(es: seq<Expr>, aggregates: seq<Expr>)
    ensures BindAll(PlanAll(StripAll(EraseAll(es))), aggregates) == BindAll(PlanAll(es), aggregates)
    decreases es, 1
  {
    PlanAllStripped(EraseAll(es));
    PlanErasedAll(es);
    BindAllIgnoresSlots(PlanAll(es), aggregates);
  }

  /** Planning a query with arbitrary slots where it assigns them equals planning the clean query. */
  lemma {:induction false} PlanErasedQuery(q: Query)
    ensures PlanQuery(EraseQuery(q)) == PlanQuery(q)
    decreases q, 1
  {
    match q
    case Values(rows, limits) => PlanErasedRows(rows); PlanErasedAll(limits);
    case Select(sources, projection, selection, groupBy, having, _, orderBy, limits) =>
      PlanErasedSources(sources);
      PlanErasedAll(selection);
      PlanErasedAll(groupBy);
      PlanErasedAll(limits);
      BoundClauseIgnoresSlots(projection, []);
      var p := BindAll(PlanAll(projection), []);
      BoundClauseIgnoresSlots(having, p.1);
      var h := BindAll(PlanAll(having), p.1);
      BoundClauseIgnoresSlots(orderBy, h.1);
  }

  // ----- planning changes nothing else -----

  lemma {:induction false} ErasePlannedExpr(e: Expr)
    ensures EraseExpr(PlanExpr(e)) == EraseExpr(e)
    decreases e, 1
  {
    match e
    case Leaf(_) =>
    case Apply(_, args) => ErasePlannedAll(args);
    case Subquery(_, args, query) => ErasePlannedAll(args); ErasePlannedQuery(query);
    case Aggregate(_, arg, _, _) => if arg.Some? { ErasePlannedExpr(arg.value); }
  }

  lemma {:induction false} ErasePlannedAll(es: seq<Expr>)
    ensures EraseAll(PlanAll(es)) == EraseAll(es)
    decreases es, 0
  {
    if es != [] {
      ErasePlannedExpr(es[0]);
      ErasePlannedAll(es[1..]);
      assert PlanAll(es)[1..] == PlanAll(es[1..]);
    }
  }

  lemma {:induction false} ErasePlannedRows(rows: seq<ValuesRow>)
    ensures EraseRows(PlanRows(rows)) == EraseRows(rows)
    decreases rows, 0
  {
    if rows != [] {
      ErasePlannedAll(rows[0].exprs);
      ErasePlannedRows(rows[1..]);
      assert PlanRows(rows)[1..] == PlanRows(rows[1..]);
    }
  }

  lemma {:induction false} ErasePlannedSources(ss: seq<Source>)
    ensures EraseSources(PlanSources(ss)) == EraseSources(ss)
    decreases ss, 0
  {
    if ss != [] {
      var s := ss[0];
      ErasePlannedAll(s.exprs);
      if s.Derived? { ErasePlannedQuery(s.query); }
      if s.Series? { ErasePlannedExpr(s.size); }
      ErasePlannedSources(ss[1..]);
      assert PlanSources(ss)[1..] == PlanSources(ss[1..]);
    }
  }

  lemma {:induction false} ErasedBoundClause(es: seq<Expr>, aggregates: seq<Expr>)
    ensures StripAll(EraseAll(BindAll(PlanAll(es), aggregates).0)) == StripAll(EraseAll(es))
    decreases es, 1
  {
    var bound := BindAll(PlanAll(es), aggregates).0;
    EraseAllStripped(bound);
    BindAllOnlyAddsSlots(PlanAll(es), aggregates);
    EraseAllStripped(PlanAll(es));
    ErasePlannedAll(es);
  }

  /** A planned query is the query it was made from, up to what planning assigns. */
  lemma {:induction false} ErasePlannedQuery(q: Query)
    ensures EraseQuery(PlanQuery(q)) == EraseQuery(q)
    decreases q, 1
  {
    match q
    case Values(rows, limits) => ErasePlannedRows(rows); ErasePlannedAll(limits);
    case Select(sources, projection, selection, groupBy, having, _, orderBy, limits) =>
      ErasePlannedSources(sources);
      ErasePlannedAll(selection);
      ErasePlannedAll(groupBy);
      ErasePlannedAll(limits);
      ErasedBoundClause(projection, []);
      var p := BindAll(PlanAll(projection), []);
      ErasedBoundClause(having, p.1);
      var h := BindAll(PlanAll(having), p.1);
      ErasedBoundClause(orderBy, h.1);
  }

  // ----- the theorems -----

  lemma PlanErased(s: Statement)
    ensures PlanStatement(EraseStatement(s)) == PlanStatement(s)
    ensures EraseStatement(PlanStatement(s)) == EraseStatement(s)
  {
    match s
    case OfQuery(q) => PlanErasedQuery(q); ErasePlannedQuery(q);
    case OfExprs(es) => PlanErasedAll(es); ErasePlannedAll(es);
  }

  /** Two statements have the same plan exactly when they differ in nothing but the slots and lists
    that planning assigns, through derived tables, joins and subqueries of any depth. */
  lemma SamePlanExactlyWhenSameStatement(a: Statement, b: Statement)
    ensures PlanStatement(a) == PlanStatement(b) <==> EraseStatement(a) == EraseStatement(b)
  {
    hide PlanStatement, EraseStatement;
    PlanErased(a);
    PlanErased(b);
  }

  /** Planning a planned statement changes nothing. */
  lemma PlanningIsIdempotent(s: Statement)
    ensures PlanStatement(PlanStatement(s)) == PlanStatement(s)
  {
    hide PlanStatement, EraseStatement;
    PlanErased(s);
    SamePlanExactlyWhenSameStatement(PlanStatement(s), s);
  }
}

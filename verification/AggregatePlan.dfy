/** Binding aggregates to slots (core/src/plan/aggregate.rs, core/src/plan/expr/visit.rs). */
module AggregatePlanning {
  import opened Data

  datatype Kind = Count | Sum | Min | Max | Avg | Variance | Stdev

  /** Expressions as the visitor sees them.  `Leaf` has no children, `Apply` stands for every operator,
    function, CASE or list with its children in visiting order; an aggregate without an argument is
    COUNT(*); `Subquery` is a scalar subquery, EXISTS or IN with the expressions beside the query. */
  datatype Expr =
    | Leaf(text: string)
    | Apply(op: string, args: seq<Expr>)
    | Aggregate(kind: Kind, arg: Option<Expr>, distinct: bool, slot: Option<nat>)
    | Subquery(op: string, args: seq<Expr>, query: Query)

  /** `exprs` holds the ON condition and the expressions of a hash join, if any. */
  datatype Source =
    | Table(name: string, exprs: seq<Expr>)
    | Derived(query: Query, exprs: seq<Expr>)
    | Series(size: Expr, exprs: seq<Expr>)

  /** An optional clause is a sequence of at most one expression; `limits` is LIMIT and OFFSET. */
  datatype Query =
    | Select(sources: seq<Source>, projection: seq<Expr>, selection: seq<Expr>, groupBy: seq<Expr>, having: seq<Expr>,
             aggregates: Option<seq<Expr>>, orderBy: seq<Expr>, limits: seq<Expr>)
    | Values(rows: seq<ValuesRow>, limits: seq<Expr>)

  datatype ValuesRow = ValuesRow(exprs: seq<Expr>)

  /** A query, or the expressions of an UPDATE or DELETE. */
  datatype Statement = OfQuery(query: Query) | OfExprs(exprs: seq<Expr>)

  // ----- binding one SELECT -----

  /** The derived equality of `AggregateKey`: what identifies an aggregate, whatever its slot. */
  predicate SameAggregate(a: Expr, b: Expr) {
    a.Aggregate? && b.Aggregate? && a.kind == b.kind && a.arg == b.arg && a.distinct == b.distinct
  }

  function Find(aggregates: seq<Expr>, a: Expr): (r: Option<nat>)
    ensures r.Some? ==> r.value < |aggregates| && SameAggregate(aggregates[r.value], a)
    ensures r.None? ==> forall i | 0 <= i < |aggregates| :: !SameAggregate(aggregates[i], a)
  {
    if aggregates == [] then Option.None
    else
      var n := |aggregates| - 1;
      if SameAggregate(aggregates[n], a) then Some(n) else Find(aggregates[..n], a)
  }

  /** Gives the aggregate the slot of an equal one, or a new slot. */
  function BindAggregate(a: Expr, aggregates: seq<Expr>): (Expr, seq<Expr>)
    requires a.Aggregate?
  {
    match Find(aggregates, a)
    case Some(i) => (a.(slot := Some(i)), aggregates)
    case None => (a.(slot := Some(|aggregates|)), aggregates + [a.(slot := Some(|aggregates|))])
  }

  /** Children first, then the node itself; the body of a subquery is not entered. */
  function Bind(e: Expr, aggregates: seq<Expr>): (Expr, seq<Expr>)
    decreases e, 1
  {
    match e
    case Leaf(_) => (e, aggregates)
    case Apply(op, args) => var r := BindAll(args, aggregates); (Apply(op, r.0), r.1)
    case Subquery(op, args, query) => var r := BindAll(args, aggregates); (Subquery(op, r.0, query), r.1)
    case Aggregate(_, arg, _, _) =>
      if arg.None? then BindAggregate(e, aggregates)
      else
        var r := Bind(arg.value, aggregates);
        BindAggregate(e.(arg := Some(r.0)), r.1)
  }

  function BindAll(es: seq<Expr>, aggregates: seq<Expr>): (r: (seq<Expr>, seq<Expr>))
    ensures |r.0| == |es|
    decreases es, 0
  {
    if es == [] then ([], aggregates)
    else
      var first := Bind(es[0], aggregates);
      var rest := BindAll(es[1..], first.1);
      ([first.0] + rest.0, rest.1)
  }

  // ----- planning -----

  function PlanExpr(e: Expr): Expr
    decreases e, 1
  {
    match e
    case Leaf(_) => e
    case Apply(op, args) => Apply(op, PlanAll(args))
    case Aggregate(kind, arg, distinct, slot) =>
      if arg.None? then e else Aggregate(kind, Some(PlanExpr(arg.value)), distinct, slot)
    case Subquery(op, args, query) => Subquery(op, PlanAll(args), PlanQuery(query))
  }

  function PlanAll(es: seq<Expr>): (r: seq<Expr>)
    ensures |r| == |es|
    decreases es, 0
  {
    if es == [] then [] else [PlanExpr(es[0])] + PlanAll(es[1..])
  }

  function PlanRows(rows: seq<ValuesRow>): seq<ValuesRow>
    decreases rows, 0
  {
    if rows == [] then [] else [ValuesRow(PlanAll(rows[0].exprs))] + PlanRows(rows[1..])
  }

  function PlanSource(s: Source): Source
    decreases s, 1
  {
    match s
    case Table(name, exprs) => Table(name, PlanAll(exprs))
    case Derived(query, exprs) => Derived(PlanQuery(query), PlanAll(exprs))
    case Series(size, exprs) => Series(PlanExpr(size), PlanAll(exprs))
  }

  function PlanSources(ss: seq<Source>): seq<Source>
    decreases ss, 0
  {
    if ss == [] then [] else [PlanSource(ss[0])] + PlanSources(ss[1..])
  }

  /** `aggregate_slots`: absent when there are none. */
  function Slots(aggregates: seq<Expr>): Option<seq<Expr>> {
    if aggregates == [] then Option.None else Some(aggregates)
  }

  function PlanQuery(q: Query): (p: Query)
    ensures p.Select? <==> q.Select?
    decreases q, 1
  {
    match q
    case Values(rows, limits) => Values(PlanRows(rows), PlanAll(limits))
    case Select(sources, projection, selection, groupBy, having, _, orderBy, limits) =>
      var p := BindAll(PlanAll(projection), []);
      var h := BindAll(PlanAll(having), p.1);
      var o := BindAll(PlanAll(orderBy), h.1);
      Select(PlanSources(sources), p.0, PlanAll(selection), PlanAll(groupBy), h.0, Slots(o.1), o.0, PlanAll(limits))
  }

  function PlanStatement(s: Statement): Statement {
    match s
    case OfQuery(q) => OfQuery(PlanQuery(q))
    case OfExprs(es) => OfExprs(PlanAll(es))
  }

  // ----- the binder as the source runs it -----

  /** The map and the vector that `bind_select` updates while it visits. */
  class Binder {
    var slots: map<Expr, nat>
    var aggregates: seq<Expr>

    /** The map finds, for an aggregate without its slot, its position in the vector. */
    ghost predicate Valid()
      reads this
    {
      && (forall i | 0 <= i < |aggregates| :: aggregates[i].Aggregate?)
      && (forall i, j | 0 <= i < j < |aggregates| :: !SameAggregate(aggregates[i], aggregates[j]))
      && (forall i | 0 <= i < |aggregates| ::
         AggregateKey(aggregates[i]) in slots && slots[AggregateKey(aggregates[i])] == i)
      && (forall k | k in slots :: slots[k] < |aggregates| && AggregateKey(aggregates[slots[k]]) == k)
    }

    constructor ()
      ensures Valid() && aggregates == []
    {
      slots, aggregates := map[], [];
    }

    /** The entry of one aggregate: found in the map, or inserted. */
    method Entry(a: Expr) returns (bound: Expr)
      requires Valid() && a.Aggregate?
      modifies this
      ensures Valid() && (bound, aggregates) == BindAggregate(a, old(aggregates))
    {
      var key := AggregateKey(a);
      if key in slots {
        bound := a.(slot := Some(slots[key]));
        FindUnique(aggregates, a, slots[key]);
      } else {
        var slot := |aggregates|;
        bound := a.(slot := Some(slot));
        assert Find(aggregates, a).None? by { KeysTell(aggregates, slots, a); }
        assert forall i | 0 <= i < |aggregates| :: AggregateKey(aggregates[i]) != key;
        slots, aggregates := slots[key := slot], aggregates + [bound];
      }
    }

    method Visit(e: Expr) returns (bound: Expr)
      requires Valid()
      modifies this
      ensures Valid() && (bound, aggregates) == Bind(e, old(aggregates))
      decreases e, 1
    {
      match e {
        case Leaf(_) => bound := e;
        case Apply(op, args) =>
          var visited := VisitAll(args);
          bound := Apply(op, visited);
        case Subquery(op, args, query) =>
          var visited := VisitAll(args);
          bound := Subquery(op, visited, query);
        case Aggregate(_, arg, _, _) =>
          var visited := e;
          if arg.Some? {
            var inner := Visit(arg.value);
            visited := e.(arg := Some(inner));
          }
          bound := Entry(visited);
      }
    }

    method VisitAll(es: seq<Expr>) returns (bound: seq<Expr>)
      requires Valid()
      modifies this
      ensures Valid() && (bound, aggregates) == BindAll(es, old(aggregates))
      decreases es, 0
    {
      if es == [] {
        bound := [];
      } else {
        var first := Visit(es[0]);
        var rest := VisitAll(es[1..]);
        bound := [first] + rest;
      }
    }
  }

  function AggregateKey(a: Expr): Expr
    requires a.Aggregate?
  {
    a.(slot := Option.None)
  }

  lemma FindUnique(aggregates: seq<Expr>, a: Expr, i: nat)
    requires i < |aggregates| && SameAggregate(aggregates[i], a)
    requires forall i, j | 0 <= i < j < |aggregates| :: !SameAggregate(aggregates[i], aggregates[j])
    ensures Find(aggregates, a) == Some(i)
  {
  }

  lemma KeysTell(aggregates: seq<Expr>, slots: map<Expr, nat>, a: Expr)
    requires a.Aggregate? && AggregateKey(a) !in slots
    requires forall i | 0 <= i < |aggregates| :: aggregates[i].Aggregate? && AggregateKey(aggregates[i]) in slots
    ensures Find(aggregates, a).None?
  {
  }

  /** `bind_select`: projection, then HAVING, then ORDER BY. */
  method BindSelect(q: Query) returns (bound: Query)
    requires q.Select?
    ensures var p := BindAll(q.projection, []);
            var h := BindAll(q.having, p.1);
            var o := BindAll(q.orderBy, h.1);
            bound == q.(projection := p.0, having := h.0, orderBy := o.0, aggregates := Slots(o.1))
  {
    var binder := new Binder();
    var projection := binder.VisitAll(q.projection);
    var having := binder.VisitAll(q.having);
    var orderBy := binder.VisitAll(q.orderBy);
    bound := q.(projection := projection, having := having, orderBy := orderBy, aggregates := Slots(binder.aggregates));
  }

  /** `plan_query`: the parts first, then the binder over the clauses of a SELECT. */
  method RunPlanQuery(q: Query) returns (planned: Query)
    ensures planned == PlanQuery(q)
  {
    match q {
      case Values(rows, limits) => planned := Values(PlanRows(rows), PlanAll(limits));
      case Select(sources, projection, selection, groupBy, having, aggregates, orderBy, limits) =>
        planned := BindSelect(Select(PlanSources(sources), PlanAll(projection), PlanAll(selection), PlanAll(groupBy),
                                     PlanAll(having), aggregates, PlanAll(orderBy), PlanAll(limits)));
    }
  }
}

/** What aggregate planning promises. */
module AggregatePlanFacts {
  import opened Data
  import opened AggregatePlanning

  // ----- slots -----

  /** Every aggregate of the expression, at any depth outside subqueries, is the very entry of its slot. */
  predicate Bound(e: Expr, aggregates: seq<Expr>)
    decreases e
  {
    match e
    case Leaf(_) => true
    case Apply(_, args) => forall i | 0 <= i < |args| :: Bound(args[i], aggregates)
    case Subquery(_, args, _) => forall i | 0 <= i < |args| :: Bound(args[i], aggregates)
    case Aggregate(_, arg, _, slot) =>
      && slot.Some? && slot.value < |aggregates| && aggregates[slot.value] == e
      && (arg.Some? ==> Bound(arg.value, aggregates))
  }

  predicate AllBound(es: seq<Expr>, aggregates: seq<Expr>) {
    forall i | 0 <= i < |es| :: Bound(es[i], aggregates)
  }

  /** The entries are aggregates, pairwise different, each in its own slot. */
  predicate Distinct(aggregates: seq<Expr>) {
    && (forall i | 0 <= i < |aggregates| :: aggregates[i].Aggregate? && aggregates[i].slot == Some(i))
    && (forall i, j | 0 <= i < j < |aggregates| :: !SameAggregate(aggregates[i], aggregates[j]))
  }

  lemma {:induction false} BoundGrows(e: Expr, aggregates: seq<Expr>, more: seq<Expr>)
    requires Bound(e, aggregates) && aggregates <= more
    ensures Bound(e, more)
    decreases e
  {
    match e
    case Leaf(_) =>
    case Apply(_, args) => forall i | 0 <= i < |args|
      ensures Bound(args[i], more) { BoundGrows(args[i], aggregates, more); }
    case Subquery(_, args, _) => forall i | 0 <= i < |args|
      ensures Bound(args[i], more) { BoundGrows(args[i], aggregates, more); }
    case Aggregate(_, arg, _, _) => if arg.Some? { BoundGrows(arg.value, aggregates, more); }
  }

  lemma AllBoundGrows(es: seq<Expr>, aggregates: seq<Expr>, more: seq<Expr>)
    requires AllBound(es, aggregates) && aggregates <= more
    ensures AllBound(es, more)
  {
    forall i | 0 <= i < |es| ensures Bound(es[i], more) { BoundGrows(es[i], aggregates, more); }
  }

  /** Binding extends the entries and leaves every aggregate bound. */
  lemma {:induction false} BindBinds(e: Expr, aggregates: seq<Expr>)
    requires Distinct(aggregates)
    ensures var r := Bind(e, aggregates); aggregates <= r.1 && Distinct(r.1) && Bound(r.0, r.1)
    decreases e, 1
  {
    match e
    case Leaf(_) =>
    case Apply(_, args) => BindAllBinds(args, aggregates);
    case Subquery(_, args, _) => BindAllBinds(args, aggregates);
    case Aggregate(_, arg, _, _) =>
      var r := (e, aggregates);
      if arg.Some? {
        BindBinds(arg.value, aggregates);
        var inner := Bind(arg.value, aggregates);
        r := (e.(arg := Some(inner.0)), inner.1);
      }
      EntryBinds(r.0, r.1);
  }

  lemma EntryBinds(a: Expr, aggregates: seq<Expr>)
    requires a.Aggregate? && Distinct(aggregates) && (a.arg.Some? ==> Bound(a.arg.value, aggregates))
    ensures var r := BindAggregate(a, aggregates); aggregates <= r.1 && Distinct(r.1) && Bound(r.0, r.1)
  {
    var r := BindAggregate(a, aggregates);
    if a.arg.Some? { BoundGrows(a.arg.value, aggregates, r.1); }
  }

  lemma {:induction false} BindAllBinds(es: seq<Expr>, aggregates: seq<Expr>)
    requires Distinct(aggregates)
    ensures var r := BindAll(es, aggregates); aggregates <= r.1 && Distinct(r.1) && AllBound(r.0, r.1)
    decreases es, 0
  {
    if es != [] {
      BindBinds(es[0], aggregates);
      var first := Bind(es[0], aggregates);
      BindAllBinds(es[1..], first.1);
      BoundGrows(first.0, first.1, BindAll(es[1..], first.1).1);
    }
  }

  /** In a planned SELECT every aggregate of projection, HAVING and ORDER BY has a slot in range whose
    entry is the aggregate itself, and the entries are pairwise different. */
  lemma PlannedSelectIsBound(q: Query)
    requires q.Select?
    ensures var p := PlanQuery(q);
            var aggregates := if p.aggregates.Some? then p.aggregates.value else [];
            Distinct(aggregates) && AllBound(p.projection, aggregates) && AllBound(p.having, aggregates) &&
              AllBound(p.orderBy, aggregates)
  {
    hide Bind, Bound, PlanExpr, PlanSource;
    var p := BindAll(PlanAll(q.projection), []);
    var h := BindAll(PlanAll(q.having), p.1);
    var o := BindAll(PlanAll(q.orderBy), h.1);
    BindAllBinds(PlanAll(q.projection), []);
    BindAllBinds(PlanAll(q.having), p.1);
    BindAllBinds(PlanAll(q.orderBy), h.1);
    AllBoundGrows(p.0, p.1, o.1);
    AllBoundGrows(h.0, h.1, o.1);
  }

  /** Two bound aggregates share a slot exactly when function, argument and DISTINCT agree. */
  lemma SlotsSharedExactlyWhenEqual(a: Expr, b: Expr, aggregates: seq<Expr>)
    requires a.Aggregate? && b.Aggregate? && Distinct(aggregates) && Bound(a, aggregates) && Bound(b, aggregates)
    ensures a.slot == b.slot <==> SameAggregate(a, b)
  {
    var i, j := a.slot.value, b.slot.value;
    if i < j {
      assert !SameAggregate(aggregates[i], aggregates[j]);
    } else if j < i {
      assert !SameAggregate(aggregates[j], aggregates[i]);
    }
  }

  // ----- no slot without a use -----

  /** The aggregate occurs in the expression outside subqueries. */
  predicate Occurs(a: Expr, e: Expr)
    decreases e
  {
    match e
    case Leaf(_) => false
    case Apply(_, args) => exists i | 0 <= i < |args| :: Occurs(a, args[i])
    case Subquery(_, args, _) => exists i | 0 <= i < |args| :: Occurs(a, args[i])
    case Aggregate(_, arg, _, _) => a == e || (arg.Some? && Occurs(a, arg.value))
  }

  ghost predicate OccursIn(a: Expr, es: seq<Expr>) { exists i | 0 <= i < |es| :: Occurs(a, es[i]) }

  /** Each new entry occurs in what was bound. */
  lemma {:induction false} NewEntriesOccur(e: Expr, aggregates: seq<Expr>, k: nat)
    requires |aggregates| <= k < |Bind(e, aggregates).1|
    ensures Occurs(Bind(e, aggregates).1[k], Bind(e, aggregates).0)
    decreases e, 1
  {
    match e
    case Leaf(_) =>
    case Apply(_, args) => NewEntriesOccurInAll(args, aggregates, k);
    case Subquery(_, args, _) => NewEntriesOccurInAll(args, aggregates, k);
    case Aggregate(_, arg, _, _) =>
      if arg.Some? && k < |Bind(arg.value, aggregates).1| { NewEntriesOccur(arg.value, aggregates, k); }
  }

  lemma {:induction false} NewEntriesOccurInAll(es: seq<Expr>, aggregates: seq<Expr>, k: nat)
    requires |aggregates| <= k < |BindAll(es, aggregates).1|
    ensures OccursIn(BindAll(es, aggregates).1[k], BindAll(es, aggregates).0)
    decreases es, 0
  {
    hide Occurs;
    if es != [] {
      var first := Bind(es[0], aggregates);
      var rest := BindAll(es[1..], first.1);
      var bound := [first.0] + rest.0;
      BindAllKeeps(es[1..], first.1);
      if k < |first.1| {
        NewEntriesOccur(es[0], aggregates, k);
        assert Occurs(first.1[k], bound[0]);
      } else {
        NewEntriesOccurInAll(es[1..], first.1, k);
        var i :| 0 <= i < |rest.0| && Occurs(rest.1[k], rest.0[i]);
        assert bound[i + 1] == rest.0[i];
      }
    }
  }

  lemma {:induction false} BindKeeps(e: Expr, aggregates: seq<Expr>)
    ensures aggregates <= Bind(e, aggregates).1
    decreases e, 1
  {
    match e
    case Leaf(_) =>
    case Apply(_, args) => BindAllKeeps(args, aggregates);
    case Subquery(_, args, _) => BindAllKeeps(args, aggregates);
    case Aggregate(_, arg, _, _) => if arg.Some? { BindKeeps(arg.value, aggregates); }
  }

  lemma {:induction false} BindAllKeeps(es: seq<Expr>, aggregates: seq<Expr>)
    ensures aggregates <= BindAll(es, aggregates).1
    decreases es, 0
  {
    if es != [] {
      BindKeeps(es[0], aggregates);
      BindAllKeeps(es[1..], Bind(es[0], aggregates).1);
    }
  }

  /** A planned SELECT computes no aggregate that its clauses do not use. */
  lemma EverySlotIsUsed(q: Query, k: nat)
    requires q.Select? && PlanQuery(q).aggregates.Some? && k < |PlanQuery(q).aggregates.value|
    ensures var p := PlanQuery(q);
            OccursIn(p.aggregates.value[k], p.projection) || OccursIn(p.aggregates.value[k], p.having)
            || OccursIn(p.aggregates.value[k], p.orderBy)
  {
    hide Bind, Occurs, PlanExpr, PlanSource, OccursIn;
    var p := BindAll(PlanAll(q.projection), []);
    var h := BindAll(PlanAll(q.having), p.1);
    var o := BindAll(PlanAll(q.orderBy), h.1);
    BindAllKeeps(PlanAll(q.having), p.1);
    BindAllKeeps(PlanAll(q.orderBy), h.1);
    if k < |p.1| {
      NewEntriesOccurInAll(PlanAll(q.projection), [], k);
    } else if k < |h.1| {
      NewEntriesOccurInAll(PlanAll(q.having), p.1, k);
    } else {
      NewEntriesOccurInAll(PlanAll(q.orderBy), h.1, k);
    }
  }
}

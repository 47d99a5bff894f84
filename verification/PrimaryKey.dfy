/** Reading one row by primary key instead of scanning (core/src/plan/primary_key.rs,
  core/src/plan/primary_key/lookup.rs, core/src/executor/fetch.rs, core/src/executor/filter.rs). */
module PrimaryKeys {
  import opened Data
  import opened Store
  import opened Expressions
  import opened JoinPlanning
  import opened Joins

  // ----- planning -----

  datatype JoinedColumns = Known(columns: seq<string>) | Unknown

  /** A relation joined to the table; if its columns are unknown it may provide any name. */
  datatype JoinedRelation = JoinedRelation(alias: string, columns: JoinedColumns) {
    predicate Provides(name: string) { columns.Known? ==> name in columns.columns }
  }

  datatype LookupCandidate = LookupCandidate(alias: string, column: string, joined: seq<JoinedRelation>) {
    /** The expression names the primary key and nothing that a joined relation could provide. */
    predicate Contains(key: Expr) {
      match key
      case Identifier(name) =>
        name == column && forall i | 0 <= i < |joined| :: !joined[i].Provides(name)
      case CompoundIdentifier(a, name) =>
        a == alias && name == column && forall i | 0 <= i < |joined| ::
          !(joined[i].alias == a && joined[i].Provides(name))
      case _ => false
    }
  }

  datatype Selection = Found(value: Expr, residual: Option<Expr>) | NotFound(e: Expr)

  predicate IsKey(candidate: Option<LookupCandidate>, e: Expr) { candidate.Some? && candidate.value.Contains(e) }

  /** `PrimaryKeyPlanner::expr`: takes the first usable equality out of a conjunction. */
  function PlanSelection(candidate: Option<LookupCandidate>, e: Expr): Selection {
    match e
    case Eq(left, right) =>
      if IsKey(candidate, left) && Evaluable(Option.None, right) then Found(right, Option.None)
      else if IsKey(candidate, right) && Evaluable(Option.None, left) then Found(left, Option.None)
      else NotFound(e)
    case And(left, right) =>
      (match PlanSelection(candidate, left)
       case Found(value, rest) => Found(value, Some(if rest.Some? then And(rest.value, right) else right))
       case NotFound(l) =>
         match PlanSelection(candidate, right)
         case Found(value, rest) => Found(value, Some(if rest.Some? then And(l, rest.value) else l))
         case NotFound(r) => NotFound(And(l, r)))
    case Nested(inner) =>
      (match PlanSelection(candidate, inner)
       case Found(value, rest) => Found(value, if rest.Some? then Some(Nested(rest.value)) else Option.None)
       case NotFound(i) => NotFound(Nested(i)))
    case _ => NotFound(e)
  }

  lemma {:induction false} NotFoundChangesNothing(candidate: Option<LookupCandidate>, e: Expr)
    ensures PlanSelection(candidate, e).NotFound? ==> PlanSelection(candidate, e).e == e
  {
    match e
    case And(left, right) => NotFoundChangesNothing(candidate, left); NotFoundChangesNothing(candidate, right);
    case Nested(inner) => NotFoundChangesNothing(candidate, inner);
    case _ =>
  }

  lemma {:induction false} FoundValueIsNameless(candidate: Option<LookupCandidate>, e: Expr)
    ensures PlanSelection(candidate, e).Found? ==> Evaluable(Option.None, PlanSelection(candidate, e).value)
  {
    hide IsKey;
    match e
    case And(left, right) => FoundValueIsNameless(candidate, left); FoundValueIsNameless(candidate, right);
    case Nested(inner) => FoundValueIsNameless(candidate, inner);
    case _ =>
  }

  /** An equality between the primary key and an expression without names. */
  predicate IsLookup(candidate: Option<LookupCandidate>, value: Expr, equality: Expr) {
    && equality.Eq? && Evaluable(Option.None, value)
    && ((equality.right == value && IsKey(candidate, equality.left)) ||
       (equality.left == value && IsKey(candidate, equality.right)))
  }

  /** A conjunct that compares the primary key with an expression without names. */
  predicate Usable(candidate: Option<LookupCandidate>, e: Expr) {
    && e.Eq?
    && ((IsKey(candidate, e.left) && Evaluable(Option.None, e.right)) ||
        (IsKey(candidate, e.right) && Evaluable(Option.None, e.left)))
  }

  ghost predicate FirstUsable(candidate: Option<LookupCandidate>, es: seq<Expr>, i: nat) {
    i < |es| && Usable(candidate, es[i]) && forall j | 0 <= j < i :: !Usable(candidate, es[j])
  }

  ghost predicate NoneUsable(candidate: Option<LookupCandidate>, es: seq<Expr>) {
    forall i | 0 <= i < |es| :: !Usable(candidate, es[i])
  }

  lemma UsableConcat(candidate: Option<LookupCandidate>, a: seq<Expr>, b: seq<Expr>, i: nat, j: nat)
    ensures FirstUsable(candidate, a, i) ==> FirstUsable(candidate, a + b, i) && (a + b)[i] == a[i]
    ensures NoneUsable(candidate, a) && FirstUsable(candidate, b, j) ==>
              FirstUsable(candidate, a + b, |a| + j) && (a + b)[|a| + j] == b[j]
    ensures NoneUsable(candidate, a) && NoneUsable(candidate, b) ==> NoneUsable(candidate, a + b)
  {
    hide Usable;
  }

  /** A lookup is planned exactly when some conjunct is usable, and it looks for the other side of the
    first one; if both sides are, for the right one. */
  lemma {:induction false} FoundExactlyWhen(candidate: Option<LookupCandidate>, e: Expr) returns (i: nat)
    ensures var es, plan := SplitConjuncts(e), PlanSelection(candidate, e);
            && (plan.Found? ==>
                 && FirstUsable(candidate, es, i)
                 && plan.value == if IsKey(candidate, es[i].left) && Evaluable(Option.None, es[i].right)
                                  then es[i].right else es[i].left)
            && (plan.NotFound? ==> NoneUsable(candidate, es))
  {
    hide IsKey, Evaluable, FirstUsable, NoneUsable;
    i := 0;
    match e {
      case And(left, right) =>
        var l := FoundExactlyWhen(candidate, left);
        var r := FoundExactlyWhen(candidate, right);
        var before := SplitConjuncts(left);
        var after := SplitConjuncts(right);
        i := if PlanSelection(candidate, left).Found? then l else |before| + r;
        UsableConcat(candidate, before, after, l, r);
      case Nested(inner) => i := FoundExactlyWhen(candidate, inner);
      case _ => UsableAlone(candidate, e);
    }
  }

  lemma UsableAlone(candidate: Option<LookupCandidate>, e: Expr)
    ensures Usable(candidate, e) ==> FirstUsable(candidate, [e], 0)
    ensures !Usable(candidate, e) ==> NoneUsable(candidate, [e])
  {
    hide Usable;
  }

  /** The equality taken out and the residual condition together mean the whole condition. */
  lemma {:induction false} SelectionKeepsMeaning(
      sem: Semantics, c: Context, candidate: Option<LookupCandidate>, e: Expr)
    returns (equality: Expr)
    requires AllBoolean(sem, c, SplitConjuncts(e))
    ensures var plan := PlanSelection(candidate, e);
            plan.Found? ==>
              && IsLookup(candidate, plan.value, equality) && IsBoolean(sem, c, equality)
              && BooleanIfAny(sem, c, plan.residual)
              && (Holds(sem, c, e) <==> Holds(sem, c, equality) && HoldsIfAny(sem, c, plan.residual))
  {
    hide CheckExpr, IsKey, Evaluable;
    equality := e;
    match e {
      case And(left, right) =>
        AllBooleanConcat(sem, c, SplitConjuncts(left), SplitConjuncts(right));
        SplitPreservesMeaning(sem, c, left);
        SplitPreservesMeaning(sem, c, right);
        AndHolds(sem, c, left, right);
        NotFoundChangesNothing(candidate, left);
        var l, r := PlanSelection(candidate, left), PlanSelection(candidate, right);
        if l.Found? {
          equality := SelectionKeepsMeaning(sem, c, candidate, left);
          if l.residual.Some? { AndHolds(sem, c, l.residual.value, right); }
        } else if r.Found? {
          equality := SelectionKeepsMeaning(sem, c, candidate, right);
          if r.residual.Some? { AndHolds(sem, c, left, r.residual.value); }
        }
      case Nested(inner) =>
        equality := SelectionKeepsMeaning(sem, c, candidate, inner);
        NestedMeansInner(sem, c, inner);
        var i := PlanSelection(candidate, inner);
        if i.Found? && i.residual.Some? { NestedMeansInner(sem, c, i.residual.value); }
      case Eq(_, _) => assert SplitConjuncts(e)[0] == e;
      case _ =>
    }
  }

  lemma NestedMeansInner(sem: Semantics, c: Context, e: Expr)
    ensures CheckExpr(sem, c, Nested(e)) == CheckExpr(sem, c, e)
  {
  }

  // ----- fetching -----

  /** The value to look for, converted to the type of the column. */
  function LookupValue(sem: Semantics, column: ColumnDef, value: Expr): Result<Value> {
    var ev :- Eval(sem, NOTHING, value);
    TryIntoValue(sem.parsing, ev, column.dataType, column.nullable)
  }

  function RowItem(alias: string, columns: seq<string>, row: Row): Item {
    Ok(Context.Data(alias, columns, row, Option.None))
  }

  /** `fetch_relation_rows` with a primary-key item: at most one row. */
  function LookupItems(
      sem: Semantics, table: Table, p: nat, alias: string, columns: seq<string>,
      value: Expr): Result<seq<Item>>
    requires p < |table.schema.columns|
  {
    var v :- LookupValue(sem, table.schema.columns[p], value);
    var key :- ToKey(v);
    Ok(if key in table.rows then [RowItem(alias, columns, table.rows[key])] else [])
  }

  function Items(alias: string, columns: seq<string>, rows: seq<(Key, Row)>): (r: seq<Item>)
    ensures |r| == |rows|
  {
    seq(|rows|, i requires 0 <= i < |rows| => RowItem(alias, columns, rows[i].1))
  }

  /** A fetched row shows its columns, by name and by alias and name, and nothing else. */
  lemma RowShows(alias: string, columns: seq<string>, row: Row, name: string, other: string)
    ensures RowItem(alias, columns, row).Ok?
    ensures var c := RowItem(alias, columns, row).value;
            && (name !in columns ==> Lookup(c, name) == Option.None)
            && (other != alias ==> LookupAlias(c, other, name) == Option.None)
            && LookupAlias(c, alias, name) == Lookup(c, name)
    ensures forall i | FirstNamed(columns, name, i) ::
              Lookup(RowItem(alias, columns, row).value, name) == if i < |row| then Some(row[i]) else Option.None
  {
  }

  ghost predicate FirstNamed(columns: seq<string>, name: string, i: int) {
    0 <= i < |columns| && columns[i] == name && forall j | 0 <= j < i :: columns[j] != name
  }

  /** The lookup succeeds exactly when what it looks for converts to a key of the column's type: a NULL
    is an error, where a scan finds nothing, and so is a value of another type, which a scan may find. */
  lemma LookupSucceedsExactlyWhen(
      sem: Semantics, table: Table, p: nat, alias: string, columns: seq<string>, value: Expr,
      ev: Evaluated)
    requires p < |table.schema.columns| && !table.schema.columns[p].nullable && Eval(sem, NOTHING, value) == Ok(ev)
    ensures LookupItems(sem, table, p, alias, columns, value).Ok? <==>
              var v := Converted(sem.parsing, ev, table.schema.columns[p].dataType);
              v.Ok? && GetType(v.value) == Some(table.schema.columns[p].dataType) && ToKey(v.value).Ok?
  {
    hide GetType, ToKey, Eval;
    var v := Converted(sem.parsing, ev, table.schema.columns[p].dataType);
    if v.Ok? { NullHasNoType(v.value); }
  }

  // ----- filtering joined rows -----

  /** The WHERE clause on one row; errors stay among the rows. */
  function Keep(sem: Semantics, outer: Option<Context>, e: Option<Expr>, item: Item): seq<Item> {
    if item.Err? then [item]
    else
      var pass := Check(sem, Surroundings(outer, item.value), e);
      if pass.Err? then [Err(pass.error)] else if pass.value then [item] else []
  }

  function Where(sem: Semantics, outer: Option<Context>, e: Option<Expr>, items: seq<Item>): seq<Item> {
    if items == [] then []
    else
      var n := |items| - 1;
      Where(sem, outer, e, items[..n]) + Keep(sem, outer, e, items[n])
  }

  /** What filtering makes of one row: it stays if the condition holds, goes if it is false or NULL, and
    becomes the error if the condition fails.  An error stays. */
  lemma FilterKeeps(sem: Semantics, outer: Option<Context>, e: Option<Expr>, item: Item)
    ensures item.Err? || e.None? ==> Where(sem, outer, e, [item]) == [item]
    ensures item.Ok? && e.Some? ==>
              var c := Surroundings(outer, item.value);
              Where(sem, outer, e, [item]) ==
                if Holds(sem, c, e.value) then [item]
                else if IsBoolean(sem, c, e.value) then []
                else [Err(CheckExpr(sem, c, e.value).error)]
  {
    hide CheckExpr;
    assert [item][..0] == [];
  }

  lemma {:induction false} WhereConcat(
      sem: Semantics, outer: Option<Context>, e: Option<Expr>, a: seq<Item>, b: seq<Item>)
    ensures Where(sem, outer, e, a + b) == Where(sem, outer, e, a) + Where(sem, outer, e, b)
    decreases |b|
  {
    hide Keep;
    if b == [] {
      assert a + b == a;
    } else {
      var n := |b| - 1;
      assert (a + b)[..|a| + n] == a + b[..n];
      WhereConcat(sem, outer, e, a, b[..n]);
    }
  }

  lemma {:induction false} FlatMapConcat(f: Context -> seq<Item>, a: seq<Item>, b: seq<Item>)
    ensures FlatMap(f, a + b) == FlatMap(f, a) + FlatMap(f, b)
    decreases |b|
  {
    if b == [] {
      assert a + b == a;
    } else {
      var n := |b| - 1;
      assert (a + b)[..|a| + n] == a + b[..n];
      FlatMapConcat(f, a, b[..n]);
    }
  }

  /** A join treats its left rows independently: whether it can be built does not depend on them, and
    its rows are those of the parts one after the other. */
  lemma JoinIsAdditive(sem: Semantics, outer: Option<Context>, clause: Clause, a: seq<Item>, b: seq<Item>)
    ensures Joined(sem, outer, clause, a).Ok? <==> Joined(sem, outer, clause, a + b).Ok?
    ensures Joined(sem, outer, clause, b).Ok? <==> Joined(sem, outer, clause, a + b).Ok?
    ensures Joined(sem, outer, clause, a + b).Ok? ==>
              Joined(sem, outer, clause, a + b).value
                == Joined(sem, outer, clause, a).value + Joined(sem, outer, clause, b).value
  {
    hide BuildEntries, FlatMap, PerRow;
    var built := if clause.plan.executor.NestedLoop? then Ok([])
      else BuildEntries(sem, outer, clause.relation, clause.plan.executor.key, clause.plan.executor.filter,
        clause.relation.rows);
    if built.Ok? {
      hide Joined;
      JoinedPerRow(sem, outer, clause, built.value, a);
      JoinedPerRow(sem, outer, clause, built.value, b);
      JoinedPerRow(sem, outer, clause, built.value, a + b);
      FlatMapConcat(PerRow(sem, outer, clause, built.value), a, b);
    }
  }

  lemma {:induction false} JoinsAreAdditive(
      sem: Semantics, outer: Option<Context>, clauses: seq<Clause>, a: seq<Item>, b: seq<Item>)
    ensures JoinedAll(sem, outer, clauses, a).Ok? <==> JoinedAll(sem, outer, clauses, a + b).Ok?
    ensures JoinedAll(sem, outer, clauses, b).Ok? <==> JoinedAll(sem, outer, clauses, a + b).Ok?
    ensures JoinedAll(sem, outer, clauses, a + b).Ok? ==>
              JoinedAll(sem, outer, clauses, a + b).value
                == JoinedAll(sem, outer, clauses, a).value + JoinedAll(sem, outer, clauses, b).value
    decreases |clauses|
  {
    hide Joined;
    if clauses != [] {
      JoinIsAdditive(sem, outer, clauses[0], a, b);
      if Joined(sem, outer, clauses[0], a + b).Ok? {
        JoinsAreAdditive(sem, outer, clauses[1..], Joined(sem, outer, clauses[0], a).value,
          Joined(sem, outer, clauses[0], b).value);
      }
    }
  }
}

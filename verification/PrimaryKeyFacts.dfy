/** A primary-key lookup finds what the scan and the filter find, also below joins. */
module PrimaryKeyFacts {
  import opened Data
  import opened Store
  import opened Integrity
  import opened Expressions
  import opened JoinPlanning
  import opened Joins
  import opened JoinFacts
  import opened Literals
  import opened LookupKeys
  import opened PrimaryKeys

  // ----- the key column of a row, through all joins -----

  /** In all these rows the name stands for the same value. */
  ghost predicate AllKnow(items: seq<Item>, name: Expr, v: Value)
    requires IsName(name)
  {
    forall i | 0 <= i < |items| && items[i].Ok? :: Named(items[i].value, name) == Some(v)
  }

  lemma AllKnowConcat(a: seq<Item>, b: seq<Item>, name: Expr, v: Value)
    requires IsName(name) && AllKnow(a, name, v) && AllKnow(b, name, v)
    ensures AllKnow(a + b, name, v)
  {
  }

  lemma NothingToKnow(name: Expr, v: Value)
    requires IsName(name)
    ensures AllKnow([], name, v)
  {
  }

  lemma ErrorKnows(item: Item, name: Expr, v: Value)
    requires IsName(name)
    ensures item.Err? ==> AllKnow([item], name, v)
  {
  }

  lemma JoinedRowKnows(rel: Relation, l: Context, r: Row, name: Expr)
    requires IsName(name) && Foreign(rel, name)
    ensures Named(JoinedRow(rel, l, r), name) == Named(l, name)
  {
  }

  lemma {:induction false} MatchesKnow(
      sem: Semantics, outer: Option<Context>, rel: Relation, on: Option<Expr>, l: Context, rows: seq<Row>, name: Expr,
      v: Value)
    requires IsName(name) && Foreign(rel, name) && Named(l, name) == Some(v)
    ensures AllKnow(Matches(sem, outer, rel, on, l, rows), name, v)
  {
    hide Check, Named, Foreign;
    if rows != [] {
      var n := |rows| - 1;
      MatchesKnow(sem, outer, rel, on, l, rows[..n], name, v);
      JoinedRowKnows(rel, l, rows[n], name);
      AllKnowConcat(Matches(sem, outer, rel, on, l, rows[..n]), Match(sem, outer, rel, on, l, rows[n]), name, v);
    }
  }

  lemma PerRowKnows(
      sem: Semantics, outer: Option<Context>, clause: Clause, entries: seq<BuildEntry>, l: Context, name: Expr,
      v: Value)
    requires IsName(name) && Foreign(clause.relation, name) && Named(l, name) == Some(v)
    ensures AllKnow(PerRow(sem, outer, clause, entries)(l), name, v)
  {
    hide Named, Foreign, Matches, RowsUnder, ProbeKey;
    var rel, on := clause.relation, clause.plan.constraint;
    JoinedRowKnows(rel, l, Nulls(rel), name);
    match clause.plan.executor {
      case NestedLoop => MatchesKnow(sem, outer, rel, on, l, rel.rows, name, v);
      case Hash(_, value, _) =>
        var k := ProbeKey(sem, outer, value, l);
        if k.Ok? { MatchesKnow(sem, outer, rel, on, l, RowsUnder(entries, k.value), name, v); }
    }
  }

  lemma {:induction false} FlatMapKnows(f: Context -> seq<Item>, left: seq<Item>, name: Expr, v: Value)
    requires IsName(name)
    requires forall i | 0 <= i < |left| && left[i].Ok? :: AllKnow(f(left[i].value), name, v)
    ensures AllKnow(FlatMap(f, left), name, v)
  {
    hide AllKnow;
    if left == [] {
      assert AllKnow([], name, v) by { NothingToKnow(name, v); }
    } else {
      var n := |left| - 1;
      FlatMapKnows(f, left[..n], name, v);
      ErrorKnows(left[n], name, v);
      AllKnowConcat(FlatMap(f, left[..n]), if left[n].Ok? then f(left[n].value) else [left[n]], name, v);
    }
  }

  /** A join does not change what a name means that the joined relation does not provide. */
  lemma JoinKeepsName(sem: Semantics, outer: Option<Context>, clause: Clause, left: seq<Item>, name: Expr, v: Value)
    requires IsName(name) && Foreign(clause.relation, name) && AllKnow(left, name, v)
    ensures Joined(sem, outer, clause, left).Ok? ==> AllKnow(Joined(sem, outer, clause, left).value, name, v)
  {
    hide Named, Foreign, BuildEntries, FlatMap, PerRow;
    if Joined(sem, outer, clause, left).Ok? {
      var entries := if clause.plan.executor.NestedLoop? then []
        else BuildEntries(sem, outer, clause.relation, clause.plan.executor.key, clause.plan.executor.filter,
          clause.relation.rows).value;
      JoinedPerRow(sem, outer, clause, entries, left);
      var f := PerRow(sem, outer, clause, entries);
      forall i | 0 <= i < |left| && left[i].Ok? ensures AllKnow(f(left[i].value), name, v) {
        PerRowKnows(sem, outer, clause, entries, left[i].value, name, v);
      }
      FlatMapKnows(f, left, name, v);
    }
  }

  ghost predicate AllForeign(clauses: seq<Clause>, name: Expr) {
    forall i | 0 <= i < |clauses| :: Foreign(clauses[i].relation, name)
  }

  lemma {:induction false} JoinsKeepName(
      sem: Semantics, outer: Option<Context>, clauses: seq<Clause>, left: seq<Item>, name: Expr, v: Value)
    requires IsName(name) && AllForeign(clauses, name) && AllKnow(left, name, v)
    ensures JoinedAll(sem, outer, clauses, left).Ok? ==> AllKnow(JoinedAll(sem, outer, clauses, left).value, name, v)
    decreases |clauses|
  {
    hide Named, Foreign, Joined, AllKnow;
    if clauses != [] {
      JoinKeepsName(sem, outer, clauses[0], left, name, v);
      var rows := Joined(sem, outer, clauses[0], left);
      if rows.Ok? { JoinsKeepName(sem, outer, clauses[1..], rows.value, name, v); }
    }
  }

  // ----- the comparison with the key -----

  lemma {:induction false} NamelessAgrees(c: Context, d: Context, e: Expr)
    requires Evaluable(Option.None, e)
    ensures Agree(c, d, e)
    decreases e
  {
    match e
    case Identifier(_) =>
    case CompoundIdentifier(_, _) =>
    case Constant(_) =>
    case ValueOf(_) =>
    case Nested(inner) => NamelessAgrees(c, d, inner);
    case And(left, right) => NamelessAgrees(c, d, left); NamelessAgrees(c, d, right);
    case Eq(left, right) => NamelessAgrees(c, d, left); NamelessAgrees(c, d, right);
    case Operation(_, args) => forall i | 0 <= i < |args|
      ensures Agree(c, d, args[i]) { NamelessAgrees(c, d, args[i]); }
  }

  lemma NameInSurroundings(sem: Semantics, outer: Option<Context>, c: Context, name: Expr, v: Value)
    requires IsName(name) && Named(c, name) == Some(v)
    ensures Eval(sem, Surroundings(outer, c), name) == Ok(Val(v))
  {
    var s := Surroundings(outer, c);
    assert Named(s, name) == Some(v);
  }

  /** What the lookup needs to know about the key and the value it is compared with. */
  ghost predicate LooksUp(sem: Semantics, value: Expr, v: Value, dataType: DataType) {
    && Evaluable(Option.None, value)
    && Eval(sem, NOTHING, value).Ok?
    && ComparesAs(sem, Eval(sem, NOTHING, value).value, v, dataType)
  }

  /** On a row whose key column holds `a`, the equality holds exactly when `a` is the value. */
  lemma EqualityMeansKey(
      sem: Semantics, outer: Option<Context>, c: Context, name: Expr, value: Expr, equality: Expr, a: Value, v: Value,
      dataType: DataType)
    requires IsName(name) && Named(c, name) == Some(a) && GetType(a) == Some(dataType)
    requires equality == Eq(name, value) || equality == Eq(value, name)
    requires LooksUp(sem, value, v, dataType)
    ensures Holds(sem, Surroundings(outer, c), equality) <==> a == v
  {
    hide Named, GetType, Evaluable, EvaluatedEq, ValueEq;
    var s := Surroundings(outer, c);
    NameInSurroundings(sem, outer, c, name, a);
    NamelessAgrees(NOTHING, s, value);
    AgreeingContextsEvaluateAlike(sem, NOTHING, s, value);
    var ev := Eval(sem, NOTHING, value).value;
    if equality == Eq(name, value) {
      assert Eval(sem, s, equality) == Ok(EvalEq(sem, Val(a), ev));
      ConditionFromTribool(sem, Val(a), ev);
    } else {
      assert Eval(sem, s, equality) == Ok(EvalEq(sem, ev, Val(a)));
      ConditionFromTribool(sem, ev, Val(a));
    }
  }

  // ----- one row of the table, all rows joined to it -----

  /** No row carries an error and no conjunct of the condition fails on one. */
  ghost predicate Clean(sem: Semantics, outer: Option<Context>, e: Expr, items: seq<Item>) {
    forall i | 0 <= i < |items| ::
      items[i].Ok? && AllBoolean(sem, Surroundings(outer, items[i].value), SplitConjuncts(e))
  }

  /** In this row every form of the key column stands for `a`. */
  ghost predicate KeyIs(candidate: Option<LookupCandidate>, c: Context, a: Value) {
    forall key | IsKey(candidate, key) :: IsName(key) && Named(c, key) == Some(a)
  }

  lemma KeepsAlike(
      sem: Semantics, outer: Option<Context>, candidate: Option<LookupCandidate>, e: Expr, item: Item, a: Value,
      v: Value, dataType: DataType)
    requires PlanSelection(candidate, e).Found?
    requires item.Ok? && AllBoolean(sem, Surroundings(outer, item.value), SplitConjuncts(e)) &&
        KeyIs(candidate, item.value, a)
    requires GetType(a) == Some(dataType) && LooksUp(sem, PlanSelection(candidate, e).value, v, dataType)
    ensures Keep(sem, outer, Some(e), item)
         == if a == v then Keep(sem, outer, PlanSelection(candidate, e).residual, item) else []
  {
    hide Named, GetType, LooksUp, PlanSelection, SplitConjuncts, CheckExpr, IsKey, Evaluable;
    var s := Surroundings(outer, item.value);
    var equality := SelectionKeepsMeaning(sem, s, candidate, e);
    var plan := PlanSelection(candidate, e);
    SplitPreservesMeaning(sem, s, e);
    if equality.right == plan.value && IsKey(candidate, equality.left) {
      EqualityMeansKey(sem, outer, item.value, equality.left, plan.value, equality, a, v, dataType);
    } else {
      EqualityMeansKey(sem, outer, item.value, equality.right, plan.value, equality, a, v, dataType);
    }
  }

  /** All rows joined to one row of the table pass the filter alike if it is the row looked for, and
    none passes if it is another. */
  lemma {:induction false} WhereAlike(
      sem: Semantics, outer: Option<Context>, candidate: Option<LookupCandidate>, e: Expr, items: seq<Item>, a: Value,
      v: Value, dataType: DataType)
    requires PlanSelection(candidate, e).Found? && Clean(sem, outer, e, items)
    requires forall i | 0 <= i < |items| :: KeyIs(candidate, items[i].value, a)
    requires GetType(a) == Some(dataType) && LooksUp(sem, PlanSelection(candidate, e).value, v, dataType)
    ensures Where(sem, outer, Some(e), items)
         == if a == v then Where(sem, outer, PlanSelection(candidate, e).residual, items) else []
    decreases |items|
  {
    hide KeyIs, GetType, LooksUp, PlanSelection, AllBoolean, Keep;
    if items != [] {
      var n := |items| - 1;
      WhereAlike(sem, outer, candidate, e, items[..n], a, v, dataType);
      KeepsAlike(sem, outer, candidate, e, items[n], a, v, dataType);
    }
  }

  // ----- the whole query -----

  /** `SELECT ... FROM table AS alias JOIN ... WHERE condition`, possibly inside another query. */
  datatype Query = Query(alias: string, columns: seq<string>, clauses: seq<Clause>, condition: Expr,
    outer: Option<Context>)

  /** The candidate describes the table and the joined relations: see `PrimaryKeyLookupCandidate::new`. */
  ghost predicate Describes(candidate: LookupCandidate, q: Query, p: nat) {
    && candidate.alias == q.alias
    && Position(q.columns, candidate.column) == Some(p)
    && |candidate.joined| == |q.clauses|
    && forall i | 0 <= i < |q.clauses| ::
         && candidate.joined[i].alias == q.clauses[i].relation.alias
         && (candidate.joined[i].columns.Known? ==>
            candidate.joined[i].columns.columns == q.clauses[i].relation.columns)
  }

  lemma KeyIsForeign(candidate: LookupCandidate, q: Query, p: nat, key: Expr)
    requires Describes(candidate, q, p) && candidate.Contains(key)
    ensures IsName(key) && AllForeign(q.clauses, key)
  {
    forall i | 0 <= i < |q.clauses| ensures Foreign(q.clauses[i].relation, key) {
      var j := candidate.joined[i];
      assert key.Identifier? ==> !j.Provides(key.name);
      assert key.CompoundIdentifier? ==> !(j.alias == key.alias && j.Provides(key.column));
    }
  }

  lemma RowKnowsKey(candidate: LookupCandidate, q: Query, p: nat, row: Row, key: Expr)
    requires Describes(candidate, q, p) && candidate.Contains(key) && p < |row|
    ensures AllKnow([RowItem(q.alias, q.columns, row)], key, row[p])
  {
    assert RowValue(q.columns, row, candidate.column) == Some(row[p]);
  }

  /** Everything joined to one row of the table carries its key. */
  lemma JoinedRowsCarryKey(sem: Semantics, candidate: LookupCandidate, q: Query, p: nat, row: Row)
    requires Describes(candidate, q, p) && p < |row|
    ensures var joined := JoinedAll(sem, q.outer, q.clauses, [RowItem(q.alias, q.columns, row)]);
            joined.Ok? ==> forall i | 0 <= i < |joined.value| && joined.value[i].Ok? ::
              KeyIs(Some(candidate), joined.value[i].value, row[p])
  {
    hide Describes, Named, JoinedAll, AllForeign;
    var left := [RowItem(q.alias, q.columns, row)];
    var joined := JoinedAll(sem, q.outer, q.clauses, left);
    if joined.Ok? {
      forall i, key | 0 <= i < |joined.value| && joined.value[i].Ok? && IsKey(Some(candidate), key)
        ensures IsName(key) && Named(joined.value[i].value, key) == Some(row[p])
      {
        KeyIsForeign(candidate, q, p, key);
        RowKnowsKey(candidate, q, p, row, key);
        JoinsKeepName(sem, q.outer, q.clauses, left, key, row[p]);
      }
    }
  }

  /** The listed rows whose key is the value. */
  function Hits(rows: seq<(Key, Row)>, p: nat, v: Value): seq<(Key, Row)>
    requires forall i | 0 <= i < |rows| :: p < |rows[i].1|
  {
    if rows == [] then []
    else
      var n := |rows| - 1;
      Hits(rows[..n], p, v) + if rows[n].1[p] == v then [rows[n]] else []
  }

  ghost predicate Typed(rows: seq<(Key, Row)>, p: nat, dataType: DataType) {
    forall i | 0 <= i < |rows| :: p < |rows[i].1| && GetType(rows[i].1[p]) == Some(dataType)
  }

  lemma ItemsAppend(q: Query, rows: seq<(Key, Row)>, row: (Key, Row))
    ensures Items(q.alias, q.columns, rows + [row])
        == Items(q.alias, q.columns, rows) + [RowItem(q.alias, q.columns, row.1)]
  {
  }

  lemma CleanParts(sem: Semantics, outer: Option<Context>, e: Expr, a: seq<Item>, b: seq<Item>)
    requires Clean(sem, outer, e, a + b)
    ensures Clean(sem, outer, e, a) && Clean(sem, outer, e, b)
  {
    hide AllBoolean;
    forall i | 0 <= i < |a| ensures a[i].Ok? && AllBoolean(sem, Surroundings(outer, a[i].value), SplitConjuncts(e)) {
      assert (a + b)[i] == a[i];
    }
    forall i | 0 <= i < |b| ensures b[i].Ok? && AllBoolean(sem, Surroundings(outer, b[i].value), SplitConjuncts(e)) {
      assert (a + b)[|a| + i] == b[i];
    }
  }

  /** The rows of a query with these rows of the table and this filter. */
  function Selected(sem: Semantics, q: Query, e: Option<Expr>, left: seq<Item>): Result<seq<Item>> {
    var joined :- JoinedAll(sem, q.outer, q.clauses, left);
    Ok(Where(sem, q.outer, e, joined))
  }

  ghost predicate JoinsCleanly(sem: Semantics, q: Query, left: seq<Item>) {
    var joined := JoinedAll(sem, q.outer, q.clauses, left);
    joined.Ok? && Clean(sem, q.outer, q.condition, joined.value)
  }

  lemma SelectedConcat(sem: Semantics, q: Query, e: Option<Expr>, a: seq<Item>, b: seq<Item>)
    requires JoinsCleanly(sem, q, a + b)
    ensures JoinsCleanly(sem, q, a) && JoinsCleanly(sem, q, b)
    ensures Selected(sem, q, e, a).Ok? && Selected(sem, q, e, b).Ok?
    ensures Selected(sem, q, e, a + b) == Ok(Selected(sem, q, e, a).value + Selected(sem, q, e, b).value)
  {
    hide JoinedAll, Clean, Where;
    JoinsAreAdditive(sem, q.outer, q.clauses, a, b);
    var x, y := JoinedAll(sem, q.outer, q.clauses, a).value, JoinedAll(sem, q.outer, q.clauses, b).value;
    CleanParts(sem, q.outer, q.condition, x, y);
    WhereConcat(sem, q.outer, e, x, y);
  }

  /** Filtering all joined rows by the condition equals joining only the hits and filtering by the rest. */
  lemma {:induction false} FilterPushesBelowJoins(
      sem: Semantics, candidate: LookupCandidate, q: Query, p: nat, rows: seq<(Key, Row)>, v: Value, dataType: DataType)
    requires Describes(candidate, q, p) && Typed(rows, p, dataType)
    requires PlanSelection(Some(candidate), q.condition).Found?
    requires LooksUp(sem, PlanSelection(Some(candidate), q.condition).value, v, dataType)
    requires JoinsCleanly(sem, q, Items(q.alias, q.columns, rows))
    ensures JoinsCleanly(sem, q, Items(q.alias, q.columns, Hits(rows, p, v)))
    ensures Selected(sem, q, Some(q.condition), Items(q.alias, q.columns, rows))
         == Selected(sem, q, PlanSelection(Some(candidate), q.condition).residual,
           Items(q.alias, q.columns, Hits(rows, p, v)))
    decreases |rows|
  {
    hide Describes, PlanSelection, LooksUp, JoinsCleanly, Selected, Items, GetType;
    var residual := PlanSelection(Some(candidate), q.condition).residual;
    if rows == [] {
      NoRows(sem, q, Some(q.condition), residual);
    } else {
      var n := |rows| - 1;
      var row := rows[n];
      var item := RowItem(q.alias, q.columns, row.1);
      var init, hits := Items(q.alias, q.columns, rows[..n]), Items(q.alias, q.columns, Hits(rows[..n], p, v));
      assert rows == rows[..n] + [row];
      ItemsAppend(q, rows[..n], row);
      SelectedConcat(sem, q, Some(q.condition), init, [item]);
      FilterPushesBelowJoins(sem, candidate, q, p, rows[..n], v, dataType);
      LastRowAlike(sem, candidate, q, p, row.1, v, dataType);
      if row.1[p] == v {
        ItemsAppend(q, Hits(rows[..n], p, v), row);
        CleanConcat(sem, q, residual, hits, [item]);
      } else {
        assert Hits(rows, p, v) == Hits(rows[..n], p, v);
        var kept := Selected(sem, q, Some(q.condition), init).value;
        assert kept + [] == kept;
      }
    }
  }

  lemma NoRows(sem: Semantics, q: Query, e: Option<Expr>, f: Option<Expr>)
    requires JoinsCleanly(sem, q, Items(q.alias, q.columns, []))
    ensures JoinsCleanly(sem, q, [])
    ensures Items(q.alias, q.columns, []) == []
    ensures Selected(sem, q, e, []) == Selected(sem, q, f, [])
  {
    hide JoinedAll;
    assert Items(q.alias, q.columns, []) == [];
    var none: seq<Item> := [];
    JoinsAreAdditive(sem, q.outer, q.clauses, none, none);
    assert none + none == none;
    var joined := JoinedAll(sem, q.outer, q.clauses, []).value;
    assert joined == joined + joined;
    assert |joined| == 0;
  }

  lemma CleanConcat(sem: Semantics, q: Query, e: Option<Expr>, a: seq<Item>, b: seq<Item>)
    requires JoinsCleanly(sem, q, a) && JoinsCleanly(sem, q, b)
    ensures JoinsCleanly(sem, q, a + b)
    ensures Selected(sem, q, e, a).Ok? && Selected(sem, q, e, b).Ok?
    ensures Selected(sem, q, e, a + b) == Ok(Selected(sem, q, e, a).value + Selected(sem, q, e, b).value)
  {
    hide JoinedAll, Where, AllBoolean;
    JoinsAreAdditive(sem, q.outer, q.clauses, a, b);
    WhereConcat(sem, q.outer, e, JoinedAll(sem, q.outer, q.clauses, a).value,
      JoinedAll(sem, q.outer, q.clauses, b).value);
  }

  lemma LastRowAlike(
      sem: Semantics, candidate: LookupCandidate, q: Query, p: nat, row: Row, v: Value, dataType: DataType)
    requires Describes(candidate, q, p) && p < |row| && GetType(row[p]) == Some(dataType)
    requires PlanSelection(Some(candidate), q.condition).Found?
    requires LooksUp(sem, PlanSelection(Some(candidate), q.condition).value, v, dataType)
    requires JoinsCleanly(sem, q, [RowItem(q.alias, q.columns, row)])
    ensures var residual := PlanSelection(Some(candidate), q.condition).residual;
            var left := [RowItem(q.alias, q.columns, row)];
            Selected(sem, q, Some(q.condition), left) == if row[p] == v then Selected(sem, q, residual, left)
              else Ok([])
  {
    hide Describes, PlanSelection, LooksUp, JoinedAll, Where, GetType, AllBoolean, KeyIs;
    var left := [RowItem(q.alias, q.columns, row)];
    var joined := JoinedAll(sem, q.outer, q.clauses, left).value;
    JoinedRowsCarryKey(sem, candidate, q, p, row);
    WhereAlike(sem, q.outer, Some(candidate), q.condition, joined, row[p], v, dataType);
  }

  // ----- the rows of a consistent table -----

  lemma {:induction false} NoHits(rows: seq<(Key, Row)>, p: nat, v: Value)
    requires forall i | 0 <= i < |rows| :: p < |rows[i].1| && rows[i].1[p] != v
    ensures Hits(rows, p, v) == []
  {
    if rows != [] { NoHits(rows[..|rows| - 1], p, v); }
  }

  lemma {:induction false} OneHit(rows: seq<(Key, Row)>, p: nat, v: Value, k: nat)
    requires k < |rows| && forall i | 0 <= i < |rows| :: p < |rows[i].1| && (rows[i].1[p] == v <==> i == k)
    ensures Hits(rows, p, v) == [rows[k]]
  {
    var n := |rows| - 1;
    if k == n { NoHits(rows[..n], p, v); } else { OneHit(rows[..n], p, v, k); }
  }

  /** In a table that satisfies its constraints the scan holds the value at most once, under its key. */
  lemma ScanHits(table: Table, p: nat, v: Value, key: Key)
    requires RowsOk(table.schema, table.rows) && PrimaryKeyIndex(table.schema.columns) == Some(p) && ToKey(v) == Ok(key)
    requires forall i | 0 <= i < |Scan(table.rows)| :: p < |Scan(table.rows)[i].1|
    ensures Hits(Scan(table.rows), p, v) == if key in table.rows then [(key, table.rows[key])] else []
  {
    hide RowOk, ToKey, Scan;
    var rows := Scan(table.rows);
    ScanListsRows(table.rows);
    forall i | 0 <= i < |rows| ensures rows[i].1[p] == v <==> rows[i].0 == key {
      assert Keyed(table.schema.columns, rows[i].0, rows[i].1);
      KeysInjective(rows[i].1[p], v);
    }
    if key in table.rows {
      var k := ScanIndex(table.rows, key);
      forall i | 0 <= i < |rows| ensures rows[i].0 == key <==> i == k {
        if i < k { assert rows[i].0 != rows[k].0; } else if i > k { assert rows[k].0 != rows[i].0; }
      }
      OneHit(rows, p, v, k);
    } else {
      NoHits(rows, p, v);
    }
  }

  lemma ScanIsTyped(table: Table, p: nat)
    requires RowsOk(table.schema, table.rows) && ColumnsOk(table.schema.columns) &&
        PrimaryKeyIndex(table.schema.columns) == Some(p)
    ensures p < |table.schema.columns| && Typed(Scan(table.rows), p, table.schema.columns[p].dataType)
  {
    hide Scan, GetType, ToKey;
    var rows := Scan(table.rows);
    ScanListsRows(table.rows);
    assert table.schema.columns[p].unique == Some(Unique(true)) && !table.schema.columns[p].nullable;
    forall i | 0 <= i < |rows|
      ensures p < |rows[i].1| && GetType(rows[i].1[p]) == Some(table.schema.columns[p].dataType) {
      assert RowOk(table.schema, rows[i].1) && Keyed(table.schema.columns, rows[i].0, rows[i].1);
    }
  }

  lemma NoRowHoldsNull(rows: seq<(Key, Row)>, p: nat, dataType: DataType)
    requires Typed(rows, p, dataType)
    ensures forall i | 0 <= i < |rows| :: p < |rows[i].1|
    ensures Hits(rows, p, Value.Null) == []
  {
    hide GetType;
    NullHasNoType(Value.Null);
    NoHits(rows, p, Value.Null);
  }

  lemma NoRowsSelected(sem: Semantics, q: Query, e: Option<Expr>)
    requires JoinsCleanly(sem, q, Items(q.alias, q.columns, []))
    ensures Selected(sem, q, e, Items(q.alias, q.columns, [])) == Ok([])
  {
    hide JoinedAll;
    NoRows(sem, q, e, e);
    var none: seq<Item> := [];
    JoinsAreAdditive(sem, q.outer, q.clauses, none, none);
    assert none + none == none;
    var joined := JoinedAll(sem, q.outer, q.clauses, []).value;
    assert joined == joined + joined;
    assert |joined| == 0;
  }

  /** What a lookup looks for when it does not fail. */
  lemma FoundKey(sem: Semantics, table: Table, p: nat, alias: string, columns: seq<string>, value: Expr)
    returns (v: Value)
    requires ColumnsOk(table.schema.columns) && PrimaryKeyIndex(table.schema.columns) == Some(p)
    requires LookupItems(sem, table, p, alias, columns, value).Ok?
    ensures var column := table.schema.columns[p];
            && Eval(sem, NOTHING, value).Ok? && !IsFloat(column.dataType)
            && LookupValue(sem, column, value) == Ok(v)
            && Converted(sem.parsing, Eval(sem, NOTHING, value).value, column.dataType) == Ok(v)
            && GetType(v) == Some(column.dataType) && ToKey(v).Ok?
            && LookupItems(sem, table, p, alias, columns, value)
                 == Ok(if ToKey(v).value !in table.rows then []
                       else [RowItem(alias, columns, table.rows[ToKey(v).value])])
  {
    hide GetType, ToKey, Eval, Converted;
    var column := table.schema.columns[p];
    assert column.unique == Some(Unique(true)) && !column.nullable;
    v := LookupValue(sem, column, value).value;
    NullHasNoType(v);
  }

  /** The theorem, for values and literals alike: whenever the lookup does not fail, scanning the table,
    joining every row and filtering by the whole condition selects exactly the rows, in the same order,
    that reading the one row by its key, joining it and filtering by the residual condition selects, if
    the scan compares with what the lookup looks for; and otherwise the scan selects nothing. */
  lemma LookupSelectsWhatScanSelects(sem: Semantics, table: Table, candidate: LookupCandidate, q: Query, p: nat)
    requires RowsOk(table.schema, table.rows) && ColumnsOk(table.schema.columns) &&
        PrimaryKeyIndex(table.schema.columns) == Some(p)
    requires p < |table.schema.columns| && Describes(candidate, q, p)
    requires var plan := PlanSelection(Some(candidate), q.condition);
             plan.Found? && LookupItems(sem, table, p, q.alias, q.columns, plan.value).Ok?
    requires JoinsCleanly(sem, q, Items(q.alias, q.columns, Scan(table.rows)))
    ensures var plan := PlanSelection(Some(candidate), q.condition);
            var left := LookupItems(sem, table, p, q.alias, q.columns, plan.value).value;
            && Eval(sem, NOTHING, plan.value).Ok?
            && Selected(sem, q, Some(q.condition), Items(q.alias, q.columns, Scan(table.rows)))
               == if ComparesConverted(sem.parsing, Eval(sem, NOTHING, plan.value).value,
                       table.schema.columns[p].dataType)
                  then Selected(sem, q, plan.residual, left) else Ok([])
  {
    hide RowsOk, ColumnsOk, Describes, PlanSelection, JoinsCleanly, Selected, Scan, Hits, LookupValue, ToKey, GetType,
      Typed, ComparesAs, ComparesConverted, Converted, Evaluable, LookupItems, Items;
    var plan := PlanSelection(Some(candidate), q.condition);
    var v := FoundKey(sem, table, p, q.alias, q.columns, plan.value);
    var ev, dataType := Eval(sem, NOTHING, plan.value).value, table.schema.columns[p].dataType;
    FoundValueIsNameless(Some(candidate), q.condition);
    ScanComparesExactlyWhen(sem, ev, dataType, v);
    var rows := Scan(table.rows);
    ScanIsTyped(table, p);
    if ComparesConverted(sem.parsing, ev, dataType) {
      FilterPushesBelowJoins(sem, candidate, q, p, rows, v, dataType);
      TypedIsWide(rows, p, dataType);
      ScanHits(table, p, v, ToKey(v).value);
      ItemsOfHit(q, table, ToKey(v).value);
    } else {
      FilterPushesBelowJoins(sem, candidate, q, p, rows, Value.Null, dataType);
      NoRowHoldsNull(rows, p, dataType);
      NoRowsSelected(sem, q, plan.residual);
    }
  }

  lemma ItemsOfHit(q: Query, table: Table, key: Key)
    ensures Items(q.alias, q.columns, []) == []
    ensures key in table.rows ==>
              Items(q.alias, q.columns, [(key, table.rows[key])]) == [RowItem(q.alias, q.columns, table.rows[key])]
  {
  }

  // ----- one table and one equality -----

  /** `SELECT ... FROM table WHERE id = value`. */
  ghost predicate Plain(candidate: LookupCandidate, q: Query) {
    && q.clauses == [] && q.condition.Eq?
    && PlanSelection(Some(candidate), q.condition).Found?
  }

  lemma PlainIsClean(sem: Semantics, candidate: LookupCandidate, q: Query, p: nat, rows: seq<(Key, Row)>)
    requires Describes(candidate, q, p) && Plain(candidate, q)
    requires forall i | 0 <= i < |rows| :: p < |rows[i].1|
    requires Eval(sem, NOTHING, PlanSelection(Some(candidate), q.condition).value).Ok?
    ensures JoinsCleanly(sem, q, Items(q.alias, q.columns, rows))
    ensures PlanSelection(Some(candidate), q.condition).residual.None?
  {
    hide Evaluable, Eval, EvaluatedEq, Describes;
    var value := PlanSelection(Some(candidate), q.condition).value;
    var items := Items(q.alias, q.columns, rows);
    forall i | 0 <= i < |items|
      ensures AllBoolean(sem, Surroundings(q.outer, items[i].value), SplitConjuncts(q.condition))
    {
      PlainRowIsBoolean(sem, candidate, q, p, rows[i].1, value);
    }
  }

  lemma PlainRowIsBoolean(
      sem: Semantics, candidate: LookupCandidate, q: Query, p: nat, row: Row, value: Expr)
    requires Describes(candidate, q, p) && p < |row| && q.condition.Eq? && Evaluable(Option.None, value)
    requires Eval(sem, NOTHING, value).Ok?
    requires || (q.condition.right == value && candidate.Contains(q.condition.left))
             || (q.condition.left == value && candidate.Contains(q.condition.right))
    ensures AllBoolean(sem, Surroundings(q.outer, RowItem(q.alias, q.columns, row).value), SplitConjuncts(q.condition))
  {
    hide Evaluable, EvaluatedEq, Named, Describes;
    var c := RowItem(q.alias, q.columns, row).value;
    var s := Surroundings(q.outer, c);
    var key := if q.condition.right == value && candidate.Contains(q.condition.left) then q.condition.left
      else q.condition.right;
    RowKnowsKey(candidate, q, p, row, key);
    assert [RowItem(q.alias, q.columns, row)][0].Ok?;
    NameInSurroundings(sem, q.outer, c, key, row[p]);
    NamelessAgrees(NOTHING, s, value);
    AgreeingContextsEvaluateAlike(sem, NOTHING, s, value);
    var l, r := Eval(sem, s, q.condition.left).value, Eval(sem, s, q.condition.right).value;
    assert Eval(sem, s, q.condition) == Ok(EvalEq(sem, l, r));
    EqualityIsBoolean(sem, l, r);
    assert SplitConjuncts(q.condition) == [q.condition];
  }

  lemma {:induction false} KeepAll(sem: Semantics, outer: Option<Context>, items: seq<Item>)
    ensures Where(sem, outer, Option.None, items) == items
  {
    hide Keep;
    if items != [] {
      var n := |items| - 1;
      KeepAll(sem, outer, items[..n]);
      KeepOne(sem, outer, items[n]);
      assert items == items[..n] + [items[n]];
    }
  }

  lemma KeepOne(sem: Semantics, outer: Option<Context>, item: Item)
    ensures Keep(sem, outer, Option.None, item) == [item]
  {
    hide Surroundings;
  }

  /** For one table and `WHERE id = value`, in every consistent store and with no further assumption: if
    the lookup does not fail, it selects what the scan selects exactly when the scan compares with what
    the lookup looks for, or no such row is stored. */
  lemma PlainLookupIsRightExactlyWhen(
      sem: Semantics, db: Database, t: string, candidate: LookupCandidate, q: Query, p: nat)
    returns (v: Value)
    requires Consistent(db) && t in db.tables && PrimaryKeyIndex(db.tables[t].schema.columns) == Some(p)
    requires Describes(candidate, q, p) && Plain(candidate, q)
    requires var value := PlanSelection(Some(candidate), q.condition).value;
             LookupItems(sem, db.tables[t], p, q.alias, q.columns, value).Ok?
    ensures var table, value := db.tables[t], PlanSelection(Some(candidate), q.condition).value;
            var found := LookupItems(sem, table, p, q.alias, q.columns, value).value;
            var scanned := Selected(sem, q, Some(q.condition), Items(q.alias, q.columns, Scan(table.rows)));
            && Eval(sem, NOTHING, value).Ok?
            && Converted(sem.parsing, Eval(sem, NOTHING, value).value, table.schema.columns[p].dataType) == Ok(v)
            && ToKey(v).Ok?
            && (scanned == Ok(found) <==>
                  || ComparesConverted(sem.parsing, Eval(sem, NOTHING, value).value, table.schema.columns[p].dataType)
                  || ToKey(v).value !in table.rows)
            && (scanned == Ok(found) || scanned == Ok([]))
  {
    hide Consistent, Describes, PlanSelection, JoinsCleanly, Scan, ToKey, GetType, RowsOk, ColumnsOk,
      LookupValue, Converted, ComparesConverted, LookupItems, Items, Typed, Selected;
    var table, value := db.tables[t], PlanSelection(Some(candidate), q.condition).value;
    ConsistentTable(db, t);
    v := FoundKey(sem, table, p, q.alias, q.columns, value);
    ScanIsTyped(table, p);
    TypedIsWide(Scan(table.rows), p, table.schema.columns[p].dataType);
    PlainIsClean(sem, candidate, q, p, Scan(table.rows));
    LookupSelectsWhatScanSelects(sem, table, candidate, q, p);
    PlainSelectsAll(sem, candidate, q, LookupItems(sem, table, p, q.alias, q.columns, value).value);
  }

  lemma PlainSelectsAll(sem: Semantics, candidate: LookupCandidate, q: Query, left: seq<Item>)
    requires Plain(candidate, q)
    ensures Selected(sem, q, Option.None, left) == Ok(left)
  {
    KeepAll(sem, q.outer, left);
  }

  /** Looking up a value of the column's type in a table of a consistent store, hence of every reachable
    one, never fails, and selects what the scan selects. */
  lemma LookupByValueSelectsWhatScanSelects(
      sem: Semantics, db: Database, t: string, candidate: LookupCandidate, q: Query, p: nat,
      v: Value)
    requires Consistent(db) && t in db.tables && PrimaryKeyIndex(db.tables[t].schema.columns) == Some(p)
    requires Describes(candidate, q, p)
    requires var plan := PlanSelection(Some(candidate), q.condition);
             plan.Found? && Eval(sem, NOTHING, plan.value) == Ok(Val(v))
    requires GetType(v) == Some(db.tables[t].schema.columns[p].dataType) && ToKey(v).Ok?
    requires JoinsCleanly(sem, q, Items(q.alias, q.columns, Scan(db.tables[t].rows)))
    ensures var table, plan := db.tables[t], PlanSelection(Some(candidate), q.condition);
            var left := LookupItems(sem, table, p, q.alias, q.columns, plan.value);
            && left.Ok?
            && Selected(sem, q, plan.residual, left.value)
               == Selected(sem, q, Some(q.condition), Items(q.alias, q.columns, Scan(table.rows)))
  {
    hide Consistent, Describes, PlanSelection, JoinsCleanly, Selected, Scan, ToKey, GetType, RowsOk, Evaluable;
    var table, plan := db.tables[t], PlanSelection(Some(candidate), q.condition);
    FoundValueIsNameless(Some(candidate), q.condition);
    ConsistentTable(db, t);
    var column := table.schema.columns[p];
    assert !column.nullable && !IsFloat(column.dataType);
    hide ColumnsOk;
    UuidIsNoBytes(v, column.dataType);
    LookupSucceedsExactlyWhen(sem, table, p, q.alias, q.columns, plan.value, Val(v));
    assert LookupValue(sem, column, plan.value) == Ok(v) by { NullHasNoType(v); }
    LookupSelectsWhatScanSelects(sem, table, candidate, q, p);
  }

  lemma UuidIsNoBytes(v: Value, dataType: DataType)
    requires GetType(v) == Some(dataType)
    ensures !(v.Bytea? && dataType == UuidType)
  {
  }

  lemma TypedIsWide(rows: seq<(Key, Row)>, p: nat, dataType: DataType)
    requires Typed(rows, p, dataType)
    ensures forall i | 0 <= i < |rows| :: p < |rows[i].1|
  {
  }

  /** `WHERE id = NULL` is an error through the lookup; a scan filters every row out. */
  lemma NullKeyFailsOnLookupOnly(
      sem: Semantics, table: Table, p: nat, alias: string, columns: seq<string>, c: Context,
      id: string)
    requires p < |table.schema.columns| && !table.schema.columns[p].nullable
    requires LookupAlias(c, alias, id).Some?
    ensures LookupItems(sem, table, p, alias, columns, ValueOf(Value.Null)).Err?
    ensures CheckExpr(sem, c, Eq(CompoundIdentifier(alias, id), ValueOf(Value.Null))) == Ok(false)
  {
    var name, nothing := CompoundIdentifier(alias, id), ValueOf(Value.Null);
    assert Eval(sem, NOTHING, nothing) == Ok(Val(Value.Null));
    LookupSucceedsExactlyWhen(sem, table, p, alias, columns, nothing, Val(Value.Null));
    NullHasNoType(Value.Null);
    hide LookupItems, EvaluatedEq;
    assert Eval(sem, c, nothing) == Ok(Val(Value.Null));
    assert Eval(sem, c, name).Ok?;
    assert Eval(sem, c, Eq(name, nothing)) == Ok(Val(Value.Null));
  }

  /** `WHERE id = CAST(1 AS INT8)` on a wider integer key is an error through the lookup, while a scan
    finds the row: the number is the same. */
  lemma OtherWidthFailsOnLookupOnly(
      sem: Semantics, table: Table, p: nat, alias: string, columns: seq<string>, c: Context,
      id: string, a: Value, v: Value)
    requires p < |table.schema.columns| && !table.schema.columns[p].nullable
    requires GetType(a) == Some(table.schema.columns[p].dataType) && LookupAlias(c, alias, id) == Some(a)
    requires IsInteger(a) && IsInteger(v) && GetType(a) != GetType(v) && IntegerOf(a) == IntegerOf(v)
    ensures LookupItems(sem, table, p, alias, columns, ValueOf(v)).Err?
    ensures CheckExpr(sem, c, Eq(CompoundIdentifier(alias, id), ValueOf(v))) == Ok(true)
  {
    hide GetType, ToKey, LookupItems;
    var name, value := CompoundIdentifier(alias, id), ValueOf(v);
    assert Eval(sem, NOTHING, value) == Ok(Val(v));
    LookupSucceedsExactlyWhen(sem, table, p, alias, columns, value, Val(v));
    assert Eval(sem, c, name) == Ok(Val(a)) && Eval(sem, c, value) == Ok(Val(v));
    assert EvalEq(sem, Val(a), Val(v)) == TRUE;
    assert Eval(sem, c, Eq(name, value)) == Ok(TRUE);
  }

  // ----- a row that only the lookup finds -----

  const PRICE_COLUMNS: seq<ColumnDef> := [ColumnDef("id", DecimalType, false, Some(Unique(true)), Option.None)]
  const PRICE: Row := [Value.Decimal(1.0)]
  const PRICES := Database(map["price" := Table(Schema(PRICE_COLUMNS, []), map[Key.Decimal(1.0) := PRICE])], 0)
  const PRICE_CANDIDATE := LookupCandidate("price", "id", [])
  const PRICE_QUERY :=
    Query("price", ["id"], [], Eq(Identifier("id"), Constant(Literal.Number(1, 0))), Option.None)

  lemma PriceRowIsOk()
    ensures ColumnsOk(PRICE_COLUMNS) && PrimaryKeyIndex(PRICE_COLUMNS) == Some(0)
    ensures RowOk(Schema(PRICE_COLUMNS, []), PRICE) && Keyed(PRICE_COLUMNS, Key.Decimal(1.0), PRICE)
  {
    assert PRICE_COLUMNS[1..] == [];
  }

  lemma PricesConsistent()
    ensures Consistent(PRICES) && PrimaryKeyIndex(PRICE_COLUMNS) == Some(0)
  {
    var table := PRICES.tables["price"];
    PriceRowIsOk();
    assert RowsOk(table.schema, table.rows);
    hide ColumnsOk, RowOk, Keyed;
    assert TableOk(table, 0);
  }

  lemma PriceIsPlain()
    ensures Describes(PRICE_CANDIDATE, PRICE_QUERY, 0) && Plain(PRICE_CANDIDATE, PRICE_QUERY)
    ensures PlanSelection(Some(PRICE_CANDIDATE), PRICE_QUERY.condition)
         == Found(Constant(Literal.Number(1, 0)), Option.None)
  {
  }

  lemma LiteralIsItself(sem: Semantics)
    ensures Eval(sem, NOTHING, Constant(Literal.Number(1, 0))) == Ok(Raw(Literal.Number(1, 0)))
  {
  }

  lemma PriceIsFound(sem: Semantics)
    requires sem.parsing.decimal(Literal.Number(1, 0)) == Some(1.0)
    ensures LookupItems(sem, PRICES.tables["price"], 0, "price", ["id"], Constant(Literal.Number(1, 0)))
         == Ok([RowItem("price", ["id"], PRICE)])
  {
    LiteralIsItself(sem);
    assert LookupValue(sem, PRICE_COLUMNS[0], Constant(Literal.Number(1, 0))) == Ok(Value.Decimal(1.0));
  }

  /** `WHERE id = 1` on a DECIMAL primary key, with the row (1): the lookup finds it, a scan finds
    nothing, and neither reports an error. */
  lemma DecimalKeyFoundByLookupOnly(sem: Semantics)
    requires sem.parsing.decimal(Literal.Number(1, 0)) == Some(1.0)
    ensures Consistent(PRICES)
    ensures var one, table := Constant(Literal.Number(1, 0)), PRICES.tables["price"];
            && LookupItems(sem, table, 0, "price", ["id"], one) == Ok([RowItem("price", ["id"], PRICE)])
            && Selected(sem, PRICE_QUERY, Some(PRICE_QUERY.condition), Items("price", ["id"], Scan(table.rows)))
               == Ok([])
  {
    PricesConsistent();
    PriceIsPlain();
    PriceIsFound(sem);
    LiteralIsItself(sem);
    hide Consistent, Describes, Plain, PlanSelection, Scan, LookupItems, Items, Selected, Eval;
    var v := PlainLookupIsRightExactlyWhen(sem, PRICES, "price", PRICE_CANDIDATE, PRICE_QUERY, 0);
  }
}

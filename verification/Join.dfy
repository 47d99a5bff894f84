/** Running joins (core/src/executor/join.rs). */
module Joins {
  import opened Data
  import opened Expressions
  import opened JoinPlanning

  /** A relation with the rows that fetching it yields; they do not depend on the left row. */
  datatype Relation = Relation(alias: string, columns: seq<string>, rows: seq<Row>)

  datatype Operator = Inner | LeftOuter

  datatype Clause = Clause(relation: Relation, operator: Operator, plan: Planned)

  /** Errors travel among the rows. */
  type Item = Result<Context>

  // ----- contexts -----

  /** What the left row sees besides itself: the rows of the enclosing query. */
  function Surroundings(outer: Option<Context>, l: Context): Context {
    match outer
    case Some(o) => Bridge(l, o)
    case None => l
  }

  /** The context of the ON condition. */
  function PairContext(rel: Relation, outer: Option<Context>, l: Context, r: Row): Context {
    Data(rel.alias, rel.columns, r, Some(Surroundings(outer, l)))
  }

  /** The context in which the hash table is built: no left row yet. */
  function BuildContext(rel: Relation, outer: Option<Context>, r: Row): Context {
    Data(rel.alias, rel.columns, r, outer)
  }

  /** The row that a pair contributes to the result. */
  function JoinedRow(rel: Relation, l: Context, r: Row): Context { Data(rel.alias, rel.columns, r, Some(l)) }

  function Nulls(rel: Relation): Row { seq(|rel.columns|, _ => Value.Null) }

  // ----- one left row -----

  function Check(sem: Semantics, c: Context, e: Option<Expr>): Result<bool> {
    if e.Some? then CheckExpr(sem, c, e.value) else Ok(true)
  }

  /** `check_where_clause` on one pair. */
  function Match(
      sem: Semantics, outer: Option<Context>, rel: Relation, on: Option<Expr>, l: Context, r: Row): seq<Item>
  {
    match Check(sem, PairContext(rel, outer, l, r), on)
    case Ok(pass) => if pass then [Ok(JoinedRow(rel, l, r))] else []
    case Err(e) => [Err(e)]
  }

  function Matches(
      sem: Semantics, outer: Option<Context>, rel: Relation, on: Option<Expr>, l: Context, rows: seq<Row>): seq<Item>
  {
    if rows == [] then []
    else
      var n := |rows| - 1;
      Matches(sem, outer, rel, on, l, rows[..n]) + Match(sem, outer, rel, on, l, rows[n])
  }

  /** A left outer join yields the left row with NULLs when nothing matched. */
  function Padded(rel: Relation, operator: Operator, l: Context, items: seq<Item>): seq<Item> {
    if operator.LeftOuter? && items == [] then [Ok(JoinedRow(rel, l, Nulls(rel)))] else items
  }

  // ----- the hash table -----

  datatype BuildEntry = BuildEntry(key: Key, row: Row)

  /** The key under which a row enters the table, if it does. */
  function BuildKey(sem: Semantics, c: Context, key: Expr, filter: Option<Expr>): Result<Option<Key>> {
    var v :- Eval(sem, c, key);
    var k :- AsKey(sem, v);
    if k.None? then Ok(Option.None)
    else
      var pass :- Check(sem, c, filter);
      Ok(if pass then Some(Canonical(k)) else Option.None)
  }

  function BuildEntries(
      sem: Semantics, outer: Option<Context>, rel: Relation, key: Expr, filter: Option<Expr>,
      rows: seq<Row>): Result<seq<BuildEntry>>
  {
    if rows == [] then Ok([])
    else
      var n := |rows| - 1;
      var init :- BuildEntries(sem, outer, rel, key, filter, rows[..n]);
      var k :- BuildKey(sem, BuildContext(rel, outer, rows[n]), key, filter);
      Ok(if k.Some? then init + [BuildEntry(k.value, rows[n])] else init)
  }

  /** The rows under one key, in the order of the relation. */
  function RowsUnder(entries: seq<BuildEntry>, key: Key): seq<Row> {
    if entries == [] then []
    else
      var n := |entries| - 1;
      RowsUnder(entries[..n], key) + if entries[n].key == key then [entries[n].row] else []
  }

  function ProbeKey(sem: Semantics, outer: Option<Context>, value: Expr, l: Context): Result<Key> {
    var v :- Eval(sem, Surroundings(outer, l), value);
    var k :- AsKey(sem, v);
    Ok(Canonical(k))
  }

  function Probe(
      sem: Semantics, outer: Option<Context>, rel: Relation, value: Expr, on: Option<Expr>, entries: seq<BuildEntry>,
      l: Context): seq<Item>
  {
    match ProbeKey(sem, outer, value, l)
    case Ok(k) => Matches(sem, outer, rel, on, l, RowsUnder(entries, k))
    case Err(e) => [Err(e)]
  }

  // ----- whole joins -----

  /** Joins every left row with `f`; an error item passes through. */
  function FlatMap(f: Context -> seq<Item>, left: seq<Item>): seq<Item> {
    if left == [] then []
    else
      var n := |left| - 1;
      FlatMap(f, left[..n]) + (match left[n] case Ok(l) => f(l) case Err(e) => [Err(e)])
  }

  /** The join as SQL defines it: every pair is checked against the ON condition. */
  function NestedLoopJoin(
      sem: Semantics, outer: Option<Context>, rel: Relation, operator: Operator, on: Option<Expr>,
      left: seq<Item>): seq<Item>
  {
    FlatMap(l => Padded(rel, operator, l, Matches(sem, outer, rel, on, l, rel.rows)), left)
  }

  function HashJoin(
      sem: Semantics, outer: Option<Context>, clause: Clause, entries: seq<BuildEntry>, left: seq<Item>): seq<Item>
    requires clause.plan.executor.Hash?
  {
    var rel, value, on := clause.relation, clause.plan.executor.value, clause.plan.constraint;
    FlatMap(l => Padded(rel, clause.operator, l, Probe(sem, outer, rel, value, on, entries, l)), left)
  }

  function Joined(sem: Semantics, outer: Option<Context>, clause: Clause, left: seq<Item>): Result<seq<Item>> {
    match clause.plan.executor
    case NestedLoop => Ok(NestedLoopJoin(sem, outer, clause.relation, clause.operator, clause.plan.constraint, left))
    case Hash(key, _, filter) =>
      var entries :- BuildEntries(sem, outer, clause.relation, key, filter, clause.relation.rows);
      Ok(HashJoin(sem, outer, clause, entries, left))
  }

  function JoinedAll(sem: Semantics, outer: Option<Context>, clauses: seq<Clause>, left: seq<Item>): Result<seq<Item>> {
    if clauses == [] then Ok(left)
    else
      var rows :- Joined(sem, outer, clauses[0], left);
      JoinedAll(sem, outer, clauses[1..], rows)
  }

  // ----- the steps as the executor takes them -----

  /** `LeftOuter`: passes its rows through and, if there were none, yields the initial row once. */
  class LeftOuterRows {
    var rows: seq<Item>
    var init: Option<Context>
    var matched: bool

    /** The items still to come. */
    function Remaining(): seq<Item>
      reads this
    {
      if rows != [] then rows else if !matched && init.Some? then [Ok(init.value)] else []
    }

    constructor (rows: seq<Item>, init: Context)
      ensures Remaining() == if rows == [] then [Ok(init)] else rows
    {
      this.rows, this.init, this.matched := rows, Some(init), false;
    }

    method Next() returns (item: Option<Item>)
      modifies this
      ensures item.None? <==> old(Remaining()) == []
      ensures item.Some? ==> old(Remaining()) == [item.value] + Remaining()
      ensures item.None? ==> Remaining() == []
    {
      if rows != [] {
        item, rows := Some(rows[0]), rows[1..];
        matched := true;
      } else if !matched {
        item := if init.Some? then Some(Ok(init.value)) else Option.None;
        init := Option.None;
      } else {
        item := Option.None;
      }
    }

    method Drain() returns (items: seq<Item>)
      modifies this
      ensures items == old(Remaining()) && Remaining() == []
    {
      items := [];
      ghost var all := Remaining();
      var item := Next();
      while item.Some?
        invariant item.Some? ==> all == items + [item.value] + Remaining()
        invariant item.None? ==> all == items && Remaining() == []
        decreases |Remaining()|, item.Some?
      {
        items := items + [item.value];
        item := Next();
      }
    }
  }

  /** The table groups the entries by key and keeps their order. */
  ghost predicate Represents(table: map<Key, seq<Row>>, entries: seq<BuildEntry>) {
    forall k :: (if k in table then table[k] else []) == RowsUnder(entries, k)
  }

  /** `into_group_map`. */
  method GroupRows(entries: seq<BuildEntry>) returns (table: map<Key, seq<Row>>)
    ensures Represents(table, entries)
  {
    table := map[];
    for i := 0 to |entries|
      invariant Represents(table, entries[..i])
    {
      var k := entries[i].key;
      assert entries[..i + 1][..i] == entries[..i];
      table := table[k := (if k in table then table[k] else []) + [entries[i].row]];
    }
    assert entries[..|entries|] == entries;
  }

  /** `JoinExecutor::new`. */
  method BuildTable(sem: Semantics, outer: Option<Context>, rel: Relation, key: Expr, filter: Option<Expr>)
    returns (table: Result<map<Key, seq<Row>>>)
    ensures match BuildEntries(sem, outer, rel, key, filter, rel.rows)
            case Ok(entries) => table.Ok? && Represents(table.value, entries)
            case Err(e) => table == Err(e)
  {
    hide BuildKey, Represents;
    var entries: seq<BuildEntry> := [];
    for i := 0 to |rel.rows|
      invariant BuildEntries(sem, outer, rel, key, filter, rel.rows[..i]) == Ok(entries)
    {
      var row := rel.rows[i];
      assert rel.rows[..i + 1][..i] == rel.rows[..i];
      var k := BuildKey(sem, BuildContext(rel, outer, row), key, filter);
      if k.Err? {
        BuildFailsEarly(sem, outer, rel, key, filter, rel.rows, i + 1);
        return Err(k.error);
      }
      if k.value.Some? { entries := entries + [BuildEntry(k.value.value, row)]; }
    }
    assert rel.rows[..|rel.rows|] == rel.rows;
    var rows := GroupRows(entries);
    return Ok(rows);
  }

  lemma {:induction false} BuildFailsEarly(
      sem: Semantics, outer: Option<Context>, rel: Relation, key: Expr, filter: Option<Expr>, rows: seq<Row>, n: nat)
    requires n <= |rows| && BuildEntries(sem, outer, rel, key, filter, rows[..n]).Err?
    ensures BuildEntries(sem, outer, rel, key, filter, rows) == BuildEntries(sem, outer, rel, key, filter, rows[..n])
    decreases |rows|
  {
    hide BuildKey;
    if n < |rows| {
      var m := |rows| - 1;
      assert rows[..m][..n] == rows[..n];
      BuildFailsEarly(sem, outer, rel, key, filter, rows[..m], n);
    } else {
      assert rows[..n] == rows;
    }
  }

  /** `join`: one clause applied to all left rows. */
  method JoinRows(sem: Semantics, outer: Option<Context>, clause: Clause, left: seq<Item>)
    returns (joined: Result<seq<Item>>)
    ensures joined == Joined(sem, outer, clause, left)
  {
    hide Eval, AsKey, CheckExpr, BuildEntries, Matches, RowsUnder;
    var rel := clause.relation;
    var table: map<Key, seq<Row>> := map[];
    ghost var entries: seq<BuildEntry> := [];
    if clause.plan.executor.Hash? {
      var built := BuildTable(sem, outer, rel, clause.plan.executor.key, clause.plan.executor.filter);
      if built.Err? { return Err(built.error); }
      table := built.value;
      entries := BuildEntries(sem, outer, rel, clause.plan.executor.key, clause.plan.executor.filter, rel.rows).value;
    }
    var items: seq<Item> := [];
    ghost var f := PerRow(sem, outer, clause, entries);
    for i := 0 to |left|
      invariant items == FlatMap(f, left[..i])
    {
      assert left[..i + 1][..i] == left[..i];
      match left[i] {
        case Err(e) => items := items + [Err(e)];
        case Ok(l) =>
          var rows := JoinOne(sem, outer, clause, table, entries, l);
          items := items + rows;
      }
    }
    assert left[..|left|] == left;
    JoinedPerRow(sem, outer, clause, entries, left);
    return Ok(items);
  }

  /** What one left row contributes. */
  function PerRow(
      sem: Semantics, outer: Option<Context>, clause: Clause, entries: seq<BuildEntry>): Context -> seq<Item>
  {
    var rel, on := clause.relation, clause.plan.constraint;
    match clause.plan.executor
    case NestedLoop => l => Padded(rel, clause.operator, l, Matches(sem, outer, rel, on, l, rel.rows))
    case Hash(_, value, _) => l => Padded(rel, clause.operator, l, Probe(sem, outer, rel, value, on, entries, l))
  }

  lemma JoinedPerRow(sem: Semantics, outer: Option<Context>, clause: Clause, entries: seq<BuildEntry>, left: seq<Item>)
    requires clause.plan.executor.Hash? ==>
      BuildEntries(sem, outer, clause.relation, clause.plan.executor.key, clause.plan.executor.filter,
        clause.relation.rows) == Ok(entries)
    ensures Joined(sem, outer, clause, left) == Ok(FlatMap(PerRow(sem, outer, clause, entries), left))
  {
    hide BuildEntries, Matches, Probe;
    var f := PerRow(sem, outer, clause, entries);
    var rel, on := clause.relation, clause.plan.constraint;
    match clause.plan.executor {
      case NestedLoop =>
        FlatMapCongruent(l => Padded(rel, clause.operator, l, Matches(sem, outer, rel, on, l, rel.rows)), f, left);
      case Hash(_, value, _) =>
        FlatMapCongruent(l => Padded(rel, clause.operator, l, Probe(sem, outer, rel, value, on, entries, l)), f, left);
    }
  }

  lemma {:induction false} FlatMapCongruent(f: Context -> seq<Item>, g: Context -> seq<Item>, left: seq<Item>)
    requires forall i | 0 <= i < |left| && left[i].Ok? :: f(left[i].value) == g(left[i].value)
    ensures FlatMap(f, left) == FlatMap(g, left)
  {
    if left != [] { FlatMapCongruent(f, g, left[..|left| - 1]); }
  }

  method JoinOne(
      sem: Semantics, outer: Option<Context>, clause: Clause, table: map<Key, seq<Row>>,
      ghost entries: seq<BuildEntry>, l: Context)
    returns (items: seq<Item>)
    requires clause.plan.executor.Hash? ==> Represents(table, entries)
    ensures items == PerRow(sem, outer, clause, entries)(l)
  {
    hide Eval, AsKey, CheckExpr, RowsUnder;
    var rel, on := clause.relation, clause.plan.constraint;
    match clause.plan.executor {
      case NestedLoop =>
        items := MatchRows(sem, outer, rel, on, l, rel.rows);
      case Hash(_, value, _) =>
        var k := ProbeKey(sem, outer, value, l);
        if k.Err? {
          items := [Err(k.error)];
        } else {
          items := MatchRows(sem, outer, rel, on, l, if k.value in table then table[k.value] else []);
        }
    }
    if clause.operator.LeftOuter? {
      var rows := new LeftOuterRows(items, JoinedRow(rel, l, Nulls(rel)));
      items := rows.Drain();
    }
  }

  method MatchRows(sem: Semantics, outer: Option<Context>, rel: Relation, on: Option<Expr>, l: Context, rows: seq<Row>)
    returns (items: seq<Item>)
    ensures items == Matches(sem, outer, rel, on, l, rows)
  {
    hide CheckExpr;
    items := [];
    for i := 0 to |rows|
      invariant items == Matches(sem, outer, rel, on, l, rows[..i])
    {
      assert rows[..i + 1][..i] == rows[..i];
      items := items + Match(sem, outer, rel, on, l, rows[i]);
    }
    assert rows[..|rows|] == rows;
  }

  /** `Join::apply`: the clauses in order, each on the rows of the previous one. */
  method ApplyJoins(sem: Semantics, outer: Option<Context>, clauses: seq<Clause>, left: seq<Item>)
    returns (joined: Result<seq<Item>>)
    ensures joined == JoinedAll(sem, outer, clauses, left)
  {
    hide Joined;
    var rows := left;
    for i := 0 to |clauses|
      invariant JoinedAll(sem, outer, clauses, left) == JoinedAll(sem, outer, clauses[i..], rows)
    {
      var next := JoinRows(sem, outer, clauses[i], rows);
      assert clauses[i..][1..] == clauses[i + 1..];
      if next.Err? { return Err(next.error); }
      rows := next.value;
    }
    return Ok(rows);
  }
}

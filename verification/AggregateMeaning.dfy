/** Slots, running values and groups together compute what the aggregates of a query mean. */
module AggregateMeaning {
  import opened Data
  import opened AggregatePlanning
  import opened AggregatePlanFacts
  import opened AggregateErasure
  import AggregateValues
  import opened Aggregation
  import opened AggregateApply

  type Arithmetic = AggregateValues.Arithmetic

  // ----- groups partition the rows -----

  /** The rows with this grouping key, in order. */
  function RowsWith(
      m: Meaning, outer: Option<Context>, groupBy: seq<Expr>, items: seq<Item>, key: seq<Value>): seq<Context>
  {
    if items == [] then []
    else
      var n := |items| - 1;
      RowsWith(m, outer, groupBy, items[..n], key) +
      if items[n].Ok? && GroupKey(m, outer, groupBy, items[n].value) == Ok(key) then [items[n].value] else []
  }

  ghost predicate KeysDiffer(groups: seq<Group>) {
    forall i, j | 0 <= i < j < |groups| :: groups[i].key != groups[j].key
  }

  ghost predicate HoldTheirRows(
      m: Meaning, outer: Option<Context>, groupBy: seq<Expr>, items: seq<Item>, groups: seq<Group>)
  {
    forall i | 0 <= i < |groups| :: groups[i].rows == RowsWith(m, outer, groupBy, items, groups[i].key)
  }

  ghost predicate HasGroup(groups: seq<Group>, key: seq<Value>) { exists j | 0 <= j < |groups| :: groups[j].key == key }

  ghost predicate CoverRows(
      m: Meaning, outer: Option<Context>, groupBy: seq<Expr>, items: seq<Item>, groups: seq<Group>)
  {
    forall i | 0 <= i < |items| ::
      && items[i].Ok? && GroupKey(m, outer, groupBy, items[i].value).Ok?
      && HasGroup(groups, GroupKey(m, outer, groupBy, items[i].value).value)
  }

  ghost predicate Partition(
      m: Meaning, outer: Option<Context>, groupBy: seq<Expr>, items: seq<Item>, groups: seq<Group>)
  {
    && KeysDiffer(groups)
    && HoldTheirRows(m, outer, groupBy, items, groups)
    && CoverRows(m, outer, groupBy, items, groups)
    && (groupBy != [] ==> forall i | 0 <= i < |groups| :: groups[i].rows != [])
    && (groupBy == [] ==> groups != [])
  }

  lemma {:induction false} NoRowsWith(
      m: Meaning, outer: Option<Context>, groupBy: seq<Expr>, items: seq<Item>, key: seq<Value>)
    requires forall i | 0 <= i < |items| && items[i].Ok? :: GroupKey(m, outer, groupBy, items[i].value) != Ok(key)
    ensures RowsWith(m, outer, groupBy, items, key) == []
  {
    hide GroupKey;
    if items != [] { NoRowsWith(m, outer, groupBy, items[..|items| - 1], key); }
  }

  lemma RowsWithAppend(
      m: Meaning, outer: Option<Context>, groupBy: seq<Expr>, items: seq<Item>, row: Context, key: seq<Value>)
    ensures RowsWith(m, outer, groupBy, items + [Ok(row)], key)
         == RowsWith(m, outer, groupBy, items, key) + if GroupKey(m, outer, groupBy, row) == Ok(key) then [row] else []
  {
    hide GroupKey;
    assert (items + [Ok(row)])[..|items|] == items;
  }

  lemma AddRowKeys(groups: seq<Group>, key: seq<Value>, row: Context)
    requires KeysDiffer(groups)
    ensures KeysDiffer(AddRow(groups, key, row))
    ensures forall k :: HasGroup(AddRow(groups, key, row), k) <==> HasGroup(groups, k) || k == key
  {
    var after := AddRow(groups, key, row);
    assert forall i | 0 <= i < |groups| :: after[i].key == groups[i].key;
    var at := if IndexOf(groups, key).Some? then IndexOf(groups, key).value else |groups|;
    assert after[at].key == key;
    forall k | HasGroup(groups, k) ensures HasGroup(after, k) {
      var j :| 0 <= j < |groups| && groups[j].key == k;
      assert after[j].key == k;
    }
  }

  lemma AddRowRows(
      m: Meaning, outer: Option<Context>, groupBy: seq<Expr>, items: seq<Item>, groups: seq<Group>, row: Context,
      key: seq<Value>)
    requires KeysDiffer(groups) && HoldTheirRows(m, outer, groupBy, items, groups) &&
        CoverRows(m, outer, groupBy, items, groups)
    requires GroupKey(m, outer, groupBy, row) == Ok(key)
    ensures HoldTheirRows(m, outer, groupBy, items + [Ok(row)], AddRow(groups, key, row))
  {
    hide GroupKey, RowsWith;
    var after := AddRow(groups, key, row);
    forall i | 0 <= i < |after| ensures after[i].rows == RowsWith(m, outer, groupBy, items + [Ok(row)], after[i].key) {
      RowsWithAppend(m, outer, groupBy, items, row, after[i].key);
      if i == |groups| {
        NoRowsWith(m, outer, groupBy, items, key);
      } else if IndexOf(groups, key) != Some(i) {
        assert after[i] == groups[i] && groups[i].key != key;
        assert groups[i].rows + [] == groups[i].rows;
      }
    }
  }

  lemma AddRowCovers(
      m: Meaning, outer: Option<Context>, groupBy: seq<Expr>, items: seq<Item>, groups: seq<Group>, row: Context,
      key: seq<Value>)
    requires KeysDiffer(groups) && CoverRows(m, outer, groupBy, items, groups) &&
        GroupKey(m, outer, groupBy, row) == Ok(key)
    ensures CoverRows(m, outer, groupBy, items + [Ok(row)], AddRow(groups, key, row))
  {
    hide GroupKey, HasGroup, AddRow;
    AddRowKeys(groups, key, row);
  }

  lemma AddRowPartitions(
      m: Meaning, outer: Option<Context>, groupBy: seq<Expr>, items: seq<Item>, groups: seq<Group>, row: Context,
      key: seq<Value>)
    requires Partition(m, outer, groupBy, items, groups) && GroupKey(m, outer, groupBy, row) == Ok(key)
    ensures Partition(m, outer, groupBy, items + [Ok(row)], AddRow(groups, key, row))
  {
    hide GroupKey, KeysDiffer, HoldTheirRows, CoverRows, HasGroup;
    AddRowKeys(groups, key, row);
    AddRowRows(m, outer, groupBy, items, groups, row, key);
    AddRowCovers(m, outer, groupBy, items, groups, row, key);
  }

  /** The groups have different keys, each holds exactly the rows with its key in their order, and
    every row is in one.  Only a query without GROUP BY has a group without rows. */
  lemma {:induction false} GroupsPartitionRows(m: Meaning, outer: Option<Context>, groupBy: seq<Expr>, items: seq<Item>)
    requires GroupsOf(m, outer, groupBy, items).Ok?
    ensures Partition(m, outer, groupBy, items, GroupsOf(m, outer, groupBy, items).value)
  {
    hide GroupKey, AddRow, Partition;
    if items == [] {
      assert Partition(m, outer, groupBy, items, NoRows(groupBy)) by { NoItemsPartition(m, outer, groupBy); }
    } else {
      var n := |items| - 1;
      GroupsPartitionRows(m, outer, groupBy, items[..n]);
      var row := items[n].value;
      AddRowPartitions(m, outer, groupBy, items[..n], GroupsOf(m, outer, groupBy, items[..n]).value, row,
                       GroupKey(m, outer, groupBy, row).value);
      assert items == items[..n] + [Ok(row)];
    }
  }

  lemma NoItemsPartition(m: Meaning, outer: Option<Context>, groupBy: seq<Expr>)
    ensures Partition(m, outer, groupBy, [], NoRows(groupBy))
  {
  }

  /** Rows share a group exactly when their grouping values are equal, NaN and signed zeros included. */
  lemma SameGroupExactlyWhenEqual(
      m: Meaning, outer: Option<Context>, groupBy: seq<Expr>, a: Context, b: Context, x: seq<Value>, y: seq<Value>)
    requires EvalAll(m, Some(J.Surroundings(outer, a)), groupBy) == Ok(x)
    requires EvalAll(m, Some(J.Surroundings(outer, b)), groupBy) == Ok(y)
    ensures GroupKey(m, outer, groupBy, a) == GroupKey(m, outer, groupBy, b) <==> RowEq(x, y)
  {
    hide EvalAll;
    RowsEqualExactlyWhenHashedAlike(x, y);
  }

  // ----- an aggregate over a group -----

  function Arguments(m: Meaning, outer: Option<Context>, a: Expr, rows: seq<Context>): (r: Result<seq<Value>>)
    requires a.Aggregate?
    ensures r.Ok? ==> |r.value| == |rows|
  {
    if rows == [] then Ok([])
    else
      var n := |rows| - 1;
      var init :- Arguments(m, outer, a, rows[..n]);
      var v :- Argument(m, outer, a, rows[n]);
      Ok(init + [v])
  }

  /** The aggregate over the rows, computed from all argument values at once. */
  function Over(m: Meaning, ar: Arithmetic, outer: Option<Context>, a: Expr, rows: seq<Context>): Result<Value>
    requires a.Aggregate?
  {
    var vs :- Arguments(m, outer, a, rows);
    AggregateValues.Total(ar, a, vs)
  }

  lemma {:induction false} WildcardArguments(m: Meaning, outer: Option<Context>, a: Expr, rows: seq<Context>)
    requires a.Aggregate? && Arguments(m, outer, a, rows).Ok?
    ensures AggregateValues.RowsIfWildcard(a, Arguments(m, outer, a, rows).value)
  {
    if rows != [] { WildcardArguments(m, outer, a, rows[..|rows| - 1]); }
  }

  lemma {:induction false} SlotStateIsRunning(
      m: Meaning, ar: Arithmetic, outer: Option<Context>, a: Expr, rows: seq<Context>)
    requires a.Aggregate?
    ensures Arguments(m, outer, a, rows).Ok? ==>
              SameOutcome(SlotState(m, ar, outer, a, rows),
                AggregateValues.RunningAfter(ar, a, Arguments(m, outer, a, rows).value))
    ensures Arguments(m, outer, a, rows).Err? ==> SlotState(m, ar, outer, a, rows).Err?
  {
    hide Argument, AggregateValues.New, AggregateValues.Accumulate;
    if rows != [] {
      var n := |rows| - 1;
      SlotStateIsRunning(m, ar, outer, a, rows[..n]);
      var all := Arguments(m, outer, a, rows);
      if all.Ok? {
        var init := Arguments(m, outer, a, rows[..n]).value;
        assert all.value[..n] == init;
      }
    }
  }

  /** The slot of a group ends with the aggregate over its rows. */
  lemma SlotHoldsAggregate(m: Meaning, ar: Arithmetic, outer: Option<Context>, a: Expr, rows: seq<Context>)
    requires a.Aggregate?
    ensures SameOutcome(SlotValue(m, ar, outer, a, rows), Over(m, ar, outer, a, rows))
  {
    hide SlotState, AggregateValues.RunningAfter, AggregateValues.Total, AggregateValues.Exported,
      AggregateValues.RowsIfWildcard;
    SlotStateIsRunning(m, ar, outer, a, rows);
    var vs := Arguments(m, outer, a, rows);
    if vs.Ok? {
      WildcardArguments(m, outer, a, rows);
      AggregateValues.AggregateIsTotal(ar, a, vs.value);
    }
  }

  // ----- evaluating aggregates directly -----

  /** The meaning of an expression on a group: every aggregate is computed over the rows. */
  function EvalDirect(
      m: Meaning, ar: Arithmetic, outer: Option<Context>, c: Option<Context>, rows: seq<Context>,
      e: Expr): Result<Value>
    decreases e, 1
  {
    match e
    case Leaf(text) => m.leaf(text, c)
    case Apply(op, args) => m.operate(op, EvalDirectEach(m, ar, outer, c, rows, args))
    case Subquery(op, args, query) => m.subquery(op, EvalDirectEach(m, ar, outer, c, rows, args), query, c)
    case Aggregate(_, _, _, _) => Over(m, ar, outer, e, rows)
  }

  function EvalDirectEach(
      m: Meaning, ar: Arithmetic, outer: Option<Context>, c: Option<Context>, rows: seq<Context>,
      es: seq<Expr>): seq<Result<Value>>
    decreases es, 0
  {
    if es == [] then [] else [EvalDirect(m, ar, outer, c, rows, es[0])] + EvalDirectEach(m, ar, outer, c, rows, es[1..])
  }

  /** The values of a group hold the aggregate of each slot. */
  ghost predicate Holds(
      m: Meaning, ar: Arithmetic, outer: Option<Context>, slots: seq<Expr>, rows: seq<Context>,
      aggregated: Option<seq<Value>>)
    requires AreAggregates(slots)
  {
    slots != [] ==>
      && aggregated.Some? && |aggregated.value| == |slots|
      && forall i | 0 <= i < |slots| :: Over(m, ar, outer, slots[i], rows) == Ok(aggregated.value[i])
  }

  lemma {:induction false} BoundMeansDirect(
      m: Meaning, ar: Arithmetic, outer: Option<Context>, slots: seq<Expr>, rows: seq<Context>,
      aggregated: Option<seq<Value>>, c: Option<Context>, e: Expr)
    requires AreAggregates(slots) && Holds(m, ar, outer, slots, rows, aggregated) && Bound(e, slots)
    ensures Eval(m, c, aggregated, e) == EvalDirect(m, ar, outer, c, rows, e)
    decreases e, 1
  {
    hide Over;
    match e
    case Leaf(_) =>
    case Apply(_, args) => AllBoundMeanDirect(m, ar, outer, slots, rows, aggregated, c, args);
    case Subquery(_, args, _) => AllBoundMeanDirect(m, ar, outer, slots, rows, aggregated, c, args);
    case Aggregate(_, _, _, _) =>
  }

  lemma {:induction false} AllBoundMeanDirect(
      m: Meaning, ar: Arithmetic, outer: Option<Context>, slots: seq<Expr>, rows: seq<Context>,
      aggregated: Option<seq<Value>>, c: Option<Context>, es: seq<Expr>)
    requires AreAggregates(slots) && Holds(m, ar, outer, slots, rows, aggregated) && AllBound(es, slots)
    ensures EvalEach(m, c, aggregated, es) == EvalDirectEach(m, ar, outer, c, rows, es)
    decreases es, 0
  {
    hide Holds;
    if es != [] {
      BoundMeansDirect(m, ar, outer, slots, rows, aggregated, c, es[0]);
      AllBoundMeanDirect(m, ar, outer, slots, rows, aggregated, c, es[1..]);
    }
  }

  // ----- slots do not matter for the direct meaning -----

  /** On a single row no aggregate has a value, whatever its slot. */
  lemma {:induction false} RowsIgnoreSlots(m: Meaning, c: Option<Context>, e: Expr)
    ensures Eval(m, c, Option.None, Strip(e)) == Eval(m, c, Option.None, e)
    decreases e, 1
  {
    match e
    case Leaf(_) =>
    case Apply(_, args) => EachRowIgnoresSlots(m, c, args);
    case Subquery(_, args, _) => EachRowIgnoresSlots(m, c, args);
    case Aggregate(_, _, _, _) =>
  }

  lemma {:induction false} EachRowIgnoresSlots(m: Meaning, c: Option<Context>, es: seq<Expr>)
    ensures EvalEach(m, c, Option.None, StripAll(es)) == EvalEach(m, c, Option.None, es)
    decreases es, 0
  {
    if es != [] {
      RowsIgnoreSlots(m, c, es[0]);
      EachRowIgnoresSlots(m, c, es[1..]);
      assert StripAll(es)[1..] == StripAll(es[1..]);
    }
  }

  lemma ArgumentIgnoresSlots(m: Meaning, outer: Option<Context>, a: Expr, row: Context)
    requires a.Aggregate?
    ensures Argument(m, outer, Strip(a), row) == Argument(m, outer, a, row)
  {
    if a.arg.Some? { RowsIgnoreSlots(m, Some(J.Surroundings(outer, row)), a.arg.value); }
  }

  lemma {:induction false} ArgumentsIgnoreSlots(m: Meaning, outer: Option<Context>, a: Expr, rows: seq<Context>)
    requires a.Aggregate?
    ensures Arguments(m, outer, Strip(a), rows) == Arguments(m, outer, a, rows)
  {
    hide Argument;
    if rows != [] {
      ArgumentsIgnoreSlots(m, outer, a, rows[..|rows| - 1]);
      ArgumentIgnoresSlots(m, outer, a, rows[|rows| - 1]);
    }
  }

  lemma TotalIgnoresSlots(ar: Arithmetic, a: Expr, vs: seq<Value>)
    requires a.Aggregate?
    ensures AggregateValues.Total(ar, Strip(a), vs) == AggregateValues.Total(ar, a, vs)
  {
    hide AggregateValues.SumOf, AggregateValues.Spread, AggregateValues.Extreme, AggregateValues.Distinct;
    hide AggregateValues.NonNull;
    assert AggregateValues.Relevant(Strip(a), vs) == AggregateValues.Relevant(a, vs);
  }

  lemma OverIgnoresSlots(m: Meaning, ar: Arithmetic, outer: Option<Context>, a: Expr, rows: seq<Context>)
    requires a.Aggregate?
    ensures Over(m, ar, outer, Strip(a), rows) == Over(m, ar, outer, a, rows)
  {
    hide AggregateValues.Total, Arguments;
    ArgumentsIgnoreSlots(m, outer, a, rows);
    var vs := Arguments(m, outer, a, rows);
    if vs.Ok? { TotalIgnoresSlots(ar, a, vs.value); }
  }

  lemma {:induction false} DirectIgnoresSlots(
      m: Meaning, ar: Arithmetic, outer: Option<Context>, rows: seq<Context>, c: Option<Context>, e: Expr)
    ensures EvalDirect(m, ar, outer, c, rows, Strip(e)) == EvalDirect(m, ar, outer, c, rows, e)
    decreases e, 1
  {
    hide Over;
    match e
    case Leaf(_) =>
    case Apply(_, args) => EachDirectIgnoresSlots(m, ar, outer, rows, c, args);
    case Subquery(_, args, _) => EachDirectIgnoresSlots(m, ar, outer, rows, c, args);
    case Aggregate(_, _, _, _) => OverIgnoresSlots(m, ar, outer, e, rows);
  }

  lemma {:induction false} EachDirectIgnoresSlots(
      m: Meaning, ar: Arithmetic, outer: Option<Context>, rows: seq<Context>, c: Option<Context>, es: seq<Expr>)
    ensures EvalDirectEach(m, ar, outer, c, rows, StripAll(es)) == EvalDirectEach(m, ar, outer, c, rows, es)
    decreases es, 0
  {
    if es != [] {
      DirectIgnoresSlots(m, ar, outer, rows, c, es[0]);
      EachDirectIgnoresSlots(m, ar, outer, rows, c, es[1..]);
      assert StripAll(es)[1..] == StripAll(es[1..]);
    }
  }

  // ----- the theorem -----

  lemma {:induction false} SlotValuesAt(
      m: Meaning, ar: Arithmetic, outer: Option<Context>, slots: seq<Expr>, rows: seq<Context>, i: nat)
    requires AreAggregates(slots) && SlotValues(m, ar, outer, slots, rows).Ok? && i < |slots|
    ensures |SlotValues(m, ar, outer, slots, rows).value| == |slots|
    ensures SlotValue(m, ar, outer, slots[i], rows) == Ok(SlotValues(m, ar, outer, slots, rows).value[i])
    decreases |slots|
  {
    hide SlotValue;
    if |slots| > 1 { SlotValuesAt(m, ar, outer, slots[1..], rows, if i == 0 then 0 else i - 1); }
  }

  lemma {:induction false} SummariesAt(
      m: Meaning, ar: Arithmetic, outer: Option<Context>, slots: seq<Expr>, groups: seq<Group>)
    requires AreAggregates(slots) && Summaries(m, ar, outer, slots, groups).Ok?
    ensures |Summaries(m, ar, outer, slots, groups).value| == |groups|
    ensures forall i | 0 <= i < |groups| ::
        Summary(m, ar, outer, slots, groups[i]) == Ok(Summaries(m, ar, outer, slots, groups).value[i])
    decreases |groups|
  {
    hide Summary;
    if groups != [] {
      SummariesAt(m, ar, outer, slots, groups[1..]);
      forall i | 0 <= i < |groups|
        ensures Summary(m, ar, outer, slots, groups[i]) == Ok(Summaries(m, ar, outer, slots, groups).value[i]) {
        if i > 0 { assert groups[1..][i - 1] == groups[i]; }
      }
    }
  }

  /** Each group's values hold the aggregates over exactly its rows. */
  lemma GroupHoldsAggregates(m: Meaning, ar: Arithmetic, outer: Option<Context>, slots: seq<Expr>, g: Group)
    requires AreAggregates(slots) && Summary(m, ar, outer, slots, g).Ok?
    ensures Holds(m, ar, outer, slots, g.rows, Summary(m, ar, outer, slots, g).value.aggregated)
  {
    hide SlotValue, Over;
    forall i | 0 <= i < |slots|
      ensures |SlotValues(m, ar, outer, slots, g.rows).value| == |slots|
      ensures Over(m, ar, outer, slots[i], g.rows) == Ok(SlotValues(m, ar, outer, slots, g.rows).value[i])
    {
      SlotValuesAt(m, ar, outer, slots, g.rows, i);
      SlotHoldsAggregate(m, ar, outer, slots[i], g.rows);
    }
    if slots != [] { SlotValuesAt(m, ar, outer, slots, g.rows, 0); }
  }

  lemma SlotsAreAggregates(q: Query)
    requires q.Select?
    ensures var slots := PlanQuery(q).aggregates; slots.Some? ==> AreAggregates(slots.value)
  {
    hide PlanQuery, AllBound;
    PlannedSelectIsBound(q);
  }

  /** The aggregates that the plan of a SELECT computes. */
  function SlotsOf(q: Query): (slots: seq<Expr>)
    requires q.Select?
    ensures AreAggregates(slots)
  {
    SlotsAreAggregates(q);
    var slots := PlanQuery(q).aggregates;
    if slots.Some? then slots.value else []
  }

  /** A bound clause evaluates, by slots, to what the clause as written means on the group. */
  ghost predicate MeansDirect(
      m: Meaning, ar: Arithmetic, outer: Option<Context>, c: Option<Context>, rows: seq<Context>,
      aggregated: Option<seq<Value>>, bound: seq<Expr>, written: seq<Expr>)
  {
    && |bound| == |written|
    && forall k | 0 <= k < |bound| ::
         Eval(m, c, aggregated, bound[k]) == EvalDirect(m, ar, outer, c, rows, written[k])
  }

  lemma {:induction false} StripAllAt(es: seq<Expr>, k: nat)
    requires k < |es|
    ensures |StripAll(es)| == |es| && StripAll(es)[k] == Strip(es[k])
    decreases |es|
  {
    hide Strip;
    if |es| > 1 { StripAllAt(es[1..], if k == 0 then 0 else k - 1); }
  }

  lemma ClauseMeansDirect(
      m: Meaning, ar: Arithmetic, outer: Option<Context>, c: Option<Context>, rows: seq<Context>,
      aggregated: Option<seq<Value>>, slots: seq<Expr>, bound: seq<Expr>, written: seq<Expr>)
    requires AreAggregates(slots) && Holds(m, ar, outer, slots, rows, aggregated)
    requires AllBound(bound, slots) && |bound| == |written| && StripAll(bound) == StripAll(written)
    ensures MeansDirect(m, ar, outer, c, rows, aggregated, bound, written)
  {
    hide Holds, Strip, StripAll, Eval, EvalDirect, Bound;
    forall k | 0 <= k < |bound|
      ensures Eval(m, c, aggregated, bound[k]) == EvalDirect(m, ar, outer, c, rows, written[k]) {
      StripAllAt(bound, k);
      StripAllAt(written, k);
      BoundMeansDirect(m, ar, outer, slots, rows, aggregated, c, bound[k]);
      DirectIgnoresSlots(m, ar, outer, rows, c, bound[k]);
      DirectIgnoresSlots(m, ar, outer, rows, c, written[k]);
    }
  }

  lemma BoundClauses(q: Query)
    requires q.Select?
    ensures var p := PlanQuery(q);
            && |p.projection| == |q.projection| && StripAll(p.projection) == StripAll(PlanAll(q.projection))
            && |p.having| == |q.having| && StripAll(p.having) == StripAll(PlanAll(q.having))
            && |p.orderBy| == |q.orderBy| && StripAll(p.orderBy) == StripAll(PlanAll(q.orderBy))
  {
    var p := BindAll(PlanAll(q.projection), []);
    var h := BindAll(PlanAll(q.having), p.1);
    BindAllOnlyAddsSlots(PlanAll(q.projection), []);
    BindAllOnlyAddsSlots(PlanAll(q.having), p.1);
    BindAllOnlyAddsSlots(PlanAll(q.orderBy), h.1);
  }

  /** The theorem.  Plan a SELECT, aggregate its rows, and evaluate any expression of projection,
    HAVING or ORDER BY by looking its aggregates up in the slots of a group: the result is that of
    computing every aggregate over the rows of the group. */
  lemma SlotsMeanAggregates(
      m: Meaning, ar: Arithmetic, outer: Option<Context>, q: Query, items: seq<Item>, i: nat, c: Option<Context>)
    requires q.Select?
    requires var contexts := Grouped(m, ar, outer, SlotsOf(q), PlanQuery(q).groupBy, items);
             contexts.Ok? && i < |contexts.value|
    ensures var p := PlanQuery(q);
            var groups := GroupsOf(m, outer, p.groupBy, items);
            var context := Grouped(m, ar, outer, SlotsOf(q), p.groupBy, items).value[i];
            && groups.Ok? && |groups.value| == |Grouped(m, ar, outer, SlotsOf(q), p.groupBy, items).value|
            && Summary(m, ar, outer, SlotsOf(q), groups.value[i]) == Ok(context)
            && MeansDirect(m, ar, outer, c, groups.value[i].rows, context.aggregated, p.projection,
               PlanAll(q.projection))
            && MeansDirect(m, ar, outer, c, groups.value[i].rows, context.aggregated, p.having, PlanAll(q.having))
            && MeansDirect(m, ar, outer, c, groups.value[i].rows, context.aggregated, p.orderBy, PlanAll(q.orderBy))
  {
    hide PlanQuery, PlanAll, MeansDirect, Holds, Summary, Summaries, GroupsOf, StripAll, AllBound, Distinct;
    var p, slots := PlanQuery(q), SlotsOf(q);
    var groups := GroupsOf(m, outer, p.groupBy, items).value;
    var context := Grouped(m, ar, outer, slots, p.groupBy, items).value[i];
    PlannedSelectIsBound(q);
    BoundClauses(q);
    SummariesAt(m, ar, outer, slots, groups);
    GroupHoldsAggregates(m, ar, outer, slots, groups[i]);
    var rows, values := groups[i].rows, context.aggregated;
    ClauseMeansDirect(m, ar, outer, c, rows, values, slots, p.projection, PlanAll(q.projection));
    ClauseMeansDirect(m, ar, outer, c, rows, values, slots, p.having, PlanAll(q.having));
    ClauseMeansDirect(m, ar, outer, c, rows, values, slots, p.orderBy, PlanAll(q.orderBy));
  }

  // ----- HAVING -----

  /** `at` lists, in order, exactly the positions that are marked. */
  ghost predicate Lists(at: seq<nat>, marks: seq<bool>) {
    && (forall i, j | 0 <= i < j < |at| :: at[i] < at[j])
    && (forall i | 0 <= i < |at| :: at[i] < |marks| && marks[at[i]])
    && (forall k: nat | k < |marks| && marks[k] :: k in at)
  }

  lemma ListsAppend(at: seq<nat>, marks: seq<bool>, mark: bool)
    requires Lists(at, marks)
    ensures Lists(if mark then at + [|marks|] else at, marks + [mark])
  {
    if mark {
      var more := at + [|marks|];
      assert more[|at|] == |marks|;
      forall k: nat | k < |marks| && marks[k] ensures k in more {
        var i :| 0 <= i < |at| && at[i] == k;
        assert more[i] == k;
      }
    }
  }

  /** On which groups HAVING is true. */
  function Verdicts(
      m: Meaning, outer: Option<Context>, having: Option<Expr>, groups: seq<AggregateContext>): (r: seq<bool>)
    ensures |r| == |groups|
  {
    seq(|groups|, k requires 0 <= k < |groups| => Passes(m, outer, having, groups[k]) == Ok(true))
  }

  /** HAVING keeps, in order, exactly the groups on which it is true. */
  lemma {:induction false} HavingKeepsExactly(
      m: Meaning, outer: Option<Context>, having: Option<Expr>, groups: seq<AggregateContext>)
    returns (at: seq<nat>)
    requires Having(m, outer, having, groups).Ok?
    ensures Lists(at, Verdicts(m, outer, having, groups))
    ensures var kept := Having(m, outer, having, groups).value;
            |at| == |kept| && forall i | 0 <= i < |at| :: at[i] < |groups| && kept[i] == groups[at[i]]
    ensures forall k | 0 <= k < |groups| :: Passes(m, outer, having, groups[k]).Ok?
  {
    hide Passes, Lists;
    if groups == [] {
      at := [];
      assert Lists(at, Verdicts(m, outer, having, groups)) by { NothingListed(Verdicts(m, outer, having, groups)); }
    } else {
      var n := |groups| - 1;
      at := HavingKeepsExactly(m, outer, having, groups[..n]);
      var marks, pass := Verdicts(m, outer, having, groups[..n]), Passes(m, outer, having, groups[n]);
      ListsAppend(at, marks, pass == Ok(true));
      assert Verdicts(m, outer, having, groups) == marks + [pass == Ok(true)];
      if pass.value {
        assert pass == Ok(true);
        at := at + [n];
      } else {
        assert pass == Ok(false);
      }
    }
  }

  lemma NothingListed(marks: seq<bool>)
    requires marks == []
    ensures Lists([], marks)
  {
  }

  function HavingOf(q: Query): Option<Expr>
    requires q.Select?
  {
    if q.having == [] then Option.None else Some(q.having[0])
  }

  /** HAVING as written is true on the group: its aggregates are computed over the rows of the group, and
    its other names are those of the first row inside the enclosing query. */
  predicate HoldsOn(m: Meaning, ar: Arithmetic, outer: Option<Context>, q: Query, g: Group)
    requires q.Select?
  {
    q.having == [] ||
    var c := if g.rows == [] then outer else Some(J.Surroundings(outer, g.rows[0]));
    EvalDirect(m, ar, outer, c, g.rows, PlanAll(q.having)[0]) == Ok(Value.Bool(true))
  }

  function Holding(m: Meaning, ar: Arithmetic, outer: Option<Context>, q: Query, groups: seq<Group>): (r: seq<bool>)
    requires q.Select?
    ensures |r| == |groups|
  {
    seq(|groups|, k requires 0 <= k < |groups| => HoldsOn(m, ar, outer, q, groups[k]))
  }

  lemma PassesMeansHolds(m: Meaning, ar: Arithmetic, outer: Option<Context>, q: Query, items: seq<Item>, k: nat)
    requires q.Select?
    requires var contexts := Grouped(m, ar, outer, SlotsOf(q), PlanQuery(q).groupBy, items);
             contexts.Ok? && k < |contexts.value| && Passes(m, outer, HavingOf(PlanQuery(q)), contexts.value[k]).Ok?
    ensures var context := Grouped(m, ar, outer, SlotsOf(q), PlanQuery(q).groupBy, items).value[k];
            var groups := GroupsOf(m, outer, PlanQuery(q).groupBy, items);
            && groups.Ok? && k < |groups.value|
            && (Passes(m, outer, HavingOf(PlanQuery(q)), context) == Ok(true) <==>
               HoldsOn(m, ar, outer, q, groups.value[k]))
  {
    hide PlanQuery, PlanAll, GroupsOf, Grouped, Eval, EvalDirect, SlotValues;
    var p := PlanQuery(q);
    var context := Grouped(m, ar, outer, SlotsOf(q), p.groupBy, items).value[k];
    BoundClauses(q);
    SlotsMeanAggregates(m, ar, outer, q, items, k, HavingContext(outer, context.next));
  }

  /** From rows to groups, end to end: the outputs of `apply` for a planned SELECT are, in order, the
    summaries of exactly those groups on whose rows HAVING as written is true. */
  lemma OutputsAreTheGroupsThatHold(m: Meaning, ar: Arithmetic, outer: Option<Context>, q: Query, items: seq<Item>)
    returns (at: seq<nat>)
    requires q.Select? && !(PlanQuery(q).groupBy == [] && SlotsOf(q) == [])
    requires Applied(m, ar, outer, SlotsOf(q), PlanQuery(q).groupBy, HavingOf(PlanQuery(q)), items).Ok?
    ensures var outputs := Applied(m, ar, outer, SlotsOf(q), PlanQuery(q).groupBy, HavingOf(PlanQuery(q)), items).value;
            var groups := GroupsOf(m, outer, PlanQuery(q).groupBy, items);
            && groups.Ok?
            && Lists(at, Holding(m, ar, outer, q, groups.value)) && |outputs| == |at|
            && forall i | 0 <= i < |at| ::
                 at[i] < |groups.value| && outputs[i] == Summary(m, ar, outer, SlotsOf(q), groups.value[at[i]])
  {
    hide PlanQuery, Having, GroupsOf, Grouped, Passes, HoldsOn, Summary, MeansDirect, Lists;
    var p := PlanQuery(q);
    var having := HavingOf(p);
    var contexts := Grouped(m, ar, outer, SlotsOf(q), p.groupBy, items).value;
    at := HavingKeepsExactly(m, outer, having, contexts);
    GroupedPerGroup(m, ar, outer, SlotsOf(q), p.groupBy, items);
    var groups := GroupsOf(m, outer, p.groupBy, items).value;
    forall k: nat | k < |groups|
      ensures Passes(m, outer, having, contexts[k]) == Ok(true) <==> HoldsOn(m, ar, outer, q, groups[k])
    {
      PassesMeansHolds(m, ar, outer, q, items, k);
    }
    assert Verdicts(m, outer, having, contexts) == Holding(m, ar, outer, q, groups);
  }

  lemma GroupedPerGroup(
      m: Meaning, ar: Arithmetic, outer: Option<Context>, slots: seq<Expr>, groupBy: seq<Expr>, items: seq<Item>)
    requires AreAggregates(slots) && Grouped(m, ar, outer, slots, groupBy, items).Ok?
    ensures var groups := GroupsOf(m, outer, groupBy, items);
            var contexts := Grouped(m, ar, outer, slots, groupBy, items).value;
            && groups.Ok? && |groups.value| == |contexts|
            && forall k | 0 <= k < |contexts| :: Summary(m, ar, outer, slots, groups.value[k]) == Ok(contexts[k])
  {
    hide GroupsOf, Summary;
    SummariesAt(m, ar, outer, slots, GroupsOf(m, outer, groupBy, items).value);
  }
}

/** Grouping rows and computing aggregates (core/src/executor/aggregate.rs,
  core/src/executor/aggregate/state.rs, core/src/executor/evaluate.rs). */
module Aggregation {
  import opened Data
  import opened AggregatePlanning
  import opened AggregateValues
  import E = Expressions
  import J = Joins

  type Context = E.Context
  type Item = J.Item

  /** The meaning of everything in an expression but its aggregates.  An operator is given the outcomes
    of all its children, so that CASE or COALESCE may ignore the failure of one. */
  datatype Meaning = Meaning(
    leaf: (string, Option<Context>) -> Result<Value>,
    operate: (string, seq<Result<Value>>) -> Result<Value>,
    subquery: (string, seq<Result<Value>>, Query, Option<Context>) -> Result<Value>)

  // ----- evaluation with slots -----

  /** `evaluate`: an aggregate is the value in its slot. */
  function Eval(m: Meaning, c: Option<Context>, aggregated: Option<seq<Value>>, e: Expr): Result<Value>
    decreases e, 1
  {
    match e
    case Leaf(text) => m.leaf(text, c)
    case Apply(op, args) => m.operate(op, EvalEach(m, c, aggregated, args))
    case Subquery(op, args, query) => m.subquery(op, EvalEach(m, c, aggregated, args), query, c)
    case Aggregate(_, _, _, slot) =>
      if aggregated.Some? && slot.Some? && slot.value < |aggregated.value| then Ok(aggregated.value[slot.value])
      else Err(Error("no value for the aggregate"))
  }

  function EvalEach(m: Meaning, c: Option<Context>, aggregated: Option<seq<Value>>, es: seq<Expr>): seq<Result<Value>>
    decreases es, 0
  {
    if es == [] then [] else [Eval(m, c, aggregated, es[0])] + EvalEach(m, c, aggregated, es[1..])
  }

  /** The values of all expressions, if none fails. */
  function EvalAll(m: Meaning, c: Option<Context>, es: seq<Expr>): Result<seq<Value>> {
    if es == [] then Ok([])
    else
      var v :- Eval(m, c, Option.None, es[0]);
      var vs :- EvalAll(m, c, es[1..]);
      Ok([v] + vs)
  }

  // ----- the value of an aggregate on one row -----

  /** All values of a row, the joined rows first (`get_all_entries`). */
  function Entries(c: Context): seq<Value> {
    match c
    case Data(_, columns, values, next) =>
      var own := values[..if |columns| < |values| then |columns| else |values|];
      if next.Some? then Entries(next.value) + own else own
    case Bridge(left, right) => Entries(left) + Entries(right)
  }

  function Argument(m: Meaning, outer: Option<Context>, a: Expr, row: Context): Result<Value>
    requires a.Aggregate?
  {
    var c := J.Surroundings(outer, row);
    if a.arg.Some? then Eval(m, Some(c), Option.None, a.arg.value)
    else Ok(if a.distinct then Value.List(Entries(c)) else Value.Null)
  }

  /** The running value of a slot after the rows of a group. */
  function SlotState(
      m: Meaning, ar: Arithmetic, outer: Option<Context>, a: Expr, rows: seq<Context>): Result<Option<Running>>
    requires a.Aggregate?
  {
    if rows == [] then Ok(Option.None)
    else
      var n := |rows| - 1;
      var init :- SlotState(m, ar, outer, a, rows[..n]);
      SlotStep(m, ar, outer, a, init, rows[n])
  }

  /** `State::accumulate`. */
  function SlotStep(
      m: Meaning, ar: Arithmetic, outer: Option<Context>, a: Expr, init: Option<Running>,
      row: Context): Result<Option<Running>>
    requires a.Aggregate?
  {
    var v :- Argument(m, outer, a, row);
    var s :- if init.None? then New(ar, a, v) else Accumulate(ar, init.value, v);
    Ok(Some(s))
  }

  lemma SlotStateAppend(m: Meaning, ar: Arithmetic, outer: Option<Context>, a: Expr, rows: seq<Context>, row: Context)
    requires a.Aggregate? && SlotState(m, ar, outer, a, rows).Ok?
    ensures SlotState(m, ar, outer, a, rows + [row])
        == SlotStep(m, ar, outer, a, SlotState(m, ar, outer, a, rows).value, row)
  {
    hide SlotStep;
    assert (rows + [row])[..|rows|] == rows;
  }

  // ----- groups -----

  /** A group: what its grouping values feed to the hasher, and its rows in order. */
  datatype Group = Group(key: seq<Value>, rows: seq<Context>)

  function GroupKey(m: Meaning, outer: Option<Context>, groupBy: seq<Expr>, row: Context): Result<seq<Value>> {
    var vs :- EvalAll(m, Some(J.Surroundings(outer, row)), groupBy);
    Ok(HashFeeds(vs))
  }

  function IndexOf(groups: seq<Group>, key: seq<Value>): (r: Option<nat>)
    ensures r.Some? ==> r.value < |groups| && groups[r.value].key == key
    ensures r.None? ==> forall i | 0 <= i < |groups| :: groups[i].key != key
  {
    if groups == [] then Option.None
    else
      var n := |groups| - 1;
      if groups[n].key == key then Some(n) else IndexOf(groups[..n], key)
  }

  function AddRow(groups: seq<Group>, key: seq<Value>, row: Context): seq<Group> {
    match IndexOf(groups, key)
    case Some(i) => groups[i := Group(key, groups[i].rows + [row])]
    case None => groups + [Group(key, [row])]
  }

  /** Without GROUP BY there is one group from the start. */
  function NoRows(groupBy: seq<Expr>): seq<Group> { if groupBy == [] then [Group([], [])] else [] }

  function GroupsOf(m: Meaning, outer: Option<Context>, groupBy: seq<Expr>, items: seq<Item>): Result<seq<Group>> {
    if items == [] then Ok(NoRows(groupBy))
    else
      var n := |items| - 1;
      var groups :- GroupsOf(m, outer, groupBy, items[..n]);
      var row :- items[n];
      var key :- GroupKey(m, outer, groupBy, row);
      Ok(AddRow(groups, key, row))
  }

  // ----- the result -----

  datatype AggregateContext = AggregateContext(aggregated: Option<seq<Value>>, next: Option<Context>)

  function SlotValue(m: Meaning, ar: Arithmetic, outer: Option<Context>, a: Expr, rows: seq<Context>): Result<Value>
    requires a.Aggregate?
  {
    var s :- SlotState(m, ar, outer, a, rows);
    Exported(ar, a, s)
  }

  predicate AreAggregates(slots: seq<Expr>) { forall i | 0 <= i < |slots| :: slots[i].Aggregate? }

  function SlotValues(
      m: Meaning, ar: Arithmetic, outer: Option<Context>, slots: seq<Expr>, rows: seq<Context>): Result<seq<Value>>
    requires AreAggregates(slots)
  {
    if slots == [] then Ok([])
    else
      var v :- SlotValue(m, ar, outer, slots[0], rows);
      var vs :- SlotValues(m, ar, outer, slots[1..], rows);
      Ok([v] + vs)
  }

  function Summary(
      m: Meaning, ar: Arithmetic, outer: Option<Context>, slots: seq<Expr>, g: Group): Result<AggregateContext>
    requires AreAggregates(slots)
  {
    var vs :- SlotValues(m, ar, outer, slots, g.rows);
    var representative := if g.rows == [] then Option.None else Some(g.rows[0]);
    Ok(AggregateContext(if slots == [] then Option.None else Some(vs), representative))
  }

  function Summaries(
      m: Meaning, ar: Arithmetic, outer: Option<Context>, slots: seq<Expr>,
      groups: seq<Group>): Result<seq<AggregateContext>>
    requires AreAggregates(slots)
  {
    if groups == [] then Ok([])
    else
      var first :- Summary(m, ar, outer, slots, groups[0]);
      var rest :- Summaries(m, ar, outer, slots, groups[1..]);
      Ok([first] + rest)
  }

  /** One context per group. */
  function Grouped(
      m: Meaning, ar: Arithmetic, outer: Option<Context>, slots: seq<Expr>, groupBy: seq<Expr>,
      items: seq<Item>): Result<seq<AggregateContext>>
    requires AreAggregates(slots)
  {
    var groups :- GroupsOf(m, outer, groupBy, items);
    Summaries(m, ar, outer, slots, groups)
  }

  // ----- HAVING -----

  function HavingContext(outer: Option<Context>, next: Option<Context>): Option<Context> {
    if next.None? then outer else Some(J.Surroundings(outer, next.value))
  }

  function Passes(m: Meaning, outer: Option<Context>, having: Option<Expr>, a: AggregateContext): Result<bool> {
    if having.None? then Ok(true)
    else
      var v :- Eval(m, HavingContext(outer, a.next), a.aggregated, having.value);
      if v.Null? then Ok(false) else if v.Bool? then Ok(v.b) else Err(Error("boolean type required"))
  }

  function Having(
      m: Meaning, outer: Option<Context>, having: Option<Expr>,
      groups: seq<AggregateContext>): Result<seq<AggregateContext>>
  {
    if groups == [] then Ok([])
    else
      var n := |groups| - 1;
      var init :- Having(m, outer, having, groups[..n]);
      var pass :- Passes(m, outer, having, groups[n]);
      Ok(if pass then init + [groups[n]] else init)
  }

  /** `group_by_having`. */
  method GroupByHaving(m: Meaning, outer: Option<Context>, having: Option<Expr>, groups: seq<AggregateContext>)
    returns (filtered: Result<seq<AggregateContext>>)
    ensures filtered == Having(m, outer, having, groups)
  {
    hide Passes;
    var kept: seq<AggregateContext> := [];
    for i := 0 to |groups|
      invariant Having(m, outer, having, groups[..i]) == Ok(kept)
    {
      assert groups[..i + 1][..i] == groups[..i];
      var pass := Passes(m, outer, having, groups[i]);
      if pass.Err? {
        HavingFailsEarly(m, outer, having, groups, i + 1);
        return Err(pass.error);
      }
      if pass.value { kept := kept + [groups[i]]; }
    }
    assert groups[..|groups|] == groups;
    return Ok(kept);
  }

  lemma {:induction false} HavingFailsEarly(
      m: Meaning, outer: Option<Context>, having: Option<Expr>, groups: seq<AggregateContext>, n: nat)
    requires n <= |groups| && Having(m, outer, having, groups[..n]).Err?
    ensures Having(m, outer, having, groups) == Having(m, outer, having, groups[..n])
    decreases |groups|
  {
    hide Passes;
    if n < |groups| {
      var k := |groups| - 1;
      assert groups[..k][..n] == groups[..n];
      HavingFailsEarly(m, outer, having, groups[..k], n);
    } else {
      assert groups[..n] == groups;
    }
  }

  // ----- the state that is updated row by row -----

  datatype GroupState = GroupState(representative: Option<Context>, values: seq<Option<Running>>)

  /** The state of a group holds its first row and the running values of all slots. */
  ghost predicate Tracks(m: Meaning, ar: Arithmetic, outer: Option<Context>, slots: seq<Expr>, g: Group, s: GroupState)
    requires AreAggregates(slots)
  {
    && s.representative == (if g.rows == [] then Option.None else Some(g.rows[0]))
    && |s.values| == |slots|
    && forall i | 0 <= i < |slots| :: SlotState(m, ar, outer, slots[i], g.rows) == Ok(s.values[i])
  }

  /** The representative of a group is its first row. */
  function FirstOf(representative: Option<Context>, row: Context): Option<Context> {
    if representative.None? then Some(row) else representative
  }

  /** The map finds every group by its key, and nothing else. */
  ghost predicate FindsAll(indexes: map<seq<Value>, nat>, keys: seq<Group>) {
    && (forall i, j | 0 <= i < j < |keys| :: keys[i].key != keys[j].key)
    && (forall i | 0 <= i < |keys| :: keys[i].key in indexes && indexes[keys[i].key] == i)
    && (forall k | k in indexes :: indexes[k] < |keys| && keys[indexes[k]].key == k)
  }

  lemma FoundAt(indexes: map<seq<Value>, nat>, keys: seq<Group>, key: seq<Value>, row: Context)
    requires FindsAll(indexes, keys) && key in indexes
    ensures IndexOf(keys, key) == Some(indexes[key])
    ensures FindsAll(indexes, AddRow(keys, key, row)) && |AddRow(keys, key, row)| == |keys|
  {
    UniqueIndex(keys, key, indexes[key]);
    var i := indexes[key];
    var after := keys[i := Group(key, keys[i].rows + [row])];
    assert forall j | 0 <= j < |keys| :: after[j].key == keys[j].key;
  }

  lemma FoundNowhere(indexes: map<seq<Value>, nat>, keys: seq<Group>, key: seq<Value>, row: Context)
    requires FindsAll(indexes, keys) && key !in indexes
    ensures IndexOf(keys, key).None?
    ensures FindsAll(indexes[key := |keys|], AddRow(keys, key, row)) && |AddRow(keys, key, row)| == |keys| + 1
  {
    var after := keys + [Group(key, [row])];
    assert IndexOf(keys, key).None?;
    assert forall j | 0 <= j < |keys| :: after[j] == keys[j];
  }

  /** `State`. */
  class State {
    const slotCount: nat
    var groups: seq<GroupState>
    var groupIndexes: map<seq<Value>, nat>

    /** The map finds every group by its key. */
    ghost predicate Indexes(keys: seq<Group>)
      reads this
    {
      |keys| == |groups| && FindsAll(groupIndexes, keys)
    }

    constructor (slotCount: nat, global: bool)
      ensures this.slotCount == slotCount
      ensures Indexes(if global then [Group([], [])] else [])
      ensures groups == if global then [GroupState(Option.None, seq(slotCount, _ => Option.None))] else []
    {
      this.slotCount := slotCount;
      groups := if global then [GroupState(Option.None, seq(slotCount, _ => Option.None))] else [];
      groupIndexes := if global then map[[] := 0] else map[];
    }

    /** `State::apply`: finds or creates the group of a row. */
    method Apply(ghost keys: seq<Group>, key: seq<Value>, row: Context) returns (index: nat)
      requires Indexes(keys)
      modifies this
      ensures Indexes(AddRow(keys, key, row)) && index < |groups|
      ensures match IndexOf(keys, key)
              case Some(i) =>
                var was := old(groups)[i];
                index == i &&
                groups == old(groups)[i := was.(representative := FirstOf(was.representative, row))]
              case None =>
                index == |old(groups)| &&
                  groups == old(groups) + [GroupState(Some(row), seq(slotCount, _ => Option.None))]
    {
      hide FindsAll, AddRow, IndexOf;
      if key in groupIndexes {
        index := groupIndexes[key];
        FoundAt(groupIndexes, keys, key, row);
        var g := groups[index];
        if g.representative.None? { groups := groups[index := g.(representative := Some(row))]; }
      } else {
        index := |groups|;
        FoundNowhere(groupIndexes, keys, key, row);
        groups := groups + [GroupState(Some(row), seq(slotCount, _ => Option.None))];
        groupIndexes := groupIndexes[key := index];
      }
    }

    /** `State::accumulate`: if the slot stands for the rows so far, it stands for them and this row
      afterwards; it fails exactly when these have no running value, and nothing else changes. */
    method AccumulateSlot(
        m: Meaning, ar: Arithmetic, outer: Option<Context>, index: nat, ghost rows: seq<Context>, row: Context,
        slot: nat, a: Expr)
      returns (ok: bool)
      requires a.Aggregate? && index < |groups| && slot < |groups[index].values|
      requires SlotState(m, ar, outer, a, rows) == Ok(groups[index].values[slot])
      modifies this`groups
      ensures ok <==> SlotState(m, ar, outer, a, rows + [row]).Ok?
      ensures !ok ==> groups == old(groups)
      ensures ok ==>
                var g, value := old(groups)[index], SlotState(m, ar, outer, a, rows + [row]).value;
                groups == old(groups)[index := g.(values := g.values[slot := value])]
    {
      hide SlotStep, SlotState;
      SlotStateAppend(m, ar, outer, a, rows, row);
      var g := groups[index];
      var step := SlotStep(m, ar, outer, a, g.values[slot], row);
      ok := step.Ok?;
      if ok { groups := groups[index := g.(values := g.values[slot := step.value])]; }
    }
  }

  lemma UniqueIndex(groups: seq<Group>, key: seq<Value>, i: nat)
    requires i < |groups| && groups[i].key == key
    requires forall i, j | 0 <= i < j < |groups| :: groups[i].key != groups[j].key
    ensures IndexOf(groups, key) == Some(i)
  {
  }
}

/** The loop that aggregates rows, and what it computes (core/src/executor/aggregate.rs). */
module AggregateApply {
  import opened Data
  import opened AggregatePlanning
  import opened AggregateValues
  import opened Aggregation

  type Output = Result<AggregateContext>

  function Alone(item: Item): Output {
    if item.Ok? then Ok(AggregateContext(Option.None, Some(item.value))) else Err(item.error)
  }

  function Ungrouped(items: seq<Item>): (r: seq<Output>)
    ensures |r| == |items|
  {
    seq(|items|, i requires 0 <= i < |items| => Alone(items[i]))
  }

  function Succeeded(groups: seq<AggregateContext>): (r: seq<Output>)
    ensures |r| == |groups|
  {
    seq(|groups|, i requires 0 <= i < |groups| => Ok(groups[i]))
  }

  /** What `Apply` computes.  Without GROUP BY and aggregates the rows pass through, and HAVING is not looked at. */
  function Applied(
      m: Meaning, ar: Arithmetic, outer: Option<Context>, slots: seq<Expr>, groupBy: seq<Expr>, having: Option<Expr>,
      items: seq<Item>): Result<seq<Output>>
    requires AreAggregates(slots)
  {
    if groupBy == [] && slots == [] then Ok(Ungrouped(items))
    else
      var groups :- Grouped(m, ar, outer, slots, groupBy, items);
      var kept :- Having(m, outer, having, groups);
      Ok(Succeeded(kept))
  }

  ghost predicate AllTracked(
      m: Meaning, ar: Arithmetic, outer: Option<Context>, slots: seq<Expr>, groups: seq<Group>, states: seq<GroupState>)
    requires AreAggregates(slots)
  {
    |groups| == |states| && forall i | 0 <= i < |groups| :: Tracks(m, ar, outer, slots, groups[i], states[i])
  }

  // ----- one row -----

  /** Slots below `n` have taken the row in, the others have not yet. */
  ghost predicate Partly(
      m: Meaning, ar: Arithmetic, outer: Option<Context>, slots: seq<Expr>, rows: seq<Context>, row: Context,
      values: seq<Option<Running>>, n: nat)
    requires AreAggregates(slots)
  {
    && |values| == |slots|
    && (forall i | 0 <= i < |slots| && i < n :: SlotState(m, ar, outer, slots[i], rows + [row]) == Ok(values[i]))
    && (forall i | n <= i < |slots| :: SlotState(m, ar, outer, slots[i], rows) == Ok(values[i]))
  }

  /** The inner loop of `apply` over the slots. */
  method AccumulateRow(
      state: State, m: Meaning, ar: Arithmetic, outer: Option<Context>, slots: seq<Expr>, index: nat,
      ghost rows: seq<Context>, row: Context)
    returns (ok: bool, ghost failed: nat)
    requires AreAggregates(slots) && index < |state.groups| &&
        Partly(m, ar, outer, slots, rows, row, state.groups[index].values, 0)
    modifies state`groups
    ensures |state.groups| == |old(state.groups)|
    ensures forall i | 0 <= i < |state.groups| && i != index :: state.groups[i] == old(state.groups)[i]
    ensures state.groups[index].representative == old(state.groups)[index].representative
    ensures ok ==> Partly(m, ar, outer, slots, rows, row, state.groups[index].values, |slots|)
    ensures !ok ==> failed < |slots| && SlotState(m, ar, outer, slots[failed], rows + [row]).Err?
  {
    hide SlotStep, SlotState;
    failed := 0;
    for slot := 0 to |slots|
      invariant |state.groups| == |old(state.groups)|
      invariant forall i | 0 <= i < |state.groups| && i != index :: state.groups[i] == old(state.groups)[i]
      invariant state.groups[index].representative == old(state.groups)[index].representative
      invariant Partly(m, ar, outer, slots, rows, row, state.groups[index].values, slot)
    {
      var stepped := state.AccumulateSlot(m, ar, outer, index, rows, row, slot, slots[slot]);
      if !stepped { return false, slot; }
    }
    ok := true;
  }

  // ----- failures stay -----

  lemma {:induction false} SlotFailureStays(
      m: Meaning, ar: Arithmetic, outer: Option<Context>, a: Expr, rows: seq<Context>, n: nat)
    requires a.Aggregate? && n <= |rows| && SlotState(m, ar, outer, a, rows[..n]).Err?
    ensures SlotState(m, ar, outer, a, rows).Err?
    decreases |rows|
  {
    hide SlotStep;
    if n == |rows| {
      assert rows[..n] == rows;
    } else {
      var k := |rows| - 1;
      assert rows[..k][..n] == rows[..n];
      SlotFailureStays(m, ar, outer, a, rows[..k], n);
    }
  }

  /** Groups keep their position and only gain rows at the end. */
  ghost predicate Grows(before: seq<Group>, after: seq<Group>) {
    |before| <= |after| && forall i | 0 <= i < |before| ::
      before[i].key == after[i].key && before[i].rows <= after[i].rows
  }

  lemma GrowsItself(groups: seq<Group>)
    ensures Grows(groups, groups)
  {
  }

  lemma AddRowGrows(groups: seq<Group>, key: seq<Value>, row: Context)
    ensures Grows(groups, AddRow(groups, key, row))
  {
  }

  lemma GrowsTransitive(a: seq<Group>, b: seq<Group>, c: seq<Group>)
    requires Grows(a, b) && Grows(b, c)
    ensures Grows(a, c)
  {
    forall i | 0 <= i < |a| ensures a[i].rows <= c[i].rows {
      assert a[i].rows <= b[i].rows && b[i].rows <= c[i].rows;
    }
  }

  lemma {:induction false} GroupsGrow(m: Meaning, outer: Option<Context>, groupBy: seq<Expr>, items: seq<Item>, n: nat)
    requires n <= |items|
    ensures GroupsOf(m, outer, groupBy, items[..n]).Err? ==> GroupsOf(m, outer, groupBy, items).Err?
    ensures GroupsOf(m, outer, groupBy, items).Ok? ==>
              Grows(GroupsOf(m, outer, groupBy, items[..n]).value, GroupsOf(m, outer, groupBy, items).value)
    decreases |items|
  {
    hide GroupKey, AddRow, Grows;
    var all := GroupsOf(m, outer, groupBy, items);
    if n == |items| {
      assert items[..n] == items;
      if all.Ok? { assert Grows(all.value, all.value) by { GrowsItself(all.value); } }
    } else {
      var k := |items| - 1;
      assert items[..k][..n] == items[..n];
      GroupsGrow(m, outer, groupBy, items[..k], n);
      if all.Ok? {
        var init := GroupsOf(m, outer, groupBy, items[..k]).value;
        AddRowGrows(init, GroupKey(m, outer, groupBy, items[k].value).value, items[k].value);
        GrowsTransitive(GroupsOf(m, outer, groupBy, items[..n]).value, init, all.value);
      }
    }
  }

  lemma {:induction false} SlotFailureFails(
      m: Meaning, ar: Arithmetic, outer: Option<Context>, slots: seq<Expr>, rows: seq<Context>, s: nat)
    requires AreAggregates(slots) && s < |slots| && SlotValue(m, ar, outer, slots[s], rows).Err?
    ensures SlotValues(m, ar, outer, slots, rows).Err?
    decreases s
  {
    hide SlotValue;
    if s > 0 { SlotFailureFails(m, ar, outer, slots[1..], rows, s - 1); }
  }

  lemma {:induction false} GroupFailureFails(
      m: Meaning, ar: Arithmetic, outer: Option<Context>, slots: seq<Expr>, groups: seq<Group>, i: nat)
    requires AreAggregates(slots) && i < |groups| && Summary(m, ar, outer, slots, groups[i]).Err?
    ensures Summaries(m, ar, outer, slots, groups).Err?
    decreases i
  {
    hide Summary;
    if i > 0 { GroupFailureFails(m, ar, outer, slots, groups[1..], i - 1); }
  }

  lemma EarlyFailureFails(
      m: Meaning, ar: Arithmetic, outer: Option<Context>, slots: seq<Expr>, groupBy: seq<Expr>, items: seq<Item>,
      n: nat, i: nat, s: nat)
    requires AreAggregates(slots) && n <= |items| && s < |slots|
    requires var groups := GroupsOf(m, outer, groupBy, items[..n]);
             groups.Ok? && i < |groups.value| && SlotState(m, ar, outer, slots[s], groups.value[i].rows).Err?
    ensures Grouped(m, ar, outer, slots, groupBy, items).Err?
  {
    hide GroupsOf, SlotState, SlotValues, Summaries;
    var before, after := GroupsOf(m, outer, groupBy, items[..n]).value, GroupsOf(m, outer, groupBy, items);
    GroupsGrow(m, outer, groupBy, items, n);
    if after.Ok? {
      var rows := after.value[i].rows;
      assert rows[..|before[i].rows|] == before[i].rows;
      SlotFailureStays(m, ar, outer, slots[s], rows, |before[i].rows|);
      SlotFailureFails(m, ar, outer, slots, rows, s);
      GroupFailureFails(m, ar, outer, slots, after.value, i);
    }
  }

  // ----- exporting -----

  function ExportValues(ar: Arithmetic, slots: seq<Expr>, values: seq<Option<Running>>): Result<seq<Value>>
    requires AreAggregates(slots) && |values| == |slots|
  {
    if slots == [] then Ok([])
    else
      var v :- Exported(ar, slots[0], values[0]);
      var vs :- ExportValues(ar, slots[1..], values[1..]);
      Ok([v] + vs)
  }

  lemma {:induction false} ExportedValues(
      m: Meaning, ar: Arithmetic, outer: Option<Context>, slots: seq<Expr>, rows: seq<Context>,
      values: seq<Option<Running>>)
    requires AreAggregates(slots) && |values| == |slots|
    requires forall i | 0 <= i < |slots| :: SlotState(m, ar, outer, slots[i], rows) == Ok(values[i])
    ensures ExportValues(ar, slots, values) == SlotValues(m, ar, outer, slots, rows)
    decreases |slots|
  {
    hide SlotState, Exported;
    if slots != [] { ExportedValues(m, ar, outer, slots[1..], rows, values[1..]); }
  }

  /** `State::export`. */
  method ExportGroups(
      m: Meaning, ar: Arithmetic, outer: Option<Context>, slots: seq<Expr>, ghost groups: seq<Group>,
      states: seq<GroupState>)
    returns (r: Result<seq<AggregateContext>>)
    requires AreAggregates(slots) && AllTracked(m, ar, outer, slots, groups, states)
    ensures r == Summaries(m, ar, outer, slots, groups)
  {
    hide SlotState, SlotValues, ExportValues;
    if states == [] { return Ok([]); }
    var s := states[0];
    ExportedValues(m, ar, outer, slots, groups[0].rows, s.values);
    var values := ExportValues(ar, slots, s.values);
    if values.Err? { return Err(values.error); }
    var rest := ExportGroups(m, ar, outer, slots, groups[1..], states[1..]);
    if rest.Err? { return rest; }
    return Ok([AggregateContext(if slots == [] then Option.None else Some(values.value), s.representative)]
      + rest.value);
  }

  // ----- the loop -----

  /** Both fail, or both succeed with the same value; which error is reported is left open. */
  predicate SameOutcome<T(==)>(a: Result<T>, b: Result<T>) { if a.Ok? then a == b else b.Err? }

  /** The body of the loop of `apply`: one row enters its group, in every slot. */
  method TakeRow(
      state: State, m: Meaning, ar: Arithmetic, outer: Option<Context>, slots: seq<Expr>, ghost groups: seq<Group>,
      key: seq<Value>, row: Context)
    returns (ok: bool, ghost index: nat, ghost failed: nat)
    requires AreAggregates(slots) && state.slotCount == |slots|
    requires state.Indexes(groups) && AllTracked(m, ar, outer, slots, groups, state.groups)
    modifies state
    ensures state.Indexes(AddRow(groups, key, row))
    ensures ok ==> AllTracked(m, ar, outer, slots, AddRow(groups, key, row), state.groups)
    ensures !ok ==>
              index < |AddRow(groups, key, row)| && failed < |slots|
              && SlotState(m, ar, outer, slots[failed], AddRow(groups, key, row)[index].rows).Err?
  {
    hide SlotState, AddRow, AllTracked, Partly, Tracks;
    ghost var states := state.groups;
    var at := state.Apply(groups, key, row);
    index := at;
    ghost var rows := Before(groups, key);
    RowReadyToEnter(m, ar, outer, slots, groups, states, key, row, state.groups, at);
    ghost var found := state.groups;
    ok, failed := AccumulateRow(state, m, ar, outer, slots, at, rows, row);
    if ok { RowEntered(m, ar, outer, slots, groups, key, row, found, at, state.groups); }
  }

  /** The loop of `apply` over the rows, before HAVING. */
  method GroupItems(
      m: Meaning, ar: Arithmetic, outer: Option<Context>, slots: seq<Expr>, groupBy: seq<Expr>, items: seq<Item>)
    returns (r: Result<seq<AggregateContext>>)
    requires AreAggregates(slots)
    ensures SameOutcome(r, Grouped(m, ar, outer, slots, groupBy, items))
  {
    hide GroupKey, SlotState, Summaries, AddRow, AllTracked, NoRows, Grows;
    var state := new State(|slots|, groupBy == []);
    ghost var groups := NoRows(groupBy);
    assert groups == if groupBy == [] then [Group([], [])] else [] by { NoRowsIs(groupBy); }
    EmptyTracked(m, ar, outer, slots, groupBy, state.groups);
    for i := 0 to |items|
      invariant GroupsOf(m, outer, groupBy, items[..i]) == Ok(groups)
      invariant state.Indexes(groups) && state.slotCount == |slots|
      invariant AllTracked(m, ar, outer, slots, groups, state.groups)
    {
      assert items[..i + 1][..i] == items[..i];
      GroupsGrow(m, outer, groupBy, items, i + 1);
      if items[i].Err? { return Err(items[i].error); }
      var row := items[i].value;
      var key := GroupKey(m, outer, groupBy, row);
      if key.Err? { return Err(key.error); }
      var ok, index, failed := TakeRow(state, m, ar, outer, slots, groups, key.value, row);
      if !ok {
        EarlyFailureFails(m, ar, outer, slots, groupBy, items, i + 1, index, failed);
        return Err(Error("aggregate failed"));
      }
      groups := AddRow(groups, key.value, row);
    }
    assert items[..|items|] == items;
    r := ExportGroups(m, ar, outer, slots, groups, state.groups);
  }

  lemma NoRowsIs(groupBy: seq<Expr>)
    ensures NoRows(groupBy) == if groupBy == [] then [Group([], [])] else []
  {
  }

  lemma EmptyTracked(
      m: Meaning, ar: Arithmetic, outer: Option<Context>, slots: seq<Expr>, groupBy: seq<Expr>, states: seq<GroupState>)
    requires AreAggregates(slots)
    requires states == if groupBy == [] then [GroupState(Option.None, seq(|slots|, _ => Option.None))] else []
    ensures AllTracked(m, ar, outer, slots, NoRows(groupBy), states)
  {
  }

  /** The rows of the group before this row. */
  function Before(groups: seq<Group>, key: seq<Value>): seq<Context> {
    match IndexOf(groups, key)
    case Some(i) => groups[i].rows
    case None => []
  }

  /** The state between finding the group of a row and accumulating it. */
  ghost predicate Entering(
      m: Meaning, ar: Arithmetic, outer: Option<Context>, slots: seq<Expr>, after: seq<Group>, rows: seq<Context>,
      row: Context, states: seq<GroupState>, index: nat)
    requires AreAggregates(slots)
  {
    && index < |after| == |states|
    && after[index].rows == rows + [row]
    && states[index].representative == Some((rows + [row])[0])
    && Partly(m, ar, outer, slots, rows, row, states[index].values, 0)
    && forall j | 0 <= j < |after| && j != index :: Tracks(m, ar, outer, slots, after[j], states[j])
  }

  lemma RowReadyToEnter(
      m: Meaning, ar: Arithmetic, outer: Option<Context>, slots: seq<Expr>, before: seq<Group>,
      states: seq<GroupState>, key: seq<Value>, row: Context, found: seq<GroupState>, index: nat)
    requires AreAggregates(slots) && AllTracked(m, ar, outer, slots, before, states)
    requires match IndexOf(before, key)
             case Some(i) =>
               index == i &&
               found == states[i := states[i].(representative := FirstOf(states[i].representative, row))]
             case None => index == |states| && found == states + [GroupState(Some(row), seq(|slots|, _ => Option.None))]
    ensures Entering(m, ar, outer, slots, AddRow(before, key, row), Before(before, key), row, found, index)
  {
    hide SlotStep;
    match IndexOf(before, key)
    case Some(i) => assert Tracks(m, ar, outer, slots, before[i], states[i]);
    case None => assert found[index].values == seq(|slots|, _ => Option.None);
  }

  lemma RowEntered(
      m: Meaning, ar: Arithmetic, outer: Option<Context>, slots: seq<Expr>, before: seq<Group>, key: seq<Value>,
      row: Context, found: seq<GroupState>, index: nat, states: seq<GroupState>)
    requires AreAggregates(slots)
    requires Entering(m, ar, outer, slots, AddRow(before, key, row), Before(before, key), row, found, index)
    requires |states| == |found| && (forall j | 0 <= j < |states| && j != index :: states[j] == found[j])
    requires states[index].representative == found[index].representative
    requires Partly(m, ar, outer, slots, Before(before, key), row, states[index].values, |slots|)
    ensures AllTracked(m, ar, outer, slots, AddRow(before, key, row), states)
  {
    hide SlotState, AddRow, Before;
    var after, rows := AddRow(before, key, row), Before(before, key);
    forall j | 0 <= j < |after| ensures Tracks(m, ar, outer, slots, after[j], states[j]) {
      if j == index { assert after[j].rows == rows + [row]; }
    }
  }

  /** `apply`. */
  method Apply(
      m: Meaning, ar: Arithmetic, outer: Option<Context>, slots: seq<Expr>, groupBy: seq<Expr>, having: Option<Expr>,
      items: seq<Item>)
    returns (r: Result<seq<Output>>)
    requires AreAggregates(slots)
    ensures SameOutcome(r, Applied(m, ar, outer, slots, groupBy, having, items))
  {
    hide Grouped, Having;
    if groupBy == [] && slots == [] { return Ok(Ungrouped(items)); }
    var groups := GroupItems(m, ar, outer, slots, groupBy, items);
    if groups.Err? { return Err(groups.error); }
    var kept := GroupByHaving(m, outer, having, groups.value);
    if kept.Err? { return Err(kept.error); }
    return Ok(Succeeded(kept.value));
  }
}

/** What groups and aggregates are computed from (core/src/executor/aggregate.rs,
  core/src/executor/aggregate/state.rs, core/src/executor/context/row_context.rs). */
module AggregateInputs {
  import opened Data
  import opened AggregatePlanning
  import opened Aggregation
  import opened AggregateMeaning
  import opened AggregateApply

  // ----- GROUP BY -----

  /** The grouping values of a row are the values of the grouping expressions, one by one. */
  lemma {:induction false} AllEvaluateExactlyWhen(m: Meaning, c: Option<Context>, es: seq<Expr>, vs: seq<Value>)
    ensures EvalAll(m, c, es) == Ok(vs) <==>
              |vs| == |es| && forall i | 0 <= i < |es| :: Eval(m, c, Option.None, es[i]) == Ok(vs[i])
  {
    hide Eval;
    if es != [] && vs != [] {
      AllEvaluateExactlyWhen(m, c, es[1..], vs[1..]);
      assert vs == [vs[0]] + vs[1..];
    }
  }

  // ----- arguments -----

  /** What COUNT(*) and COUNT(DISTINCT *) look at: nothing, or the whole row. */
  ghost predicate ArgumentIs(m: Meaning, outer: Option<Context>, a: Expr, row: Context, v: Value)
    requires a.Aggregate?
  {
    var c := J.Surroundings(outer, row);
    if a.arg.Some? then Eval(m, Some(c), Option.None, a.arg.value) == Ok(v)
    else if a.distinct then v == Value.List(Entries(c))
    else v.Null?
  }

  lemma ArgumentExactlyWhen(m: Meaning, outer: Option<Context>, a: Expr, row: Context, v: Value)
    requires a.Aggregate?
    ensures Argument(m, outer, a, row) == Ok(v) <==> ArgumentIs(m, outer, a, row, v)
  {
    hide Eval, Entries;
  }

  /** An aggregate takes one value of each row, in the order of the rows. */
  lemma {:induction false} ArgumentsExactlyWhen(
      m: Meaning, outer: Option<Context>, a: Expr, rows: seq<Context>, vs: seq<Value>)
    requires a.Aggregate?
    ensures Arguments(m, outer, a, rows) == Ok(vs) <==>
              |vs| == |rows| && forall i | 0 <= i < |rows| :: ArgumentIs(m, outer, a, rows[i], vs[i])
    decreases |rows|
  {
    hide Argument, ArgumentIs;
    if rows != [] && vs != [] {
      var n, k := |rows| - 1, |vs| - 1;
      ArgumentsExactlyWhen(m, outer, a, rows[..n], vs[..k]);
      ArgumentExactlyWhen(m, outer, a, rows[n], vs[k]);
      assert vs == vs[..k] + [vs[k]];
    }
  }

  /** Rows of one and the same join, with a value in every column. */
  ghost predicate Alike(c: Context, d: Context) {
    match (c, d)
    case (Data(_, columns, values, next), Data(_, columns', values', next')) =>
      && |values| == |columns| == |columns'| == |values'| && next.Some? == next'.Some?
      && (next.Some? && next'.Some? ==> Alike(next.value, next'.value))
    case (Bridge(left, right), Bridge(left', right')) => Alike(left, left') && Alike(right, right')
    case _ => false
  }

  /** The rows hold equal values in every relation. */
  ghost predicate EqualThroughout(c: Context, d: Context)
    requires Alike(c, d)
  {
    match c
    case Data(_, _, values, next) =>
      RowEq(values, d.values) && (next.Some? ==> EqualThroughout(next.value, d.next.value))
    case Bridge(left, right) => EqualThroughout(left, d.left) && EqualThroughout(right, d.right)
  }

  lemma RowEqConcat(a: Row, b: Row, a': Row, b': Row)
    requires |a| == |a'|
    ensures RowEq(a + b, a' + b') <==> RowEq(a, a') && RowEq(b, b')
  {
    hide ValueEq;
    if RowEq(a + b, a' + b') {
      forall i | 0 <= i < |a| ensures ValueEq(a[i], a'[i]) { assert (a + b)[i] == a[i] && (a' + b')[i] == a'[i]; }
      forall i | 0 <= i < |b| ensures ValueEq(b[i], b'[i]) {
        assert (a + b)[|a| + i] == b[i] && (a' + b')[|a| + i] == b'[i];
      }
    }
  }

  lemma OwnEntries(c: Context)
    requires c.Data? && |c.values| == |c.columns|
    ensures Entries(c) == if c.next.Some? then Entries(c.next.value) + c.values else c.values
  {
    assert c.values[..|c.values|] == c.values;
  }

  lemma {:induction false} EntriesEqualExactlyWhen(c: Context, d: Context)
    requires Alike(c, d)
    ensures |Entries(c)| == |Entries(d)|
    ensures RowEq(Entries(c), Entries(d)) <==> EqualThroughout(c, d)
  {
    hide RowEq, ValueEq;
    if c.Data? {
      OwnEntries(c);
      OwnEntries(d);
      if c.next.Some? {
        EntriesEqualExactlyWhen(c.next.value, d.next.value);
        RowEqConcat(Entries(c.next.value), c.values, Entries(d.next.value), d.values);
      }
    } else {
      EntriesEqualExactlyWhen(c.left, d.left);
      EntriesEqualExactlyWhen(c.right, d.right);
      RowEqConcat(Entries(c.left), Entries(c.right), Entries(d.left), Entries(d.right));
    }
  }

  /** COUNT(DISTINCT *) tells two rows apart exactly when some relation of the join, or of the enclosing
    query, holds different values in them. */
  lemma WholeRowsEqualExactlyWhen(c: Context, d: Context)
    requires Alike(c, d)
    ensures ValueEq(Value.List(Entries(c)), Value.List(Entries(d))) <==> EqualThroughout(c, d)
  {
    hide Alike, EqualThroughout, Entries;
    EntriesEqualExactlyWhen(c, d);
  }

  /** An aggregate is worth exactly what its slot holds; outside aggregation, or without a slot, it fails. */
  lemma AggregateIsItsSlot(m: Meaning, c: Option<Context>, aggregated: Option<seq<Value>>, a: Expr, v: Value)
    requires a.Aggregate?
    ensures Eval(m, c, aggregated, a) == Ok(v) <==>
              && aggregated.Some?
              && exists i: nat | i < |aggregated.value| :: a.slot == Some(i) && aggregated.value[i] == v
  {
  }

  // ----- without anything to aggregate -----

  /** Without GROUP BY and aggregates every row passes, alone and without aggregated values, and so does
    every error; HAVING is not looked at. */
  lemma RowsPassThrough(
      m: Meaning, ar: Arithmetic, outer: Option<Context>, having: Option<Expr>, items: seq<Item>, i: nat)
    requires i < |items|
    ensures var outputs := Applied(m, ar, outer, [], [], having, items);
            && outputs.Ok? && |outputs.value| == |items| && (outputs.value[i].Ok? <==> items[i].Ok?)
            && (items[i].Ok? ==> outputs.value[i].value.aggregated.None?
                                 && outputs.value[i].value.next == Some(items[i].value))
            && (items[i].Err? ==> outputs.value[i] == Err(items[i].error))
  {
  }
}

/** What a join yields, in terms of pairs of rows and of names: the pairs that satisfy the condition, and
  NULLs for left rows without one (core/src/executor/join.rs, core/src/executor/context/row_context.rs). */
module JoinMeaning {
  import opened Data
  import opened Expressions
  import opened Joins
  import opened JoinRuns

  // ----- what a joined row knows -----

  /** The first column of that name. */
  ghost predicate FirstColumn(columns: seq<string>, i: nat) {
    i < |columns| && forall j | 0 <= j < i :: columns[j] != columns[i]
  }

  /** In the context the columns of the relation, with or without its alias, stand for these values, and
    every other name means what it means in the other context, if there is one. */
  ghost predicate Extends(rel: Relation, values: Row, other: Option<Context>, c: Context) {
    && |values| == |rel.columns|
    && (forall i | 0 <= i < |rel.columns| && FirstColumn(rel.columns, i) ::
          Lookup(c, rel.columns[i]) == LookupAlias(c, rel.alias, rel.columns[i]) == Some(values[i]))
    && (forall name | name !in rel.columns ::
          Lookup(c, name) == if other.Some? then Lookup(other.value, name) else Option.None)
    && (forall alias, name | alias != rel.alias || name !in rel.columns ::
          LookupAlias(c, alias, name) == if other.Some? then LookupAlias(other.value, alias, name) else Option.None)
  }

  lemma RowExtends(rel: Relation, values: Row, other: Option<Context>)
    requires |values| == |rel.columns|
    ensures Extends(rel, values, other, Context.Data(rel.alias, rel.columns, values, other))
  {
    forall i | 0 <= i < |rel.columns| && FirstColumn(rel.columns, i)
      ensures RowValue(rel.columns, values, rel.columns[i]) == Some(values[i])
    {
      var p := Position(rel.columns, rel.columns[i]).value;
      assert rel.columns[p] == rel.columns[i];
    }
  }

  /** What a row sees inside another query: itself first, and then the rows of that query. */
  ghost predicate SeesBoth(c: Context, first: Context, second: Context) {
    && (forall name :: Lookup(c, name) ==
          if Lookup(first, name).Some? then Lookup(first, name) else Lookup(second, name))
    && (forall alias, name :: LookupAlias(c, alias, name) ==
          if LookupAlias(first, alias, name).Some? then LookupAlias(first, alias, name)
          else LookupAlias(second, alias, name))
  }

  lemma SurroundingsSee(outer: Option<Context>, l: Context)
    ensures outer.None? ==> Surroundings(outer, l) == l
    ensures outer.Some? ==> SeesBoth(Surroundings(outer, l), l, outer.value)
  {
  }

  /** The ON condition sees the row of the relation, then the left row, then the enclosing query; the hash
    table is built without the left row; and the result holds the row of the relation before the left row. */
  lemma JoinContexts(rel: Relation, outer: Option<Context>, l: Context, r: Row)
    requires |r| == |rel.columns|
    ensures Extends(rel, r, Some(Surroundings(outer, l)), PairContext(rel, outer, l, r))
    ensures Extends(rel, r, outer, BuildContext(rel, outer, r))
    ensures Extends(rel, r, Some(l), JoinedRow(rel, l, r))
  {
    RowExtends(rel, r, Some(Surroundings(outer, l)));
    RowExtends(rel, r, outer);
    RowExtends(rel, r, Some(l));
  }

  // ----- which pairs -----

  /** The condition is true on the pair. */
  ghost predicate Satisfies(
      sem: Semantics, outer: Option<Context>, rel: Relation, on: Option<Expr>, l: Context, r: Row)
  {
    on.None? || Eval(sem, PairContext(rel, outer, l, r), on.value) == Ok(Val(Value.Bool(true)))
  }

  ghost predicate Decides(
      sem: Semantics, outer: Option<Context>, rel: Relation, on: Option<Expr>, l: Context, r: Row)
  {
    on.None? || CheckExpr(sem, PairContext(rel, outer, l, r), on.value).Ok?
  }

  /** The condition is true on the pair, or fails on it. */
  ghost predicate Shows(
      sem: Semantics, outer: Option<Context>, rel: Relation, on: Option<Expr>, l: Context, r: Row)
  {
    Satisfies(sem, outer, rel, on, l, r) || !Decides(sem, outer, rel, on, l, r)
  }

  /** The joined row of the pair, or the error of the condition on it. */
  ghost predicate IsPair(
      sem: Semantics, outer: Option<Context>, rel: Relation, on: Option<Expr>, l: Context, r: Row, item: Item)
  {
    if Satisfies(sem, outer, rel, on, l, r) then item == Ok(JoinedRow(rel, l, r))
    else item.Err? && on.Some? && CheckExpr(sem, PairContext(rel, outer, l, r), on.value) == Err(item.error)
  }

  lemma MatchIs(sem: Semantics, outer: Option<Context>, rel: Relation, on: Option<Expr>, l: Context, r: Row)
    ensures var items := Match(sem, outer, rel, on, l, r);
            if Shows(sem, outer, rel, on, l, r) then |items| == 1 && IsPair(sem, outer, rel, on, l, r, items[0])
            else items == []
  {
    hide Eval;
  }

  /** `at` lists in order exactly the rows that satisfy the condition with the left row, or on which it fails. */
  ghost predicate ListsMatches(
      sem: Semantics, outer: Option<Context>, rel: Relation, on: Option<Expr>, l: Context, rows: seq<Row>,
      at: seq<nat>)
  {
    && (forall i, j | 0 <= i < j < |at| :: at[i] < at[j])
    && (forall i | 0 <= i < |at| :: at[i] < |rows| && Shows(sem, outer, rel, on, l, rows[at[i]]))
    && forall k: nat | k < |rows| && Shows(sem, outer, rel, on, l, rows[k]) :: k in at
  }

  ghost predicate HoldsMatches(
      sem: Semantics, outer: Option<Context>, rel: Relation, on: Option<Expr>, l: Context, rows: seq<Row>,
      at: seq<nat>, items: seq<Item>)
  {
    && |items| == |at|
    && forall i | 0 <= i < |at| :: at[i] < |rows| && IsPair(sem, outer, rel, on, l, rows[at[i]], items[i])
  }

  lemma ListsAppend(
      sem: Semantics, outer: Option<Context>, rel: Relation, on: Option<Expr>, l: Context, rows: seq<Row>,
      at: seq<nat>, r: Row)
    requires ListsMatches(sem, outer, rel, on, l, rows, at)
    ensures ListsMatches(sem, outer, rel, on, l, rows + [r],
              if Shows(sem, outer, rel, on, l, r) then at + [|rows|] else at)
  {
    hide Shows;
    var all := rows + [r];
    if Shows(sem, outer, rel, on, l, r) {
      var more := at + [|rows|];
      assert more[|at|] == |rows|;
      forall k: nat | k < |all| && Shows(sem, outer, rel, on, l, all[k]) ensures k in more {
        if k < |rows| {
          assert all[k] == rows[k];
          var i :| 0 <= i < |at| && at[i] == k;
          assert more[i] == k;
        }
      }
    }
  }

  lemma HoldsAppend(
      sem: Semantics, outer: Option<Context>, rel: Relation, on: Option<Expr>, l: Context, rows: seq<Row>,
      at: seq<nat>, items: seq<Item>, r: Row, item: Item)
    requires HoldsMatches(sem, outer, rel, on, l, rows, at, items)
    ensures HoldsMatches(sem, outer, rel, on, l, rows + [r], at, items)
    ensures IsPair(sem, outer, rel, on, l, r, item) ==>
              HoldsMatches(sem, outer, rel, on, l, rows + [r], at + [|rows|], items + [item])
  {
    hide IsPair;
  }

  lemma NothingListed(sem: Semantics, outer: Option<Context>, rel: Relation, on: Option<Expr>, l: Context)
    ensures ListsMatches(sem, outer, rel, on, l, [], []) && HoldsMatches(sem, outer, rel, on, l, [], [], [])
  {
  }

  /** One left row: the rows that satisfy the condition with it, each once and in their order, and among
    them the errors of those on which it fails. */
  lemma {:induction false} MatchesAre(
      sem: Semantics, outer: Option<Context>, rel: Relation, on: Option<Expr>, l: Context, rows: seq<Row>)
    returns (at: seq<nat>)
    ensures ListsMatches(sem, outer, rel, on, l, rows, at)
    ensures HoldsMatches(sem, outer, rel, on, l, rows, at, Matches(sem, outer, rel, on, l, rows))
  {
    hide Shows, IsPair, ListsMatches, HoldsMatches, Match;
    if rows == [] {
      at := [];
      NothingListed(sem, outer, rel, on, l);
    } else {
      var n := |rows| - 1;
      at := MatchesAre(sem, outer, rel, on, l, rows[..n]);
      var init, last := Matches(sem, outer, rel, on, l, rows[..n]), Match(sem, outer, rel, on, l, rows[n]);
      assert rows == rows[..n] + [rows[n]];
      MatchIs(sem, outer, rel, on, l, rows[n]);
      ListsAppend(sem, outer, rel, on, l, rows[..n], at, rows[n]);
      if Shows(sem, outer, rel, on, l, rows[n]) {
        HoldsAppend(sem, outer, rel, on, l, rows[..n], at, init, rows[n], last[0]);
        assert init + last == init + [last[0]];
        at := at + [n];
      } else {
        HoldsAppend(sem, outer, rel, on, l, rows[..n], at, init, rows[n], Err(Error("")));
        assert init + last == init;
      }
    }
  }

  // ----- whole joins -----

  /** What one left row contributes: its matches and errors or, in a left outer join without any, one row in which
    every column of the relation is NULL and every other name means what it means in the left row. */
  ghost predicate ContributesTo(
      sem: Semantics, outer: Option<Context>, rel: Relation, operator: Operator, on: Option<Expr>, l: Context,
      items: seq<Item>)
  {
    exists at: seq<nat> ::
      && ListsMatches(sem, outer, rel, on, l, rel.rows, at)
      && if at == [] && operator.LeftOuter? then
           |items| == 1 && items[0].Ok? && NullsBeside(rel, l, items[0].value)
         else HoldsMatches(sem, outer, rel, on, l, rel.rows, at, items)
  }

  ghost predicate NullsBeside(rel: Relation, l: Context, c: Context) {
    exists values: Row :: Extends(rel, values, Some(l), c) && forall i | 0 <= i < |values| :: values[i].Null?
  }

  /** A left row without matches: nothing in an inner join, that one row in a left outer join. */
  lemma PaddedRowIs(rel: Relation, operator: Operator, l: Context)
    ensures var items := Padded(rel, operator, l, []);
            if operator.Inner? then items == []
            else |items| == 1 && items[0].Ok? && NullsBeside(rel, l, items[0].value)
  {
    RowExtends(rel, Nulls(rel), Some(l));
  }

  lemma ContributionIs(
      sem: Semantics, outer: Option<Context>, rel: Relation, operator: Operator, on: Option<Expr>, l: Context)
    ensures ContributesTo(sem, outer, rel, operator, on, l,
              Padded(rel, operator, l, Matches(sem, outer, rel, on, l, rel.rows)))
  {
    hide IsPair, ListsMatches, Matches, NullsBeside, Nulls;
    var at := MatchesAre(sem, outer, rel, on, l, rel.rows);
    PaddedRowIs(rel, operator, l);
  }

  function Flat(parts: seq<seq<Item>>): seq<Item> {
    if parts == [] then [] else Flat(parts[..|parts| - 1]) + parts[|parts| - 1]
  }

  /** An error stays where it was. */
  ghost predicate PartIs(
      sem: Semantics, outer: Option<Context>, rel: Relation, operator: Operator, on: Option<Expr>, item: Item,
      part: seq<Item>)
  {
    if item.Ok? then ContributesTo(sem, outer, rel, operator, on, item.value, part) else part == [item]
  }

  /** The nested loop, and with it every planned join that equals it: one part for each left row in order,
    which holds the pairs that satisfy the condition and the errors of it, or the row of NULLs. */
  lemma {:induction false} NestedLoopIs(
      sem: Semantics, outer: Option<Context>, rel: Relation, operator: Operator, on: Option<Expr>, left: seq<Item>)
    returns (parts: seq<seq<Item>>)
    ensures |parts| == |left| && NestedLoopJoin(sem, outer, rel, operator, on, left) == Flat(parts)
    ensures forall i | 0 <= i < |left| :: PartIs(sem, outer, rel, operator, on, left[i], parts[i])
  {
    hide ContributesTo, Matches, Padded;
    if left == [] {
      parts := [];
      assert NestedLoopJoin(sem, outer, rel, operator, on, left) == [];
    } else {
      var n := |left| - 1;
      var init := NestedLoopIs(sem, outer, rel, operator, on, left[..n]);
      LastRow(sem, outer, rel, operator, on, left);
      hide NestedLoopJoin;
      var more := Contribution(sem, outer, rel, operator, on, left[n]);
      if left[n].Ok? { ContributionIs(sem, outer, rel, operator, on, left[n].value); }
      parts := init + [more];
      assert parts[..n] == init;
    }
  }
}

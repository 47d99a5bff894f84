/** What COUNT, SUM, AVG, VARIANCE and STDEV export, in numbers of rows and operations on values
  (core/src/executor/aggregate/state.rs). */
module AggregateResults {
  import opened Data
  import opened AggregatePlanning
  import opened AggregateValues
  import opened Aggregation
  import opened AggregateMeaning

  /** The limit of a signed 64-bit number. */
  const LIMIT: nat := 0x8000_0000_0000_0000

  // ----- which values count -----

  /** The value at this place counts: COUNT(x) does not count NULLs, and DISTINCT counts a value only where
    no earlier one is equal. */
  ghost predicate Counts(a: Expr, vs: seq<Value>, i: nat)
    requires a.Aggregate? && i < |vs|
  {
    && !(a.kind.Count? && a.arg.Some? && vs[i].Null?)
    && (a.distinct ==> forall j | 0 <= j < i :: !ValueEq(vs[j], vs[i]))
  }

  /** `at` lists in order exactly the places that count. */
  ghost predicate CountedAt(a: Expr, vs: seq<Value>, at: seq<nat>)
    requires a.Aggregate?
  {
    && (forall i, j | 0 <= i < j < |at| :: at[i] < at[j])
    && (forall i | 0 <= i < |at| :: at[i] < |vs| && Counts(a, vs, at[i]))
    && forall k: nat | k < |vs| && Counts(a, vs, k) :: k in at
  }

  ghost predicate TakesAt(ds: seq<Value>, vs: seq<Value>, at: seq<nat>) {
    |ds| == |at| && forall i | 0 <= i < |at| :: at[i] < |vs| && ds[i] == vs[at[i]]
  }

  lemma TakesAppend(ds: seq<Value>, vs: seq<Value>, at: seq<nat>, v: Value)
    requires TakesAt(ds, vs, at)
    ensures TakesAt(ds, vs + [v], at) && TakesAt(ds + [v], vs + [v], at + [|vs|])
  {
  }

  lemma CountsBefore(a: Expr, vs: seq<Value>, v: Value)
    requires a.Aggregate?
    ensures forall k | 0 <= k < |vs| :: Counts(a, vs + [v], k) <==> Counts(a, vs, k)
  {
    hide ValueEq;
    var all := vs + [v];
    forall k | 0 <= k < |vs| ensures Counts(a, all, k) <==> Counts(a, vs, k) {
      assert all[k] == vs[k] && forall j | 0 <= j < k :: all[j] == vs[j];
    }
  }

  lemma CountedAppend(a: Expr, vs: seq<Value>, at: seq<nat>, v: Value)
    requires a.Aggregate? && CountedAt(a, vs, at)
    ensures CountedAt(a, vs + [v], if Counts(a, vs + [v], |vs|) then at + [|vs|] else at)
  {
    CountsBefore(a, vs, v);
    hide Counts;
    var all := vs + [v];
    if Counts(a, all, |vs|) {
      var more := at + [|vs|];
      assert more[|at|] == |vs|;
      forall k: nat | k < |all| && Counts(a, all, k) ensures k in more {
        if k < |vs| {
          var i :| 0 <= i < |at| && at[i] == k;
          assert more[i] == k;
        }
      }
    }
  }

  lemma {:induction false} AmongNonNull(vs: seq<Value>, v: Value)
    requires !v.Null?
    ensures Among(NonNull(vs), v) <==> Among(vs, v)
  {
    hide ValueEq, Among;
    if vs != [] {
      var n := |vs| - 1;
      AmongNonNull(vs[..n], v);
      AmongAppend(vs[..n], vs[n], v);
      AmongAppend(NonNull(vs[..n]), vs[n], v);
      assert vs == vs[..n] + [vs[n]];
      if vs[n].Null? {
        NullEqualsNoValue(v);
        assert NonNull(vs[..n]) + [] == NonNull(vs[..n]);
      }
    }
  }

  lemma NullEqualsNoValue(v: Value)
    requires !v.Null?
    ensures !ValueEq(Value.Null, v)
  {
  }

  lemma AmongAppend(vs: seq<Value>, w: Value, v: Value)
    ensures Among(vs + [w], v) <==> Among(vs, v) || ValueEq(w, v)
  {
    hide ValueEq;
    var all := vs + [w];
    assert all[|vs|] == w;
    forall i | 0 <= i < |vs| && ValueEq(vs[i], v) ensures Among(all, v) { assert all[i] == vs[i]; }
    if Among(all, v) {
      var i :| 0 <= i < |all| && ValueEq(all[i], v);
      if i < |vs| { assert all[i] == vs[i]; }
    }
  }

  /** One more value counts exactly when it joins the relevant values. */
  lemma CountsExactlyWhenRelevant(a: Expr, vs: seq<Value>, v: Value)
    requires a.Aggregate?
    ensures Relevant(a, vs + [v]) == Relevant(a, vs) + if Counts(a, vs + [v], |vs|) then [v] else []
  {
    hide ValueEq, HashFeed, Feeds;
    RelevantAppend(a, vs, v);
    var all := vs + [v];
    assert all[|vs|] == v && forall j | 0 <= j < |vs| :: all[j] == vs[j];
    var kept := if a.kind.Count? && a.arg.Some? then NonNull(vs) else vs;
    if a.distinct && !(a.kind.Count? && a.arg.Some? && v.Null?) {
      DistinctFeeds(kept);
      AmongFeeds(kept, v);
      if a.kind.Count? && a.arg.Some? { AmongNonNull(vs, v); }
      assert Among(vs, v) <==> exists j | 0 <= j < |vs| :: ValueEq(all[j], v);
    }
  }

  /** The relevant values are those at the places that count, in their order. */
  lemma {:induction false} RelevantValues(a: Expr, vs: seq<Value>) returns (at: seq<nat>)
    requires a.Aggregate?
    ensures CountedAt(a, vs, at) && TakesAt(Relevant(a, vs), vs, at)
  {
    hide Relevant, Counts, CountedAt, TakesAt;
    if vs == [] {
      at := [];
      NothingCounts(a);
    } else {
      var n := |vs| - 1;
      at := RelevantValues(a, vs[..n]);
      assert vs == vs[..n] + [vs[n]];
      CountedAppend(a, vs[..n], at, vs[n]);
      TakesAppend(Relevant(a, vs[..n]), vs[..n], at, vs[n]);
      CountsExactlyWhenRelevant(a, vs[..n], vs[n]);
      if Counts(a, vs, n) {
        at := at + [n];
      } else {
        assert Relevant(a, vs[..n]) + [] == Relevant(a, vs[..n]);
      }
    }
  }

  lemma NothingCounts(a: Expr)
    requires a.Aggregate?
    ensures CountedAt(a, [], []) && TakesAt(Relevant(a, []), [], [])
  {
  }

  // ----- what is exported -----

  /** What the state exports after these values. */
  function ExportedAfter(ar: Arithmetic, a: Expr, vs: seq<Value>): Result<Value>
    requires a.Aggregate?
  {
    var s :- RunningAfter(ar, a, vs);
    Exported(ar, a, s)
  }

  lemma ExportedIsTotal(ar: Arithmetic, a: Expr, vs: seq<Value>)
    requires a.Aggregate? && RowsIfWildcard(a, vs)
    ensures ExportedAfter(ar, a, vs).Ok? <==> Total(ar, a, vs).Ok?
    ensures Total(ar, a, vs).Ok? ==> ExportedAfter(ar, a, vs) == Total(ar, a, vs)
  {
    hide RunningAfter, Total, Exported;
    AggregateIsTotal(ar, a, vs);
  }

  /** COUNT exports the number of places that count: all rows for COUNT(*), the values that are not NULL
    for COUNT(x), and with DISTINCT one of each class of equal ones. */
  lemma CountIs(ar: Arithmetic, a: Expr, vs: seq<Value>) returns (at: seq<nat>)
    requires a.Aggregate? && a.kind.Count? && RowsIfWildcard(a, vs)
    ensures CountedAt(a, vs, at)
    ensures |at| < LIMIT ==> ExportedAfter(ar, a, vs) == Ok(Value.I64(|at|))
    ensures |at| >= LIMIT ==> ExportedAfter(ar, a, vs).Err?
  {
    hide CountedAt, Relevant, RunningAfter, Exported, Counts, ExportedAfter;
    at := RelevantValues(a, vs);
    ExportedIsTotal(ar, a, vs);
  }

  /** COUNT(*) is the number of rows. */
  lemma CountRows(ar: Arithmetic, a: Expr, vs: seq<Value>)
    requires a.Aggregate? && a.kind.Count? && a.arg.None? && !a.distinct && |vs| < LIMIT
    ensures ExportedAfter(ar, a, vs) == Ok(Value.I64(|vs|))
  {
    hide RunningAfter, Exported, ExportedAfter;
    var at := CountIs(ar, a, vs);
    AllListed(at, |vs|);
  }

  lemma LastIsGreatest(at: seq<nat>, i: nat)
    requires i < |at| && forall i, j | 0 <= i < j < |at| :: at[i] < at[j]
    ensures i == |at| - 1 || at[i] < at[|at| - 1]
  {
  }

  lemma {:induction false} AllListed(at: seq<nat>, n: nat)
    requires forall i, j | 0 <= i < j < |at| :: at[i] < at[j]
    requires forall i | 0 <= i < |at| :: at[i] < n
    requires forall k: nat | k < n :: k in at
    ensures |at| == n
  {
    if n > 0 {
      assert n - 1 in at;
      var i :| 0 <= i < |at| && at[i] == n - 1;
      var last := |at| - 1;
      LastIsGreatest(at, i);
      assert i == last;
      var init := at[..last];
      forall k: nat | k < n - 1 ensures k in init {
        assert k in at;
        var j :| 0 <= j < |at| && at[j] == k;
        assert init[j] == k;
      }
      AllListed(init, n - 1);
    }
  }

  // ----- sums, averages and variances -----

  /** What the values add up to, from the first on. */
  ghost predicate PartialSums(ar: Arithmetic, vs: seq<Value>, sums: seq<Value>) {
    && |sums| == |vs| > 0 && sums[0] == vs[0]
    && forall i | 0 < i < |vs| :: ar.add(sums[i - 1], vs[i]) == Ok(sums[i])
  }

  ghost predicate AddUpTo(ar: Arithmetic, vs: seq<Value>, sum: Value) {
    exists sums :: PartialSums(ar, vs, sums) && sums[|sums| - 1] == sum
  }

  ghost predicate SquaresAre(ar: Arithmetic, vs: seq<Value>, squares: seq<Value>) {
    |squares| == |vs| && forall i | 0 <= i < |vs| :: ar.multiply(vs[i], vs[i]) == Ok(squares[i])
  }

  ghost predicate SquaresAddUpTo(ar: Arithmetic, vs: seq<Value>, sum: Value) {
    exists squares :: SquaresAre(ar, vs, squares) && AddUpTo(ar, squares, sum)
  }

  lemma {:induction false} SumHasParts(ar: Arithmetic, vs: seq<Value>) returns (sums: seq<Value>)
    requires vs != [] && SumOf(ar, vs).Ok?
    ensures PartialSums(ar, vs, sums) && Ok(sums[|sums| - 1]) == SumOf(ar, vs)
  {
    var n := |vs| - 1;
    if n == 0 {
      sums := vs;
    } else {
      var init := SumHasParts(ar, vs[..n]);
      sums := init + [SumOf(ar, vs).value];
      forall i | 0 < i < |vs| ensures ar.add(sums[i - 1], vs[i]) == Ok(sums[i]) {
        if i < n { assert vs[..n][i] == vs[i]; }
      }
    }
  }

  lemma {:induction false} PartsMakeSum(ar: Arithmetic, vs: seq<Value>, sums: seq<Value>)
    requires PartialSums(ar, vs, sums)
    ensures SumOf(ar, vs) == Ok(sums[|sums| - 1])
  {
    var n := |vs| - 1;
    if n > 0 {
      assert forall i | 0 <= i < n :: vs[..n][i] == vs[i] && sums[..n][i] == sums[i];
      PartsMakeSum(ar, vs[..n], sums[..n]);
    }
  }

  lemma SumIs(ar: Arithmetic, vs: seq<Value>, sum: Value)
    requires vs != []
    ensures SumOf(ar, vs) == Ok(sum) <==> AddUpTo(ar, vs, sum)
  {
    hide SumOf;
    if SumOf(ar, vs) == Ok(sum) { var sums := SumHasParts(ar, vs); }
    if AddUpTo(ar, vs, sum) {
      var sums :| PartialSums(ar, vs, sums) && sums[|sums| - 1] == sum;
      PartsMakeSum(ar, vs, sums);
    }
  }

  /** The sum of squares is the sum of the squares, one by one. */
  lemma {:induction false} SquareSum(ar: Arithmetic, vs: seq<Value>, squares: seq<Value>)
    requires vs != [] && SquaresAre(ar, vs, squares)
    ensures SquaresOf(ar, vs) == SumOf(ar, squares)
  {
    var n := |vs| - 1;
    if n > 0 {
      assert forall i | 0 <= i < n :: vs[..n][i] == vs[i] && squares[..n][i] == squares[i];
      SquareSum(ar, vs[..n], squares[..n]);
    }
  }

  lemma {:induction false} HasSquares(ar: Arithmetic, vs: seq<Value>) returns (squares: seq<Value>)
    requires vs != [] && SquaresOf(ar, vs).Ok?
    ensures SquaresAre(ar, vs, squares)
  {
    var n := |vs| - 1;
    var init := [];
    if n > 0 { init := HasSquares(ar, vs[..n]); }
    squares := init + [ar.multiply(vs[n], vs[n]).value];
    forall i | 0 <= i < |vs| ensures ar.multiply(vs[i], vs[i]) == Ok(squares[i]) {
      if i < n { assert vs[..n][i] == vs[i]; }
    }
  }

  lemma SquareSumIs(ar: Arithmetic, vs: seq<Value>, sum: Value)
    requires vs != []
    ensures SquaresOf(ar, vs) == Ok(sum) <==> SquaresAddUpTo(ar, vs, sum)
  {
    hide SquaresOf, SumOf, AddUpTo;
    if SquaresOf(ar, vs) == Ok(sum) {
      var squares := HasSquares(ar, vs);
      SquareSum(ar, vs, squares);
      SumIs(ar, squares, sum);
    }
    if SquaresAddUpTo(ar, vs, sum) {
      var squares :| SquaresAre(ar, vs, squares) && AddUpTo(ar, squares, sum);
      SquareSum(ar, vs, squares);
      SumIs(ar, squares, sum);
    }
  }

  /** SUM exports the sum of the values that count, and NULL if there are none. */
  lemma SumExportedExactlyWhen(ar: Arithmetic, a: Expr, vs: seq<Value>, v: Value)
    returns (at: seq<nat>, ds: seq<Value>)
    requires a.Aggregate? && a.kind.Sum?
    ensures CountedAt(a, vs, at) && TakesAt(ds, vs, at)
    ensures ExportedAfter(ar, a, vs) == Ok(v) <==> if ds == [] then v.Null? else AddUpTo(ar, ds, v)
  {
    hide CountedAt, Relevant, RunningAfter, Exported, Counts, ExportedAfter, SumOf, AddUpTo;
    at := RelevantValues(a, vs);
    ds := Relevant(a, vs);
    ExportedIsTotal(ar, a, vs);
    if ds != [] { SumIs(ar, ds, v); }
  }

  /** The sum, as a float, divided by the number. */
  ghost predicate QuotientIs(ar: Arithmetic, n: nat, sum: Value, v: Value) {
    n < LIMIT && exists f :: ar.toFloat(sum) == Ok(f) && ar.divide(f, Value.I64(n)) == Ok(v)
  }

  /** AVG exports the sum of the values that count divided by their number, and NULL if there are none. */
  lemma AverageExportedExactlyWhen(ar: Arithmetic, a: Expr, vs: seq<Value>, v: Value)
    returns (at: seq<nat>, ds: seq<Value>)
    requires a.Aggregate? && a.kind.Avg?
    ensures CountedAt(a, vs, at) && TakesAt(ds, vs, at)
    ensures ExportedAfter(ar, a, vs) == Ok(v) <==>
              if ds == [] then v.Null?
              else exists sum :: AddUpTo(ar, ds, sum) && QuotientIs(ar, |ds|, sum, v)
  {
    hide CountedAt, Relevant, RunningAfter, Exported, Counts, ExportedAfter, SumOf, AddUpTo;
    at := RelevantValues(a, vs);
    ds := Relevant(a, vs);
    ExportedIsTotal(ar, a, vs);
    if ds != [] {
      forall sum ensures SumOf(ar, ds) == Ok(sum) <==> AddUpTo(ar, ds, sum) { SumIs(ar, ds, sum); }
      if Total(ar, a, vs) == Ok(v) {
        var sum := SumOf(ar, ds).value;
        assert AddUpTo(ar, ds, sum) && QuotientIs(ar, |ds|, sum, v);
      }
    }
  }

  /** (n * squares - sum * sum) / (n * n) in the operations of values; the first product is made a float. */
  ghost predicate SpreadIs(ar: Arithmetic, n: nat, squares: Value, sum: Value, v: Value) {
    n < LIMIT &&
    exists scaled, f, squared, difference, divisor ::
      && ar.multiply(squares, Value.I64(n)) == Ok(scaled) && ar.toFloat(scaled) == Ok(f)
      && ar.multiply(sum, sum) == Ok(squared) && ar.subtract(f, squared) == Ok(difference)
      && ar.multiply(Value.I64(n), Value.I64(n)) == Ok(divisor) && ar.divide(difference, divisor) == Ok(v)
  }

  /** The variance of these values, in the operations of values. */
  ghost predicate VarianceIs(ar: Arithmetic, ds: seq<Value>, v: Value) {
    exists squares, sum ::
      SquaresAddUpTo(ar, ds, squares) && AddUpTo(ar, ds, sum) && SpreadIs(ar, |ds|, squares, sum, v)
  }

  lemma FormulaIs(ar: Arithmetic, n: nat, squares: Value, sum: Value, v: Value)
    ensures CountValue(n).Ok? && VarianceOf(ar, squares, sum, CountValue(n).value) == Ok(v) <==>
              SpreadIs(ar, n, squares, sum, v)
  {
  }

  lemma SpreadExactlyWhen(ar: Arithmetic, ds: seq<Value>, v: Value)
    requires ds != []
    ensures Spread(ar, ds) == Ok(v) <==> VarianceIs(ar, ds, v)
  {
    hide SquaresOf, SumOf, AddUpTo, SquaresAddUpTo, SpreadIs, CountValue, VarianceOf;
    forall sum ensures SumOf(ar, ds) == Ok(sum) <==> AddUpTo(ar, ds, sum) { SumIs(ar, ds, sum); }
    forall sum ensures SquaresOf(ar, ds) == Ok(sum) <==> SquaresAddUpTo(ar, ds, sum) { SquareSumIs(ar, ds, sum); }
    forall squares, sum
      ensures CountValue(|ds|).Ok? && VarianceOf(ar, squares, sum, CountValue(|ds|).value) == Ok(v) <==>
              SpreadIs(ar, |ds|, squares, sum, v)
    {
      FormulaIs(ar, |ds|, squares, sum, v);
    }
    if Spread(ar, ds) == Ok(v) {
      var squares, sum := SquaresOf(ar, ds).value, SumOf(ar, ds).value;
      assert SquaresAddUpTo(ar, ds, squares) && AddUpTo(ar, ds, sum) && SpreadIs(ar, |ds|, squares, sum, v);
    }
  }

  /** VARIANCE exports the variance of the values that count, and NULL if there are none. */
  lemma VarianceExportedExactlyWhen(ar: Arithmetic, a: Expr, vs: seq<Value>, v: Value)
    returns (at: seq<nat>, ds: seq<Value>)
    requires a.Aggregate? && a.kind.Variance?
    ensures CountedAt(a, vs, at) && TakesAt(ds, vs, at)
    ensures ExportedAfter(ar, a, vs) == Ok(v) <==> if ds == [] then v.Null? else VarianceIs(ar, ds, v)
  {
    hide CountedAt, Relevant, RunningAfter, Exported, Counts, ExportedAfter, Spread, VarianceIs;
    at := RelevantValues(a, vs);
    ds := Relevant(a, vs);
    ExportedIsTotal(ar, a, vs);
    if ds == [] { NothingSpreads(ar); } else { SpreadExactlyWhen(ar, ds, v); }
  }

  lemma NothingSpreads(ar: Arithmetic)
    ensures Spread(ar, []) == Ok(Value.Null)
  {
  }

  /** STDEV exports the square root of the variance. */
  lemma DeviationExportedExactlyWhen(ar: Arithmetic, a: Expr, vs: seq<Value>, v: Value)
    returns (at: seq<nat>, ds: seq<Value>)
    requires a.Aggregate? && a.kind.Stdev?
    ensures CountedAt(a, vs, at) && TakesAt(ds, vs, at)
    ensures ExportedAfter(ar, a, vs) == Ok(v) <==>
              if ds == [] then v.Null? else exists w :: VarianceIs(ar, ds, w) && ar.sqrt(w) == Ok(v)
  {
    hide CountedAt, Relevant, RunningAfter, Exported, Counts, ExportedAfter, Spread, VarianceIs;
    at := RelevantValues(a, vs);
    ds := Relevant(a, vs);
    ExportedIsTotal(ar, a, vs);
    if ds != [] {
      forall w ensures Spread(ar, ds) == Ok(w) <==> VarianceIs(ar, ds, w) { SpreadExactlyWhen(ar, ds, w); }
      if Total(ar, a, vs) == Ok(v) {
        var w := Spread(ar, ds).value;
        assert VarianceIs(ar, ds, w);
      }
    }
  }

  // ----- a slot over the rows of a group -----

  /** The slot of COUNT(*) in a group is its number of rows. */
  lemma SlotCountsRows(m: Meaning, ar: Arithmetic, outer: Option<Context>, a: Expr, rows: seq<Context>)
    requires a.Aggregate? && a.kind.Count? && a.arg.None? && !a.distinct && |rows| < LIMIT
    ensures SlotValue(m, ar, outer, a, rows) == Ok(Value.I64(|rows|))
  {
    hide SlotState, RunningAfter, Exported;
    WildcardsExist(m, outer, a, rows);
    var vs := Arguments(m, outer, a, rows).value;
    SlotStateIsRunning(m, ar, outer, a, rows);
    CountRows(ar, a, vs);
  }

  lemma {:induction false} WildcardsExist(m: Meaning, outer: Option<Context>, a: Expr, rows: seq<Context>)
    requires a.Aggregate? && a.arg.None?
    ensures Arguments(m, outer, a, rows).Ok?
  {
    if rows != [] { WildcardsExist(m, outer, a, rows[..|rows| - 1]); }
  }

  /** The slot of any aggregate in a group is what is exported after the values of its argument on the
    rows of the group, in their order. */
  lemma SlotIsExported(m: Meaning, ar: Arithmetic, outer: Option<Context>, a: Expr, rows: seq<Context>, vs: seq<Value>)
    requires a.Aggregate? && |vs| == |rows|
    requires forall i | 0 <= i < |rows| :: Argument(m, outer, a, rows[i]) == Ok(vs[i])
    ensures SlotValue(m, ar, outer, a, rows).Ok? <==> ExportedAfter(ar, a, vs).Ok?
    ensures SlotValue(m, ar, outer, a, rows).Ok? ==> SlotValue(m, ar, outer, a, rows) == ExportedAfter(ar, a, vs)
  {
    hide SlotState, RunningAfter, Exported, Argument;
    ArgumentsAre(m, outer, a, rows, vs);
    SlotStateIsRunning(m, ar, outer, a, rows);
  }

  lemma {:induction false} ArgumentsAre(
      m: Meaning, outer: Option<Context>, a: Expr, rows: seq<Context>, vs: seq<Value>)
    requires a.Aggregate? && |vs| == |rows|
    requires forall i | 0 <= i < |rows| :: Argument(m, outer, a, rows[i]) == Ok(vs[i])
    ensures Arguments(m, outer, a, rows) == Ok(vs)
  {
    hide Argument;
    if rows != [] {
      var n := |rows| - 1;
      assert forall i | 0 <= i < n :: rows[..n][i] == rows[i] && vs[..n][i] == vs[i];
      ArgumentsAre(m, outer, a, rows[..n], vs[..n]);
      assert vs == vs[..n] + [vs[n]];
    }
  }
}

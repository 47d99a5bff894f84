/** The running value of one aggregate (core/src/executor/aggregate/state.rs). */
module AggregateValues {
  import opened Data
  import opened KeyOrder
  import opened ValueOrder
  import opened AggregatePlanning

  /** Arithmetic, and the comparisons of numbers, that are left to foreign code. */
  datatype Arithmetic = Arithmetic(
    add: (Value, Value) -> Result<Value>,
    subtract: (Value, Value) -> Result<Value>,
    multiply: (Value, Value) -> Result<Value>,
    divide: (Value, Value) -> Result<Value>,
    toFloat: Value -> Result<Value>,
    sqrt: Value -> Result<Value>,
    compare: (Value, Value) -> Option<Ordering>)

  /** `AggrValue`.  The set of distinct values holds what they feed to the hasher. */
  datatype Running =
    | Counting(wildcard: bool, count: nat, seen: Option<set<Value>>)
    | Summing(value: Value, seen: Option<set<Value>>)
    | Least(value: Value, seen: Option<set<Value>>)
    | Greatest(value: Value, seen: Option<set<Value>>)
    | Averaging(sum: Value, count: nat, seen: Option<set<Value>>)
    | Spreading(root: bool, squares: Value, sum: Value, count: nat, seen: Option<set<Value>>)

  predicate Tracked(seen: Option<set<Value>>, v: Value) { seen.Some? && HashFeed(v) in seen.value }

  function Track(seen: Option<set<Value>>, v: Value): Option<set<Value>> {
    if seen.Some? then Some(seen.value + {HashFeed(v)}) else seen
  }

  function Start(distinct: bool): Option<set<Value>> { if distinct then Some({}) else Option.None }

  /** `AggrValue::new`. */
  function New(ar: Arithmetic, a: Expr, v: Value): Result<Running>
    requires a.Aggregate?
  {
    var seen := Track(Start(a.distinct), v);
    match a.kind
    case Count =>
      if a.arg.None? then Ok(Counting(true, 1, seen))
      else if v.Null? then Ok(Counting(false, 0, Start(a.distinct)))
      else Ok(Counting(false, 1, seen))
    case Sum => Ok(Summing(v, seen))
    case Min => Ok(Least(v, seen))
    case Max => Ok(Greatest(v, seen))
    case Avg => Ok(Averaging(v, 1, seen))
    case Variance => var square :- ar.multiply(v, v); Ok(Spreading(false, square, v, 1, seen))
    case Stdev => var square :- ar.multiply(v, v); Ok(Spreading(true, square, v, 1, seen))
  }

  /** `AggrValue::accumulate`. */
  function Accumulate(ar: Arithmetic, s: Running, v: Value): Result<Running> {
    match s
    case Counting(wildcard, count, seen) =>
      if !v.Null? && Tracked(seen, v) then Ok(s)
      else
        var tracked := if v.Null? then seen else Track(seen, v);
        Ok(Counting(wildcard, if wildcard || !v.Null? then count + 1 else count, tracked))
    case Summing(value, seen) =>
      if Tracked(seen, v) then Ok(s)
      else var sum :- ar.add(value, v); Ok(Summing(sum, Track(seen, v)))
    case Least(value, seen) =>
      if Tracked(seen, v) then Ok(s)
      else Ok(Least(if EvaluateCmp(ar.compare, value, v) == Some(Greater) then v else value, Track(seen, v)))
    case Greatest(value, seen) =>
      if Tracked(seen, v) then Ok(s)
      else Ok(Greatest(if EvaluateCmp(ar.compare, value, v) == Some(Less) then v else value, Track(seen, v)))
    case Averaging(sum, count, seen) =>
      if Tracked(seen, v) then Ok(s)
      else var sum' :- ar.add(sum, v); Ok(Averaging(sum', count + 1, Track(seen, v)))
    case Spreading(root, squares, sum, count, seen) =>
      if Tracked(seen, v) then Ok(s)
      else
        var square :- ar.multiply(v, v);
        var squares' :- ar.add(squares, square);
        var sum' :- ar.add(sum, v);
        Ok(Spreading(root, squares', sum', count + 1, Track(seen, v)))
  }

  function CountValue(n: nat): Result<Value> {
    if n < I64_LIMIT then Ok(Value.I64(n)) else Err(Error("count overflows"))
  }

  function VarianceOf(ar: Arithmetic, squares: Value, sum: Value, count: Value): Result<Value> {
    var scaled :- ar.multiply(squares, count);
    var squared :- ar.multiply(sum, sum);
    var f :- ar.toFloat(scaled);
    var difference :- ar.subtract(f, squared);
    var divisor :- ar.multiply(count, count);
    ar.divide(difference, divisor)
  }

  /** `AggrValue::export`. */
  function Export(ar: Arithmetic, s: Running): Result<Value> {
    match s
    case Counting(_, count, _) => CountValue(count)
    case Summing(value, _) => Ok(value)
    case Least(value, _) => Ok(value)
    case Greatest(value, _) => Ok(value)
    case Averaging(sum, count, _) =>
      var n :- CountValue(count);
      var f :- ar.toFloat(sum);
      ar.divide(f, n)
    case Spreading(root, squares, sum, count, _) =>
      var n :- CountValue(count);
      var v :- VarianceOf(ar, squares, sum, n);
      if root then ar.sqrt(v) else Ok(v)
  }

  /** `empty_value`: the aggregate of no rows. */
  function EmptyValue(a: Expr): Value
    requires a.Aggregate?
  {
    if a.kind.Count? then Value.I64(0) else Value.Null
  }

  /** The running value after these values in order; none before the first. */
  function RunningAfter(ar: Arithmetic, a: Expr, vs: seq<Value>): Result<Option<Running>>
    requires a.Aggregate?
  {
    if vs == [] then Ok(Option.None)
    else
      var n := |vs| - 1;
      var init :- RunningAfter(ar, a, vs[..n]);
      var s :- if init.None? then New(ar, a, vs[n]) else Accumulate(ar, init.value, vs[n]);
      Ok(Some(s))
  }

  function Exported(ar: Arithmetic, a: Expr, s: Option<Running>): Result<Value>
    requires a.Aggregate?
  {
    if s.None? then Ok(EmptyValue(a)) else Export(ar, s.value)
  }

  // ----- what the aggregate means -----

  predicate Among(vs: seq<Value>, v: Value) { exists i | 0 <= i < |vs| :: ValueEq(vs[i], v) }

  /** The first occurrence of each value. */
  function Distinct(vs: seq<Value>): seq<Value> {
    if vs == [] then []
    else
      var n := |vs| - 1;
      Distinct(vs[..n]) + if Among(vs[..n], vs[n]) then [] else [vs[n]]
  }

  function NonNull(vs: seq<Value>): seq<Value> {
    if vs == [] then []
    else
      var n := |vs| - 1;
      NonNull(vs[..n]) + if vs[n].Null? then [] else [vs[n]]
  }

  function SumOf(ar: Arithmetic, vs: seq<Value>): Result<Value>
    requires vs != []
  {
    var n := |vs| - 1;
    if n == 0 then Ok(vs[0])
    else var sum :- SumOf(ar, vs[..n]); ar.add(sum, vs[n])
  }

  function SquaresOf(ar: Arithmetic, vs: seq<Value>): Result<Value>
    requires vs != []
  {
    var n := |vs| - 1;
    var square :- ar.multiply(vs[n], vs[n]);
    if n == 0 then Ok(square)
    else var sum :- SquaresOf(ar, vs[..n]); ar.add(sum, square)
  }

  /** The first value that no later one is before, by the given direction. */
  function Extreme(ar: Arithmetic, worse: Ordering, vs: seq<Value>): Value
    requires vs != []
  {
    var n := |vs| - 1;
    if n == 0 then vs[0]
    else
      var best := Extreme(ar, worse, vs[..n]);
      if EvaluateCmp(ar.compare, best, vs[n]) == Some(worse) then vs[n] else best
  }

  /** The values that count: rows for COUNT(*), non-null values for COUNT(x), all values otherwise;
    each once if DISTINCT. */
  function Relevant(a: Expr, vs: seq<Value>): seq<Value>
    requires a.Aggregate?
  {
    var kept := if a.kind.Count? && a.arg.Some? then NonNull(vs) else vs;
    if a.distinct then Distinct(kept) else kept
  }

  /** The aggregate of all values at once. */
  function Total(ar: Arithmetic, a: Expr, vs: seq<Value>): Result<Value>
    requires a.Aggregate?
  {
    var ds := Relevant(a, vs);
    match a.kind
    case Count => CountValue(|ds|)
    case Sum => if ds == [] then Ok(Value.Null) else SumOf(ar, ds)
    case Min => Ok(if ds == [] then Value.Null else Extreme(ar, Greater, ds))
    case Max => Ok(if ds == [] then Value.Null else Extreme(ar, Less, ds))
    case Avg =>
      if ds == [] then Ok(Value.Null)
      else
        var sum :- SumOf(ar, ds);
        var n :- CountValue(|ds|);
        var f :- ar.toFloat(sum);
        ar.divide(f, n)
    case Variance => Spread(ar, ds)
    case Stdev => if ds == [] then Ok(Value.Null) else var v :- Spread(ar, ds); ar.sqrt(v)
  }

  function Spread(ar: Arithmetic, ds: seq<Value>): Result<Value> {
    if ds == [] then Ok(Value.Null)
    else
      var squares :- SquaresOf(ar, ds);
      var sum :- SumOf(ar, ds);
      var n :- CountValue(|ds|);
      VarianceOf(ar, squares, sum, n)
  }

  // ----- the running value is the total so far -----

  function Feeds(vs: seq<Value>): set<Value> { set i | 0 <= i < |vs| :: HashFeed(vs[i]) }

  /** What the set of distinct values holds. */
  predicate Remembers(seen: Option<set<Value>>, distinct: bool, vs: seq<Value>) {
    seen == if distinct then Some(Feeds(vs)) else Option.None
  }

  lemma FeedsAppend(vs: seq<Value>, v: Value)
    ensures Feeds(vs + [v]) == Feeds(vs) + {HashFeed(v)}
  {
    hide HashFeed;
    var all := vs + [v];
    assert all[|vs|] == v;
    forall i | 0 <= i < |vs| ensures HashFeed(vs[i]) in Feeds(all) { assert all[i] == vs[i]; }
    forall f | f in Feeds(all) ensures f in Feeds(vs) + {HashFeed(v)} {
      var i :| 0 <= i < |all| && HashFeed(all[i]) == f;
      if i < |vs| { assert all[i] == vs[i]; }
    }
  }

  lemma AmongFeeds(vs: seq<Value>, v: Value)
    ensures Among(vs, v) <==> HashFeed(v) in Feeds(vs)
  {
    hide HashFeed, ValueEq;
    forall i | 0 <= i < |vs| ensures ValueEq(vs[i], v) <==> HashFeed(vs[i]) == HashFeed(v) {
      EqualExactlyWhenHashedAlike(vs[i], v);
    }
  }

  lemma {:induction false} DistinctFeeds(vs: seq<Value>)
    ensures Feeds(Distinct(vs)) == Feeds(vs)
  {
    hide HashFeed, ValueEq, Feeds;
    if vs != [] {
      var n := |vs| - 1;
      DistinctFeeds(vs[..n]);
      FeedsAppend(vs[..n], vs[n]);
      assert vs == vs[..n] + [vs[n]];
      FeedsAppend(Distinct(vs[..n]), vs[n]);
      AmongFeeds(vs[..n], vs[n]);
      if Among(vs[..n], vs[n]) {
        assert Distinct(vs[..n]) + [] == Distinct(vs[..n]);
        assert Feeds(vs) == Feeds(vs[..n]);
      }
    }
  }

  /** One more value either is already counted or joins the relevant values. */
  lemma RelevantAppend(a: Expr, vs: seq<Value>, v: Value)
    requires a.Aggregate?
    ensures var counts := !(a.kind.Count? && a.arg.Some? && v.Null?);
            var repeated := a.distinct && HashFeed(v) in Feeds(Relevant(a, vs));
            Relevant(a, vs + [v]) == Relevant(a, vs) + if counts && !repeated then [v] else []
  {
    hide HashFeed, ValueEq, Feeds;
    var all := vs + [v];
    assert all[..|vs|] == vs;
    var kept := if a.kind.Count? && a.arg.Some? then NonNull(vs) else vs;
    var counts := !(a.kind.Count? && a.arg.Some? && v.Null?);
    assert (kept + [v])[..|kept|] == kept;
    assert kept + [] == kept;
    AmongFeeds(kept, v);
    DistinctFeeds(kept);
  }

  /** The running value is what the relevant values make of the aggregate. */
  predicate Describes(ar: Arithmetic, a: Expr, s: Running, ds: seq<Value>)
    requires a.Aggregate?
  {
    && Remembers(s.seen, a.distinct, ds)
    && match a.kind
       case Count => s.Counting? && s.wildcard == a.arg.None? && s.count == |ds|
       case Sum => s.Summing? && ds != [] && SumOf(ar, ds) == Ok(s.value)
       case Min => s.Least? && ds != [] && s.value == Extreme(ar, Greater, ds)
       case Max => s.Greatest? && ds != [] && s.value == Extreme(ar, Less, ds)
       case Avg => s.Averaging? && ds != [] && SumOf(ar, ds) == Ok(s.sum) && s.count == |ds|
       case Variance => s.Spreading? && !s.root && SpreadsAs(ar, s, ds)
       case Stdev => s.Spreading? && s.root && SpreadsAs(ar, s, ds)
  }

  predicate SpreadsAs(ar: Arithmetic, s: Running, ds: seq<Value>)
    requires s.Spreading?
  {
    ds != [] && SquaresOf(ar, ds) == Ok(s.squares) && SumOf(ar, ds) == Ok(s.sum) && s.count == |ds|
  }

  /** The sums that the aggregate needs exist. */
  predicate Summable(ar: Arithmetic, a: Expr, ds: seq<Value>)
    requires a.Aggregate?
  {
    match a.kind
    case Count => true
    case Min => true
    case Max => true
    case Sum => ds != [] ==> SumOf(ar, ds).Ok?
    case Avg => ds != [] ==> SumOf(ar, ds).Ok?
    case Variance => ds != [] ==> SumOf(ar, ds).Ok? && SquaresOf(ar, ds).Ok?
    case Stdev => ds != [] ==> SumOf(ar, ds).Ok? && SquaresOf(ar, ds).Ok?
  }

  /** The values of COUNT(DISTINCT *) are whole rows, hence not NULL. */
  predicate RowsIfWildcard(a: Expr, vs: seq<Value>)
    requires a.Aggregate?
  {
    a.kind.Count? && a.arg.None? && a.distinct ==> forall i | 0 <= i < |vs| :: !vs[i].Null?
  }

  lemma OneRelevant(a: Expr, v: Value)
    requires a.Aggregate?
    ensures Relevant(a, [v]) == if a.kind.Count? && a.arg.Some? && v.Null? then [] else [v]
    ensures Feeds([v]) == {HashFeed(v)} && Feeds([]) == {}
  {
    hide HashFeed, ValueEq;
    var none: seq<Value> := [];
    RelevantAppend(a, none, v);
    assert none + [v] == [v];
    assert Relevant(a, none) == none && Feeds(none) == {};
    FeedsAppend(none, v);
  }

  lemma OneSummed(ar: Arithmetic, v: Value)
    ensures SumOf(ar, [v]) == Ok(v)
    ensures SquaresOf(ar, [v]) == ar.multiply(v, v)
    ensures forall worse :: Extreme(ar, worse, [v]) == v
  {
  }

  lemma FirstValue(ar: Arithmetic, a: Expr, v: Value)
    requires a.Aggregate?
    ensures New(ar, a, v).Ok? <==> Summable(ar, a, Relevant(a, [v]))
    ensures New(ar, a, v).Ok? ==> Describes(ar, a, New(ar, a, v).value, Relevant(a, [v]))
  {
    hide HashFeed, Relevant, Feeds, SumOf, SquaresOf, Extreme;
    OneRelevant(a, v);
    OneSummed(ar, v);
    assert {} + {HashFeed(v)} == {HashFeed(v)};
  }

  lemma SumAppend(ar: Arithmetic, ds: seq<Value>, v: Value)
    requires ds != []
    ensures SumOf(ar, ds + [v]) == if SumOf(ar, ds).Ok? then ar.add(SumOf(ar, ds).value, v) else SumOf(ar, ds)
    ensures forall worse :: Extreme(ar, worse, ds + [v])
              == if EvaluateCmp(ar.compare, Extreme(ar, worse, ds), v) == Some(worse) then v else Extreme(ar, worse, ds)
  {
    assert (ds + [v])[..|ds|] == ds;
  }

  lemma SquaresAppend(ar: Arithmetic, ds: seq<Value>, v: Value)
    requires ds != []
    ensures SquaresOf(ar, ds + [v]).Ok? <==>
              ar.multiply(v, v).Ok? && SquaresOf(ar, ds).Ok? &&
                ar.add(SquaresOf(ar, ds).value, ar.multiply(v, v).value).Ok?
    ensures SquaresOf(ar, ds + [v]).Ok? ==>
              SquaresOf(ar, ds + [v]) == ar.add(SquaresOf(ar, ds).value, ar.multiply(v, v).value)
  {
    assert (ds + [v])[..|ds|] == ds;
  }

  /** A value that is relevant and not seen before extends the running value. */
  lemma NextValue(ar: Arithmetic, a: Expr, s: Running, ds: seq<Value>, v: Value)
    requires a.Aggregate? && Describes(ar, a, s, ds) && !(a.kind.Count? && a.arg.Some? && v.Null?)
    requires !Tracked(s.seen, v) && (a.kind.Count? && a.distinct ==> !v.Null?)
    ensures Accumulate(ar, s, v).Ok? <==> Summable(ar, a, ds + [v])
    ensures Accumulate(ar, s, v).Ok? ==> Describes(ar, a, Accumulate(ar, s, v).value, ds + [v])
  {
    hide HashFeed, SumOf, SquaresOf, Extreme, Feeds;
    FeedsAppend(ds, v);
    if ds != [] {
      SumAppend(ar, ds, v);
      SquaresAppend(ar, ds, v);
    }
  }

  /** A repeated value, or a NULL that does not count, leaves it alone. */
  lemma SkippedValue(ar: Arithmetic, a: Expr, s: Running, ds: seq<Value>, v: Value)
    requires a.Aggregate? && Describes(ar, a, s, ds)
    requires (a.kind.Count? && a.arg.Some? && v.Null?) || (Tracked(s.seen, v) && (a.kind.Count? ==> !v.Null?))
    ensures Accumulate(ar, s, v) == Ok(s)
  {
    hide HashFeed, SumOf, SquaresOf, Extreme, Feeds;
  }

  lemma SummablePrefix(ar: Arithmetic, a: Expr, ds: seq<Value>, v: Value)
    requires a.Aggregate? && Summable(ar, a, ds + [v])
    ensures Summable(ar, a, ds)
  {
    if ds != [] {
      SumAppend(ar, ds, v);
      SquaresAppend(ar, ds, v);
    }
  }

  /** Value by value, remembering what was seen, the executor arrives at what the relevant values make
    together; it fails exactly when a sum of them does not exist. */
  lemma {:induction false} RunningDescribesRelevant(ar: Arithmetic, a: Expr, vs: seq<Value>)
    requires a.Aggregate? && RowsIfWildcard(a, vs)
    ensures RunningAfter(ar, a, vs).Ok? <==> Summable(ar, a, Relevant(a, vs))
    ensures RunningAfter(ar, a, vs).Ok? ==> (RunningAfter(ar, a, vs).value.None? <==> vs == [])
    ensures RunningAfter(ar, a, vs).Ok? && vs != [] ==>
        Describes(ar, a, RunningAfter(ar, a, vs).value.value, Relevant(a, vs))
  {
    hide RunningAfter, New, Accumulate, Summable, Describes, Relevant, RowsIfWildcard;
    RunningStart(ar, a);
    NothingIsSummable(ar, a);
    if vs != [] {
      var n := |vs| - 1;
      var v := vs[n];
      assert vs == vs[..n] + [v];
      PrefixRowsIfWildcard(a, vs[..n], v);
      RunningDescribesRelevant(ar, a, vs[..n]);
      RunningStep(ar, a, vs[..n], v);
      if n == 0 {
        assert vs[..n] == [] && vs == [v];
        FirstValue(ar, a, v);
      } else {
        StepDescribesRelevant(ar, a, vs[..n], v);
      }
    }
  }

  lemma PrefixRowsIfWildcard(a: Expr, vs: seq<Value>, v: Value)
    requires a.Aggregate? && RowsIfWildcard(a, vs + [v])
    ensures RowsIfWildcard(a, vs)
  {
    assert forall i | 0 <= i < |vs| :: (vs + [v])[i] == vs[i];
  }

  lemma RunningStart(ar: Arithmetic, a: Expr)
    requires a.Aggregate?
    ensures RunningAfter(ar, a, []) == Ok(Option.None)
  {
  }

  lemma RunningStep(ar: Arithmetic, a: Expr, vs: seq<Value>, v: Value)
    requires a.Aggregate?
    ensures var init, r := RunningAfter(ar, a, vs), RunningAfter(ar, a, vs + [v]);
            if init.Err? then r.Err?
            else
              var s := if init.value.None? then New(ar, a, v) else Accumulate(ar, init.value.value, v);
              (s.Ok? <==> r.Ok?) && (s.Ok? ==> r == Ok(Some(s.value)))
  {
    hide New, Accumulate;
    assert (vs + [v])[..|vs|] == vs;
  }

  lemma NothingIsSummable(ar: Arithmetic, a: Expr)
    requires a.Aggregate?
    ensures Relevant(a, []) == [] && Summable(ar, a, [])
  {
  }

  lemma StepDescribesRelevant(ar: Arithmetic, a: Expr, vs: seq<Value>, v: Value)
    requires a.Aggregate? && vs != [] && RowsIfWildcard(a, vs + [v])
    requires var r := RunningAfter(ar, a, vs);
             && (r.Ok? <==> Summable(ar, a, Relevant(a, vs)))
             && (r.Ok? ==> r.value.Some? && Describes(ar, a, r.value.value, Relevant(a, vs)))
    ensures var r := RunningAfter(ar, a, vs);
            var ds := Relevant(a, vs + [v]);
            && (Summable(ar, a, ds) ==> r.Ok?)
            && (r.Ok? ==> (Accumulate(ar, r.value.value, v).Ok? <==> Summable(ar, a, ds)))
            && (r.Ok? && Accumulate(ar, r.value.value, v).Ok? ==>
               Describes(ar, a, Accumulate(ar, r.value.value, v).value, ds))
  {
    hide RunningAfter, Accumulate, Summable, Relevant, HashFeed, SumOf, SquaresOf, Extreme, Feeds;
    var r := RunningAfter(ar, a, vs);
    var ds := Relevant(a, vs);
    RelevantAppend(a, vs, v);
    assert (vs + [v])[|vs|] == v;
    var skipped := (a.kind.Count? && a.arg.Some? && v.Null?) || (a.distinct && HashFeed(v) in Feeds(ds));
    assert Relevant(a, vs + [v]) == if skipped then ds else ds + [v] by { assert ds + [] == ds; }
    if !skipped && Summable(ar, a, ds + [v]) { SummablePrefix(ar, a, ds, v); }
    if r.Ok? {
      var s := r.value.value;
      if skipped { SkippedValue(ar, a, s, ds, v); } else { NextValue(ar, a, s, ds, v); }
    }
  }

  /** The exported value of an aggregate is its total over all values at once. */
  lemma AggregateIsTotal(ar: Arithmetic, a: Expr, vs: seq<Value>)
    requires a.Aggregate? && RowsIfWildcard(a, vs)
    ensures RunningAfter(ar, a, vs).Ok? ==> Exported(ar, a, RunningAfter(ar, a, vs).value) == Total(ar, a, vs)
    ensures RunningAfter(ar, a, vs).Err? ==> Total(ar, a, vs).Err?
  {
    hide RunningAfter, Relevant, SumOf, SquaresOf, Extreme, Remembers;
    RunningDescribesRelevant(ar, a, vs);
    if vs == [] { NothingIsSummable(ar, a); }
  }
}

/** What MIN and MAX find (core/src/executor/aggregate/state.rs). */
module Extremes {
  import opened Data
  import opened KeyOrder
  import opened ValueOrder
  import opened AggregatePlanning
  import opened AggregateValues

  // ----- the promise -----

  predicate AllNull(vs: seq<Value>) { forall v | v in vs :: v.Null? }

  /** The SQL meaning: a non-NULL value that compares worse than no other, NULL only if there is none.
    `worse` is Greater for MIN and Less for MAX. */
  ghost predicate IsExtreme(ar: Arithmetic, worse: Ordering, vs: seq<Value>, w: Value) {
    if AllNull(vs) then w.Null?
    else
      && !w.Null? && w in vs
      && forall v | v in vs :: EvaluateCmp(ar.compare, w, v) != Some(worse)
  }

  /** The comparison orders the values that are not NULL. */
  ghost predicate Orders(ar: Arithmetic, worse: Ordering, vs: seq<Value>) {
    && (forall i, j | 0 <= i < |vs| && 0 <= j < |vs| && EvaluateCmp(ar.compare, vs[i], vs[j]) == Some(worse) ::
       EvaluateCmp(ar.compare, vs[j], vs[i]) != Some(worse))
    && (forall i, j, k | 0 <= i < |vs| && 0 <= j < |vs| && 0 <= k < |vs| && !vs[j].Null? ::
          EvaluateCmp(ar.compare, vs[i], vs[j]) != Some(worse) &&
          EvaluateCmp(ar.compare, vs[j], vs[k]) != Some(worse) ==>
            EvaluateCmp(ar.compare, vs[i], vs[k]) != Some(worse))
  }

  lemma OrdersAt(ar: Arithmetic, worse: Ordering, vs: seq<Value>, i: nat, j: nat, k: nat)
    requires Orders(ar, worse, vs) && i < |vs| && j < |vs| && k < |vs|
    ensures EvaluateCmp(ar.compare, vs[i], vs[j]) == Some(worse) ==>
              EvaluateCmp(ar.compare, vs[j], vs[i]) != Some(worse)
    ensures !vs[j].Null? && EvaluateCmp(ar.compare, vs[i], vs[j]) != Some(worse) &&
            EvaluateCmp(ar.compare, vs[j], vs[k]) != Some(worse) ==>
              EvaluateCmp(ar.compare, vs[i], vs[k]) != Some(worse)
  {
    hide EvaluateCmp;
  }

  lemma OrdersPrefix(ar: Arithmetic, worse: Ordering, vs: seq<Value>, n: nat)
    requires Orders(ar, worse, vs) && n <= |vs|
    ensures Orders(ar, worse, vs[..n])
  {
    hide EvaluateCmp;
    assert forall i | 0 <= i < n :: vs[..n][i] == vs[i];
  }

  lemma NullIsNotCompared(ar: Arithmetic, v: Value)
    ensures EvaluateCmp(ar.compare, Value.Null, v) == EvaluateCmp(ar.compare, v, Value.Null) == Option.None
  {
  }

  // ----- the first value decides -----

  /** A NULL that comes first is kept to the end. */
  lemma {:induction false} FirstNullStays(ar: Arithmetic, worse: Ordering, vs: seq<Value>)
    requires vs != [] && vs[0].Null?
    ensures Extreme(ar, worse, vs) == Value.Null
  {
    hide EvaluateCmp;
    var n := |vs| - 1;
    if n > 0 {
      FirstNullStays(ar, worse, vs[..n]);
      NullIsNotCompared(ar, vs[n]);
    }
  }

  /** If the first value is not NULL, the result is one of the values that are not and compares worse
    than none. */
  lemma {:induction false} ExtremeIsBest(ar: Arithmetic, worse: Ordering, vs: seq<Value>) returns (at: nat)
    requires vs != [] && Orders(ar, worse, vs) && !vs[0].Null?
    ensures at < |vs| && vs[at] == Extreme(ar, worse, vs) && !vs[at].Null?
    ensures forall i | 0 <= i < |vs| :: EvaluateCmp(ar.compare, vs[at], vs[i]) != Some(worse)
  {
    hide Orders, EvaluateCmp;
    var n := |vs| - 1;
    OrdersAt(ar, worse, vs, n, n, n);
    if n == 0 {
      at := 0;
    } else {
      OrdersPrefix(ar, worse, vs, n);
      var best := ExtremeIsBest(ar, worse, vs[..n]);
      NullIsNotCompared(ar, vs[best]);
      at := if EvaluateCmp(ar.compare, vs[best], vs[n]) == Some(worse) then n else best;
      forall i | 0 <= i < |vs| ensures EvaluateCmp(ar.compare, vs[at], vs[i]) != Some(worse) {
        OrdersAt(ar, worse, vs, best, n, n);
        OrdersAt(ar, worse, vs, n, best, i);
        if i < n { assert vs[..n][i] == vs[i]; }
      }
    }
  }

  /** Whenever the comparison orders the values that are not NULL: the result is the promised one
    exactly when the first value is not NULL, or all are. */
  lemma ExtremeIsRightExactlyWhen(ar: Arithmetic, worse: Ordering, vs: seq<Value>)
    requires vs != [] && Orders(ar, worse, vs)
    ensures IsExtreme(ar, worse, vs, Extreme(ar, worse, vs)) <==> !vs[0].Null? || AllNull(vs)
  {
    hide Orders, EvaluateCmp, Extreme;
    if vs[0].Null? {
      FirstNullStays(ar, worse, vs);
    } else {
      var at := ExtremeIsBest(ar, worse, vs);
      assert vs[at] in vs && !AllNull(vs);
    }
  }

  // ----- columns -----

  /** The values of a column of this type; intervals of one kind. */
  ghost predicate OfColumn(vs: seq<Value>, t: DataType) {
    && KeyType(t) && (forall i | 0 <= i < |vs| :: OfType(vs[i], t))
    && (forall i, j | 0 <= i < |vs| && 0 <= j < |vs| && vs[i].Interval? && vs[j].Interval? ::
         vs[i].interval.Month? == vs[j].interval.Month?)
  }

  lemma TypedPairsCompare(vs: seq<Value>, t: DataType, i: nat, j: nat)
    requires OfColumn(vs, t) && i < |vs| && j < |vs| && !vs[i].Null? && !vs[j].Null?
    ensures Comparable(vs[i], vs[j], t)
  {
  }

  lemma TypedOrder(ar: Arithmetic, worse: Ordering, vs: seq<Value>, t: DataType, i: nat, j: nat, k: nat)
    requires OfColumn(vs, t) && worse != Equal && i < |vs| && j < |vs| && k < |vs| && !vs[j].Null?
    ensures EvaluateCmp(ar.compare, vs[i], vs[j]) == Some(worse) ==>
              EvaluateCmp(ar.compare, vs[j], vs[i]) != Some(worse)
    ensures EvaluateCmp(ar.compare, vs[i], vs[j]) != Some(worse) &&
            EvaluateCmp(ar.compare, vs[j], vs[k]) != Some(worse) ==>
              EvaluateCmp(ar.compare, vs[i], vs[k]) != Some(worse)
  {
    hide EvaluateCmp, OfColumn, Comparable;
    NullIsNotCompared(ar, vs[i]);
    NullIsNotCompared(ar, vs[j]);
    NullIsNotCompared(ar, vs[k]);
    if !vs[i].Null? && !vs[k].Null? {
      TypedPairsCompare(vs, t, i, j);
      TypedPairsCompare(vs, t, j, k);
      TypedPairsCompare(vs, t, k, j);
      TypedPairsCompare(vs, t, j, i);
      CmpOrdersOneType(ar.compare, vs[i], vs[j], vs[k], t);
      CmpOrdersOneType(ar.compare, vs[k], vs[j], vs[i], t);
      TypedPairsCompare(vs, t, i, k);
      CmpOrdersOneType(ar.compare, vs[i], vs[k], vs[k], t) by { TypedPairsCompare(vs, t, k, k); }
      CmpOrdersOneType(ar.compare, vs[j], vs[k], vs[k], t) by { TypedPairsCompare(vs, t, k, k); }
    } else if !vs[i].Null? {
      TypedPairsCompare(vs, t, i, j);
      TypedPairsCompare(vs, t, j, j);
      CmpOrdersOneType(ar.compare, vs[i], vs[j], vs[j], t);
    }
  }

  /** The values of one column are ordered, whatever foreign libraries do with floats. */
  lemma ColumnIsOrdered(ar: Arithmetic, worse: Ordering, vs: seq<Value>, t: DataType)
    requires OfColumn(vs, t) && worse != Equal
    ensures Orders(ar, worse, vs)
  {
    hide EvaluateCmp, OfColumn;
    forall i, j, k | 0 <= i < |vs| && 0 <= j < |vs| && 0 <= k < |vs| && !vs[j].Null?
      ensures EvaluateCmp(ar.compare, vs[i], vs[j]) == Some(worse) ==>
                EvaluateCmp(ar.compare, vs[j], vs[i]) != Some(worse)
      ensures EvaluateCmp(ar.compare, vs[i], vs[j]) != Some(worse) &&
              EvaluateCmp(ar.compare, vs[j], vs[k]) != Some(worse) ==>
                EvaluateCmp(ar.compare, vs[i], vs[k]) != Some(worse)
    {
      TypedOrder(ar, worse, vs, t, i, j, k);
    }
    forall i, j | 0 <= i < |vs| && 0 <= j < |vs| && EvaluateCmp(ar.compare, vs[i], vs[j]) == Some(worse)
      ensures EvaluateCmp(ar.compare, vs[j], vs[i]) != Some(worse)
    {
      NullIsNotCompared(ar, vs[i]);
      TypedOrder(ar, worse, vs, t, i, j, j);
    }
  }

  // ----- DISTINCT changes nothing -----

  lemma {:induction false} DistinctMembers(vs: seq<Value>)
    ensures forall v | v in Distinct(vs) :: v in vs
    ensures vs != [] ==> Distinct(vs) != [] && Distinct(vs)[0] == vs[0]
  {
    hide Among;
    if vs != [] {
      var n := |vs| - 1;
      DistinctMembers(vs[..n]);
      if n == 0 { assert !Among([], vs[0]) by { NothingAmong(vs[0]); } }
    }
  }

  lemma NothingAmong(v: Value)
    ensures !Among([], v)
  {
  }

  lemma PlainFeed(v: Value, t: DataType)
    requires OfType(v, t) && KeyType(t)
    ensures HashFeed(v) == v
  {
  }

  lemma DistinctCovers(vs: seq<Value>, t: DataType)
    requires OfColumn(vs, t)
    ensures forall v | v in vs :: v in Distinct(vs)
  {
    hide HashFeed, Distinct, OfType, KeyType;
    DistinctFeeds(vs);
    DistinctMembers(vs);
    var ds := Distinct(vs);
    forall v | v in vs ensures v in ds {
      var i :| 0 <= i < |vs| && vs[i] == v;
      PlainFeed(v, t);
      assert HashFeed(vs[i]) in Feeds(vs);
      var j :| 0 <= j < |ds| && HashFeed(ds[j]) == v;
      assert ds[j] in vs;
      PlainFeed(ds[j], t);
    }
  }

  lemma SameValuesSameExtreme(ar: Arithmetic, worse: Ordering, vs: seq<Value>, ds: seq<Value>, w: Value)
    requires forall v :: v in vs <==> v in ds
    ensures IsExtreme(ar, worse, vs, w) <==> IsExtreme(ar, worse, ds, w)
    ensures AllNull(vs) <==> AllNull(ds)
  {
    hide EvaluateCmp;
  }

  lemma ColumnPart(vs: seq<Value>, ds: seq<Value>, t: DataType)
    requires OfColumn(vs, t) && forall v | v in ds :: v in vs
    ensures OfColumn(ds, t)
  {
    hide OfType, KeyType;
    forall i | 0 <= i < |ds| ensures OfType(ds[i], t) { assert ds[i] in vs; }
    forall i, j | 0 <= i < |ds| && 0 <= j < |ds| && ds[i].Interval? && ds[j].Interval?
      ensures ds[i].interval.Month? == ds[j].interval.Month?
    {
      assert ds[i] in vs && ds[j] in vs;
    }
  }

  // ----- the theorem -----

  function Worse(kind: Kind): Ordering { if kind.Min? then Greater else Less }

  /** MIN and MAX over the values of a column, with or without DISTINCT: the exported value is the
    extreme of the values that are not NULL exactly when the first one is not NULL, or all are. */
  lemma MinMaxIsRightExactlyWhen(ar: Arithmetic, a: Expr, vs: seq<Value>, t: DataType)
    requires a.Aggregate? && (a.kind.Min? || a.kind.Max?) && vs != [] && OfColumn(vs, t)
    ensures Total(ar, a, vs).Ok?
    ensures IsExtreme(ar, Worse(a.kind), vs, Total(ar, a, vs).value) <==> !vs[0].Null? || AllNull(vs)
  {
    hide OfColumn, IsExtreme, AllNull, Extreme, Distinct, Orders;
    var ds := Relevant(a, vs);
    if a.distinct {
      DistinctMembers(vs);
      DistinctCovers(vs, t);
    }
    ColumnPart(vs, ds, t);
    ColumnIsOrdered(ar, Worse(a.kind), ds, t);
    ExtremeIsRightExactlyWhen(ar, Worse(a.kind), ds);
    SameValuesSameExtreme(ar, Worse(a.kind), vs, ds, Total(ar, a, vs).value);
  }

  lemma OneExtreme(ar: Arithmetic, worse: Ordering, v: Value)
    ensures Extreme(ar, worse, [v]) == v
  {
  }

  /** The same two values in the two orders: MIN is NULL, or 5. */
  lemma MinDependsOnRowOrder(ar: Arithmetic, a: Expr)
    requires a.Aggregate? && a.kind.Min? && !a.distinct
    ensures Total(ar, a, [Value.Null, Value.I64(5)]) == Ok(Value.Null)
    ensures Total(ar, a, [Value.I64(5), Value.Null]) == Ok(Value.I64(5))
  {
    hide EvaluateCmp;
    var five := Value.I64(5);
    var up, down := [Value.Null, five], [five, Value.Null];
    NullIsNotCompared(ar, five);
    assert up[..1] == [Value.Null] && down[..1] == [five];
    OneExtreme(ar, Greater, Value.Null);
    OneExtreme(ar, Greater, five);
    assert Extreme(ar, Greater, up) == Value.Null;
    assert Extreme(ar, Greater, down) == five;
  }
}

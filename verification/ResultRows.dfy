/** From projected rows to the result: ORDER BY, then DISTINCT, then LIMIT and OFFSET
  (core/src/executor/sort.rs, select.rs, limit.rs). */
module ResultRows {
  import opened Data
  import opened KeyOrder
  import opened StableSorting

  // ----- ORDER BY -----

  type SortKeys = seq<(Key, Option<bool>)>

  datatype KeyedRow = KeyedRow(keys: SortKeys, row: Row)

  /** A projected row with all else that ORDER BY may look at: the joined row, the aggregates of its
    group and the rows of the enclosing query. */
  datatype Projected<+C> = Projected(context: C, row: Row)

  /** What an ORDER BY term sorts by: a number names a column of the row, counted from one (no value
    when it is no index at all); any other expression is evaluated to a key, on the context and the row. */
  datatype Term<!C> = Position(index: Option<nat>) | Expression(eval: (C, Row) -> Result<Key>)

  datatype OrderByExpr<!C> = OrderByExpr(term: Term<C>, asc: Option<bool>)

  predicate Ascending(asc: Option<bool>) { asc != Some(false) }

  function Directed(o: Ordering, asc: Option<bool>): Ordering {
    if Ascending(asc) then o else Reverse(o)
  }

  function SortBy(a: SortKeys, b: SortKeys): Ordering {
    if a == [] || b == [] then Equal
    else Then(Directed(Cmp(a[0].0, b[0].0), b[0].1), SortBy(a[1..], b[1..]))
  }

  /** The rows have different keys in this term and the same in all before it. */
  ghost predicate FirstDiffer(a: SortKeys, b: SortKeys, t: nat) {
    t < |a| && t < |b| && a[t].0 != b[t].0 && forall i | 0 <= i < t :: a[i].0 == b[i].0
  }

  /** The comparison loop of `sort_by`: the first term in which the rows differ decides, DESC in reverse. */
  method CompareKeys(a: SortKeys, b: SortKeys) returns (o: Ordering)
    ensures o == SortBy(a, b)
    ensures forall t: nat | FirstDiffer(a, b, t) ::
              o == if b[t].1 == Some(false) then Reverse(Cmp(a[t].0, b[t].0)) else Cmp(a[t].0, b[t].0)
    ensures (forall t: nat :: !FirstDiffer(a, b, t)) ==> o == Equal
  {
    hide Cmp;
    var i := 0;
    while i < |a| && i < |b|
      invariant 0 <= i <= |a| && i <= |b|
      invariant forall k | 0 <= k < i :: a[k].0 == b[k].0
      invariant SortBy(a, b) == SortBy(a[i..], b[i..])
    {
      assert a[i..][1..] == a[i + 1..] && b[i..][1..] == b[i + 1..];
      var c := Cmp(a[i].0, b[i].0);
      CmpAntisymmetric(a[i].0, b[i].0);
      if c != Equal {
        assert FirstDiffer(a, b, i);
        return if Ascending(b[i].1) then c else Reverse(c);
      }
      i := i + 1;
    }
    return Equal;
  }

  function CheckTerm<C>(p: Projected<C>, term: Term<C>): Result<()> {
    match term
    case Expression(_) => Ok(())
    case Position(None) => Err(Error("Unreachable ORDER BY Clause"))
    case Position(Some(n)) =>
      if 0 < n <= |p.row| then Ok(()) else Err(Error("ORDER BY COLUMN_INDEX must be within SELECT-list"))
  }

  predicate Resolvable<C>(p: Projected<C>, orderBy: seq<OrderByExpr<C>>) {
    forall i | 0 <= i < |orderBy| :: CheckTerm(p, orderBy[i].term).Ok?
  }

  function TermKey<C>(p: Projected<C>, term: Term<C>): Result<Key>
    requires CheckTerm(p, term).Ok?
  {
    match term
    case Expression(eval) => eval(p.context, p.row)
    case Position(Some(n)) => ToKey(p.row[n - 1])
  }

  /** Every term resolves and evaluates on the row. */
  predicate Sortable<C>(p: Projected<C>, orderBy: seq<OrderByExpr<C>>) {
    Resolvable(p, orderBy) && forall i | 0 <= i < |orderBy| :: TermKey(p, orderBy[i].term).Ok?
  }

  function KeysOf<C>(p: Projected<C>, orderBy: seq<OrderByExpr<C>>): SortKeys
    requires Sortable(p, orderBy)
  {
    seq(|orderBy|, i requires 0 <= i < |orderBy| => (TermKey(p, orderBy[i].term).value, orderBy[i].asc))
  }

  ghost predicate AllSortable<C>(rows: seq<Projected<C>>, orderBy: seq<OrderByExpr<C>>) {
    forall i | 0 <= i < |rows| :: Sortable(rows[i], orderBy)
  }

  function Keyed<C>(rows: seq<Projected<C>>, orderBy: seq<OrderByExpr<C>>): (r: seq<KeyedRow>)
    requires forall i | 0 <= i < |rows| :: Sortable(rows[i], orderBy)
  {
    seq(|rows|, i requires 0 <= i < |rows| => KeyedRow(KeysOf(rows[i], orderBy), rows[i].row))
  }

  function RowsOf(keyed: seq<KeyedRow>): (r: seq<Row>)
    ensures |r| == |keyed|
  {
    seq(|keyed|, i requires 0 <= i < |keyed| => keyed[i].row)
  }

  function OnlyRows<C>(rows: seq<Projected<C>>): (r: seq<Row>)
    ensures |r| == |rows|
  {
    seq(|rows|, i requires 0 <= i < |rows| => rows[i].row)
  }

  function ByKeys(): (KeyedRow, KeyedRow) -> Ordering {
    (a: KeyedRow, b: KeyedRow) => SortBy(a.keys, b.keys)
  }

  /** The keys of one row, term by term; positions are resolved before any expression is evaluated. */
  method KeyRow<C>(p: Projected<C>, orderBy: seq<OrderByExpr<C>>) returns (r: Result<SortKeys>)
    ensures r.Ok? <==> Sortable(p, orderBy)
    ensures r.Ok? ==> r.value == KeysOf(p, orderBy)
  {
    for j := 0 to |orderBy|
      invariant forall k | 0 <= k < j :: CheckTerm(p, orderBy[k].term).Ok?
    {
      var c := CheckTerm(p, orderBy[j].term);
      if c.Err? { return Err(c.error); }
    }
    var keys: SortKeys := [];
    for j := 0 to |orderBy|
      invariant |keys| == j
      invariant forall k | 0 <= k < j ::
          TermKey(p, orderBy[k].term).Ok? && keys[k] == (TermKey(p, orderBy[k].term).value, orderBy[k].asc)
    {
      var key := TermKey(p, orderBy[j].term);
      if key.Err? { return Err(key.error); }
      keys := keys + [(key.value, orderBy[j].asc)];
    }
    assert keys == KeysOf(p, orderBy);
    return Ok(keys);
  }

  /** `Sort::apply`: key every row, failing at the first term that does not resolve or evaluate, then
    sort stably by the key lists.  (`sort_stateless` does the same on VALUES lists without a context, but
    takes a number for an expression and not for a position.) */
  method ApplySort<C>(rows: seq<Projected<C>>, orderBy: seq<OrderByExpr<C>>) returns (r: Result<seq<Row>>)
    ensures orderBy == [] ==> r == Ok(OnlyRows(rows))
    ensures orderBy != [] ==> (r.Ok? <==> AllSortable(rows, orderBy))
    ensures orderBy != [] && r.Ok? ==> r.value == RowsOf(StableSort(ByKeys(), Keyed(rows, orderBy)))
  {
    hide Sortable, KeysOf;
    if orderBy == [] { return Ok(OnlyRows(rows)); }
    var keyedRows: seq<KeyedRow> := [];
    for i := 0 to |rows|
      invariant AllSortable(rows[..i], orderBy)
      invariant keyedRows == Keyed(rows[..i], orderBy)
    {
      var keys := KeyRow(rows[i], orderBy);
      if keys.Err? {
        assert !Sortable(rows[i], orderBy);
        return Err(keys.error);
      }
      assert rows[..i + 1] == rows[..i] + [rows[i]];
      keyedRows := keyedRows + [KeyedRow(keys.value, rows[i].row)];
    }
    assert rows[..|rows|] == rows;
    return Ok(RowsOf(StableSort(ByKeys(), keyedRows)));
  }

  // ----- ORDER BY is a succession of stable sorts, one per term -----

  /** Compare two rows by the `j`-th term alone. */
  function ByTerm(asc: seq<Option<bool>>, j: nat): (KeyedRow, KeyedRow) -> Ordering
    requires j < |asc|
  {
    (a: KeyedRow, b: KeyedRow) => CompareTerm(asc[j], j, a, b)
  }

  function CompareTerm(asc: Option<bool>, j: nat, a: KeyedRow, b: KeyedRow): Ordering {
    if j < |a.keys| && j < |b.keys| then Directed(Cmp(a.keys[j].0, b.keys[j].0), asc)
    else CompareInt(if j < |a.keys| then 0 else 1, if j < |b.keys| then 0 else 1)
  }

  /** Stable-sort by each term from `j` on, the last term first. */
  function SortTermByTerm(asc: seq<Option<bool>>, j: nat, s: seq<KeyedRow>): seq<KeyedRow>
    requires j <= |asc|
    decreases |asc| - j
  {
    if j == |asc| then s else StableSort(ByTerm(asc, j), SortTermByTerm(asc, j + 1, s))
  }

  function Tied(): (KeyedRow, KeyedRow) -> Ordering { (_, _) => Equal }

  function ByTermsFrom(asc: seq<Option<bool>>, j: nat): (KeyedRow, KeyedRow) -> Ordering
    requires j <= |asc|
    decreases |asc| - j
  {
    if j == |asc| then Tied() else Lex(ByTerm(asc, j), ByTermsFrom(asc, j + 1))
  }

  /** A row keyed by an ORDER BY with these directions. */
  predicate KeyedBy(asc: seq<Option<bool>>, k: KeyedRow) {
    |k.keys| == |asc| && forall i | 0 <= i < |asc| :: k.keys[i].1 == asc[i]
  }

  lemma CompareTermAntisymmetric(asc: Option<bool>, j: nat, a: KeyedRow, b: KeyedRow)
    ensures CompareTerm(asc, j, a, b) == Reverse(CompareTerm(asc, j, b, a))
  {
    if j < |a.keys| && j < |b.keys| { CmpAntisymmetric(a.keys[j].0, b.keys[j].0); }
  }

  lemma CompareTermTransitive(asc: Option<bool>, j: nat, a: KeyedRow, b: KeyedRow, d: KeyedRow)
    requires CompareTerm(asc, j, a, b) != Greater && CompareTerm(asc, j, b, d) != Greater
    ensures CompareTerm(asc, j, a, d) != Greater
  {
    if j < |a.keys| && j < |b.keys| && j < |d.keys| {
      var x, y, z := a.keys[j].0, b.keys[j].0, d.keys[j].0;
      if Ascending(asc) {
        CmpTransitive(x, y, z);
      } else {
        CmpAntisymmetric(x, y);
        CmpAntisymmetric(y, z);
        CmpTransitive(z, y, x);
        CmpAntisymmetric(x, z);
      }
    }
  }

  lemma ByTermPreorder(asc: seq<Option<bool>>, j: nat)
    requires j < |asc|
    ensures TotalPreorder(ByTerm(asc, j))
  {
    var c := ByTerm(asc, j);
    forall a, b ensures c(a, b) == Reverse(c(b, a)) {
      CompareTermAntisymmetric(asc[j], j, a, b);
    }
    forall a, b, d | c(a, b) != Greater && c(b, d) != Greater ensures c(a, d) != Greater {
      CompareTermTransitive(asc[j], j, a, b, d);
    }
  }

  lemma TiedPreorder()
    ensures TotalPreorder(Tied())
  {
  }

  lemma {:induction false} ByTermsFromPreorder(asc: seq<Option<bool>>, j: nat)
    requires j <= |asc|
    ensures TotalPreorder(ByTermsFrom(asc, j))
    decreases |asc| - j
  {
    hide ByTerm;
    if j == |asc| {
      TiedPreorder();
    } else {
      hide TotalPreorder;
      ByTermPreorder(asc, j);
      ByTermsFromPreorder(asc, j + 1);
      LexPreorder(ByTerm(asc, j), ByTermsFrom(asc, j + 1));
    }
  }

  lemma {:induction false} TiedSortIsIdentity(s: seq<KeyedRow>)
    ensures StableSort(Tied(), s) == s
  {
    if s != [] {
      TiedSortIsIdentity(s[1..]);
    }
  }

  lemma {:induction false} SortTermByTermIsLexicographic(asc: seq<Option<bool>>, j: nat, s: seq<KeyedRow>)
    requires j <= |asc|
    ensures SortTermByTerm(asc, j, s) == StableSort(ByTermsFrom(asc, j), s)
    decreases |asc| - j
  {
    hide StableSort, TotalPreorder, ByTerm;
    if j == |asc| {
      TiedSortIsIdentity(s);
    } else {
      ByTermPreorder(asc, j);
      ByTermsFromPreorder(asc, j + 1);
      SortTermByTermIsLexicographic(asc, j + 1, s);
      SortBySuccessiveComparisons(ByTerm(asc, j), ByTermsFrom(asc, j + 1), s);
    }
  }

  lemma {:induction false} SortByIsLexicographic(asc: seq<Option<bool>>, j: nat, a: KeyedRow, b: KeyedRow)
    requires j <= |asc| && KeyedBy(asc, a) && KeyedBy(asc, b)
    ensures SortBy(a.keys[j..], b.keys[j..]) == ByTermsFrom(asc, j)(a, b)
    decreases |asc| - j
  {
    if j < |asc| {
      SortByIsLexicographic(asc, j + 1, a, b);
      assert a.keys[j..][1..] == a.keys[j + 1..] && b.keys[j..][1..] == b.keys[j + 1..];
    }
  }

  /** Sorting once by whole key lists, with any mix of ASC and DESC, is stable-sorting by each term
    separately from the last to the first. */
  lemma OrderByIsSuccessionOfStableSorts(asc: seq<Option<bool>>, s: seq<KeyedRow>)
    requires forall k | k in s :: KeyedBy(asc, k)
    ensures StableSort(ByKeys(), s) == SortTermByTerm(asc, 0, s)
  {
    SortTermByTermIsLexicographic(asc, 0, s);
    forall a, b | a in s && b in s ensures ByKeys()(a, b) == ByTermsFrom(asc, 0)(a, b) {
      SortByIsLexicographic(asc, 0, a, b);
      assert a.keys[0..] == a.keys && b.keys[0..] == b.keys;
    }
    StableSortCongruent(ByKeys(), ByTermsFrom(asc, 0), s);
  }

  /** Rows keyed by one ORDER BY are totally preordered by `sort_by`. */
  lemma SortByIsTotalPreorder(asc: seq<Option<bool>>, a: KeyedRow, b: KeyedRow, d: KeyedRow)
    requires KeyedBy(asc, a) && KeyedBy(asc, b) && KeyedBy(asc, d)
    ensures SortBy(a.keys, b.keys) == Reverse(SortBy(b.keys, a.keys))
    ensures SortBy(a.keys, b.keys) != Greater && SortBy(b.keys, d.keys) != Greater ==> SortBy(a.keys, d.keys) != Greater
  {
    hide ByTermsFrom, SortBy;
    var s, l := [a, b, d], ByTermsFrom(asc, 0);
    SortByIsLexicographicOn(asc, s);
    ByTermsFromPreorder(asc, 0);
    assert ByKeys()(a, b) == l(a, b) && ByKeys()(b, a) == l(b, a);
    assert ByKeys()(b, d) == l(b, d) && ByKeys()(a, d) == l(a, d);
  }

  lemma {:induction false} TiesCongruent(
      c: (KeyedRow, KeyedRow) -> Ordering, c': (KeyedRow, KeyedRow) -> Ordering, x: KeyedRow, s: seq<KeyedRow>)
    requires forall y | y in s :: c(x, y) == c'(x, y)
    ensures Ties(c, x, s) == Ties(c', x, s)
  {
    if s != [] {
      assert forall y | y in s[1..] :: y in s;
      TiesCongruent(c, c', x, s[1..]);
    }
  }

  /** Whatever stable sort the library runs, its output is this one: an ordered permutation of the
    keyed rows in which rows with equal keys keep their order. */
  lemma OrderByOutput(asc: seq<Option<bool>>, s: seq<KeyedRow>)
    requires forall k | k in s :: KeyedBy(asc, k)
    ensures var out := StableSort(ByKeys(), s);
            && multiset(out) == multiset(s) && |out| == |s|
            && Sorted(ByKeys(), out)
            && forall x | x in s :: Ties(ByKeys(), x, out) == Ties(ByKeys(), x, s)
  {
    hide ByTermsFrom, SortBy, StableSort;
    var c, l, out := ByKeys(), ByTermsFrom(asc, 0), StableSort(ByKeys(), s);
    StableSortElements(c, s);
    SortByIsLexicographicOn(asc, s);
    StableSortCongruent(c, l, s);
    ByTermsFromPreorder(asc, 0);
    StableSortSorted(l, s);
    assert |multiset(out)| == |multiset(s)|;
    forall i, j | 0 <= i < j < |out| ensures c(out[i], out[j]) != Greater {
      assert out[i] in s && out[j] in s;
    }
    forall x | x in s ensures Ties(c, x, out) == Ties(c, x, s) {
      TiesCongruent(c, l, x, out);
      TiesCongruent(c, l, x, s);
      StableSortTies(l, x, s);
    }
  }

  lemma SortByIsLexicographicOn(asc: seq<Option<bool>>, s: seq<KeyedRow>)
    requires forall k | k in s :: KeyedBy(asc, k)
    ensures forall a, b | a in s && b in s :: ByKeys()(a, b) == ByTermsFrom(asc, 0)(a, b)
  {
    forall a, b | a in s && b in s ensures ByKeys()(a, b) == ByTermsFrom(asc, 0)(a, b) {
      SortByIsLexicographic(asc, 0, a, b);
      assert a.keys[0..] == a.keys && b.keys[0..] == b.keys;
    }
  }

  // ----- what ORDER BY means -----

  /** The key that a term gives a row: its value at that place of the SELECT list, counted from one, or
    what the expression evaluates to. */
  ghost predicate TermGives<C>(p: Projected<C>, term: Term<C>, key: Key) {
    match term
    case Position(index) => index.Some? && 1 <= index.value <= |p.row| && ToKey(p.row[index.value - 1]) == Ok(key)
    case Expression(eval) => eval(p.context, p.row) == Ok(key)
  }

  ghost predicate HasKey<C>(p: Projected<C>, term: Term<C>) { exists key :: TermGives(p, term, key) }

  lemma TermKeyIs<C>(p: Projected<C>, term: Term<C>)
    ensures HasKey(p, term) <==> CheckTerm(p, term).Ok? && TermKey(p, term).Ok?
    ensures CheckTerm(p, term).Ok? && TermKey(p, term).Ok? ==> TermGives(p, term, TermKey(p, term).value)
  {
    hide ToKey;
    if CheckTerm(p, term).Ok? && TermKey(p, term).Ok? { assert TermGives(p, term, TermKey(p, term).value); }
    if HasKey(p, term) { var key :| TermGives(p, term, key); }
  }

  /** A row can be sorted exactly when every term gives it a key, and is sorted by these keys. */
  lemma SortedByTerms<C>(p: Projected<C>, orderBy: seq<OrderByExpr<C>>)
    ensures Sortable(p, orderBy) <==> forall i | 0 <= i < |orderBy| :: HasKey(p, orderBy[i].term)
    ensures Sortable(p, orderBy) ==>
              && |KeysOf(p, orderBy)| == |orderBy|
              && forall i | 0 <= i < |orderBy| ::
                   TermGives(p, orderBy[i].term, KeysOf(p, orderBy)[i].0) && KeysOf(p, orderBy)[i].1 == orderBy[i].asc
  {
    hide ToKey, TermGives, HasKey, CheckTerm, TermKey;
    forall i | 0 <= i < |orderBy|
      ensures HasKey(p, orderBy[i].term) <==> CheckTerm(p, orderBy[i].term).Ok? && TermKey(p, orderBy[i].term).Ok?
      ensures CheckTerm(p, orderBy[i].term).Ok? && TermKey(p, orderBy[i].term).Ok? ==>
                TermGives(p, orderBy[i].term, TermKey(p, orderBy[i].term).value)
    {
      TermKeyIs(p, orderBy[i].term);
    }
  }

  /** In the first term in which two rows differ, the earlier one has the smaller key, or the larger one
    if the term says DESC. */
  ghost predicate InDirection(asc: seq<Option<bool>>, a: SortKeys, b: SortKeys) {
    forall t: nat | t < |asc| && FirstDiffer(a, b, t) ::
      Cmp(a[t].0, b[t].0) == if asc[t] == Some(false) then Greater else Less
  }

  lemma {:induction false} DirectionDecides(a: SortKeys, b: SortKeys, t: nat)
    requires FirstDiffer(a, b, t) && SortBy(a, b) != Greater
    ensures Cmp(a[t].0, b[t].0) == if b[t].1 == Some(false) then Greater else Less
  {
    hide Cmp;
    CmpAntisymmetric(a[0].0, b[0].0);
    if t > 0 { DirectionDecides(a[1..], b[1..], t - 1); }
  }

  lemma SortedInDirection(asc: seq<Option<bool>>, a: KeyedRow, b: KeyedRow)
    requires KeyedBy(asc, a) && KeyedBy(asc, b) && SortBy(a.keys, b.keys) != Greater
    ensures InDirection(asc, a.keys, b.keys)
  {
    hide SortBy, Cmp;
    forall t: nat | t < |asc| && FirstDiffer(a.keys, b.keys, t)
      ensures Cmp(a.keys[t].0, b.keys[t].0) == if asc[t] == Some(false) then Greater else Less
    {
      DirectionDecides(a.keys, b.keys, t);
    }
  }

  /** Of any two output rows the earlier one comes first by the first term in which they differ. */
  lemma OrderByDirection(asc: seq<Option<bool>>, s: seq<KeyedRow>, i: nat, j: nat)
    requires forall k | k in s :: KeyedBy(asc, k)
    requires i < j < |StableSort(ByKeys(), s)|
    ensures InDirection(asc, StableSort(ByKeys(), s)[i].keys, StableSort(ByKeys(), s)[j].keys)
  {
    hide SortBy, StableSort, InDirection;
    OrderByOutput(asc, s);
    var out := StableSort(ByKeys(), s);
    assert out[i] in multiset(out) && out[j] in multiset(out);
    SortedInDirection(asc, out[i], out[j]);
  }

  // ----- DISTINCT -----

  /** No earlier row equals the `i`-th. */
  ghost predicate FirstOccurrence(rows: seq<Row>, i: nat)
    requires i < |rows|
  {
    forall j | 0 <= j < i :: !RowEq(rows[j], rows[i])
  }

  /** The first occurrences among the first `n` rows, in order. */
  ghost function FirstOccurrences(rows: seq<Row>, n: nat): seq<Row>
    requires n <= |rows|
  {
    if n == 0 then []
    else FirstOccurrences(rows, n - 1) + (if FirstOccurrence(rows, n - 1) then [rows[n - 1]] else [])
  }

  /** `apply_distinct`: the hash set of the source holds one representative of each class of equal
    rows; here it holds what they feed to the hasher. */
  method ApplyDistinct(rows: seq<Row>) returns (out: seq<Row>)
    ensures out == FirstOccurrences(rows, |rows|)
  {
    var seen: set<seq<Value>> := {};
    out := [];
    for i := 0 to |rows|
      invariant out == FirstOccurrences(rows, i)
      invariant forall f :: f in seen <==> exists j | 0 <= j < i :: HashFeeds(rows[j]) == f
    {
      var feed := HashFeeds(rows[i]);
      forall j | 0 <= j < i ensures RowEq(rows[j], rows[i]) <==> HashFeeds(rows[j]) == feed {
        RowsEqualExactlyWhenHashedAlike(rows[j], rows[i]);
      }
      if feed !in seen {
        seen := seen + {feed};
        out := out + [rows[i]];
      }
    }
  }

  lemma {:induction false} FirstOccurrencesFrom(rows: seq<Row>, n: nat, k: nat) returns (i: nat)
    requires n <= |rows| && k < |FirstOccurrences(rows, n)|
    ensures i < n && FirstOccurrences(rows, n)[k] == rows[i] && FirstOccurrence(rows, i)
    ensures k == |FirstOccurrences(rows, i)|
  {
    if k < |FirstOccurrences(rows, n - 1)| {
      i := FirstOccurrencesFrom(rows, n - 1, k);
    } else {
      i := n - 1;
    }
  }

  lemma {:induction false} FirstOccurrencesGrow(rows: seq<Row>, m: nat, n: nat)
    requires m <= n <= |rows|
    ensures FirstOccurrences(rows, m) <= FirstOccurrences(rows, n)
  {
    if m < n {
      FirstOccurrencesGrow(rows, m, n - 1);
    }
  }

  /** No two rows of the output are equal. */
  lemma DistinctOutputHasNoEqualRows(rows: seq<Row>, k: nat, l: nat)
    requires k < l < |FirstOccurrences(rows, |rows|)|
    ensures !RowEq(FirstOccurrences(rows, |rows|)[k], FirstOccurrences(rows, |rows|)[l])
  {
    var i := FirstOccurrencesFrom(rows, |rows|, k);
    var j := FirstOccurrencesFrom(rows, |rows|, l);
    if j <= i {
      FirstOccurrencesGrow(rows, j, i);
      assert false;
    }
  }

  /** Every row has an equal row in the output, at the place of its first occurrence. */
  lemma {:induction false} DistinctOutputRepresents(rows: seq<Row>, i: nat) returns (k: nat)
    requires i < |rows|
    ensures k < |FirstOccurrences(rows, |rows|)| && RowEq(FirstOccurrences(rows, |rows|)[k], rows[i])
    ensures k <= |FirstOccurrences(rows, i)|
    decreases i
  {
    if FirstOccurrence(rows, i) {
      k := |FirstOccurrences(rows, i)|;
      RowsEqualExactlyWhenHashedAlike(rows[i], rows[i]);
      assert FirstOccurrences(rows, i + 1)[k] == rows[i];
      FirstOccurrencesGrow(rows, i + 1, |rows|);
    } else {
      var j :| 0 <= j < i && RowEq(rows[j], rows[i]);
      k := DistinctOutputRepresents(rows, j);
      var r := FirstOccurrences(rows, |rows|)[k];
      RowsEqualExactlyWhenHashedAlike(r, rows[j]);
      RowsEqualExactlyWhenHashedAlike(rows[j], rows[i]);
      RowsEqualExactlyWhenHashedAlike(r, rows[i]);
      FirstOccurrencesGrow(rows, j, i);
    }
  }

  // ----- LIMIT and OFFSET -----

  function Skip<T>(rows: seq<T>, n: nat): seq<T> { if n <= |rows| then rows[n..] else [] }
  function Take<T>(rows: seq<T>, n: nat): seq<T> { if n <= |rows| then rows[..n] else rows }

  function ApplyLimit<T>(rows: seq<T>, limit: Option<nat>, offset: Option<nat>): seq<T> {
    match (offset, limit)
    case (Some(o), Some(l)) => Take(Skip(rows, o), l)
    case (Some(o), None) => Skip(rows, o)
    case (None, Some(l)) => Take(rows, l)
    case (None, None) => rows
  }

  /** The window starts after OFFSET rows, or at the first row, and ends after LIMIT rows, or with the
    last row. */
  lemma WindowIs<T>(rows: seq<T>, limit: Option<nat>, offset: Option<nat>)
    ensures var out := ApplyLimit(rows, limit, offset);
            var start := if offset.Some? then offset.value else 0;
            && |out| == (if |rows| <= start then 0
                         else if limit.Some? && limit.value < |rows| - start then limit.value
                         else |rows| - start)
            && forall i | 0 <= i < |out| :: start + i < |rows| && out[i] == rows[start + i]
  {
  }

  function Pages<T>(rows: seq<T>, size: nat, count: nat): seq<T> {
    if count == 0 then [] else Pages(rows, size, count - 1) + ApplyLimit(rows, Some(size), Some(size * (count - 1)))
  }

  /** Consecutive pages of one size, put together, are the rows from the start: nothing is skipped
    and nothing repeated.  Enough pages give the whole result. */
  lemma {:induction false} PagesConcatenate<T>(rows: seq<T>, size: nat, count: nat)
    ensures Pages(rows, size, count) == ApplyLimit(rows, Some(size * count), Option.None)
    ensures |rows| <= size * count ==> Pages(rows, size, count) == rows
  {
    if count > 0 {
      PagesConcatenate(rows, size, count - 1);
      assert size * count == size * (count - 1) + size;
    }
  }

  // ----- the whole pipeline -----

  /** ORDER BY, then DISTINCT, then the window: the stages of `select_with_labels` after projection. */
  method Finish<C>(
      rows: seq<Projected<C>>, orderBy: seq<OrderByExpr<C>>, distinct: bool, limit: Option<nat>, offset: Option<nat>)
    returns (r: Result<seq<Row>>)
    ensures r.Ok? <==> orderBy == [] || AllSortable(rows, orderBy)
    ensures r.Ok? ==> AllSortable(rows, orderBy)
    ensures r.Ok? ==> r.value == ApplyLimit(Kept(SortedRows(rows, orderBy), distinct), limit, offset)
  {
    hide StableSort, FirstOccurrences;
    r := ApplySort(rows, orderBy);
    if r.Ok? {
      assert orderBy == [] ==> OnlyRows(rows) == RowsOf(Keyed(rows, orderBy));
      var kept := r.value;
      if distinct {
        kept := ApplyDistinct(kept);
      }
      r := Ok(ApplyLimit(kept, limit, offset));
    }
  }

  /** The rows after ORDER BY, still with their keys. */
  function SortedRows<C>(rows: seq<Projected<C>>, orderBy: seq<OrderByExpr<C>>): seq<KeyedRow>
    requires forall i | 0 <= i < |rows| :: Sortable(rows[i], orderBy)
  {
    if orderBy == [] then Keyed(rows, orderBy) else StableSort(ByKeys(), Keyed(rows, orderBy))
  }

  /** The rows before the window. */
  ghost function Kept(sorted: seq<KeyedRow>, distinct: bool): seq<Row> {
    if distinct then FirstOccurrences(RowsOf(sorted), |sorted|) else RowsOf(sorted)
  }

  /** The rows are those of the keyed rows at increasing positions. */
  ghost predicate TakenFrom(out: seq<Row>, sorted: seq<KeyedRow>, at: seq<nat>) {
    && |at| == |out|
    && (forall i | 0 <= i < |at| :: at[i] < |sorted| && out[i] == sorted[at[i]].row)
    && (forall i, j | 0 <= i < j < |at| :: at[i] < at[j])
  }

  lemma TakenAppend(out: seq<Row>, sorted: seq<KeyedRow>, at: seq<nat>, n: nat)
    requires TakenFrom(out, sorted, at) && n < |sorted| && forall i | 0 <= i < |at| :: at[i] < n
    ensures TakenFrom(out + [sorted[n].row], sorted, at + [n])
    ensures forall i | 0 <= i < |at + [n]| :: (at + [n])[i] < n + 1
  {
  }

  lemma TakenSlice(out: seq<Row>, sorted: seq<KeyedRow>, at: seq<nat>, lo: nat, hi: nat)
    requires TakenFrom(out, sorted, at) && lo <= hi <= |out|
    ensures TakenFrom(out[lo..hi], sorted, at[lo..hi])
  {
  }

  lemma TakenInOrder(out: seq<Row>, sorted: seq<KeyedRow>, at: seq<nat>)
    requires TakenFrom(out, sorted, at)
    requires forall i, j | 0 <= i < j < |sorted| :: SortBy(sorted[i].keys, sorted[j].keys) != Greater
    ensures forall i, j | 0 <= i < j < |at| :: SortBy(sorted[at[i]].keys, sorted[at[j]].keys) != Greater
  {
    hide SortBy;
  }

  lemma {:induction false} FirstOccurrencesAreTaken(sorted: seq<KeyedRow>, n: nat) returns (at: seq<nat>)
    requires n <= |sorted|
    ensures TakenFrom(FirstOccurrences(RowsOf(sorted), n), sorted, at)
    ensures forall i | 0 <= i < |at| :: at[i] < n
  {
    hide FirstOccurrence;
    if n == 0 {
      at := [];
    } else {
      at := FirstOccurrencesAreTaken(sorted, n - 1);
      hide TakenFrom;
      var before := FirstOccurrences(RowsOf(sorted), n - 1);
      if FirstOccurrence(RowsOf(sorted), n - 1) {
        TakenAppend(before, sorted, at, n - 1);
        at := at + [n - 1];
      } else {
        assert before + [] == before;
      }
    }
  }

  lemma KeptIsTaken(sorted: seq<KeyedRow>, distinct: bool) returns (at: seq<nat>)
    ensures TakenFrom(Kept(sorted, distinct), sorted, at)
  {
    if distinct {
      at := FirstOccurrencesAreTaken(sorted, |sorted|);
    } else {
      at := seq(|sorted|, i => i);
    }
  }

  lemma WindowIsSlice<T>(rows: seq<T>, limit: Option<nat>, offset: Option<nat>) returns (lo: nat, hi: nat)
    ensures lo <= hi <= |rows| && ApplyLimit(rows, limit, offset) == rows[lo..hi]
  {
    lo := if offset.None? then 0 else if offset.value <= |rows| then offset.value else |rows|;
    hi := if limit.Some? && lo + limit.value <= |rows| then lo + limit.value else |rows|;
  }

  lemma SortedInOrder<C>(rows: seq<Projected<C>>, orderBy: seq<OrderByExpr<C>>)
    requires AllSortable(rows, orderBy)
    ensures var s := SortedRows(rows, orderBy);
            && multiset(s) == multiset(Keyed(rows, orderBy))
            && forall i, j | 0 <= i < j < |s| :: SortBy(s[i].keys, s[j].keys) != Greater
  {
    hide Sortable;
    if orderBy == [] {
      var s := SortedRows(rows, orderBy);
      forall i, j | 0 <= i < j < |s| ensures SortBy(s[i].keys, s[j].keys) != Greater { NoKeys(rows[i]); }
    } else {
      var asc := seq(|orderBy|, i requires 0 <= i < |orderBy| => orderBy[i].asc);
      var s := Keyed(rows, orderBy);
      forall k | k in s ensures KeyedBy(asc, k) {
        var i :| 0 <= i < |s| && s[i] == k;
        KeyedByTerms(rows[i], orderBy, asc);
      }
      OrderByOutput(asc, s);
    }
  }

  lemma NoKeys<C>(p: Projected<C>)
    ensures Sortable(p, []) && KeysOf(p, []) == []
  {
  }

  lemma KeyedByTerms<C>(p: Projected<C>, orderBy: seq<OrderByExpr<C>>, asc: seq<Option<bool>>)
    requires Sortable(p, orderBy) && |asc| == |orderBy| && forall i | 0 <= i < |asc| :: asc[i] == orderBy[i].asc
    ensures KeyedBy(asc, KeyedRow(KeysOf(p, orderBy), p.row))
  {
  }

  /** Every projected row equals one that is kept. */
  lemma KeptRepresents<C>(rows: seq<Projected<C>>, orderBy: seq<OrderByExpr<C>>, distinct: bool, i: nat)
    returns (k: nat)
    requires AllSortable(rows, orderBy) && i < |rows|
    ensures var kept := Kept(SortedRows(rows, orderBy), distinct);
            k < |kept| && RowEq(kept[k], rows[i].row)
  {
    hide Sortable, RowEq, StableSort;
    SortedInOrder(rows, orderBy);
    var s, keyed := SortedRows(rows, orderBy), Keyed(rows, orderBy);
    assert keyed[i] in multiset(keyed);
    assert keyed[i] in s;
    var j :| 0 <= j < |s| && s[j] == keyed[i];
    assert RowsOf(s)[j] == rows[i].row;
    if distinct {
      k := DistinctOutputRepresents(RowsOf(s), j);
    } else {
      k := j;
      RowsEqualExactlyWhenHashedAlike(rows[i].row, rows[i].row);
    }
  }

  /** The rows at these positions stand in the order of their keys. */
  ghost predicate InOrder(sorted: seq<KeyedRow>, at: seq<nat>)
    requires forall i | 0 <= i < |at| :: at[i] < |sorted|
  {
    forall i, j | 0 <= i < j < |at| :: SortBy(sorted[at[i]].keys, sorted[at[j]].keys) != Greater
  }

  ghost predicate NoEqualRows(rows: seq<Row>) { forall i, j | 0 <= i < j < |rows| :: !RowEq(rows[i], rows[j]) }

  ghost predicate HoldsEqual(kept: seq<Row>, row: Row) { exists k | 0 <= k < |kept| :: RowEq(kept[k], row) }

  ghost predicate Represents<C>(kept: seq<Row>, rows: seq<Projected<C>>) {
    forall i | 0 <= i < |rows| :: HoldsEqual(kept, rows[i].row)
  }

  lemma WindowHasNoEqualRows(sorted: seq<KeyedRow>, lo: nat, hi: nat)
    requires lo <= hi <= |Kept(sorted, true)|
    ensures NoEqualRows(Kept(sorted, true)[lo..hi])
  {
    hide RowEq, Kept;
    var kept := Kept(sorted, true);
    forall i, j | 0 <= i < j < hi - lo ensures !RowEq(kept[lo..hi][i], kept[lo..hi][j]) {
      KeptDistinct(sorted, lo + i, lo + j);
    }
  }

  lemma KeptRepresentsAll<C>(rows: seq<Projected<C>>, orderBy: seq<OrderByExpr<C>>, distinct: bool)
    requires AllSortable(rows, orderBy)
    ensures Represents(Kept(SortedRows(rows, orderBy), distinct), rows)
  {
    hide Sortable, Kept, SortedRows;
    forall i | 0 <= i < |rows| ensures HoldsEqual(Kept(SortedRows(rows, orderBy), distinct), rows[i].row) {
      var k := KeptRepresents(rows, orderBy, distinct, i);
    }
  }

  function Directions<C>(orderBy: seq<OrderByExpr<C>>): (asc: seq<Option<bool>>)
    ensures |asc| == |orderBy| && forall i | 0 <= i < |asc| :: asc[i] == orderBy[i].asc
  {
    seq(|orderBy|, i requires 0 <= i < |orderBy| => orderBy[i].asc)
  }

  lemma SortedIsKeyed<C>(rows: seq<Projected<C>>, orderBy: seq<OrderByExpr<C>>, k: nat)
    requires AllSortable(rows, orderBy) && k < |SortedRows(rows, orderBy)|
    ensures KeyedBy(Directions(orderBy), SortedRows(rows, orderBy)[k])
  {
    hide Sortable, KeyedBy;
    SortedInOrder(rows, orderBy);
    hide SortedRows;
    var s, keyed := SortedRows(rows, orderBy), Keyed(rows, orderBy);
    assert s[k] in multiset(s);
    assert s[k] in keyed;
    var i :| 0 <= i < |keyed| && keyed[i] == s[k];
    KeyedByTerms(rows[i], orderBy, Directions(orderBy));
  }

  /** The whole pipeline, on the result of `Finish`: its rows stand in the order that ORDER BY asks for;
    with DISTINCT no two of them are equal; and before the window every projected row is represented. */
  lemma FinishedRows<C>(
      rows: seq<Projected<C>>, orderBy: seq<OrderByExpr<C>>, distinct: bool, limit: Option<nat>, offset: Option<nat>)
    returns (at: seq<nat>)
    requires AllSortable(rows, orderBy)
    ensures var s := SortedRows(rows, orderBy);
            var out := ApplyLimit(Kept(s, distinct), limit, offset);
            && TakenFrom(out, s, at) && InOrder(s, at)
            && (forall i, j | 0 <= i < j < |at| :: InDirection(Directions(orderBy), s[at[i]].keys, s[at[j]].keys))
            && (distinct ==> NoEqualRows(out))
            && Represents(Kept(s, distinct), rows)
  {
    hide Sortable, StableSort, Kept, SortBy, SortedRows, ApplyLimit, NoEqualRows, Represents, KeyedBy, InDirection;
    SortedInOrder(rows, orderBy);
    KeptRepresentsAll(rows, orderBy, distinct);
    var s := SortedRows(rows, orderBy);
    var kept := Kept(s, distinct);
    var all := KeptIsTaken(s, distinct);
    var lo, hi := WindowIsSlice(kept, limit, offset);
    at := all[lo..hi];
    TakenSlice(kept, s, all, lo, hi);
    TakenInOrder(kept[lo..hi], s, at);
    forall i, j | 0 <= i < j < |at| ensures InDirection(Directions(orderBy), s[at[i]].keys, s[at[j]].keys) {
      assert SortBy(s[at[i]].keys, s[at[j]].keys) != Greater;
      SortedIsKeyed(rows, orderBy, at[i]);
      SortedIsKeyed(rows, orderBy, at[j]);
      SortedInDirection(Directions(orderBy), s[at[i]], s[at[j]]);
    }
    if distinct { WindowHasNoEqualRows(s, lo, hi); }
  }

  lemma KeptDistinct(sorted: seq<KeyedRow>, i: nat, j: nat)
    requires i < j < |Kept(sorted, true)|
    ensures !RowEq(Kept(sorted, true)[i], Kept(sorted, true)[j])
  {
    DistinctOutputHasNoEqualRows(RowsOf(sorted), i, j);
  }
}

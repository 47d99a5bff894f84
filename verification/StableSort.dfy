/** Stable sorting by a three-way comparison, as `slice::sort_by` promises it. */
module StableSorting {
  import opened KeyOrder

  ghost predicate TotalPreorder<T(!new)>(c: (T, T) -> Ordering) {
    && (forall a, b :: c(a, b) == Reverse(c(b, a)))
    && (forall a, b, d :: c(a, b) != Greater && c(b, d) != Greater ==> c(a, d) != Greater)
  }

  ghost predicate Sorted<T>(c: (T, T) -> Ordering, s: seq<T>) {
    forall i, j | 0 <= i < j < |s| :: c(s[i], s[j]) != Greater
  }

  function Insert<T>(c: (T, T) -> Ordering, x: T, s: seq<T>): seq<T> {
    if s == [] then [x]
    else if c(x, s[0]) != Greater then [x] + s
    else [s[0]] + Insert(c, x, s[1..])
  }

  function StableSort<T>(c: (T, T) -> Ordering, s: seq<T>): seq<T> {
    if s == [] then [] else Insert(c, s[0], StableSort(c, s[1..]))
  }

  /** The elements that tie with `x`, in order. */
  function Ties<T>(c: (T, T) -> Ordering, x: T, s: seq<T>): seq<T> {
    if s == [] then []
    else (if c(x, s[0]) == Equal then [s[0]] else []) + Ties(c, x, s[1..])
  }

  /** What a stable sort promises: an ordered permutation in which ties keep their order. */
  ghost predicate IsStableSort<T(!new)>(c: (T, T) -> Ordering, s: seq<T>, out: seq<T>) {
    && Sorted(c, out)
    && multiset(out) == multiset(s)
    && forall x :: Ties(c, x, out) == Ties(c, x, s)
  }

  // ----- StableSort meets the promise -----

  lemma {:induction false} InsertElements<T(!new)>(c: (T, T) -> Ordering, x: T, s: seq<T>)
    ensures multiset(Insert(c, x, s)) == multiset([x] + s)
    ensures forall y :: y in Insert(c, x, s) <==> y == x || y in s
  {
    if s != [] && c(x, s[0]) == Greater {
      InsertElements(c, x, s[1..]);
      assert s == [s[0]] + s[1..];
    }
  }

  lemma {:induction false} InsertSorted<T(!new)>(c: (T, T) -> Ordering, x: T, s: seq<T>)
    requires TotalPreorder(c) && Sorted(c, s)
    ensures Sorted(c, Insert(c, x, s))
  {
    if s != [] {
      if c(x, s[0]) == Greater {
        InsertSorted(c, x, s[1..]);
        InsertElements(c, x, s[1..]);
        var r := Insert(c, x, s[1..]);
        forall j | 0 <= j < |r| ensures c(s[0], r[j]) != Greater {
          assert r[j] in r;
        }
      } else {
        forall j | 0 <= j < |s| ensures c(x, s[j]) != Greater {
          assert j == 0 || c(s[0], s[j]) != Greater;
        }
      }
    }
  }

  /** What comes after an element does not tie with what ties with it. */
  lemma TiesWithOne<T(!new)>(c: (T, T) -> Ordering, y: T, x: T, z: T)
    requires TotalPreorder(c) && c(x, z) == Greater
    ensures c(y, x) == Equal ==> c(y, z) != Equal
  {
    assert c(x, y) == Reverse(c(y, x));
    assert c(x, y) != Greater && c(y, z) != Greater ==> c(x, z) != Greater;
  }

  lemma TiesPrepend<T>(c: (T, T) -> Ordering, y: T, x: T, s: seq<T>)
    ensures Ties(c, y, [x] + s) == (if c(y, x) == Equal then [x] else []) + Ties(c, y, s)
  {
    assert ([x] + s)[1..] == s;
  }

  lemma {:induction false} InsertTies<T(!new)>(c: (T, T) -> Ordering, y: T, x: T, s: seq<T>)
    requires TotalPreorder(c)
    ensures Ties(c, y, Insert(c, x, s)) == Ties(c, y, [x] + s)
  {
    hide TotalPreorder, Ties;
    if s == [] {
      assert [x] + s == [x];
    } else if c(x, s[0]) == Greater {
      var z, rest := s[0], s[1..];
      InsertTies(c, y, x, rest);
      TiesPrepend(c, y, z, Insert(c, x, rest));
      TiesPrepend(c, y, x, rest);
      TiesPrepend(c, y, x, s);
      TiesPrepend(c, y, z, rest);
      assert s == [z] + rest;
      TiesWithOne(c, y, x, z);
    }
  }

  lemma {:induction false} StableSortElements<T(!new)>(c: (T, T) -> Ordering, s: seq<T>)
    ensures multiset(StableSort(c, s)) == multiset(s)
    ensures forall y :: y in StableSort(c, s) <==> y in s
  {
    if s != [] {
      StableSortElements(c, s[1..]);
      InsertElements(c, s[0], StableSort(c, s[1..]));
      assert s == [s[0]] + s[1..];
    }
  }

  lemma {:induction false} StableSortSorted<T(!new)>(c: (T, T) -> Ordering, s: seq<T>)
    requires TotalPreorder(c)
    ensures Sorted(c, StableSort(c, s))
  {
    if s != [] {
      StableSortSorted(c, s[1..]);
      InsertSorted(c, s[0], StableSort(c, s[1..]));
    }
  }

  lemma {:induction false} StableSortTies<T(!new)>(c: (T, T) -> Ordering, x: T, s: seq<T>)
    requires TotalPreorder(c)
    ensures Ties(c, x, StableSort(c, s)) == Ties(c, x, s)
  {
    if s != [] {
      var r := StableSort(c, s[1..]);
      StableSortTies(c, x, s[1..]);
      InsertTies(c, x, s[0], r);
      assert ([s[0]] + r)[1..] == r;
    }
  }

  lemma StableSortMeetsPromise<T(!new)>(c: (T, T) -> Ordering, s: seq<T>)
    requires TotalPreorder(c)
    ensures IsStableSort(c, s, StableSort(c, s))
  {
    StableSortElements(c, s);
    StableSortSorted(c, s);
    forall x ensures Ties(c, x, StableSort(c, s)) == Ties(c, x, s) {
      StableSortTies(c, x, s);
    }
  }

  // ----- nothing else meets it -----

  lemma {:induction false} TiesMember<T(!new)>(c: (T, T) -> Ordering, x: T, s: seq<T>, i: nat)
    requires i < |s| && c(x, s[i]) == Equal
    ensures Ties(c, x, s) != []
  {
    if i > 0 {
      TiesMember(c, x, s[1..], i - 1);
    }
  }

  lemma {:induction false} TiesFirst<T(!new)>(c: (T, T) -> Ordering, x: T, s: seq<T>) returns (i: nat)
    requires Ties(c, x, s) != []
    ensures i < |s| && s[i] == Ties(c, x, s)[0] && c(x, s[i]) == Equal
  {
    if c(x, s[0]) == Equal {
      i := 0;
    } else {
      var k := TiesFirst(c, x, s[1..]);
      i := k + 1;
    }
  }

  /** If two sorted sequences tie alike, the head of one sorts no later than the head of the other. */
  lemma HeadNoLater<T(!new)>(c: (T, T) -> Ordering, a: seq<T>, b: seq<T>)
    requires TotalPreorder(c) && Sorted(c, b)
    requires forall x :: Ties(c, x, a) == Ties(c, x, b)
    requires a != []
    ensures b != [] && c(b[0], a[0]) != Greater
  {
    TiesMember(c, a[0], a, 0);
    var i := TiesFirst(c, a[0], b);
    assert i > 0 ==> c(b[0], b[i]) != Greater;
  }

  /** A sorted sequence is determined by its ties. */
  lemma {:induction false} SortedDeterminedByTies<T(!new)>(c: (T, T) -> Ordering, a: seq<T>, b: seq<T>)
    requires TotalPreorder(c) && Sorted(c, a) && Sorted(c, b)
    requires forall x :: Ties(c, x, a) == Ties(c, x, b)
    ensures a == b
  {
    if a == [] {
      if b != [] { HeadNoLater(c, b, a); }
    } else {
      HeadNoLater(c, a, b);
      HeadNoLater(c, b, a);
      assert c(a[0], b[0]) == Equal && c(a[0], a[0]) == Equal;
      assert Ties(c, a[0], a)[0] == a[0] && Ties(c, a[0], b)[0] == b[0];
      forall x ensures Ties(c, x, a[1..]) == Ties(c, x, b[1..]) {
        var k := if c(x, a[0]) == Equal then 1 else 0;
        assert Ties(c, x, a[1..]) == Ties(c, x, a)[k..] && Ties(c, x, b[1..]) == Ties(c, x, b)[k..];
      }
      SortedDeterminedByTies(c, a[1..], b[1..]);
    }
  }

  /** Any implementation that keeps the promise computes StableSort. */
  lemma StableSortUnique<T(!new)>(c: (T, T) -> Ordering, s: seq<T>, out: seq<T>)
    requires TotalPreorder(c)
    requires IsStableSort(c, s, out)
    ensures out == StableSort(c, s)
  {
    StableSortMeetsPromise(c, s);
    SortedDeterminedByTies(c, out, StableSort(c, s));
  }

  // ----- sorting by several comparisons -----

  function Lex<T>(c1: (T, T) -> Ordering, c2: (T, T) -> Ordering): (T, T) -> Ordering {
    (a, b) => Then(c1(a, b), c2(a, b))
  }

  lemma LexPreorder<T(!new)>(c1: (T, T) -> Ordering, c2: (T, T) -> Ordering)
    requires TotalPreorder(c1) && TotalPreorder(c2)
    ensures TotalPreorder(Lex(c1, c2))
  {
    var l := Lex(c1, c2);
    forall a, b, d | l(a, b) != Greater && l(b, d) != Greater ensures l(a, d) != Greater {
      assert c1(a, b) != Greater && c1(b, d) != Greater;
      if c1(a, d) == Equal {
        assert c1(d, a) != Greater;
        assert c1(b, a) != Greater && c1(d, b) != Greater;
      }
    }
  }

  /** Insertion looks only at how `x` compares with the elements. */
  lemma {:induction false} InsertCongruent<T(!new)>(c: (T, T) -> Ordering, c': (T, T) -> Ordering, x: T, s: seq<T>)
    requires forall y | y in s :: c(x, y) == Greater <==> c'(x, y) == Greater
    ensures Insert(c, x, s) == Insert(c', x, s)
  {
    if s != [] {
      InsertCongruent(c, c', x, s[1..]);
    }
  }

  lemma {:induction false} StableSortCongruent<T(!new)>(c: (T, T) -> Ordering, c': (T, T) -> Ordering, s: seq<T>)
    requires forall x, y | x in s && y in s :: c(x, y) == c'(x, y)
    ensures StableSort(c, s) == StableSort(c', s)
  {
    if s != [] {
      var r := s[1..];
      assert forall x | x in r :: x in s;
      StableSortCongruent(c, c', r);
      StableSortElements(c, r);
      var t := StableSort(c, r);
      forall y | y in t ensures c(s[0], y) == c'(s[0], y) {
        assert y in r;
      }
      InsertCongruent(c, c', s[0], t);
    }
  }

  /** On a sequence already sorted by `c2`, sorting by `c1` is sorting lexicographically. */
  lemma {:induction false} SortTwice<T(!new)>(c1: (T, T) -> Ordering, c2: (T, T) -> Ordering, t: seq<T>)
    requires TotalPreorder(c1) && TotalPreorder(c2) && Sorted(c2, t)
    ensures StableSort(c1, t) == StableSort(Lex(c1, c2), t)
  {
    if t != [] {
      SortTwice(c1, c2, t[1..]);
      StableSortElements(c1, t[1..]);
      forall y | y in t[1..] ensures c2(t[0], y) != Greater {
        var i :| 0 <= i < |t[1..]| && t[1..][i] == y;
        assert c2(t[0], t[i + 1]) != Greater;
      }
      InsertCongruent(c1, Lex(c1, c2), t[0], StableSort(c1, t[1..]));
    }
  }

  /** The lexicographic ties are the `c1` ties among the `c2` ties. */
  lemma {:induction false} LexTies<T(!new)>(c1: (T, T) -> Ordering, c2: (T, T) -> Ordering, x: T, s: seq<T>)
    ensures Ties(Lex(c1, c2), x, s) == Ties(c1, x, Ties(c2, x, s))
  {
    if s != [] {
      LexTies(c1, c2, x, s[1..]);
      var t := Ties(c2, x, s[1..]);
      if c2(x, s[0]) == Equal {
        assert ([s[0]] + t)[1..] == t && Ties(c2, x, s) == [s[0]] + t;
      } else {
        assert Ties(c2, x, s) == t;
      }
    }
  }

  /** Stable-sorting by the less significant comparison first and the more significant one last is
    stable-sorting by their lexicographic combination. */
  lemma SortBySuccessiveComparisons<T(!new)>(c1: (T, T) -> Ordering, c2: (T, T) -> Ordering, s: seq<T>)
    requires TotalPreorder(c1) && TotalPreorder(c2)
    ensures StableSort(c1, StableSort(c2, s)) == StableSort(Lex(c1, c2), s)
  {
    var l, t := Lex(c1, c2), StableSort(c2, s);
    LexPreorder(c1, c2);
    StableSortMeetsPromise(c2, s);
    SortTwice(c1, c2, t);
    StableSortMeetsPromise(l, t);
    forall x ensures Ties(l, x, StableSort(l, t)) == Ties(l, x, s) {
      LexTies(c1, c2, x, t);
      LexTies(c1, c2, x, s);
    }
    StableSortUnique(l, s, StableSort(l, t));
  }
}

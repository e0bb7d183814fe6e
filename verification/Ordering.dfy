/** Sorting as Go's `sort` package provides it, and the order on Go strings. */
module Ordering {
  import opened GoTypes

  ghost predicate TotalPreorder<T(!new)>(leq: (T, T) -> bool) {
    && (forall a, b :: leq(a, b) || leq(b, a))
    && (forall a, b, c :: leq(a, b) && leq(b, c) ==> leq(a, c))
  }

  ghost predicate Sorted<T>(leq: (T, T) -> bool, s: seq<T>) {
    forall i, j :: 0 <= i < j < |s| ==> leq(s[i], s[j])
  }

  ghost predicate Distinct<T>(s: seq<T>) {
    forall i, j :: 0 <= i < j < |s| ==> s[i] != s[j]
  }

  ghost function Elements<T>(s: seq<T>): set<T> {
    set x | x in s
  }

  function Insert<T>(leq: (T, T) -> bool, x: T, s: seq<T>): (r: seq<T>)
    ensures multiset(r) == multiset(s) + multiset{x}
  {
    if s == [] || leq(x, s[0]) then
      [x] + s
    else
      assert s == [s[0]] + s[1..];
      [s[0]] + Insert(leq, x, s[1..])
  }

  lemma {:induction false} InsertSorted<T(!new)>(leq: (T, T) -> bool, x: T, s: seq<T>)
    requires TotalPreorder(leq) && Sorted(leq, s)
    ensures Sorted(leq, Insert(leq, x, s))
  {
    if s == [] || leq(x, s[0]) {
    } else {
      InsertSorted(leq, x, s[1..]);
      var rest := Insert(leq, x, s[1..]);
      forall y | y in rest
        ensures leq(s[0], y)
      {
        assert y in multiset(rest);
        assert y == x || y in s[1..];
      }
    }
  }

  /** The sorted permutation that a Go sort yields when the order tells the elements apart. */
  function InsertionSort<T>(leq: (T, T) -> bool, s: seq<T>): (r: seq<T>)
    ensures multiset(r) == multiset(s)
  {
    if s == [] then
      []
    else
      assert s == [s[0]] + s[1..];
      Insert(leq, s[0], InsertionSort(leq, s[1..]))
  }

  lemma {:induction false} InsertionSortSorted<T(!new)>(leq: (T, T) -> bool, s: seq<T>)
    requires TotalPreorder(leq)
    ensures Sorted(leq, InsertionSort(leq, s))
  {
    if s != [] {
      InsertionSortSorted(leq, s[1..]);
      InsertSorted(leq, s[0], InsertionSort(leq, s[1..]));
    }
  }

  /** `sort.Slice`, `sort.Strings` and `sort.Ints`: the result is some sorted permutation, and callers
      may rely on nothing else (Go does not promise a stable sort). */
  method Sort<T(!new)>(leq: (T, T) -> bool, s: seq<T>) returns (r: seq<T>)
    requires TotalPreorder(leq)
    ensures Sorted(leq, r)
    ensures multiset(r) == multiset(s)
  {
    r := [];
    for i := 0 to |s|
      invariant Sorted(leq, r)
      invariant multiset(r) == multiset(s[..i])
    {
      InsertSorted(leq, s[i], r);
      r := Insert(leq, s[i], r);
      assert s[..i + 1] == s[..i] + [s[i]];
    }
    assert s[..|s|] == s;
  }

  lemma DropFromBoth<T>(a: seq<T>, l: seq<T>, r: seq<T>, x: T)
    requires multiset(a + [x]) == multiset(l + [x] + r)
    ensures multiset(a) == multiset(l + r)
  {
    assert multiset(a) == multiset(a + [x]) - multiset{x};
    assert multiset(l + r) == multiset(l + [x] + r) - multiset{x};
  }

  ghost predicate TellsApartIn<T(!new)>(leq: (T, T) -> bool, s: seq<T>) {
    forall x, y :: x in s && y in s && leq(x, y) && leq(y, x) ==> x == y
  }

  lemma FirstIsLeast<T(!new)>(leq: (T, T) -> bool, s: seq<T>, x: T)
    requires Sorted(leq, s) && x in s && leq(x, x)
    ensures leq(s[0], x)
  {
    var k :| 0 <= k < |s| && s[k] == x;
  }

  lemma SameFirst<T(!new)>(leq: (T, T) -> bool, a: seq<T>, b: seq<T>)
    requires TotalPreorder(leq) && Sorted(leq, a) && Sorted(leq, b)
    requires a != [] && multiset(a) == multiset(b)
    requires TellsApartIn(leq, a)
    ensures b != [] && a[0] == b[0]
  {
    assert |multiset(a)| == |multiset(b)|;
    assert a[0] in multiset(b) && b[0] in multiset(a);
    assert leq(a[0], a[0]) && leq(b[0], b[0]);
    FirstIsLeast(leq, a, b[0]);
    FirstIsLeast(leq, b, a[0]);
  }

  lemma SameRest<T>(a: seq<T>, b: seq<T>)
    requires a != [] && b != [] && a[0] == b[0] && multiset(a) == multiset(b)
    ensures multiset(a[1..]) == multiset(b[1..])
  {
    assert a == [a[0]] + a[1..] && b == [b[0]] + b[1..];
    assert multiset(a[1..]) == multiset(a) - multiset{a[0]};
    assert multiset(b[1..]) == multiset(b) - multiset{b[0]};
  }

  lemma Rejoin<T>(a: seq<T>, b: seq<T>)
    requires a != [] && b != [] && a[0] == b[0] && a[1..] == b[1..]
    ensures a == b
  {
    assert a == [a[0]] + a[1..] && b == [b[0]] + b[1..];
  }

  lemma NoElements<T>(s: seq<T>)
    requires multiset(s) == multiset([])
    ensures s == []
  {
    assert |multiset(s)| == 0;
  }

  lemma SortedRest<T(!new)>(leq: (T, T) -> bool, s: seq<T>)
    requires Sorted(leq, s) && s != []
    ensures Sorted(leq, s[1..])
    ensures TellsApartIn(leq, s) ==> TellsApartIn(leq, s[1..])
  {
  }

  /** A list has one sorted permutation when the order tells its elements apart. */
  lemma {:induction false} SortedUnique<T(!new)>(leq: (T, T) -> bool, a: seq<T>, b: seq<T>)
    requires TotalPreorder(leq) && Sorted(leq, a) && Sorted(leq, b)
    requires multiset(a) == multiset(b)
    requires TellsApartIn(leq, a)
    ensures a == b
  {
    if a == [] {
      NoElements(b);
    } else {
      SameFirst(leq, a, b);
      SameRest(a, b);
      SortedRest(leq, a);
      SortedRest(leq, b);
      SortedUnique(leq, a[1..], b[1..]);
      Rejoin(a, b);
    }
  }

  lemma DistinctMultiset<T>(s: seq<T>)
    requires Distinct(s)
    ensures multiset(s) == multiset(Elements(s))
  {
    forall x
      ensures multiset(s)[x] == if x in s then 1 else 0
    {
      DistinctCount(s, x);
    }
  }

  lemma {:induction false} DistinctCount<T>(s: seq<T>, x: T)
    requires Distinct(s)
    ensures multiset(s)[x] == if x in s then 1 else 0
  {
    if s != [] {
      assert s == [s[0]] + s[1..];
      DistinctCount(s[1..], x);
    }
  }

  lemma {:induction false} DistinctFromMultiset<T>(s: seq<T>)
    requires forall x :: multiset(s)[x] <= 1
    ensures Distinct(s)
  {
    if s != [] {
      assert s == [s[0]] + s[1..];
      forall x
        ensures multiset(s[1..])[x] <= 1
      {
        assert multiset(s)[x] == multiset{s[0]}[x] + multiset(s[1..])[x];
      }
      DistinctFromMultiset(s[1..]);
      assert multiset(s)[s[0]] == 1 + multiset(s[1..])[s[0]];
      assert s[0] !in multiset(s[1..]);
    }
  }

  /** The bytewise order that Go's `<` gives on strings. */
  predicate LexLeq(a: Bytes, b: Bytes) {
    a == [] || (b != [] && (a[0] < b[0] || (a[0] == b[0] && LexLeq(a[1..], b[1..]))))
  }

  lemma {:induction false} LexTotal(a: Bytes, b: Bytes)
    ensures LexLeq(a, b) || LexLeq(b, a)
  {
    if a != [] && b != [] && a[0] == b[0] {
      LexTotal(a[1..], b[1..]);
    }
  }

  lemma {:induction false} LexAntisymmetric(a: Bytes, b: Bytes)
    requires LexLeq(a, b) && LexLeq(b, a)
    ensures a == b
  {
    if a != [] {
      LexAntisymmetric(a[1..], b[1..]);
      assert a == [a[0]] + a[1..] && b == [b[0]] + b[1..];
    }
  }

  lemma {:induction false} LexTransitive(a: Bytes, b: Bytes, c: Bytes)
    requires LexLeq(a, b) && LexLeq(b, c)
    ensures LexLeq(a, c)
  {
    if a != [] && a[0] == c[0] {
      LexTransitive(a[1..], b[1..], c[1..]);
    }
  }

  /** The same order, by position: one string starts the other, or the first byte that differs is smaller. */
  ghost predicate Bytewise(a: Bytes, b: Bytes) {
    a <= b || exists k :: SmallerAt(a, b, k)
  }

  ghost predicate SmallerAt(a: Bytes, b: Bytes, k: int) {
    0 <= k < |a| && k < |b| && a[..k] == b[..k] && a[k] < b[k]
  }

  lemma {:induction false} LexIsBytewise(a: Bytes, b: Bytes)
    ensures LexLeq(a, b) <==> Bytewise(a, b)
  {
    if a != [] && b != [] {
      LexIsBytewise(a[1..], b[1..]);
      if a[0] < b[0] {
        assert SmallerAt(a, b, 0);
      } else if a[0] == b[0] {
        BytewiseRest(a, b);
      } else {
        if Bytewise(a, b) {
          SmallerStart(a, b);
        }
      }
    }
  }

  lemma SmallerStart(a: Bytes, b: Bytes)
    requires a != [] && b != [] && Bytewise(a, b)
    ensures a[0] <= b[0]
  {
    if k :| SmallerAt(a, b, k) && k > 0 {
      assert a[..k][0] == b[..k][0];
    }
  }

  lemma BytewiseRest(a: Bytes, b: Bytes)
    requires a != [] && b != [] && a[0] == b[0]
    ensures Bytewise(a, b) <==> Bytewise(a[1..], b[1..])
  {
    var x, y := a[1..], b[1..];
    assert a == [a[0]] + x && b == [b[0]] + y;
    if k :| SmallerAt(x, y, k) {
      assert a[..k + 1] == [a[0]] + x[..k] && b[..k + 1] == [b[0]] + y[..k];
      assert SmallerAt(a, b, k + 1);
    }
    if k :| SmallerAt(a, b, k) {
      assert k > 0 && x[..k - 1] == a[..k][1..] && y[..k - 1] == b[..k][1..];
      assert SmallerAt(x, y, k - 1);
    }
  }

  /** Each string of the list stands before the later ones. */
  ghost predicate InByteOrder(s: seq<Bytes>) {
    forall i, j :: 0 <= i < j < |s| ==> Bytewise(s[i], s[j])
  }

  lemma SortedInByteOrder(s: seq<Bytes>)
    requires Sorted(LexLeq, s)
    ensures InByteOrder(s)
  {
    forall i, j | 0 <= i < j < |s|
      ensures Bytewise(s[i], s[j])
    {
      LexIsBytewise(s[i], s[j]);
    }
  }

  lemma LexTotalPreorder()
    ensures TotalPreorder(LexLeq)
    ensures forall a, b :: LexLeq(a, b) && LexLeq(b, a) ==> a == b
  {
    forall a, b
      ensures LexLeq(a, b) || LexLeq(b, a)
    {
      LexTotal(a, b);
    }
    forall a, b, c | LexLeq(a, b) && LexLeq(b, c)
      ensures LexLeq(a, c)
    {
      LexTransitive(a, b, c);
    }
    forall a, b | LexLeq(a, b) && LexLeq(b, a)
      ensures a == b
    {
      LexAntisymmetric(a, b);
    }
  }

  predicate IntLeq(a: int, b: int) {
    a <= b
  }

  ghost predicate TellsApart<T(!new)>(leq: (T, T) -> bool) {
    forall a, b :: leq(a, b) && leq(b, a) ==> a == b
  }

  /** The increasing list of the elements of a finite set. */
  ghost function SortedList<T(!new)>(leq: (T, T) -> bool, s: set<T>): (r: seq<T>)
    requires TotalPreorder(leq) && TellsApart(leq)
    ensures Sorted(leq, r)
    ensures multiset(r) == multiset(s)
  {
    if s == {} then
      []
    else
      var x :| x in s;
      assert s == (s - {x}) + {x};
      InsertSorted(leq, x, SortedList(leq, s - {x}));
      Insert(leq, x, SortedList(leq, s - {x}))
  }

  /** A sorted, duplicate-free list is the increasing list of its own elements. */
  lemma SortedListUnique<T(!new)>(leq: (T, T) -> bool, r: seq<T>)
    requires TotalPreorder(leq) && TellsApart(leq)
    requires Sorted(leq, r) && Distinct(r)
    ensures r == SortedList(leq, Elements(r))
  {
    DistinctMultiset(r);
    SortedUnique(leq, r, SortedList(leq, Elements(r)));
  }

  /** The increasing list has no duplicates and exactly the elements of the set. */
  lemma SortedListElements<T(!new)>(leq: (T, T) -> bool, s: set<T>)
    requires TotalPreorder(leq) && TellsApart(leq)
    ensures Distinct(SortedList(leq, s))
    ensures Elements(SortedList(leq, s)) == s
    ensures |SortedList(leq, s)| == |s|
  {
    ListOfSet(SortedList(leq, s), s);
  }

  lemma PairSorted<T>(leq: (T, T) -> bool, a: T, b: T, r: seq<T>)
    requires leq(a, b) && r == if a == b then [a] else [a, b]
    ensures Sorted(leq, r) && Distinct(r) && Elements(r) == {a, b}
  {
    assert a in r && b in r;
  }

  lemma SortedListOfTwo<T(!new)>(leq: (T, T) -> bool, a: T, b: T)
    requires TotalPreorder(leq) && TellsApart(leq) && leq(a, b)
    ensures SortedList(leq, {a, b}) == if a == b then [a] else [a, b]
  {
    var r := if a == b then [a] else [a, b];
    PairSorted(leq, a, b, r);
    SortedListUnique(leq, r);
  }

  lemma ListOfSet<T>(r: seq<T>, s: set<T>)
    requires multiset(r) == multiset(s)
    ensures Distinct(r) && Elements(r) == s && |r| == |s|
  {
    forall x
      ensures x in r <==> x in s
    {
      assert x in r <==> x in multiset(r);
    }
    DistinctFromMultiset(r);
    assert |multiset(r)| == |multiset(s)|;
  }

  /** The keys of a Go map, gathered in whatever order `range` yields them and then sorted. */
  method SortedKeys<T(!new)>(leq: (T, T) -> bool, s: set<T>) returns (r: seq<T>)
    requires TotalPreorder(leq) && TellsApart(leq)
    ensures r == SortedList(leq, s)
  {
    var keys: seq<T> := [];
    var rest := s;
    while rest != {}
      invariant multiset(keys) + multiset(rest) == multiset(s)
      decreases rest
    {
      var k :| k in rest;
      keys := keys + [k];
      rest := rest - {k};
    }
    r := Sort(leq, keys);
    SortedUnique(leq, r, SortedList(leq, s));
  }

  /** `sort.Strings`. */
  method SortStrings(s: seq<Bytes>) returns (r: seq<Bytes>)
    ensures r == InsertionSort(LexLeq, s)
    ensures Elements(r) == Elements(s) && multiset(r) == multiset(s) && InByteOrder(r)
  {
    LexTotalPreorder();
    r := Sort(LexLeq, s);
    InsertionSortSorted(LexLeq, s);
    SortedUnique(LexLeq, r, InsertionSort(LexLeq, s));
    SortedInByteOrder(r);
    forall x
      ensures x in r <==> x in s
    {
      assert x in r <==> x in multiset(r);
    }
  }

  /** A function that is injective on a set keeps its size. */
  lemma {:induction false} ImageSize<A, B>(f: A -> B, s: set<A>, image: set<B>)
    requires forall x, y :: x in s && y in s && f(x) == f(y) ==> x == y
    requires image == set x | x in s :: f(x)
    ensures |image| == |s|
  {
    if s != {} {
      var x :| x in s;
      var rest := set y | y in s - {x} :: f(y);
      ImageSize(f, s - {x}, rest);
      assert f(x) !in rest;
      assert image == rest + {f(x)};
    }
  }
}

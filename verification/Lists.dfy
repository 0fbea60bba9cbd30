/** The list functions of the Haskell prelude that the automaton minimizer uses. */
module Lists {
  import opened Wrappers

  function Filter<T>(xs: seq<T>, p: T -> bool): seq<T> {
    if xs == [] then [] else (if p(xs[0]) then [xs[0]] else []) + Filter(xs[1..], p)
  }

  lemma {:induction false} FilterIn<T>(xs: seq<T>, p: T -> bool, x: T)
    ensures x in Filter(xs, p) <==> x in xs && p(x)
  {
    if xs != [] { FilterIn(xs[1..], p, x); }
  }

  lemma {:induction false} FilterShorter<T>(xs: seq<T>, p: T -> bool)
    ensures |Filter(xs, p)| <= |xs|
  {
    if xs != [] { FilterShorter(xs[1..], p); }
  }

  /** A stronger condition keeps fewer elements, or the same list. */
  lemma {:induction false} FilterStronger<T>(xs: seq<T>, p: T -> bool, q: T -> bool)
    requires forall x :: x in xs && q(x) ==> p(x)
    ensures |Filter(xs, q)| <= |Filter(xs, p)|
    ensures |Filter(xs, q)| == |Filter(xs, p)| ==> Filter(xs, q) == Filter(xs, p)
  {
    if xs != [] { FilterStronger(xs[1..], p, q); }
  }

  lemma {:induction false} FilterSame<T>(xs: seq<T>, p: T -> bool, q: T -> bool)
    requires forall x :: x in xs ==> p(x) == q(x)
    ensures Filter(xs, p) == Filter(xs, q)
  {
    if xs != [] { FilterSame(xs[1..], p, q); }
  }

  function Map<T, U>(xs: seq<T>, f: T -> U): (ys: seq<U>)
    ensures |ys| == |xs| && forall i :: 0 <= i < |xs| ==> ys[i] == f(xs[i])
  {
    if xs == [] then [] else [f(xs[0])] + Map(xs[1..], f)
  }

  lemma MapIn<T, U>(xs: seq<T>, f: T -> U, y: U)
    ensures y in Map(xs, f) <==> exists x :: x in xs && y == f(x)
  {
    if y in Map(xs, f) {
      var i :| 0 <= i < |xs| && Map(xs, f)[i] == y;
      assert xs[i] in xs;
    }
    if x :| x in xs && y == f(x) {
      var i :| 0 <= i < |xs| && xs[i] == x;
      assert Map(xs, f)[i] == y;
    }
  }

  function FlatMap<T, U>(xs: seq<T>, f: T -> seq<U>): seq<U> {
    if xs == [] then [] else f(xs[0]) + FlatMap(xs[1..], f)
  }

  lemma {:induction false} FlatMapIn<T, U>(xs: seq<T>, f: T -> seq<U>, y: U)
    ensures y in FlatMap(xs, f) <==> exists x :: x in xs && y in f(x)
  {
    if xs != [] {
      FlatMapIn(xs[1..], f, y);
      assert xs[0] in xs;
      if x :| x in xs && y in f(x) { assert x == xs[0] || x in xs[1..]; }
    }
  }

  /** [(x, y) | x <- xs, y <- ys] */
  function Pairs<T, U>(xs: seq<T>, ys: seq<U>): seq<(T, U)> {
    FlatMap(xs, x => Map(ys, y => (x, y)))
  }

  lemma PairsIn<T, U>(xs: seq<T>, ys: seq<U>, p: (T, U))
    ensures p in Pairs(xs, ys) <==> p.0 in xs && p.1 in ys
  {
    var f := x => Map(ys, y => (x, y));
    FlatMapIn(xs, f, p);
    if p.0 in xs && p.1 in ys {
      MapIn(ys, y => (p.0, y), p);
      assert p in f(p.0);
    }
    if x :| x in xs && p in f(x) {
      MapIn(ys, y => (x, y), p);
    }
  }

  ghost predicate Distinct<T>(xs: seq<T>) {
    forall i, j :: 0 <= i < j < |xs| ==> xs[i] != xs[j]
  }

  lemma {:induction false} PairsDistinct<T, U>(xs: seq<T>, ys: seq<U>)
    requires Distinct(xs) && Distinct(ys)
    ensures Distinct(Pairs(xs, ys))
  {
    if xs != [] {
      var f := x => Map(ys, y => (x, y));
      var head, tail := f(xs[0]), Pairs(xs[1..], ys);
      PairsDistinct(xs[1..], ys);
      assert Pairs(xs, ys) == head + tail;
      forall i, j | 0 <= i < |head| && 0 <= j < |tail|
        ensures head[i] != tail[j]
      {
        PairsIn(xs[1..], ys, tail[j]);
      }
      ConcatDistinct(head, tail);
    }
  }

  lemma ConcatDistinct<T>(xs: seq<T>, ys: seq<T>)
    requires Distinct(xs) && Distinct(ys) && forall i, j :: 0 <= i < |xs| && 0 <= j < |ys| ==> xs[i] != ys[j]
    ensures Distinct(xs + ys)
  {}

  /** The first occurrences. */
  function Nub<T(==)>(xs: seq<T>): seq<T>
    decreases |xs|
  {
    if xs == [] then []
    else
      FilterShorter(xs[1..], x => x != xs[0]);
      [xs[0]] + Nub(Filter(xs[1..], x => x != xs[0]))
  }

  lemma {:induction false} NubIn<T>(xs: seq<T>, x: T)
    ensures x in Nub(xs) <==> x in xs
    decreases |xs|
  {
    if xs != [] {
      var rest := Filter(xs[1..], y => y != xs[0]);
      FilterShorter(xs[1..], y => y != xs[0]);
      FilterIn(xs[1..], y => y != xs[0], x);
      NubIn(rest, x);
    }
  }

  lemma {:induction false} NubDistinct<T>(xs: seq<T>)
    ensures Distinct(Nub(xs))
    decreases |xs|
  {
    if xs != [] {
      var rest := Filter(xs[1..], y => y != xs[0]);
      FilterShorter(xs[1..], y => y != xs[0]);
      NubDistinct(rest);
      FilterIn(xs[1..], y => y != xs[0], xs[0]);
      NubIn(rest, xs[0]);
    }
  }

  function Delete<T(==)>(x: T, xs: seq<T>): seq<T> {
    if xs == [] then [] else if xs[0] == x then xs[1..] else [xs[0]] + Delete(x, xs[1..])
  }

  lemma {:induction false} DeleteIn<T>(x: T, xs: seq<T>, y: T)
    requires Distinct(xs)
    ensures y in Delete(x, xs) <==> y in xs && y != x
    ensures Distinct(Delete(x, xs))
  {
    if xs != [] {
      DeleteIn(x, xs[1..], y);
      if xs[0] != x { DeleteIn(x, xs[1..], xs[0]); }
    }
  }

  /** List difference: one occurrence is removed for each element of ys. */
  function Minus<T(==)>(xs: seq<T>, ys: seq<T>): seq<T>
    decreases |ys|
  {
    if ys == [] then xs else Minus(Delete(ys[0], xs), ys[1..])
  }

  lemma {:induction false} MinusIn<T>(xs: seq<T>, ys: seq<T>, y: T)
    requires Distinct(xs)
    ensures y in Minus(xs, ys) <==> y in xs && y !in ys
    decreases |ys|
  {
    if ys != [] {
      DeleteIn(ys[0], xs, y);
      MinusIn(Delete(ys[0], xs), ys[1..], y);
    }
  }

  function Find<T>(xs: seq<T>, p: T -> bool): Option<T> {
    if xs == [] then None else if p(xs[0]) then Some(xs[0]) else Find(xs[1..], p)
  }

  lemma {:induction false} FindSpec<T>(xs: seq<T>, p: T -> bool)
    ensures match Find(xs, p)
      case None => forall x :: x in xs ==> !p(x)
      case Some(x) => x in xs && p(x)
  {
    if xs != [] { FindSpec(xs[1..], p); }
  }

  // ----- sorting -----

  function Insert<T>(x: T, xs: seq<T>, leq: (T, T) -> bool): seq<T> {
    if xs == [] then [x] else if leq(x, xs[0]) then [x] + xs else [xs[0]] + Insert(x, xs[1..], leq)
  }

  /** The stable sort. */
  function Sort<T>(xs: seq<T>, leq: (T, T) -> bool): seq<T> {
    if xs == [] then [] else Insert(xs[0], Sort(xs[1..], leq), leq)
  }

  lemma {:induction false} InsertAll<T>(x: T, xs: seq<T>, leq: (T, T) -> bool)
    ensures multiset(Insert(x, xs, leq)) == multiset(xs) + multiset{x}
  {
    if xs != [] && !leq(x, xs[0]) {
      InsertAll(x, xs[1..], leq);
      assert xs == [xs[0]] + xs[1..];
    }
  }

  lemma {:induction false} SortAll<T>(xs: seq<T>, leq: (T, T) -> bool)
    ensures multiset(Sort(xs, leq)) == multiset(xs)
  {
    if xs != [] {
      SortAll(xs[1..], leq);
      InsertAll(xs[0], Sort(xs[1..], leq), leq);
      assert xs == [xs[0]] + xs[1..];
    }
  }

  lemma SortIn<T>(xs: seq<T>, leq: (T, T) -> bool, x: T)
    ensures x in Sort(xs, leq) <==> x in xs
  {
    SortAll(xs, leq);
    assert x in Sort(xs, leq) <==> x in multiset(Sort(xs, leq));
    assert x in xs <==> x in multiset(xs);
  }

  lemma {:induction false} DistinctCount<T(!new)>(xs: seq<T>)
    ensures Distinct(xs) <==> forall x :: multiset(xs)[x] <= 1
  {
    if xs != [] {
      DistinctCount(xs[1..]);
      assert xs == [xs[0]] + xs[1..];
      assert multiset(xs) == multiset{xs[0]} + multiset(xs[1..]);
      assert forall x :: x in xs[1..] <==> multiset(xs[1..])[x] > 0;
      if Distinct(xs) {
        assert Distinct(xs[1..]);
        assert xs[0] !in xs[1..];
      } else {
        if Distinct(xs[1..]) {
          var i, j :| 0 <= i < j < |xs| && xs[i] == xs[j];
          assert i == 0;
          assert xs[0] in xs[1..];
          assert multiset(xs)[xs[0]] > 1;
        } else {
          var x :| multiset(xs[1..])[x] > 1;
          assert multiset(xs)[x] > 1;
        }
      }
    }
  }

  lemma SortDistinct<T(!new)>(xs: seq<T>, leq: (T, T) -> bool)
    requires Distinct(xs)
    ensures Distinct(Sort(xs, leq)) && |Sort(xs, leq)| == |xs|
  {
    SortAll(xs, leq);
    DistinctCount(xs);
    DistinctCount(Sort(xs, leq));
    assert |multiset(xs)| == |xs| && |multiset(Sort(xs, leq))| == |Sort(xs, leq)|;
  }

  ghost predicate TotalPreorder<T(!new)>(leq: (T, T) -> bool) {
    && (forall x, y :: leq(x, y) || leq(y, x))
    && (forall x, y, z :: leq(x, y) && leq(y, z) ==> leq(x, z))
  }

  ghost predicate Ascending<T>(xs: seq<T>, leq: (T, T) -> bool) {
    forall i, j :: 0 <= i < j < |xs| ==> leq(xs[i], xs[j])
  }

  lemma {:induction false} InsertAscending<T(!new)>(x: T, xs: seq<T>, leq: (T, T) -> bool)
    requires TotalPreorder(leq) && Ascending(xs, leq)
    ensures Ascending(Insert(x, xs, leq), leq)
  {
    if xs != [] && !leq(x, xs[0]) {
      var rest := Insert(x, xs[1..], leq);
      InsertAscending(x, xs[1..], leq);
      InsertAll(x, xs[1..], leq);
      forall j | 0 <= j < |rest|
        ensures leq(xs[0], rest[j])
      {
        assert rest[j] in multiset(rest);
        assert rest[j] in multiset(xs[1..]) + multiset{x};
        assert rest[j] == x || rest[j] in xs[1..];
      }
    }
  }

  lemma {:induction false} SortAscending<T(!new)>(xs: seq<T>, leq: (T, T) -> bool)
    requires TotalPreorder(leq)
    ensures Ascending(Sort(xs, leq), leq)
  {
    if xs != [] {
      SortAscending(xs[1..], leq);
      InsertAscending(xs[0], Sort(xs[1..], leq), leq);
    }
  }
}

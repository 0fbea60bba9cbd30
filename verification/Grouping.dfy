/** From the pairs of equal states to numbered classes: one new state for each class. */
module Grouping {
  import opened Sets
  import opened Wrappers
  import opened Lists
  import opened Automaton
  import opened Classes

  // ----- representatives -----

  function Minimum(xs: seq<string>): (r: string)
    requires xs != []
  {
    if |xs| == 1 then xs[0]
    else
      var m := Minimum(xs[1..]);
      if Leq(xs[0], m) then xs[0] else m
  }

  lemma {:induction false} MinimumLeast(xs: seq<string>)
    requires xs != []
    ensures Minimum(xs) in xs && forall x :: x in xs ==> Leq(Minimum(xs), x)
  {
    if |xs| == 1 {
      LeqTotal(xs[0], xs[0]);
    } else {
      var m := Minimum(xs[1..]);
      MinimumLeast(xs[1..]);
      LeqTotal(xs[0], m);
      LeqTotal(xs[0], xs[0]);
      forall x | x in xs
        ensures Leq(Minimum(xs), x)
      {
        if x != xs[0] {
          assert x in xs[1..];
          if Leq(xs[0], m) { LeqTransitive(xs[0], m, x); }
        } else if !Leq(xs[0], m) {
          assert Leq(m, xs[0]);
        }
      }
    }
  }

  /** The names related to x, and x once for every pair that it starts. */
  function Partners(x: State, classes: Relation): seq<State> {
    Map(Filter(classes, (p: (State, State)) => p.1 == x), (p: (State, State)) => p.0)
    + Map(Filter(classes, (p: (State, State)) => p.0 == x), (p: (State, State)) => x)
  }

  predicate IsFirst(x: State, classes: Relation) {
    exists p :: p in classes && p.0 == x
  }

  lemma PartnersIn(x: State, classes: Relation, y: State)
    ensures y in Partners(x, classes) <==> (y, x) in classes || (y == x && IsFirst(x, classes))
  {
    var left, right := (p: (State, State)) => p.1 == x, (p: (State, State)) => p.0 == x;
    MapIn(Filter(classes, left), (p: (State, State)) => p.0, y);
    MapIn(Filter(classes, right), (p: (State, State)) => x, y);
    forall p: (State, State)
      ensures p in Filter(classes, left) <==> p in classes && left(p)
      ensures p in Filter(classes, right) <==> p in classes && right(p)
    {
      FilterIn(classes, left, p);
      FilterIn(classes, right, p);
    }
    if (y, x) in classes { assert (y, x) in Filter(classes, left); }
    if p :| p in Filter(classes, left) && y == p.0 { assert p == (y, x); }
    if p :| p in classes && p.0 == x { assert p in Filter(classes, right); }
  }

  /** The least of them; a name in no pair, which the source never asks for, stays itself. */
  function SmallerRep(x: State, classes: Relation): State {
    if Partners(x, classes) == [] then x else Minimum(Partners(x, classes))
  }

  function Below(x: State, classes: Relation): set<State> {
    set p | p in classes && Leq(p.0, x) && p.0 != x :: p.0
  }

  /** The least partner starts a pair, and is below x if x starts one. */
  lemma SmallerRepBelow(x: State, classes: Relation)
    ensures var y := SmallerRep(x, classes);
      y != x ==> IsFirst(y, classes) && (IsFirst(x, classes) ==> |Below(y, classes)| < |Below(x, classes)|)
  {
    var y := SmallerRep(x, classes);
    if y != x {
      MinimumLeast(Partners(x, classes));
      PartnersIn(x, classes, y);
      PartnersIn(x, classes, x);
      assert (y, x) in classes;
      if IsFirst(x, classes) {
        var a, b := Below(y, classes), Below(x, classes);
        assert y in b && y !in a;
        forall z | z in a
          ensures z in b
        {
          LeqTransitive(z, y, x);
          LeqTotal(y, x);
        }
        SubsetSmaller(a, b, y);
      }
    }
  }

  /** Follow least partners until one is its own. */
  function MinRep(x: State, classes: Relation): State
    decreases if IsFirst(x, classes) then 0 else 1, |Below(x, classes)|
  {
    SmallerRepBelow(x, classes);
    var smaller := SmallerRep(x, classes);
    if smaller == x then x else MinRep(smaller, classes)
  }

  ghost predicate Equivalence(r: Relation, states: seq<State>) {
    && (forall p, q :: (p, q) in r ==> p in states && q in states)
    && (forall p :: p in states ==> (p, p) in r)
    && (forall p, q :: (p, q) in r ==> (q, p) in r)
    && (forall p, q, s :: (p, q) in r && (q, s) in r ==> (p, s) in r)
  }

  lemma SmallerRepClass(x: State, r: Relation, states: seq<State>)
    requires Equivalence(r, states) && x in states
    ensures var m := SmallerRep(x, r);
      (x, m) in r && forall y :: (x, y) in r ==> Leq(m, y)
  {
    assert (x, x) in r && (x, x).0 == x;
    PartnersIn(x, r, x);
    MinimumLeast(Partners(x, r));
    var m := SmallerRep(x, r);
    PartnersIn(x, r, m);
    forall y | (x, y) in r
      ensures Leq(m, y)
    {
      PartnersIn(x, r, y);
    }
  }

  /** The representative is the least name of the class. */
  lemma MinRepLeast(x: State, r: Relation, states: seq<State>)
    requires Equivalence(r, states) && x in states
    ensures var m := MinRep(x, r);
      (x, m) in r && forall y :: (x, y) in r ==> Leq(m, y)
  {
    hide Partners;
    SmallerRepClass(x, r, states);
    var m := SmallerRep(x, r);
    assert (x, x) in r;
    if m != x {
      SmallerRepClass(m, r, states);
      LeqTotal(m, SmallerRep(m, r));
      assert SmallerRep(m, r) == m;
      assert MinRep(m, r) == m;
    }
  }

  lemma MinRepEqual(x: State, y: State, r: Relation, states: seq<State>)
    requires Equivalence(r, states) && x in states && y in states
    ensures MinRep(x, r) == MinRep(y, r) <==> (x, y) in r
  {
    hide MinRep, Leq;
    MinRepLeast(x, r, states);
    MinRepLeast(y, r, states);
    LeqTotal(MinRep(x, r), MinRep(y, r));
  }

  // ----- classes -----

  /** How many elements in front are related to x. */
  function Span(x: State, ys: seq<State>, r: Relation): (n: nat)
    ensures n <= |ys|
    ensures forall i :: 0 <= i < n ==> (x, ys[i]) in r
    ensures n < |ys| ==> (x, ys[n]) !in r
  {
    if ys == [] || (x, ys[0]) !in r then 0 else 1 + Span(x, ys[1..], r)
  }

  /** Adjacent elements related to the first of their group. */
  function GroupBy(xs: seq<State>, r: Relation): seq<seq<State>>
    decreases |xs|
  {
    if xs == [] then []
    else
      var n := Span(xs[0], xs[1..], r);
      [xs[..n + 1]] + GroupBy(xs[n + 1..], r)
  }

  function Names(classes: Relation): seq<State> {
    Nub(Map(classes, (p: (State, State)) => p.0) + Map(classes, (p: (State, State)) => p.1))
  }

  /** The names, ordered by their representatives. */
  function Ordered(classes: Relation): seq<State> {
    Sort(Names(classes), (x, y) => Leq(MinRep(x, classes), MinRep(y, classes)))
  }

  function MinClasses(classes: Relation): seq<seq<State>> {
    GroupBy(Ordered(classes), classes)
  }

  // ----- numbers as names -----

  function Digit(d: nat): char
    requires d < 10
  {
    ('0' as int + d) as char
  }

  function Show(n: nat): string {
    if n < 10 then [Digit(n)] else Show(n / 10) + [Digit(n % 10)]
  }

  lemma {:induction false} ShowInjective(a: nat, b: nat)
    ensures Show(a) == Show(b) ==> a == b
  {
    if Show(a) == Show(b) {
      var x, y := Show(a), Show(b);
      assert x[|x| - 1] == Digit(a % 10) && y[|y| - 1] == Digit(b % 10);
      if a >= 10 && b >= 10 {
        assert x[..|x| - 1] == Show(a / 10) && y[..|y| - 1] == Show(b / 10);
        ShowInjective(a / 10, b / 10);
      } else {
        ShowLong(a);
        ShowLong(b);
      }
    }
  }

  lemma {:induction false} ShowLong(n: nat)
    ensures |Show(n)| >= 1 && (n >= 10 ==> |Show(n)| >= 2)
  {
    if n >= 10 { ShowLong(n / 10); }
  }

  // ----- the table -----

  function Named(xs: seq<State>, name: State): map<State, State> {
    map x | x in xs :: name
  }

  /** The table from old to new names; classes are numbered from k, a later entry replaces an earlier. */
  function Table(classes: seq<seq<State>>, k: nat): map<State, State> {
    if classes == [] then map[] else Named(classes[0], Show(k)) + Table(classes[1..], k + 1)
  }

  function NewStates(classes: seq<seq<State>>): map<State, State> {
    Table(classes, 1)
  }

  /** Related elements are next to each other. */
  ghost predicate Contiguous(xs: seq<State>, r: Relation) {
    forall i, j, k :: 0 <= i < j < k < |xs| && (xs[i], xs[k]) in r ==> (xs[i], xs[j]) in r
  }

  ghost predicate Numbered(t: map<State, State>, k: nat) {
    forall x :: x in t ==> exists n: nat :: n >= k && t[x] == Show(n)
  }

  lemma {:induction false} TableNumbered(classes: seq<seq<State>>, k: nat)
    ensures Numbered(Table(classes, k), k)
  {
    hide Show;
    if classes != [] { TableNumbered(classes[1..], k + 1); }
  }

  ghost predicate Separates(t: map<State, State>, xs: seq<State>, r: Relation) {
    && (forall x :: x in t <==> x in xs)
    && (forall x, y :: x in t && y in t ==> (t[x] == t[y] <==> (x, y) in r))
  }

  /** One more class in front, with a name that is not used yet. */
  lemma AddClass(first: seq<State>, rest: seq<State>, u: map<State, State>, r: Relation, states: seq<State>, k: nat)
    requires Equivalence(r, states) && Separates(u, rest, r) && Numbered(u, k + 1)
    requires forall x, y :: x in first && y in first ==> (x, y) in r
    requires forall x, y :: x in first && y in rest ==> (x, y) !in r
    requires forall x :: x in first ==> x in states
    ensures Separates(Named(first, Show(k)) + u, first + rest, r)
  {
    hide Show;
    var t := Named(first, Show(k)) + u;
    forall x | x in first
      ensures x !in u && t[x] == Show(k)
    {
      assert (x, x) in r;
    }
    forall x, y | x in t && y in t
      ensures t[x] == t[y] <==> (x, y) in r
    {
      if x in first && y in u {
        NameDiffers(u, k, y);
      } else if y in first && x in u {
        NameDiffers(u, k, x);
        assert (y, x) !in r;
      }
    }
  }

  lemma NameDiffers(u: map<State, State>, k: nat, y: State)
    requires Numbered(u, k + 1) && y in u
    ensures u[y] != Show(k)
  {
    hide Show;
    var m: nat :| m >= k + 1 && u[y] == Show(m);
    ShowInjective(k, m);
  }

  /** Elements get the same name exactly if they are related. */
  lemma {:induction false} TableExact(xs: seq<State>, r: Relation, states: seq<State>, k: nat)
    requires Equivalence(r, states) && Contiguous(xs, r) && forall x :: x in xs ==> x in states
    ensures Separates(Table(GroupBy(xs, r), k), xs, r)
    decreases |xs|
  {
    hide Show;
    if xs != [] {
      var n := Span(xs[0], xs[1..], r);
      var first, rest := xs[..n + 1], xs[n + 1..];
      assert xs == first + rest;
      FirstClass(xs, r, states, n);
      hide Equivalence, Separates;
      TableExact(rest, r, states, k + 1);
      TableNumbered(GroupBy(rest, r), k + 1);
      AddClass(first, rest, Table(GroupBy(rest, r), k + 1), r, states, k);
    }
  }

  lemma LaterUnrelated(xs: seq<State>, r: Relation, i: nat, j: nat)
    requires Contiguous(xs, r) && 0 < i <= j < |xs| && (xs[0], xs[i]) !in r
    ensures (xs[0], xs[j]) !in r
  {}

  lemma FirstClass(xs: seq<State>, r: Relation, states: seq<State>, n: nat)
    requires Equivalence(r, states) && Contiguous(xs, r) && forall x :: x in xs ==> x in states
    requires xs != [] && n == Span(xs[0], xs[1..], r)
    ensures var first, rest := xs[..n + 1], xs[n + 1..];
      && (forall x, y :: x in first && y in first ==> (x, y) in r)
      && (forall x, y :: x in first && y in rest ==> (x, y) !in r)
  {
    var first, rest := xs[..n + 1], xs[n + 1..];
    forall x | x in first
      ensures (xs[0], x) in r && (x, xs[0]) in r
    {
      var i :| 0 <= i < |first| && first[i] == x;
      if i > 0 { assert xs[1..][i - 1] == x; } else { assert xs[0] in xs; }
    }
    forall x, y | x in first && y in rest
      ensures (x, y) !in r
    {
      var j :| 0 <= j < |rest| && rest[j] == y;
      assert xs[1..][n] == xs[n + 1];
      assert y == xs[n + 1 + j];
      LaterUnrelated(xs, r, n + 1, n + 1 + j);
    }
  }

  lemma KeyOrder(classes: Relation)
    ensures TotalPreorder((x: State, y: State) => Leq(MinRep(x, classes), MinRep(y, classes)))
  {
    hide MinRep, Leq;
    var leq := (x: State, y: State) => Leq(MinRep(x, classes), MinRep(y, classes));
    forall x, y
      ensures leq(x, y) || leq(y, x)
    {
      LeqTotal(MinRep(x, classes), MinRep(y, classes));
    }
    forall x, y, z | leq(x, y) && leq(y, z)
      ensures leq(x, z)
    {
      LeqTransitive(MinRep(x, classes), MinRep(y, classes), MinRep(z, classes));
    }
  }

  lemma NamesIn(classes: Relation, x: State)
    ensures x in Names(classes) <==> exists p :: p in classes && (p.0 == x || p.1 == x)
  {
    var ls, rs := Map(classes, (p: (State, State)) => p.0), Map(classes, (p: (State, State)) => p.1);
    NubIn(ls + rs, x);
    MapIn(classes, (p: (State, State)) => p.0, x);
    MapIn(classes, (p: (State, State)) => p.1, x);
  }

  /** The ordered names are the states, and related ones are next to each other. */
  lemma OrderedSpec(r: Relation, states: seq<State>)
    requires Equivalence(r, states)
    ensures forall x: State :: x in Ordered(r) <==> x in states
    ensures forall i, j :: 0 <= i < j < |Ordered(r)| ==> Leq(MinRep(Ordered(r)[i], r), MinRep(Ordered(r)[j], r))
    ensures Contiguous(Ordered(r), r)
  {
    hide MinRep, Leq, Names;
    var leq := (x: State, y: State) => Leq(MinRep(x, r), MinRep(y, r));
    var xs := Ordered(r);
    KeyOrder(r);
    SortAscending(Names(r), leq);
    forall x: State
      ensures x in xs <==> x in states
    {
      SortIn(Names(r), leq, x);
      NamesIn(r, x);
      if x in states { assert (x, x) in r; }
    }
    forall i, j, k | 0 <= i < j < k < |xs| && (xs[i], xs[k]) in r
      ensures (xs[i], xs[j]) in r
    {
      assert leq(xs[i], xs[j]) && leq(xs[j], xs[k]);
      MinRepEqual(xs[i], xs[k], r, states);
      MinRepEqual(xs[i], xs[j], r, states);
      LeqTotal(MinRep(xs[i], r), MinRep(xs[j], r));
    }
  }

  /** The new names of the classes of an equivalence on the states separate exactly its classes. */
  lemma NewStatesExact(r: Relation, states: seq<State>)
    requires Equivalence(r, states)
    ensures var t := NewStates(MinClasses(r));
      && (forall x :: x in t <==> x in states)
      && (forall x, y :: x in t && y in t ==> (t[x] == t[y] <==> (x, y) in r))
  {
    hide MinRep, Leq, Ordered, Table;
    OrderedSpec(r, states);
    TableExact(Ordered(r), r, states, 1);
  }
}

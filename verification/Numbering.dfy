/** The numbers that the classes get: in the order of their least names, counted from one, in decimal. */
module Numbering {
  import opened Lists
  import opened Automaton
  import opened Classes
  import opened Grouping

  // ----- decimal numerals -----

  /** The number that a string of digits stands for. */
  function Value(s: string): int {
    if s == [] then 0 else 10 * Value(s[..|s| - 1]) + (s[|s| - 1] as int - '0' as int)
  }

  /** Digits without a leading zero. */
  predicate IsNumeral(s: string) {
    s != [] && (forall ch :: ch in s ==> '0' <= ch <= '9') && (s[0] == '0' ==> |s| == 1)
  }

  lemma {:induction false} ShowNumeral(n: nat)
    ensures IsNumeral(Show(n)) && Value(Show(n)) == n
  {
    if n >= 10 {
      ShowNumeral(n / 10);
      assert Show(n)[..|Show(n)| - 1] == Show(n / 10);
      assert Show(n)[0] == Show(n / 10)[0];
    } else {
      assert Show(n)[..0] == [];
    }
  }

  // ----- the order of names -----

  /** Lexicographic order: a is a proper beginning of b, or has the smaller character where they differ first. */
  ghost predicate Before(a: string, b: string) {
    a != b && (a <= b || exists k: nat :: FirstSmaller(a, b, k))
  }

  predicate FirstSmaller(a: string, b: string, k: nat) {
    k < |a| && k < |b| && a[..k] == b[..k] && a[k] < b[k]
  }

  lemma PrefixTails(a: string, b: string)
    requires a != [] && b != [] && a[0] == b[0]
    ensures a <= b <==> a[1..] <= b[1..]
  {
    if a[1..] <= b[1..] {
      assert a == [a[0]] + a[1..];
      assert b[..|a|] == [b[0]] + b[1..][..|a| - 1];
    }
    if a <= b { assert b[1..][..|a| - 1] == b[..|a|][1..]; }
  }

  lemma SmallerTails(a: string, b: string, k: nat)
    requires a != [] && b != [] && a[0] == b[0]
    ensures FirstSmaller(a[1..], b[1..], k) <==> FirstSmaller(a, b, k + 1)
  {
    var s, t := a[1..], b[1..];
    if k < |s| && k < |t| {
      assert a[..k + 1] == [a[0]] + s[..k] && b[..k + 1] == [b[0]] + t[..k];
      assert s[..k] == a[..k + 1][1..] && t[..k] == b[..k + 1][1..];
    }
  }

  lemma BeforeTails(a: string, b: string)
    requires a != [] && b != [] && a[0] == b[0]
    ensures Before(a, b) <==> Before(a[1..], b[1..])
  {
    hide FirstSmaller;
    PrefixTails(a, b);
    assert a == [a[0]] + a[1..] && b == [b[0]] + b[1..];
    if k: nat :| FirstSmaller(a[1..], b[1..], k) { SmallerTails(a, b, k); }
    if k: nat :| FirstSmaller(a, b, k) {
      SmallerPositive(a, b, k);
      SmallerTails(a, b, k - 1);
    }
  }

  lemma SmallerPositive(a: string, b: string, k: nat)
    requires FirstSmaller(a, b, k) && a[0] == b[0]
    ensures k > 0
  {}

  lemma SameStart(a: string, b: string, k: nat)
    requires FirstSmaller(a, b, k) && k > 0
    ensures a[0] == b[0]
  {
    assert a[..k][0] == b[..k][0];
  }

  lemma BeforeHeads(a: string, b: string)
    requires a != [] && b != [] && a[0] != b[0]
    ensures Before(a, b) <==> a[0] < b[0]
  {
    if a[0] < b[0] { assert FirstSmaller(a, b, 0); }
    if k: nat :| FirstSmaller(a, b, k) {
      if k > 0 { SameStart(a, b, k); }
    }
  }

  lemma BeforeEmpty(a: string, b: string)
    requires a == [] || b == []
    ensures Before(a, b) <==> a == [] && b != []
  {}

  lemma {:induction false} LeqBefore(a: string, b: string)
    ensures Leq(a, b) <==> a == b || Before(a, b)
  {
    hide Before;
    if a == [] || b == [] {
      BeforeEmpty(a, b);
    } else if a[0] == b[0] {
      BeforeTails(a, b);
      LeqBefore(a[1..], b[1..]);
      assert a == [a[0]] + a[1..] && b == [b[0]] + b[1..];
    } else {
      BeforeHeads(a, b);
    }
  }

  // ----- numbers of classes -----

  ghost predicate IsLeast(r: Relation, y: State) {
    forall z :: (y, z) in r ==> Leq(y, z)
  }

  ghost predicate Precedes(r: Relation, y: State, x: State) {
    forall z :: (x, z) in r ==> Leq(y, z) && y != z
  }

  /** The least names of the classes before that of x. */
  ghost function Earlier(r: Relation, states: seq<State>, x: State): set<State> {
    set y | y in states && IsLeast(r, y) && Precedes(r, y, x)
  }

  /** The representatives among xs that come before that of x. */
  ghost function Reps(xs: seq<State>, r: Relation, x: State): set<State> {
    set y | y in xs && Leq(MinRep(y, r), MinRep(x, r)) && MinRep(y, r) != MinRep(x, r) :: MinRep(y, r)
  }

  ghost predicate ByRep(xs: seq<State>, r: Relation) {
    forall i, j :: 0 <= i < j < |xs| ==> Leq(MinRep(xs[i], r), MinRep(xs[j], r))
  }

  lemma FirstLeast(xs: seq<State>, r: Relation, y: State)
    requires xs != [] && ByRep(xs, r) && y in xs
    ensures Leq(MinRep(xs[0], r), MinRep(y, r))
  {
    hide MinRep, Leq;
    LeqTotal(MinRep(xs[0], r), MinRep(xs[0], r));
  }

  /** The first class has nobody before it. */
  lemma RepsFirst(xs: seq<State>, r: Relation, states: seq<State>, x: State)
    requires Equivalence(r, states) && ByRep(xs, r) && xs != [] && forall y :: y in xs ==> y in states
    requires x in xs && (xs[0], x) in r
    ensures Reps(xs, r, x) == {}
  {
    hide MinRep, Leq, Equivalence, ByRep;
    MinRepEqual(xs[0], x, r, states);
    forall y | y in xs && Leq(MinRep(y, r), MinRep(x, r))
      ensures MinRep(y, r) == MinRep(x, r)
    {
      FirstLeast(xs, r, y);
      LeqTotal(MinRep(y, r), MinRep(x, r));
    }
  }

  /** Every later class has the first one before it. */
  lemma RepsRest(xs: seq<State>, r: Relation, states: seq<State>, n: nat, x: State)
    requires Equivalence(r, states) && ByRep(xs, r) && n < |xs| && forall y :: y in xs ==> y in states
    requires forall y :: y in xs[..n + 1] ==> (xs[0], y) in r
    requires forall y :: y in xs[n + 1..] ==> (xs[0], y) !in r
    requires x in xs[n + 1..]
    ensures |Reps(xs, r, x)| == 1 + |Reps(xs[n + 1..], r, x)|
  {
    hide MinRep, Leq, Equivalence, ByRep;
    var first, rest := xs[..n + 1], xs[n + 1..];
    var m := MinRep(xs[0], r);
    assert xs == first + rest;
    FirstLeast(xs, r, x);
    forall y | y in xs
      ensures MinRep(y, r) == m <==> (xs[0], y) in r
    {
      MinRepEqual(xs[0], y, r, states);
    }
    var a, b := Reps(xs, r, x), Reps(rest, r, x);
    assert xs[0] in xs && (xs[0], x) !in r;
    assert m in a && m !in b;
    assert a == b + {m};
  }

  lemma TableFirst(xs: seq<State>, r: Relation, k: nat, n: nat, x: State)
    requires xs != [] && n == Span(xs[0], xs[1..], r) && (x in xs[..n + 1] || x in Table(GroupBy(xs[n + 1..], r), k + 1))
    ensures x in Table(GroupBy(xs, r), k)
    ensures var u := Table(GroupBy(xs[n + 1..], r), k + 1);
      Table(GroupBy(xs, r), k)[x] == if x in u then u[x] else Show(k)
  {
    hide Show;
  }

  lemma Suffix(xs: seq<State>, r: Relation, states: seq<State>, m: nat)
    requires Contiguous(xs, r) && ByRep(xs, r) && m <= |xs| && forall y :: y in xs ==> y in states
    ensures Contiguous(xs[m..], r) && ByRep(xs[m..], r) && forall y :: y in xs[m..] ==> y in states
  {
    hide MinRep, Leq;
    assert forall i :: 0 <= i < |xs| - m ==> xs[m..][i] == xs[m + i];
  }

  lemma {:induction false} TableNumbers(xs: seq<State>, r: Relation, states: seq<State>, k: nat, x: State)
    requires Equivalence(r, states) && Contiguous(xs, r) && ByRep(xs, r)
    requires (forall y :: y in xs ==> y in states) && x in xs
    ensures x in Table(GroupBy(xs, r), k) && Table(GroupBy(xs, r), k)[x] == Show(k + |Reps(xs, r, x)|)
    decreases |xs|
  {
    hide Show, Reps, Table, GroupBy, Equivalence, Contiguous, ByRep;
    var n := Span(xs[0], xs[1..], r);
    var first, rest := xs[..n + 1], xs[n + 1..];
    assert x in first || x in rest by { assert xs == first + rest; }
    FirstClass(xs, r, states, n);
    Suffix(xs, r, states, n + 1);
    TableExact(rest, r, states, k + 1);
    TableFirst(xs, r, k, n, x);
    assert xs[0] in first;
    if x in rest {
      RepsRest(xs, r, states, n, x);
      TableNumbers(rest, r, states, k + 1, x);
    } else {
      RepsFirst(xs, r, states, x);
    }
  }

  lemma RepsEarlier(xs: seq<State>, r: Relation, states: seq<State>, x: State)
    requires Equivalence(r, states) && x in states && forall y :: y in xs <==> y in states
    ensures Reps(xs, r, x) == Earlier(r, states, x)
  {
    hide MinRep, Leq;
    var m := MinRep(x, r);
    MinRepLeast(x, r, states);
    forall y | y in states
      ensures (y, MinRep(y, r)) in r && IsLeast(r, MinRep(y, r)) && (IsLeast(r, y) ==> MinRep(y, r) == y)
      ensures Leq(MinRep(y, r), m) && MinRep(y, r) != m ==> Precedes(r, MinRep(y, r), x)
    {
      RepIsLeast(y, r, states);
      if Leq(MinRep(y, r), m) && MinRep(y, r) != m { RepPrecedes(y, x, r, states); }
    }
    forall y | y in Earlier(r, states, x)
      ensures y in Reps(xs, r, x)
    {
      assert MinRep(y, r) == y;
    }
  }

  lemma RepIsLeast(y: State, r: Relation, states: seq<State>)
    requires Equivalence(r, states) && y in states
    ensures (y, MinRep(y, r)) in r && IsLeast(r, MinRep(y, r)) && (IsLeast(r, y) ==> MinRep(y, r) == y)
  {
    hide MinRep, Leq;
    var m := MinRep(y, r);
    MinRepLeast(y, r, states);
    assert (y, y) in r;
    if IsLeast(r, y) { LeqTotal(y, m); }
  }

  lemma RepPrecedes(y: State, x: State, r: Relation, states: seq<State>)
    requires Equivalence(r, states) && x in states && y in states
    requires Leq(MinRep(y, r), MinRep(x, r)) && MinRep(y, r) != MinRep(x, r)
    ensures Precedes(r, MinRep(y, r), x)
  {
    hide MinRep, Leq;
    var m := MinRep(y, r);
    MinRepLeast(x, r, states);
    MinRepLeast(y, r, states);
    forall z | (x, z) in r
      ensures Leq(m, z) && m != z
    {
      LeqTransitive(m, MinRep(x, r), z);
      if m == z { MinRepEqual(x, y, r, states); }
    }
  }

  /** The name of x is one more than the number of classes whose least name comes before all of x's class. */
  lemma NewStatesNumber(r: Relation, states: seq<State>, x: State)
    requires Equivalence(r, states) && x in states
    ensures x in NewStates(MinClasses(r))
    ensures NewStates(MinClasses(r))[x] == Show(1 + |Earlier(r, states, x)|)
  {
    hide MinRep, Leq, Ordered, Table, GroupBy, Show, Earlier, Reps, Equivalence;
    OrderedSpec(r, states);
    TableNumbers(Ordered(r), r, states, 1, x);
    RepsEarlier(Ordered(r), r, states, x);
  }
}

/** What the minimizer prints, name by name: the states are numerals, one for each class of states that
    accept the same words, and every list is in order. */
module Naming {
  import opened Wrappers
  import opened Sets
  import opened Lists
  import opened Automaton
  import opened Classes
  import opened Grouping
  import opened Numbering
  import opened Minimize
  import opened Trim

  // ----- the number of a class -----

  /** y is the least name of its class. */
  ghost predicate IsLeastName(c: FSM, y: State) {
    y in c.states && forall z :: z in c.states && SameWords(c, y, c, z) ==> y == z || Before(y, z)
  }

  /** y comes before every name of the class of x. */
  ghost predicate ComesBefore(c: FSM, y: State, x: State) {
    forall z :: z in c.states && SameWords(c, x, c, z) ==> Before(y, z)
  }

  /** The least names, one for each class. */
  ghost function Leasts(c: FSM): set<State> {
    set y | y in c.states && IsLeastName(c, y)
  }

  /** One more than the number of classes whose least name comes before the class of x. */
  ghost function ClassNumber(c: FSM, x: State): nat {
    1 + |set y | y in Leasts(c) && ComesBefore(c, y, x)|
  }

  ghost function ClassName(c: FSM, x: State): string {
    Show(ClassNumber(c, x))
  }

  lemma LeastMeaning(c: FSM, y: State)
    requires Complete(c) && y in c.states
    ensures IsLeastName(c, y) <==> IsLeast(EqualStates(c), y)
  {
    hide EqualStates, Complete, SameWords, Leq, Before;
    EqualStatesExact(c);
    forall z
      ensures Leq(y, z) <==> y == z || Before(y, z)
    {
      LeqBefore(y, z);
    }
  }

  lemma PrecedesMeaning(c: FSM, y: State, x: State)
    requires Complete(c) && x in c.states
    ensures ComesBefore(c, y, x) <==> Precedes(EqualStates(c), y, x)
  {
    hide EqualStates, Complete, SameWords, Leq;
    EqualStatesExact(c);
    forall z
      ensures Leq(y, z) && y != z <==> Before(y, z)
    {
      LeqBefore(y, z);
    }
  }

  /** The new name of a state is the number of its class, in decimal. */
  lemma ClassNumbers(c: FSM, x: State)
    requires Complete(c) && x in c.states
    ensures x in ClassTable(c) && ClassTable(c)[x] == ClassName(c, x)
  {
    hide EqualStates, NewStates, MinClasses, Complete, Show, IsLeast, IsLeastName, Precedes, ComesBefore, Equivalence;
    var r := EqualStates(c);
    EqualStatesEquivalence(c);
    NewStatesNumber(r, c.states, x);
    forall y | y in c.states
      ensures IsLeastName(c, y) <==> IsLeast(r, y)
      ensures ComesBefore(c, y, x) <==> Precedes(r, y, x)
    {
      LeastMeaning(c, y);
      PrecedesMeaning(c, y, x);
    }
    assert Earlier(r, c.states, x) == set y | y in Leasts(c) && ComesBefore(c, y, x);
  }

  lemma NamesSeparate(c: FSM, x: State, y: State)
    requires Complete(c) && x in c.states && y in c.states
    ensures ClassNumber(c, x) == ClassNumber(c, y) <==> SameWords(c, x, c, y)
  {
    hide ClassTable, Complete, ClassNumber, SameWords, Show;
    TableSeparates(c);
    ClassNumbers(c, x);
    ClassNumbers(c, y);
    ShowInjective(ClassNumber(c, x), ClassNumber(c, y));
  }

  /** Every class has a least name. */
  lemma LeastOf(c: FSM, x: State) returns (y: State)
    requires Complete(c) && x in c.states
    ensures y in Leasts(c) && SameWords(c, x, c, y)
  {
    hide EqualStates, Complete, MinRep, IsLeast, IsLeastName, SameWords, Equivalence;
    var r := EqualStates(c);
    EqualStatesEquivalence(c);
    EqualStatesExact(c);
    y := MinRep(x, r);
    RepIsLeast(x, r, c.states);
    LeastMeaning(c, y);
  }

  function UpTo(k: nat): set<int> {
    if k == 0 then {} else UpTo(k - 1) + {k}
  }

  lemma {:induction false} UpToSize(k: nat)
    ensures |UpTo(k)| == k && forall i :: i in UpTo(k) <==> 1 <= i <= k
  {
    if k > 0 { UpToSize(k - 1); }
  }

  lemma NumberAtMost(c: FSM, x: State)
    requires Complete(c) && x in c.states
    ensures 1 <= ClassNumber(c, x) <= |Leasts(c)|
  {
    hide Complete, SameWords, IsLeastName;
    var y := LeastOf(c, x);
    var s := set z | z in Leasts(c) && ComesBefore(c, z, x);
    SubsetSmaller(s, Leasts(c), y);
  }

  lemma LeastsDiffer(c: FSM, x: State, y: State)
    requires Complete(c) && x in Leasts(c) && y in Leasts(c) && ClassNumber(c, x) == ClassNumber(c, y)
    ensures x == y
  {
    hide Complete, ClassNumber, Leq, Before;
    NamesSeparate(c, x, y);
    LeqBefore(x, y);
    LeqBefore(y, x);
    LeqTotal(x, y);
  }

  /** The numbers of the classes are 1 to the number of classes, without a gap. */
  lemma NumberUsed(c: FSM, i: nat)
    requires Complete(c) && 1 <= i <= |Leasts(c)|
    ensures exists x :: x in c.states && ClassNumber(c, x) == i
  {
    hide Complete, ClassNumber, IsLeastName;
    if forall x :: x in c.states ==> ClassNumber(c, x) != i {
      var s := Leasts(c);
      var f := map x | x in s :: ClassNumber(c, x) as int;
      UpToSize(|s|);
      var rest := UpTo(|s|) - {i};
      assert |rest| == |s| - 1;
      forall x | x in s
        ensures f[x] in rest
      {
        NumberAtMost(c, x);
      }
      forall x, y | x in s && y in s && f[x] == f[y]
        ensures x == y
      {
        LeastsDiffer(c, x, y);
      }
      hide Leasts;
      Pigeonhole(f, s, rest);
    }
  }

  // ----- lists in order -----

  ghost predicate TransitionBefore(t: Transition, u: Transition) {
    || Before(t.from, u.from)
    || (t.from == u.from && (t.symbol < u.symbol || (t.symbol == u.symbol && Before(t.to, u.to))))
  }

  /** In strictly ascending order. */
  ghost predicate InOrder(xs: seq<string>) {
    forall i, j :: 0 <= i < j < |xs| ==> Before(xs[i], xs[j])
  }

  ghost predicate TransitionsInOrder(ts: seq<Transition>) {
    forall i, j :: 0 <= i < j < |ts| ==> TransitionBefore(ts[i], ts[j])
  }

  lemma LeqPreorder()
    ensures TotalPreorder(Leq)
  {
    hide Leq;
    forall x, y ensures Leq(x, y) || Leq(y, x) { LeqTotal(x, y); }
    forall x, y, z | Leq(x, y) && Leq(y, z) ensures Leq(x, z) { LeqTransitive(x, y, z); }
  }

  lemma TransitionPreorder()
    ensures TotalPreorder(LeqTransition)
  {
    hide Leq;
    forall t, u ensures LeqTransition(t, u) || LeqTransition(u, t) {
      LeqTotal(t.from, u.from);
      LeqTotal(t.to, u.to);
    }
    forall t, u, v | LeqTransition(t, u) && LeqTransition(u, v) ensures LeqTransition(t, v) {
      TransitionTransitive(t, u, v);
    }
  }

  lemma TransitionTransitive(t: Transition, u: Transition, v: Transition)
    requires LeqTransition(t, u) && LeqTransition(u, v)
    ensures LeqTransition(t, v)
  {
    hide Leq;
    LeqTotal(t.from, u.from);
    LeqTotal(u.from, v.from);
    if t.from != u.from && u.from != v.from { LeqTransitive(t.from, u.from, v.from); }
    if t.to != u.to || u.to != v.to {
      if Leq(t.to, u.to) && Leq(u.to, v.to) { LeqTransitive(t.to, u.to, v.to); }
    }
  }

  lemma SortedInOrder(xs: seq<string>)
    requires Distinct(xs)
    ensures InOrder(Sort(xs, Leq))
  {
    hide Leq, Before;
    LeqPreorder();
    SortAscending(xs, Leq);
    SortDistinct(xs, Leq);
    var ys := Sort(xs, Leq);
    forall i, j | 0 <= i < j < |ys|
      ensures Before(ys[i], ys[j])
    {
      LeqBefore(ys[i], ys[j]);
    }
  }

  lemma SortedTransitions(ts: seq<Transition>)
    requires Distinct(ts)
    ensures TransitionsInOrder(Sort(ts, LeqTransition))
  {
    hide Leq, Before;
    TransitionPreorder();
    SortAscending(ts, LeqTransition);
    SortDistinct(ts, LeqTransition);
    var us := Sort(ts, LeqTransition);
    forall i, j | 0 <= i < j < |us|
      ensures TransitionBefore(us[i], us[j])
    {
      assert us[i] != us[j];
      LeqBefore(us[i].from, us[j].from);
      LeqBefore(us[i].to, us[j].to);
    }
  }

  lemma {:induction false} FilterAscending<T>(xs: seq<T>, p: T -> bool, before: (T, T) -> bool)
    requires Ascending(xs, before)
    ensures Ascending(Filter(xs, p), before)
  {
    if xs != [] {
      var rest := Filter(xs[1..], p);
      assert Ascending(xs[1..], before);
      FilterAscending(xs[1..], p, before);
      forall j | 0 <= j < |rest|
        ensures before(xs[0], rest[j])
      {
        FilterIn(xs[1..], p, rest[j]);
        var k :| 0 <= k < |xs[1..]| && xs[1..][k] == rest[j];
        assert xs[k + 1] == rest[j];
      }
    }
  }

  lemma FilterInOrder(xs: seq<string>, p: string -> bool)
    requires InOrder(xs)
    ensures InOrder(Filter(xs, p))
  {
    hide Before;
    FilterAscending(xs, p, (a, b) => Before(a, b));
  }

  lemma FilterTransitions(ts: seq<Transition>, p: Transition -> bool)
    requires TransitionsInOrder(ts)
    ensures TransitionsInOrder(Filter(ts, p))
  {
    hide TransitionBefore;
    FilterAscending(ts, p, (t, u) => TransitionBefore(t, u));
  }

  /** ys lists the elements of xs by their first occurrence. */
  ghost predicate FirstOccurrences<T(!new)>(ys: seq<T>, xs: seq<T>) {
    && Distinct(ys) && (forall y :: y in ys <==> y in xs)
    && forall i, j :: 0 <= i < j < |ys| ==> SeenBefore(ys[i], ys[j], xs)
  }

  ghost predicate SeenBefore<T>(x: T, y: T, xs: seq<T>) {
    exists k :: 0 <= k < |xs| && xs[k] == x && y !in xs[..k + 1]
  }

  /** One more element in front. */
  lemma SeenInTail<T>(x: T, y: T, xs: seq<T>)
    requires xs != []
    ensures SeenBefore(x, y, xs) <==> y != xs[0] && (x == xs[0] || SeenBefore(x, y, xs[1..]))
  {
    var h, t := xs[0], xs[1..];
    if k :| 0 <= k < |xs| && xs[k] == x && y !in xs[..k + 1] {
      assert xs[..k + 1][0] == h;
      if k > 0 {
        assert xs[..k + 1] == [h] + t[..k] && t[k - 1] == x;
        assert forall z :: z in t[..k] ==> z in xs[..k + 1];
      }
    }
    if y != h && x == h { assert xs[..1] == [h] && xs[0] == x; }
    if y != h && SeenBefore(x, y, t) {
      var k :| 0 <= k < |t| && t[k] == x && y !in t[..k + 1];
      assert xs[..k + 2] == [h] + t[..k + 1] && xs[k + 1] == x;
    }
  }

  lemma {:induction false} FilterSeen<T>(xs: seq<T>, p: T -> bool, x: T, y: T)
    requires SeenBefore(x, y, Filter(xs, p)) && p(y)
    ensures SeenBefore(x, y, xs)
  {
    hide SeenBefore;
    SeenNonempty(x, y, Filter(xs, p));
    var rest := Filter(xs[1..], p);
    SeenInTail(x, y, Filter(xs, p));
    SeenInTail(x, y, xs);
    if p(xs[0]) {
      assert Filter(xs, p)[1..] == rest;
    } else {
      assert Filter(xs, p) == rest;
    }
    if !(p(xs[0]) && x == xs[0]) { FilterSeen(xs[1..], p, x, y); }
  }

  lemma SeenNonempty<T>(x: T, y: T, xs: seq<T>)
    requires SeenBefore(x, y, xs)
    ensures xs != []
  {}

  lemma {:induction false} NubFirst<T(!new)>(xs: seq<T>)
    ensures FirstOccurrences(Nub(xs), xs)
    decreases |xs|
  {
    hide SeenBefore;
    NubDistinct(xs);
    forall y: T ensures y in Nub(xs) <==> y in xs { NubIn(xs, y); }
    if xs != [] {
      var p := x => x != xs[0];
      var rest := Filter(xs[1..], p);
      FilterShorter(xs[1..], p);
      NubFirst(rest);
      var ys := Nub(xs);
      forall i, j | 0 <= i < j < |ys|
        ensures SeenBefore(ys[i], ys[j], xs)
      {
        assert ys[0] == xs[0] && ys[0] != ys[j];
        SeenInTail(ys[i], ys[j], xs);
        if i > 0 {
          assert SeenBefore(Nub(rest)[i - 1], Nub(rest)[j - 1], rest);
          FilterSeen(xs[1..], p, ys[i], ys[j]);
        }
      }
    }
  }

  // ----- the merged automaton -----

  lemma MergedStatesInOrder(c: FSM)
    ensures InOrder(Merge(c).states) && TransitionsInOrder(Merge(c).transitions)
  {
    hide ClassTable, InOrder, TransitionsInOrder, Elems, MergedTransitions;
    var table := ClassTable(c);
    NubDistinct(Elems(table, c.states));
    SortedInOrder(Nub(Elems(table, c.states)));
    NubDistinct(MergedTransitions(c, table));
    SortedTransitions(Nub(MergedTransitions(c, table)));
  }

  lemma MergedNames(c: FSM, s: State)
    requires Complete(c)
    ensures s in Merge(c).states <==> exists x :: x in c.states && s == ClassName(c, x)
  {
    hide ClassTable, Merge, Complete, ClassName, SameWords;
    MergedStateIn(c, s);
    TableSeparates(c);
    forall x | x in c.states
      ensures ClassTable(c)[x] == ClassName(c, x)
    {
      ClassNumbers(c, x);
    }
  }

  /** The states are the numerals from 1 to the number of classes. */
  lemma MergedNumerals(c: FSM, s: State)
    requires Complete(c)
    ensures s in Merge(c).states <==> exists i: nat :: 1 <= i <= |Leasts(c)| && s == Show(i)
  {
    hide Merge, Complete, Show, Leasts, ClassNumber;
    MergedNames(c, s);
    if x :| x in c.states && s == ClassName(c, x) {
      NumberAtMost(c, x);
      assert s == Show(ClassNumber(c, x));
    }
    if i: nat :| 1 <= i <= |Leasts(c)| && s == Show(i) {
      NumberUsed(c, i);
      var x :| x in c.states && ClassNumber(c, x) == i;
      assert s == ClassName(c, x);
    }
  }

  lemma MergedTransitionNames(c: FSM, t: Transition)
    requires Complete(c)
    ensures t in Merge(c).transitions <==>
      (t.symbol in c.alphabet && exists x :: x in c.states && IsMoveOf(c, x, t))
  {
    hide ClassTable, Merge, ClassName, SameWords, MakeTransition;
    TableSeparates(c);
    MergedTransitionIn(c, t);
    forall x | x in c.states
      ensures ClassTable(c)[x] == ClassName(c, x)
    {
      ClassNumbers(c, x);
    }
    if p, q :| p in c.states && q in c.states && t in MergedTransition(c, ClassTable(c), p, q, t.symbol) {
      assert IsMoveOf(c, p, t);
    }
    if x :| x in c.states && t.symbol in c.alphabet && IsMoveOf(c, x, t) {
      var q := MakeTransition(c, x, t.symbol).value;
      assert t in MergedTransition(c, ClassTable(c), x, q, t.symbol);
    }
  }

  /** t is the move of x by its symbol, with the names of the classes. */
  ghost predicate IsMoveOf(c: FSM, x: State, t: Transition) {
    && MakeTransition(c, x, t.symbol).Some?
    && t.from == ClassName(c, x) && t.to == ClassName(c, MakeTransition(c, x, t.symbol).value)
  }

  ghost function ClassNames(c: FSM, xs: seq<State>): seq<string> {
    if xs == [] then [] else [ClassName(c, xs[0])] + ClassNames(c, xs[1..])
  }

  lemma {:induction false} EntriesAreNames(c: FSM, xs: seq<State>)
    requires Complete(c) && forall x :: x in xs ==> x in c.states
    ensures FlatMap(xs, x => Entry(ClassTable(c), x)) == ClassNames(c, xs)
  {
    hide ClassTable, Complete, ClassName;
    if xs != [] {
      EntriesAreNames(c, xs[1..]);
      ClassNumbers(c, xs[0]);
    }
  }

  lemma MergedInitialAndFinals(c: FSM)
    requires Complete(c)
    ensures Merge(c).alphabet == c.alphabet && Merge(c).initialState == ClassName(c, c.initialState)
    ensures FirstOccurrences(Merge(c).finalStates, ClassNames(c, c.finalStates))
  {
    hide ClassTable, ClassName, FirstOccurrences, MakeTransition;
    ClassNumbers(c, c.initialState);
    EntriesAreNames(c, c.finalStates);
    NubFirst(FlatMap(c.finalStates, x => Entry(ClassTable(c), x)));
  }
}

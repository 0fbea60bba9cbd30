/** Removing unreachable states, and the minimality of what is left. */
module Trim {
  import opened Sets
  import opened Wrappers
  import opened Lists
  import opened Automaton
  import opened Classes
  import opened Grouping
  import opened Minimize

  // ----- reachable states -----

  function Targets(m: FSM): set<State> {
    set t | t in m.transitions :: t.to
  }

  /** One round: prev and the states one transition away. */
  function Step(m: FSM, prev: set<State>): set<State> {
    prev + set p, a | p in prev && a in m.alphabet && MakeTransition(m, p, a).Some? :: MakeTransition(m, p, a).value
  }

  lemma StepGrows(m: FSM, prev: set<State>)
    ensures prev <= Step(m, prev) <= prev + Targets(m)
    ensures Step(m, prev) != prev ==> |Targets(m) - Step(m, prev)| < |Targets(m) - prev|
  {
    hide MakeTransition;
    var next := Step(m, prev);
    forall q | q in next
      ensures q in prev + Targets(m)
    {
      if q !in prev {
        var p, a :| p in prev && a in m.alphabet && MakeTransition(m, p, a) == Some(q);
        TransitionIs(m, p, a);
      }
    }
    if next != prev {
      var q :| q in next && q !in prev;
      SubsetSmaller(Targets(m) - next, Targets(m) - prev, q);
    }
  }

  function Closure(m: FSM, prev: set<State>): set<State>
    decreases |Targets(m) - prev|
  {
    StepGrows(m, prev);
    if Step(m, prev) == prev then prev else Closure(m, Step(m, prev))
  }

  function Reachable(m: FSM): set<State> {
    Closure(m, {m.initialState})
  }

  /** The members of a set of states of m in ascending order. */
  function ToList(m: FSM, s: set<State>): seq<State> {
    Sort(Nub(Filter([m.initialState] + Map(m.transitions, (t: Transition) => t.to), x => x in s)), Leq)
  }

  function RemoveNonReachableStates(m: FSM): FSM {
    var newStates := Reachable(m);
    m.(states := ToList(m, newStates),
       finalStates := ToList(m, (set x | x in m.finalStates) * newStates),
       transitions := Filter(m.transitions, (t: Transition) => t.from in newStates && t.to in newStates))
  }

  ghost predicate Reaches(m: FSM, q: State) {
    exists w :: Run(m, m.initialState, w) == Some(q)
  }

  lemma {:induction false} RunAppend(m: FSM, p: State, v: seq<Symbol>, w: seq<Symbol>)
    ensures Run(m, p, v + w) == match Run(m, p, v) case None => None case Some(q) => Run(m, q, w)
    decreases |v|
  {
    hide MakeTransition;
    if v == [] {
      assert v + w == w;
    } else {
      assert (v + w)[1..] == v[1..] + w;
      if MakeTransition(m, p, v[0]).Some? {
        RunAppend(m, MakeTransition(m, p, v[0]).value, v[1..], w);
      }
    }
  }

  lemma RunOne(m: FSM, p: State, a: Symbol)
    ensures Run(m, p, [a]) == MakeTransition(m, p, a)
  {
    hide MakeTransition;
    assert [a][1..] == [];
  }

  lemma ReachesStep(m: FSM, p: State, a: Symbol)
    requires Reaches(m, p) && MakeTransition(m, p, a).Some?
    ensures Reaches(m, MakeTransition(m, p, a).value)
  {
    hide MakeTransition, Run;
    var w :| Run(m, m.initialState, w) == Some(p);
    RunAppend(m, m.initialState, w, [a]);
    RunOne(m, p, a);
  }

  lemma {:induction false} ClosureSpec(m: FSM, prev: set<State>)
    requires forall q :: q in prev ==> Reaches(m, q)
    ensures var s := Closure(m, prev);
      prev <= s && Step(m, s) == s && forall q :: q in s ==> Reaches(m, q)
    decreases |Targets(m) - prev|
  {
    hide MakeTransition, Reaches;
    StepGrows(m, prev);
    if Step(m, prev) != prev {
      forall q | q in Step(m, prev)
        ensures Reaches(m, q)
      {
        if q !in prev {
          var p, a :| p in prev && a in m.alphabet && MakeTransition(m, p, a) == Some(q);
          ReachesStep(m, p, a);
        }
      }
      ClosureSpec(m, Step(m, prev));
    }
  }

  lemma ReachableSpec(m: FSM)
    ensures var s := Reachable(m);
      && m.initialState in s && (forall q :: q in s ==> Reaches(m, q))
      && forall p, a :: p in s && a in m.alphabet && MakeTransition(m, p, a).Some? ==> MakeTransition(m, p, a).value in s
  {
    hide MakeTransition;
    assert Run(m, m.initialState, []) == Some(m.initialState);
    ClosureSpec(m, {m.initialState});
    var s := Reachable(m);
    forall p, a | p in s && a in m.alphabet && MakeTransition(m, p, a).Some?
      ensures MakeTransition(m, p, a).value in s
    {
      assert MakeTransition(m, p, a).value in Step(m, s);
    }
  }

  lemma ToListIn(m: FSM, s: set<State>, x: State)
    ensures x in ToList(m, s) <==> x in s && (x == m.initialState || x in Targets(m))
    ensures Distinct(ToList(m, s))
  {
    var all := [m.initialState] + Map(m.transitions, (t: Transition) => t.to);
    var kept := Filter(all, y => y in s);
    SortIn(Nub(kept), Leq, x);
    NubIn(kept, x);
    NubDistinct(kept);
    SortDistinct(Nub(kept), Leq);
    FilterIn(all, y => y in s, x);
    MapIn(m.transitions, (t: Transition) => t.to, x);
  }

  lemma ReachedTarget(m: FSM, q: State)
    requires Reaches(m, q)
    ensures q == m.initialState || q in Targets(m)
  {
    hide MakeTransition;
    var w :| Run(m, m.initialState, w) == Some(q);
    RunTarget(m, m.initialState, w);
  }

  lemma {:induction false} RunTarget(m: FSM, p: State, w: seq<Symbol>)
    requires Run(m, p, w).Some?
    ensures Run(m, p, w).value == p || Run(m, p, w).value in Targets(m)
    decreases |w|
  {
    hide MakeTransition;
    if w != [] {
      TransitionIs(m, p, w[0]);
      RunTarget(m, MakeTransition(m, p, w[0]).value, w[1..]);
    }
  }

  /** The states that are left are the reachable ones. */
  lemma TrimmedStates(m: FSM, x: State)
    ensures x in RemoveNonReachableStates(m).states <==> x in Reachable(m)
    ensures x in RemoveNonReachableStates(m).finalStates <==> x in m.finalStates && x in Reachable(m)
    ensures Distinct(RemoveNonReachableStates(m).states)
  {
    hide Reachable, ToList, Targets, Reaches;
    ReachableSpec(m);
    var s := Reachable(m);
    ToListIn(m, s, x);
    ToListIn(m, (set y | y in m.finalStates) * s, x);
    if x in s { ReachedTarget(m, x); }
  }

  lemma {:induction false} FindFiltered<T>(xs: seq<T>, p: T -> bool, keep: T -> bool)
    requires Find(xs, p).Some? ==> keep(Find(xs, p).value)
    ensures Find(Filter(xs, keep), p) == Find(xs, p)
  {
    if xs != [] {
      var rest := Filter(xs[1..], keep);
      assert Filter(xs, keep) == if keep(xs[0]) then [xs[0]] + rest else rest;
      assert keep(xs[0]) ==> Filter(xs, keep)[1..] == rest;
      if !p(xs[0]) { FindFiltered(xs[1..], p, keep); }
    }
  }

  lemma TrimmedMoves(m: FSM, p: State, a: Symbol)
    requires p in Reachable(m) && (a !in m.alphabet ==> MakeTransition(m, p, a) == None)
    ensures MakeTransition(RemoveNonReachableStates(m), p, a) == MakeTransition(m, p, a)
    ensures MakeTransition(m, p, a).Some? ==> MakeTransition(m, p, a).value in Reachable(m)
  {
    hide Reachable, ToList;
    ReachableSpec(m);
    var s := Reachable(m);
    var wanted := (t: Transition) => t.from == p && t.symbol == a;
    FindSpec(m.transitions, wanted);
    FindFiltered(m.transitions, wanted, (t: Transition) => t.from in s && t.to in s);
  }

  lemma {:induction false} TrimmedRun(m: FSM, p: State, w: seq<Symbol>)
    requires p in Reachable(m) && forall q, a :: a !in m.alphabet ==> MakeTransition(m, q, a) == None
    ensures Run(RemoveNonReachableStates(m), p, w) == Run(m, p, w)
    ensures Run(m, p, w).Some? ==> Run(m, p, w).value in Reachable(m)
    decreases |w|
  {
    hide MakeTransition, Reachable, RemoveNonReachableStates;
    if w != [] {
      TrimmedMoves(m, p, w[0]);
      if MakeTransition(m, p, w[0]).Some? {
        TrimmedRun(m, MakeTransition(m, p, w[0]).value, w[1..]);
      }
    }
  }

  lemma TrimmedAccepts(m: FSM, p: State, w: seq<Symbol>)
    requires p in Reachable(m) && forall q, a :: a !in m.alphabet ==> MakeTransition(m, q, a) == None
    ensures Accepts(RemoveNonReachableStates(m), p, w) == Accepts(m, p, w)
  {
    hide MakeTransition, Reachable, RemoveNonReachableStates, Run;
    TrimmedRun(m, p, w);
    if Run(m, p, w).Some? { TrimmedStates(m, Run(m, p, w).value); }
  }

  lemma ReducedAlphabet(m: FSM, q: State, a: Symbol)
    requires WellFormed(m) && a !in m.alphabet
    ensures MakeTransition(ReduceFSM(m), q, a) == None
  {
    hide MakeTransition, ReduceFSM, Merge, WellFSM;
    WellComplete(m);
    MergedDeterministic(WellFSM(m));
    ReducedInitial(m);
    WellAlphabet(m);
    TransitionNone(ReduceFSM(m), q, a);
  }

  lemma WellAlphabet(m: FSM)
    ensures WellFSM(m).alphabet == m.alphabet
  {}

  // ----- the whole minimizer -----

  /** What the program prints for the option that also removes unreachable states. */
  function Minimal(m: FSM): FSM {
    RemoveNonReachableStates(ReduceFSM(m))
  }

  lemma MinimalAccepts(m: FSM, p: State, w: seq<Symbol>)
    requires WellFormed(m) && p in Reachable(ReduceFSM(m))
    ensures Accepts(Minimal(m), p, w) == Accepts(ReduceFSM(m), p, w)
  {
    hide ReduceFSM, Accepts, MakeTransition, Reachable, RemoveNonReachableStates;
    var r := ReduceFSM(m);
    ReducedInitial(m);
    forall q, a | a !in r.alphabet
      ensures MakeTransition(r, q, a) == None
    {
      ReducedAlphabet(m, q, a);
    }
    TrimmedAccepts(r, p, w);
  }

  /** The trimmed minimal automaton accepts the same words as the input. */
  lemma MinimalLanguage(m: FSM, w: seq<Symbol>)
    requires WellFormed(m)
    ensures Accepts(Minimal(m), Minimal(m).initialState, w) == Accepts(m, m.initialState, w)
  {
    hide ReduceFSM, Accepts, MakeTransition, Reachable;
    ReachableSpec(ReduceFSM(m));
    MinimalAccepts(m, ReduceFSM(m).initialState, w);
    LanguagePreserved(m, w);
  }

  /** Every state of the result is reached by some word. */
  lemma AllReachable(m: FSM, q: State)
    requires WellFormed(m) && q in Minimal(m).states
    ensures Reaches(Minimal(m), q)
  {
    hide ReduceFSM, MakeTransition, Reachable, RemoveNonReachableStates, Run;
    var r := ReduceFSM(m);
    ReducedInitial(m);
    TrimmedStates(r, q);
    ReachableSpec(r);
    forall p, a | a !in r.alphabet
      ensures MakeTransition(r, p, a) == None
    {
      ReducedAlphabet(m, p, a);
    }
    var w :| Run(r, r.initialState, w) == Some(q);
    TrimmedRun(r, r.initialState, w);
    TrimmedInitial(r);
  }

  lemma TrimmedInitial(m: FSM)
    ensures RemoveNonReachableStates(m).initialState == m.initialState
  {}

  // ----- no smaller automaton -----

  /** A one-to-one map from a into b. */
  ghost predicate Injects<T(!new), U(!new)>(f: map<T, U>, a: set<T>, b: set<U>) {
    && (forall x :: x in a ==> x in f && f[x] in b)
    && (forall x, y :: x in a && y in a && f[x] == f[y] ==> x == y)
  }

  lemma {:induction false} Pigeonhole<T(!new), U(!new)>(f: map<T, U>, a: set<T>, b: set<U>)
    requires Injects(f, a, b)
    ensures |a| <= |b|
    decreases a
  {
    if a != {} {
      var x :| x in a;
      Pigeonhole(f, a - {x}, b - {f[x]});
      assert |a| == |a - {x}| + 1;
      assert |b| == |b - {f[x]}| + 1;
    }
  }

  lemma {:induction false} SetOfList<T>(xs: seq<T>, s: set<T>)
    requires s == set x | x in xs
    ensures |s| <= |xs| && (Distinct(xs) ==> |s| == |xs|)
  {
    if xs == [] {
      assert s == {};
    } else {
      var rest := set x | x in xs[1..];
      SetOfList(xs[1..], rest);
      assert s == rest + {xs[0]};
      if Distinct(xs) { assert xs[0] !in rest; }
    }
  }

  /** From this state some word is accepted. */
  ghost predicate Live(m: FSM, q: State) {
    exists w :: Accepts(m, q, w)
  }

  lemma DeadStep(m: FSM, q: State, a: Symbol)
    requires !Live(m, q) && MakeTransition(m, q, a).Some?
    ensures !Live(m, MakeTransition(m, q, a).value)
  {
    hide MakeTransition, Run;
    forall w
      ensures !Accepts(m, MakeTransition(m, q, a).value, w)
    {
      assert !Accepts(m, q, [a] + w);
      AcceptsStep(m, q, a, w);
    }
  }

  /** Before the sink is removed, a state from which nothing is accepted is a sink. */
  lemma DeadIsSink(m: FSM, x: State)
    requires WellFormed(m) && x in ReducedComplete(m).states && !Live(ReducedComplete(m), x)
    ensures IsSinkState(ReducedComplete(m), x)
  {
    hide Merge, WellFSM, MakeTransition, Run, ReduceFSM;
    var r := ReducedComplete(m);
    WellComplete(m);
    MergedDeterministic(WellFSM(m));
    assert x !in r.finalStates by { EmptyWord(r, x); }
    forall t | t in r.transitions && t.from == x
      ensures t.to == x
    {
      TransitionSome(r, t);
      DeadStep(r, x, t.symbol);
      DeadEqual(m, x, t.to);
    }
  }

  lemma EmptyWord(m: FSM, q: State)
    ensures Accepts(m, q, []) <==> q in m.finalStates
  {}

  lemma DeadEqual(m: FSM, x: State, y: State)
    requires WellFormed(m) && x in ReducedComplete(m).states && y in ReducedComplete(m).states
    requires !Live(ReducedComplete(m), x) && !Live(ReducedComplete(m), y)
    ensures x == y
  {
    hide ReducedComplete, ReduceFSM, Accepts;
    if x != y {
      Distinguishable(m, x, y);
      var w :| Accepts(ReduceFSM(m), x, w) != Accepts(ReduceFSM(m), y, w);
      ReducedAccepts(m, x, w);
      ReducedAccepts(m, y, w);
    }
  }

  lemma SinkIsDead(m: FSM, x: State)
    requires IsSinkState(m, x)
    ensures !Live(m, x)
  {
    hide IsSinkState, Accepts;
    forall w
      ensures !Accepts(m, x, w)
    {
      SinkStateRejects(m, x, w);
    }
  }

  /** The states that are left are no sinks, and the transitions that are left join them. */
  lemma LeftStates(m: FSM)
    requires WellFormed(m)
    ensures var r := ReduceFSM(m);
      && (forall x :: x in r.states ==> !IsSinkState(ReducedComplete(m), x))
      && (forall t :: t in r.transitions ==> t.from in r.states && t.to in r.states)
  {
    hide Merge, WellFSM, MakeTransition, Run, IsSinkState, Accepts, Live;
    var c := ReducedComplete(m);
    WellComplete(m);
    MergedDeterministic(WellFSM(m));
    FindSpec(c.states, s => IsSinkState(c, s));
    match Find(c.states, s => IsSinkState(c, s))
    case None =>
    case Some(sink) =>
      var r := Without(c, sink);
      forall x
        ensures x in r.states <==> x in c.states && x != sink
      {
        FilterIn(c.states, s => s != sink, x);
      }
      forall t | t in r.transitions
        ensures t.from in r.states && t.to in r.states
      {
        FilterIn(c.transitions, (u: Transition) => u.to != sink && u.from != sink, t);
      }
      forall x | x in r.states
        ensures !IsSinkState(c, x)
      {
        OneSink(m, x, sink);
      }
  }

  lemma OneSink(m: FSM, x: State, sink: State)
    requires WellFormed(m) && x in ReducedComplete(m).states && sink in ReducedComplete(m).states && x != sink
    requires IsSinkState(ReducedComplete(m), sink)
    ensures !IsSinkState(ReducedComplete(m), x)
  {
    hide ReducedComplete, IsSinkState, Live;
    var c := ReducedComplete(m);
    SinkIsDead(c, sink);
    if IsSinkState(c, x) {
      SinkIsDead(c, x);
      DeadEqual(m, x, sink);
    }
  }

  /** After the sink is removed, no state is dead. */
  lemma LeftAreLive(m: FSM, x: State)
    requires WellFormed(m) && x in ReduceFSM(m).states
    ensures Live(ReduceFSM(m), x) && x in ReducedComplete(m).states
  {
    hide ReducedComplete, IsSinkState, ReduceFSM, Accepts;
    var r := ReducedComplete(m);
    ReducedInitial(m);
    LeftStates(m);
    if !Live(r, x) { DeadIsSink(m, x); }
    var w :| Accepts(r, x, w);
    ReducedAccepts(m, x, w);
  }

  lemma InitialIn(m: FSM)
    requires WellFormed(m)
    ensures ReduceFSM(m).initialState in ReducedComplete(m).states
  {
    hide WellFSM, ReduceFSM, ClassTable;
    ReducedInitial(m);
    WellComplete(m);
    var c := WellFSM(m);
    TableSeparates(c);
    MergedStateIn(c, Merge(c).initialState);
  }

  lemma AcceptsAppend(m: FSM, p: State, v: seq<Symbol>, w: seq<Symbol>)
    ensures Accepts(m, p, v + w) == match Run(m, p, v) case None => false case Some(q) => Accepts(m, q, w)
  {
    RunAppend(m, p, v, w);
  }

  /** If nothing is accepted, only the initial state is reachable. */
  lemma EmptyReach(m: FSM, q: State)
    requires WellFormed(m) && !Live(ReduceFSM(m), ReduceFSM(m).initialState) && q in Reachable(ReduceFSM(m))
    ensures q == ReduceFSM(m).initialState
  {
    hide ReducedComplete, ReduceFSM, Live, IsSinkState, MakeTransition, Reachable;
    var r := ReduceFSM(m);
    ReachableSpec(r);
    var w :| Run(r, r.initialState, w) == Some(q);
    if w != [] {
      TransitionIs(r, r.initialState, w[0]);
      LeftStates(m);
      LeftAreLive(m, r.initialState);
    }
  }

  lemma ReachLive(m: FSM, q: State)
    requires WellFormed(m) && Live(ReduceFSM(m), ReduceFSM(m).initialState) && q in Reachable(ReduceFSM(m))
    ensures Live(ReduceFSM(m), q) && q in ReducedComplete(m).states && Reaches(ReduceFSM(m), q)
  {
    hide ReducedComplete, ReduceFSM, Live, IsSinkState, Reaches, Reachable;
    var r := ReduceFSM(m);
    InitialIn(m);
    ReachableSpec(r);
    ReachedTarget(r, q);
    if q != r.initialState {
      LeftStates(m);
      LeftAreLive(m, q);
    }
  }

  /** The states that a transition can lead to are declared, and so is the initial one. */
  ghost predicate Closed(n: FSM) {
    n.initialState in n.states && forall t :: t in n.transitions ==> t.to in n.states
  }

  lemma RunCloses(n: FSM, w: seq<Symbol>)
    requires Closed(n) && Run(n, n.initialState, w).Some?
    ensures Run(n, n.initialState, w).value in n.states
  {
    RunTarget(n, n.initialState, w);
  }

  /** A word that leads to q. */
  ghost function Access(m: FSM, q: State): (w: seq<Symbol>)
    requires Reaches(m, q)
    ensures Run(m, m.initialState, w) == Some(q)
  {
    var w :| Run(m, m.initialState, w) == Some(q); w
  }

  /** Another automaton for the same words has a state that plays the part of q. */
  lemma Image(m: FSM, n: FSM, q: State)
    requires WellFormed(m) && Closed(n) && SameWords(n, n.initialState, ReduceFSM(m), ReduceFSM(m).initialState)
    requires Reaches(ReduceFSM(m), q) && Live(ReduceFSM(m), q)
    ensures var x := Run(n, n.initialState, Access(ReduceFSM(m), q));
      x.Some? && x.value in n.states && SameWords(n, x.value, ReduceFSM(m), q)
  {
    hide ReduceFSM, Reaches, Run, Accepts;
    var r := ReduceFSM(m);
    var w := Access(r, q);
    forall v
      ensures Accepts(r, q, v) == (Run(n, n.initialState, w).Some? && Accepts(n, Run(n, n.initialState, w).value, v))
    {
      AcceptsAppend(r, r.initialState, w, v);
      AcceptsAppend(n, n.initialState, w, v);
    }
    var v :| Accepts(r, q, v);
    RunCloses(n, w);
  }

  lemma ImagesDiffer(m: FSM, n: FSM, p: State, q: State, x: State)
    requires WellFormed(m) && p in ReducedComplete(m).states && q in ReducedComplete(m).states
    requires SameWords(n, x, ReduceFSM(m), p) && SameWords(n, x, ReduceFSM(m), q)
    ensures p == q
  {
    hide ReduceFSM, ReducedComplete, Accepts;
    if p != q { Distinguishable(m, p, q); }
  }

  lemma StateCount(m: FSM)
    ensures |RemoveNonReachableStates(m).states| == |Reachable(m)|
  {
    hide RemoveNonReachableStates, Reachable;
    var n := RemoveNonReachableStates(m);
    forall x
      ensures x in n.states <==> x in Reachable(m)
    {
      TrimmedStates(m, x);
    }
    TrimmedStates(m, "");
    assert Reachable(m) == set x | x in n.states;
    SetOfList(n.states, Reachable(m));
  }

  /** Minimality: an automaton that accepts the same words as m has at least as many states as the result. */
  lemma NoSmaller(m: FSM, n: FSM)
    requires WellFormed(m) && Closed(n) && SameWords(n, n.initialState, m, m.initialState)
    ensures |Minimal(m).states| <= |n.states|
  {
    hide ReduceFSM, ReducedComplete, Reaches, Run, Accepts, Reachable, RemoveNonReachableStates, Live;
    var r := ReduceFSM(m);
    var s := Reachable(r);
    var others := set x | x in n.states;
    SetOfList(n.states, others);
    StateCount(r);
    forall w
      ensures Accepts(n, n.initialState, w) == Accepts(r, r.initialState, w)
    {
      LanguagePreserved(m, w);
    }
    if Live(r, r.initialState) {
      forall q | q in s
        ensures Live(r, q) && q in ReducedComplete(m).states && Reaches(r, q)
      {
        ReachLive(m, q);
      }
      Images(m, n, s, others);
    } else {
      forall q | q in s
        ensures q == r.initialState
      {
        EmptyReach(m, q);
      }
      assert s <= {r.initialState};
      SubsetSize(s, {r.initialState});
      assert |n.states| >= 1;
    }
  }

  lemma Images(m: FSM, n: FSM, s: set<State>, others: set<State>)
    requires WellFormed(m) && Closed(n) && SameWords(n, n.initialState, ReduceFSM(m), ReduceFSM(m).initialState)
    requires others == set x | x in n.states
    requires forall q :: q in s ==> Live(ReduceFSM(m), q) && q in ReducedComplete(m).states && Reaches(ReduceFSM(m), q)
    ensures |s| <= |others|
  {
    hide ReduceFSM, ReducedComplete, Reaches, Run, Live, SameWords;
    var r := ReduceFSM(m);
    forall q | q in s
      ensures var x := Run(n, n.initialState, Access(r, q));
        x.Some? && x.value in n.states && SameWords(n, x.value, r, q)
    {
      Image(m, n, q);
    }
    var f := map q | q in s :: Run(n, n.initialState, Access(r, q)).value;
    forall p, q | p in s && q in s && f[p] == f[q]
      ensures p == q
    {
      ImagesDiffer(m, n, p, q, f[p]);
    }
    Pigeonhole(f, s, others);
  }
}

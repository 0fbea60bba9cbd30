/** The two answers of the minimizer, spelled out: the reduced automaton and the trimmed one, every list in
    its order. */
module Answer {
  import opened Wrappers
  import opened Lists
  import opened Automaton
  import opened Minimize
  import opened Trim
  import opened Naming

  // ----- the completed automaton -----

  ghost predicate HasGap(m: FSM) {
    exists p, a :: p in m.states && a in m.alphabet && MakeTransition(m, p, a) == None
  }

  /** SINK is added, as the last state, exactly if a transition is missing; it accepts nothing, and the other
      states accept what they accepted. */
  lemma CompletedExactly(m: FSM)
    requires WellFormed(m)
    ensures var c := WellFSM(m);
      && c.states == m.states + (if HasGap(m) then ["SINK"] else [])
      && c.alphabet == m.alphabet && c.initialState == m.initialState && c.finalStates == m.finalStates
      && (forall x :: x in m.states ==> SameWords(c, x, m, x)) && !Live(c, "SINK")
  {
    hide MakeTransition, Accepts;
    var c := WellFSM(m);
    assert WellTransitions(m) == [] <==> !HasGap(m) by { GapFilled(m); }
    forall x, w | x in m.states
      ensures Accepts(c, x, w) == Accepts(m, x, w)
    {
      WellAccepts(m, x, w);
    }
    forall w
      ensures !Accepts(c, SINK, w)
    {
      SinkRejects(m, w);
    }
  }

  lemma GapFilled(m: FSM)
    requires WellFormed(m)
    ensures WellTransitions(m) == [] <==> !HasGap(m)
  {
    hide MakeTransition, WellTransitions;
    forall t: Transition
      ensures t in WellTransitions(m) <==>
        t.to == SINK && t.from in m.states && t.symbol in m.alphabet && MakeTransition(m, t.from, t.symbol) == None
    {
      WellIn(m, t);
    }
    if p, a :| p in m.states && a in m.alphabet && MakeTransition(m, p, a) == None {
      assert Transition(p, a, SINK) in WellTransitions(m);
    }
    if WellTransitions(m) != [] {
      var t := WellTransitions(m)[0];
      assert t in WellTransitions(m);
    }
  }

  // ----- without the sink -----

  lemma LiveName(m: FSM, x: State)
    requires WellFormed(m) && x in WellFSM(m).states
    ensures Live(ReducedComplete(m), ClassName(WellFSM(m), x)) <==> Live(WellFSM(m), x)
  {
    hide Merge, WellFSM, ClassTable, ClassName, Accepts;
    var c := WellFSM(m);
    WellComplete(m);
    ClassNumbers(c, x);
    forall w
      ensures Accepts(Merge(c), ClassName(c, x), w) == Accepts(c, x, w)
    {
      MergedAccepts(c, x, w);
    }
  }

  /** The sink that is removed is the only state from which nothing is accepted. */
  lemma SinkFound(m: FSM)
    requires WellFormed(m)
    ensures var r := ReducedComplete(m);
      forall s :: s in r.states ==> (Live(r, s) <==> Find(r.states, s => IsSinkState(r, s)) != Some(s))
  {
    hide ReducedComplete, IsSinkState, Live;
    var r := ReducedComplete(m);
    FindSpec(r.states, s => IsSinkState(r, s));
    forall s | s in r.states
      ensures Live(r, s) <==> !IsSinkState(r, s)
    {
      if IsSinkState(r, s) { SinkIsDead(r, s); } else if !Live(r, s) { DeadIsSink(m, s); }
    }
    forall s, s' | s in r.states && s' in r.states && !Live(r, s) && !Live(r, s')
      ensures s == s'
    {
      DeadEqual(m, s, s');
    }
  }

  lemma ReducedKeeps(m: FSM)
    requires WellFormed(m)
    ensures var r, n := ReducedComplete(m), ReduceFSM(m);
      && (forall s :: s in n.states <==> s in r.states && Live(r, s))
      && (forall t :: t in n.transitions <==> t in r.transitions && Live(r, t.from) && Live(r, t.to))
      && InOrder(n.states) && TransitionsInOrder(n.transitions)
  {
    hide Merge, WellFSM, IsSinkState, Live, InOrder, TransitionsInOrder;
    var r := ReducedComplete(m);
    WellComplete(m);
    MergedStatesInOrder(WellFSM(m));
    MergedDeterministic(WellFSM(m));
    SinkFound(m);
    FindSpec(r.states, s => IsSinkState(r, s));
    match Find(r.states, s => IsSinkState(r, s))
    case None =>
    case Some(sink) =>
      FilterInOrder(r.states, s => s != sink);
      FilterTransitions(r.transitions, (t: Transition) => t.to != sink && t.from != sink);
      forall s: State
        ensures s in ReduceFSM(m).states <==> s in r.states && s != sink
      {
        FilterIn(r.states, s => s != sink, s);
      }
      forall t: Transition
        ensures t in ReduceFSM(m).transitions <==> t in r.transitions && t.to != sink && t.from != sink
      {
        FilterIn(r.transitions, (t: Transition) => t.to != sink && t.from != sink, t);
      }
  }

  /** Both ends of the move of x with symbol a accept something. */
  ghost predicate LiveMove(c: FSM, x: State, a: Symbol) {
    Live(c, x) && MakeTransition(c, x, a).Some? && Live(c, MakeTransition(c, x, a).value)
  }

  lemma ReducedTransition(m: FSM, t: Transition)
    requires WellFormed(m)
    ensures var c := WellFSM(m);
      t in ReduceFSM(m).transitions <==>
      t.symbol in m.alphabet && exists x :: x in c.states && LiveMove(c, x, t.symbol) && IsMoveOf(c, x, t)
  {
    hide Merge, WellFSM, ReduceFSM, ClassName, Live, MakeTransition, InOrder, TransitionsInOrder;
    var c := WellFSM(m);
    WellComplete(m);
    ReducedKeeps(m);
    MergedTransitionNames(c, t);
    WellAlphabet(m);
    forall x | x in c.states && t.symbol in c.alphabet && IsMoveOf(c, x, t)
      ensures Live(ReducedComplete(m), t.from) && Live(ReducedComplete(m), t.to) <==> LiveMove(c, x, t.symbol)
    {
      LiveName(m, x);
      LiveName(m, MakeTransition(c, x, t.symbol).value);
    }
  }

  lemma ReducedState(m: FSM, s: State)
    requires WellFormed(m)
    ensures var c := WellFSM(m);
      s in ReduceFSM(m).states <==> exists x :: x in c.states && Live(c, x) && s == ClassName(c, x)
  {
    hide Merge, WellFSM, ReduceFSM, ClassName, Live, InOrder, TransitionsInOrder;
    var c := WellFSM(m);
    WellComplete(m);
    ReducedKeeps(m);
    MergedNames(c, s);
    forall x | x in c.states
      ensures Live(ReducedComplete(m), ClassName(c, x)) <==> Live(c, x)
    {
      LiveName(m, x);
    }
  }

  /** The reduced automaton: its states are the numerals of the classes that accept something, in ascending
      order; its transitions are the moves between them, in ascending order; its final states are those of
      the input under their new names, by first occurrence. */
  lemma ReducedExactly(m: FSM)
    requires WellFormed(m)
    ensures var c, r := WellFSM(m), ReduceFSM(m);
      && r.alphabet == m.alphabet && r.initialState == ClassName(c, m.initialState)
      && (forall s :: s in r.states <==> exists x :: x in c.states && Live(c, x) && s == ClassName(c, x))
      && (forall t :: t in r.transitions <==>
            t.symbol in m.alphabet && exists x :: x in c.states && LiveMove(c, x, t.symbol) && IsMoveOf(c, x, t))
      && InOrder(r.states) && TransitionsInOrder(r.transitions)
      && FirstOccurrences(r.finalStates, ClassNames(c, m.finalStates))
  {
    hide Merge, WellFSM, ReduceFSM, ClassName, ClassNames, Live, LiveMove, IsMoveOf, FirstOccurrences, InOrder, TransitionsInOrder;
    var c := WellFSM(m);
    CompletedExactly(m);
    WellComplete(m);
    ReducedKeeps(m);
    ReducedInitial(m);
    MergedInitialAndFinals(c);
    forall s
      ensures s in ReduceFSM(m).states <==> exists x :: x in c.states && Live(c, x) && s == ClassName(c, x)
    {
      ReducedState(m, s);
    }
    forall t
      ensures t in ReduceFSM(m).transitions <==>
        t.symbol in m.alphabet && exists x :: x in c.states && LiveMove(c, x, t.symbol) && IsMoveOf(c, x, t)
    {
      ReducedTransition(m, t);
    }
  }

  // ----- without unreachable states -----

  lemma ReachableExact(m: FSM, q: State)
    requires forall p, a :: a !in m.alphabet ==> MakeTransition(m, p, a) == None
    ensures q in Reachable(m) <==> Reaches(m, q)
  {
    hide MakeTransition, Reachable, RemoveNonReachableStates;
    ReachableSpec(m);
    if w :| Run(m, m.initialState, w) == Some(q) { TrimmedRun(m, m.initialState, w); }
  }

  lemma ToListInOrder(m: FSM, s: set<State>)
    ensures InOrder(ToList(m, s))
  {
    hide InOrder;
    var kept := Filter([m.initialState] + Map(m.transitions, (t: Transition) => t.to), x => x in s);
    NubDistinct(kept);
    SortedInOrder(Nub(kept));
  }

  lemma TrimmedInOrder(m: FSM)
    requires TransitionsInOrder(m.transitions)
    ensures var r := RemoveNonReachableStates(m);
      InOrder(r.states) && InOrder(r.finalStates) && TransitionsInOrder(r.transitions)
  {
    hide InOrder, TransitionsInOrder, Reachable, ToList;
    var s := Reachable(m);
    ToListInOrder(m, s);
    ToListInOrder(m, (set x | x in m.finalStates) * s);
    FilterTransitions(m.transitions, (t: Transition) => t.from in s && t.to in s);
  }

  lemma TrimmedTransition(m: FSM, t: Transition)
    ensures t in RemoveNonReachableStates(m).transitions <==>
      t in m.transitions && t.from in Reachable(m) && t.to in Reachable(m)
  {
    hide Reachable, ToList;
    var s := Reachable(m);
    FilterIn(m.transitions, (u: Transition) => u.from in s && u.to in s, t);
  }

  /** The trimmed automaton: of the reduced one it keeps the initial state and what some word leads to, in
      ascending order throughout. */
  lemma MinimalExactly(m: FSM)
    requires WellFormed(m)
    ensures var r, n := ReduceFSM(m), Minimal(m);
      && n.alphabet == r.alphabet && n.initialState == r.initialState
      && (forall s :: s in n.states <==> Reaches(r, s))
      && (forall s :: s in n.finalStates <==> s in r.finalStates && Reaches(r, s))
      && (forall t :: t in n.transitions <==> t in r.transitions && Reaches(r, t.from) && Reaches(r, t.to))
      && InOrder(n.states) && InOrder(n.finalStates) && TransitionsInOrder(n.transitions)
  {
    hide ReduceFSM, Reaches, MakeTransition, InOrder, TransitionsInOrder, Reachable, ReducedComplete, Live;
    var r := ReduceFSM(m);
    ReducedInitial(m);
    ReducedKeeps(m);
    TrimmedInOrder(r);
    forall q, a | a !in r.alphabet
      ensures MakeTransition(r, q, a) == None
    {
      ReducedAlphabet(m, q, a);
    }
    forall s
      ensures s in Reachable(r) <==> Reaches(r, s)
      ensures s in Minimal(m).states <==> s in Reachable(r)
      ensures s in Minimal(m).finalStates <==> s in r.finalStates && s in Reachable(r)
    {
      ReachableExact(r, s);
      TrimmedStates(r, s);
    }
    forall t
      ensures t in Minimal(m).transitions <==> t in r.transitions && t.from in Reachable(r) && t.to in Reachable(r)
    {
      TrimmedTransition(r, t);
    }
  }
}

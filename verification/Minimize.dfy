/** Merging equal states, removing the sink and trimming unreachable states: the result accepts the same
    words, and no automaton with fewer states does. */
module Minimize {
  import opened Wrappers
  import opened Lists
  import opened Automaton
  import opened Classes
  import opened Grouping

  // ----- merging -----

  function ClassTable(c: FSM): map<State, State> {
    NewStates(MinClasses(EqualStates(c)))
  }

  function Entry(table: map<State, State>, x: State): seq<State> {
    if x in table then [table[x]] else []
  }

  /** The transitions that p, q and a give rise to, at most one. */
  function MergedTransition(c: FSM, table: map<State, State>, p: State, q: State, a: Symbol): seq<Transition> {
    if p in table && q in table && MakeTransition(c, p, a) == Some(q) then [Transition(table[p], a, table[q])] else []
  }

  function MergedTransitions(c: FSM, table: map<State, State>): seq<Transition> {
    FlatMap(Pairs(c.states, c.states), (pq: (State, State)) => FlatMap(c.alphabet, a => MergedTransition(c, table, pq.0, pq.1, a)))
  }

  /** The values of the table in ascending order of its keys, which are among xs. */
  function Elems(table: map<State, State>, xs: seq<State>): seq<State> {
    FlatMap(Sort(xs, Leq), x => Entry(table, x))
  }

  function Merge(c: FSM): FSM {
    var table := ClassTable(c);
    FSM(c.alphabet, Sort(Nub(Elems(table, c.states)), Leq),
        if c.initialState in table then table[c.initialState] else "EMPTY",
        Nub(FlatMap(c.finalStates, x => Entry(table, x))),
        Sort(Nub(MergedTransitions(c, table)), LeqTransition))
  }

  lemma EqualStatesEquivalence(c: FSM)
    requires Complete(c)
    ensures Equivalence(EqualStates(c), c.states)
  {
    hide EqualStates, Complete, Accepts;
    EqualStatesExact(c);
  }

  /** Two states get the same new name exactly if they accept the same words. */
  lemma TableSeparates(c: FSM)
    requires Complete(c)
    ensures forall x :: x in ClassTable(c) <==> x in c.states
    ensures forall x, y :: x in c.states && y in c.states ==>
      (ClassTable(c)[x] == ClassTable(c)[y] <==> SameWords(c, x, c, y))
  {
    hide EqualStates, NewStates, MinClasses, Complete, SameWords;
    EqualStatesEquivalence(c);
    NewStatesExact(EqualStates(c), c.states);
    EqualStatesExact(c);
  }

  lemma EntriesIn(table: map<State, State>, xs: seq<State>, y: State)
    ensures y in FlatMap(xs, x => Entry(table, x)) <==> exists x :: x in xs && x in table && y == table[x]
  {
    FlatMapIn(xs, x => Entry(table, x), y);
    if x :| x in xs && x in table && y == table[x] { assert y in Entry(table, x); }
  }

  lemma MergedStateIn(c: FSM, y: State)
    ensures y in Merge(c).states <==> exists x :: x in c.states && x in ClassTable(c) && y == ClassTable(c)[x]
    ensures Distinct(Merge(c).states)
  {
    hide ClassTable;
    var table := ClassTable(c);
    var elems := Elems(table, c.states);
    SortIn(Nub(elems), Leq, y);
    NubIn(elems, y);
    NubDistinct(elems);
    SortDistinct(Nub(elems), Leq);
    EntriesIn(table, Sort(c.states, Leq), y);
    forall x: State
      ensures x in Sort(c.states, Leq) <==> x in c.states
    {
      SortIn(c.states, Leq, x);
    }
  }

  lemma MergedFinalIn(c: FSM, y: State)
    ensures y in Merge(c).finalStates <==> exists x :: x in c.finalStates && x in ClassTable(c) && y == ClassTable(c)[x]
  {
    hide ClassTable;
    EntriesIn(ClassTable(c), c.finalStates, y);
    NubIn(FlatMap(c.finalStates, x => Entry(ClassTable(c), x)), y);
  }

  lemma MergedTransitionIn(c: FSM, t: Transition)
    ensures t in Merge(c).transitions <==>
      (t.symbol in c.alphabet &&
       exists p, q :: p in c.states && q in c.states && t in MergedTransition(c, ClassTable(c), p, q, t.symbol))
  {
    hide ClassTable;
    var table := ClassTable(c);
    var all := MergedTransitions(c, table);
    var f := (pq: (State, State)) => FlatMap(c.alphabet, a => MergedTransition(c, table, pq.0, pq.1, a));
    SortIn(Nub(all), LeqTransition, t);
    NubIn(all, t);
    FlatMapIn(Pairs(c.states, c.states), f, t);
    if pq :| pq in Pairs(c.states, c.states) && t in f(pq) {
      PairsIn(c.states, c.states, pq);
      FlatMapIn(c.alphabet, a => MergedTransition(c, table, pq.0, pq.1, a), t);
    }
    if p, q :| t.symbol in c.alphabet && p in c.states && q in c.states && t in MergedTransition(c, table, p, q, t.symbol) {
      PairsIn(c.states, c.states, (p, q));
      FlatMapIn(c.alphabet, a => MergedTransition(c, table, p, q, a), t);
      assert t in f((p, q));
    }
  }

  lemma MergedDeterministic(c: FSM)
    requires Complete(c)
    ensures Deterministic(Merge(c).transitions)
    ensures forall t :: t in Merge(c).transitions ==>
      t.from in Merge(c).states && t.to in Merge(c).states && t.symbol in c.alphabet
  {
    hide ClassTable, Merge, SameWords, MakeTransition;
    var table := ClassTable(c);
    TableSeparates(c);
    forall t | t in Merge(c).transitions
      ensures t.from in Merge(c).states && t.to in Merge(c).states && t.symbol in c.alphabet
    {
      MergedTransitionIn(c, t);
      MergedStateIn(c, t.from);
      MergedStateIn(c, t.to);
    }
    forall t, u | t in Merge(c).transitions && u in Merge(c).transitions && t.from == u.from && t.symbol == u.symbol
      ensures t == u
    {
      MergedTransitionIn(c, t);
      MergedTransitionIn(c, u);
      var p, q :| p in c.states && q in c.states && t in MergedTransition(c, table, p, q, t.symbol);
      var p', q' :| p' in c.states && q' in c.states && u in MergedTransition(c, table, p', q', u.symbol);
      SameWordsStep(c, p, p', t.symbol);
    }
  }

  /** The merged automaton moves between classes as the original moves between states. */
  lemma MergedMoves(c: FSM, p: State, a: Symbol)
    requires Complete(c) && p in c.states
    ensures p in ClassTable(c)
    ensures a in c.alphabet ==> MakeTransition(c, p, a).Some? && MakeTransition(c, p, a).value in ClassTable(c)
    ensures a in c.alphabet ==>
      MakeTransition(Merge(c), ClassTable(c)[p], a) == Some(ClassTable(c)[MakeTransition(c, p, a).value])
    ensures a !in c.alphabet ==> MakeTransition(Merge(c), ClassTable(c)[p], a) == None
  {
    hide ClassTable, Merge, SameWords, MakeTransition;
    var table := ClassTable(c);
    TableSeparates(c);
    MergedDeterministic(c);
    if a in c.alphabet {
      var q := MakeTransition(c, p, a).value;
      var t := Transition(table[p], a, table[q]);
      assert t in MergedTransition(c, table, p, q, a);
      MergedTransitionIn(c, t);
      TransitionSome(Merge(c), t);
    } else {
      TransitionNone(Merge(c), table[p], a);
    }
  }

  lemma MergedFinal(c: FSM, p: State)
    requires Complete(c) && p in c.states
    ensures p in ClassTable(c) && (ClassTable(c)[p] in Merge(c).finalStates <==> p in c.finalStates)
  {
    hide ClassTable, Merge, MakeTransition;
    TableSeparates(c);
    MergedFinalIn(c, ClassTable(c)[p]);
    if x :| x in c.finalStates && x in ClassTable(c) && ClassTable(c)[p] == ClassTable(c)[x] {
      assert Accepts(c, x, []) == Accepts(c, p, []);
    }
  }

  lemma {:induction false} MergedAccepts(c: FSM, p: State, w: seq<Symbol>)
    requires Complete(c) && p in c.states
    ensures p in ClassTable(c) && Accepts(Merge(c), ClassTable(c)[p], w) == Accepts(c, p, w)
    decreases |w|
  {
    hide ClassTable, Merge, MakeTransition;
    if w == [] {
      MergedFinal(c, p);
    } else {
      MergedMoves(c, p, w[0]);
      if w[0] in c.alphabet {
        MergedAccepts(c, MakeTransition(c, p, w[0]).value, w[1..]);
      }
    }
  }

  // ----- the sink -----

  predicate IsSinkState(m: FSM, s: State) {
    s !in m.finalStates && forall t :: t in m.transitions && t.from == s ==> t.to == t.from
  }

  function Without(m: FSM, sink: State): FSM {
    m.(states := Filter(m.states, s => s != sink),
       transitions := Filter(m.transitions, (t: Transition) => t.to != sink && t.from != sink))
  }

  function ReducedComplete(m: FSM): FSM {
    Merge(WellFSM(m))
  }

  function ReduceFSM(m: FSM): FSM {
    var reduced := ReducedComplete(m);
    match Find(reduced.states, s => IsSinkState(reduced, s))
    case None => reduced
    case Some(sink) => Without(reduced, sink)
  }

  lemma {:induction false} SinkStateRejects(m: FSM, s: State, w: seq<Symbol>)
    requires IsSinkState(m, s)
    ensures !Accepts(m, s, w)
  {
    if w != [] && MakeTransition(m, s, w[0]).Some? {
      TransitionIs(m, s, w[0]);
      SinkStateRejects(m, s, w[1..]);
    }
  }

  lemma WithoutMoves(m: FSM, sink: State, q: State, a: Symbol)
    requires Deterministic(m.transitions)
    ensures MakeTransition(Without(m, sink), q, a) ==
      if q == sink || MakeTransition(m, q, a) == Some(sink) then None else MakeTransition(m, q, a)
  {
    hide MakeTransition;
    var n := Without(m, sink);
    forall t: Transition
      ensures t in n.transitions <==> t in m.transitions && t.to != sink && t.from != sink
    {
      FilterIn(m.transitions, (u: Transition) => u.to != sink && u.from != sink, t);
    }
    TransitionNone(m, q, a);
    TransitionNone(n, q, a);
    if MakeTransition(m, q, a).Some? {
      TransitionIs(m, q, a);
      var t := Transition(q, a, MakeTransition(m, q, a).value);
      if q != sink && t.to != sink { TransitionSome(n, t); }
    }
  }

  /** Removing a sink changes nothing, whichever state the run starts in. */
  lemma {:induction false} WithoutAccepts(m: FSM, sink: State, q: State, w: seq<Symbol>)
    requires Deterministic(m.transitions) && IsSinkState(m, sink)
    ensures Accepts(Without(m, sink), q, w) == Accepts(m, q, w)
    decreases |w|
  {
    hide MakeTransition, IsSinkState;
    SinkStateRejects(m, sink, w);
    if w == [] {
    } else {
      WithoutMoves(m, sink, q, w[0]);
      SinkStateRejects(m, sink, w[1..]);
      if MakeTransition(m, q, w[0]).Some? {
        WithoutAccepts(m, sink, MakeTransition(m, q, w[0]).value, w[1..]);
      }
    }
  }

  lemma ReducedAccepts(m: FSM, q: State, w: seq<Symbol>)
    requires WellFormed(m)
    ensures Accepts(ReduceFSM(m), q, w) == Accepts(ReducedComplete(m), q, w)
  {
    hide Merge, WellFSM, IsSinkState, Accepts, Without;
    var r := ReducedComplete(m);
    WellComplete(m);
    MergedDeterministic(WellFSM(m));
    FindSpec(r.states, s => IsSinkState(r, s));
    match Find(r.states, s => IsSinkState(r, s))
    case None =>
    case Some(sink) => WithoutAccepts(r, sink, q, w);
  }

  /** Minimization does not change the accepted language. */
  lemma LanguagePreserved(m: FSM, w: seq<Symbol>)
    requires WellFormed(m)
    ensures var r := ReduceFSM(m);
      Accepts(r, r.initialState, w) == Accepts(m, m.initialState, w)
  {
    hide WellFSM, ClassTable, Accepts, MakeTransition;
    var c := WellFSM(m);
    WellComplete(m);
    WellInitial(m);
    MergedAccepts(c, c.initialState, w);
    WellAccepts(m, m.initialState, w);
    ReducedInitial(m);
    ReducedAccepts(m, ReduceFSM(m).initialState, w);
  }

  lemma WellInitial(m: FSM)
    ensures WellFSM(m).initialState == m.initialState
  {}

  lemma ReducedInitial(m: FSM)
    ensures ReduceFSM(m).initialState == ReducedComplete(m).initialState
    ensures ReduceFSM(m).finalStates == ReducedComplete(m).finalStates
    ensures ReduceFSM(m).alphabet == m.alphabet
    ensures forall q :: q in ReduceFSM(m).states ==> q in ReducedComplete(m).states
    ensures forall t :: t in ReduceFSM(m).transitions ==> t in ReducedComplete(m).transitions
  {
    hide ClassTable, IsSinkState;
    var r := ReducedComplete(m);
    match Find(r.states, s => IsSinkState(r, s))
    case None =>
    case Some(sink) =>
      forall q | q in Without(r, sink).states
        ensures q in r.states
      {
        FilterIn(r.states, s => s != sink, q);
      }
      forall t | t in Without(r, sink).transitions
        ensures t in r.transitions
      {
        FilterIn(r.transitions, (t: Transition) => t.to != sink && t.from != sink, t);
      }
  }

  lemma SeparatingWord(c: FSM, p: State, q: State) returns (w: seq<Symbol>)
    requires !SameWords(c, p, c, q)
    ensures Accepts(c, p, w) != Accepts(c, q, w)
  {
    w :| Accepts(c, p, w) != Accepts(c, q, w);
  }

  /** Different states of the result are separated by some word. */
  lemma Distinguishable(m: FSM, x: State, y: State)
    requires WellFormed(m) && x in ReducedComplete(m).states && y in ReducedComplete(m).states && x != y
    ensures exists w :: Accepts(ReduceFSM(m), x, w) != Accepts(ReduceFSM(m), y, w)
  {
    hide WellFSM, ClassTable, Accepts, ReduceFSM, Merge, SameWords;
    var c := WellFSM(m);
    WellComplete(m);
    TableSeparates(c);
    MergedStateIn(c, x);
    MergedStateIn(c, y);
    var p :| p in c.states && x == ClassTable(c)[p];
    var q :| q in c.states && y == ClassTable(c)[q];
    var w := SeparatingWord(c, p, q);
    MergedAccepts(c, p, w);
    MergedAccepts(c, q, w);
    ReducedAccepts(m, x, w);
    ReducedAccepts(m, y, w);
  }
}

/** Finite automata as the minimizer stores them, the words they accept, and their completion. */
module Automaton {
  import opened Wrappers
  import opened Lists

  type State = string
  type Symbol = char

  datatype Transition = Transition(from: State, symbol: Symbol, to: State)

  datatype FSM = FSM(
    alphabet: seq<Symbol>, states: seq<State>, initialState: State,
    finalStates: seq<State>, transitions: seq<Transition>)

  const SINK: State := "SINK"

  // ----- the order of strings and transitions -----

  predicate Leq(a: string, b: string) {
    a == [] || (b != [] && (a[0] < b[0] || (a[0] == b[0] && Leq(a[1..], b[1..]))))
  }

  lemma {:induction false} LeqTotal(a: string, b: string)
    ensures Leq(a, b) || Leq(b, a)
    ensures Leq(a, b) && Leq(b, a) ==> a == b
  {
    if a != [] && b != [] && a[0] == b[0] {
      LeqTotal(a[1..], b[1..]);
      assert a == [a[0]] + a[1..] && b == [b[0]] + b[1..];
    }
  }

  lemma {:induction false} LeqTransitive(a: string, b: string, c: string)
    requires Leq(a, b) && Leq(b, c)
    ensures Leq(a, c)
  {
    if a != [] && a[0] == b[0] == c[0] {
      LeqTransitive(a[1..], b[1..], c[1..]);
    }
  }

  predicate LeqTransition(t: Transition, u: Transition) {
    if t.from != u.from then Leq(t.from, u.from)
    else if t.symbol != u.symbol then t.symbol < u.symbol
    else Leq(t.to, u.to)
  }

  // ----- runs -----

  /** The state reached from src by the first transition for sym. */
  function MakeTransition(m: FSM, src: State, sym: Symbol): Option<State> {
    match Find(m.transitions, (t: Transition) => t.from == src && t.symbol == sym)
    case None => None
    case Some(t) => Some(t.to)
  }

  function Run(m: FSM, q: State, w: seq<Symbol>): Option<State>
    decreases |w|
  {
    if w == [] then Some(q)
    else
      match MakeTransition(m, q, w[0])
      case None => None
      case Some(r) => Run(m, r, w[1..])
  }

  predicate Accepts(m: FSM, q: State, w: seq<Symbol>) {
    match Run(m, q, w)
    case None => false
    case Some(r) => r in m.finalStates
  }

  /** Two automata, each started in a state, accept the same words. */
  ghost predicate SameWords(m: FSM, p: State, n: FSM, q: State) {
    forall w :: Accepts(m, p, w) == Accepts(n, q, w)
  }

  ghost predicate Deterministic(ts: seq<Transition>) {
    forall t, u :: t in ts && u in ts && t.from == u.from && t.symbol == u.symbol ==> t == u
  }

  /** What is assumed of an automaton; the reader does not check it. */
  ghost predicate WellFormed(m: FSM) {
    && Distinct(m.states) && Distinct(m.alphabet) && Deterministic(m.transitions)
    && m.initialState in m.states && SINK !in m.states
    && (forall q :: q in m.finalStates ==> q in m.states)
    && (forall t :: t in m.transitions ==> t.from in m.states && t.symbol in m.alphabet && t.to in m.states)
  }

  /** Every state has a transition for every symbol of the alphabet, and no other transitions. */
  ghost predicate Complete(m: FSM) {
    && Distinct(m.states) && m.initialState in m.states
    && (forall q :: q in m.finalStates ==> q in m.states)
    && (forall p, a :: p in m.states && a in m.alphabet ==>
          MakeTransition(m, p, a).Some? && MakeTransition(m, p, a).value in m.states)
    && (forall p, a :: a !in m.alphabet ==> MakeTransition(m, p, a) == None)
  }

  lemma TransitionNone(m: FSM, p: State, a: Symbol)
    ensures MakeTransition(m, p, a) == None <==> forall t :: t in m.transitions ==> t.from != p || t.symbol != a
  {
    FindSpec(m.transitions, (t: Transition) => t.from == p && t.symbol == a);
  }

  lemma TransitionSome(m: FSM, t: Transition)
    requires t in m.transitions
    requires forall u :: u in m.transitions && u.from == t.from && u.symbol == t.symbol ==> u.to == t.to
    ensures MakeTransition(m, t.from, t.symbol) == Some(t.to)
  {
    FindSpec(m.transitions, (u: Transition) => u.from == t.from && u.symbol == t.symbol);
  }

  lemma TransitionIs(m: FSM, p: State, a: Symbol)
    requires MakeTransition(m, p, a).Some?
    ensures Transition(p, a, MakeTransition(m, p, a).value) in m.transitions
  {
    FindSpec(m.transitions, (u: Transition) => u.from == p && u.symbol == a);
  }

  // ----- completion -----

  function MissingPairs(m: FSM): seq<(State, Symbol)> {
    Minus(Pairs(m.states, m.alphabet), Map(m.transitions, (t: Transition) => (t.from, t.symbol)))
  }

  function WellTransitions(m: FSM): seq<Transition> {
    Map(MissingPairs(m), (p: (State, Symbol)) => Transition(p.0, p.1, SINK))
  }

  function SinkTransitions(m: FSM): seq<Transition> {
    Map(m.alphabet, a => Transition(SINK, a, SINK))
  }

  /** The completed automaton; its only new state is SINK. */
  function WellFSM(m: FSM): FSM {
    m.(states := if WellTransitions(m) == [] then m.states else m.states + [SINK],
       transitions := Sort(m.transitions + WellTransitions(m) + SinkTransitions(m), LeqTransition))
  }

  lemma MissingIn(m: FSM, p: State, a: Symbol)
    requires Distinct(m.states) && Distinct(m.alphabet)
    ensures (p, a) in MissingPairs(m) <==> p in m.states && a in m.alphabet && MakeTransition(m, p, a) == None
  {
    var f := (t: Transition) => (t.from, t.symbol);
    PairsDistinct(m.states, m.alphabet);
    MinusIn(Pairs(m.states, m.alphabet), Map(m.transitions, f), (p, a));
    PairsIn(m.states, m.alphabet, (p, a));
    MapIn(m.transitions, f, (p, a));
    TransitionNone(m, p, a);
  }

  lemma WellIn(m: FSM, t: Transition)
    requires Distinct(m.states) && Distinct(m.alphabet)
    ensures t in WellTransitions(m) <==>
      t.to == SINK && t.from in m.states && t.symbol in m.alphabet && MakeTransition(m, t.from, t.symbol) == None
    ensures t in SinkTransitions(m) <==> t.to == SINK && t.from == SINK && t.symbol in m.alphabet
    ensures t in WellFSM(m).transitions <==> t in m.transitions || t in WellTransitions(m) || t in SinkTransitions(m)
  {
    MapIn(MissingPairs(m), (p: (State, Symbol)) => Transition(p.0, p.1, SINK), t);
    MapIn(m.alphabet, a => Transition(SINK, a, SINK), t);
    MissingIn(m, t.from, t.symbol);
    SortIn(m.transitions + WellTransitions(m) + SinkTransitions(m), LeqTransition, t);
    if t in WellTransitions(m) {
      var p :| p in MissingPairs(m) && t == Transition(p.0, p.1, SINK);
      assert p == (t.from, t.symbol);
    }
  }

  /** How the completed automaton moves: as the original, else to SINK. */
  lemma WellMoves(m: FSM, p: State, a: Symbol)
    requires WellFormed(m)
    ensures a !in m.alphabet ==> MakeTransition(WellFSM(m), p, a) == None
    ensures a in m.alphabet && p == SINK ==> MakeTransition(WellFSM(m), p, a) == Some(SINK)
    ensures a in m.alphabet && p in m.states ==>
      MakeTransition(WellFSM(m), p, a) == Some(match MakeTransition(m, p, a) case None => SINK case Some(q) => q)
  {
    hide Distinct, Leq, WellFSM, WellTransitions, SinkTransitions, MakeTransition;
    var n := WellFSM(m);
    forall t: Transition
      ensures t in n.transitions <==> t in m.transitions || t in WellTransitions(m) || t in SinkTransitions(m)
      ensures t in WellTransitions(m) <==> t.to == SINK && t.from in m.states && t.symbol in m.alphabet && MakeTransition(m, t.from, t.symbol) == None
      ensures t in SinkTransitions(m) <==> t.to == SINK && t.from == SINK && t.symbol in m.alphabet
    {
      WellIn(m, t);
    }
    TransitionNone(m, p, a);
    if a !in m.alphabet {
      TransitionNone(n, p, a);
    } else if p == SINK {
      TransitionSome(n, Transition(SINK, a, SINK));
    } else if p in m.states {
      match MakeTransition(m, p, a)
      case None =>
        TransitionSome(n, Transition(p, a, SINK));
      case Some(q) =>
        TransitionIs(m, p, a);
        TransitionSome(n, Transition(p, a, q));
    }
  }

  lemma WellStates(m: FSM)
    requires WellFormed(m)
    ensures Distinct(WellFSM(m).states)
    ensures forall q :: q in m.states ==> q in WellFSM(m).states
    ensures forall q :: q in WellFSM(m).states ==> q in m.states || q == SINK
    ensures SINK in WellFSM(m).states <==> WellTransitions(m) != []
  {
    if WellTransitions(m) != [] {
      ConcatDistinct(m.states, [SINK]);
    }
  }

  /** The completion is complete. */
  lemma WellComplete(m: FSM)
    requires WellFormed(m)
    ensures Complete(WellFSM(m))
  {
    hide WellTransitions, MakeTransition, Distinct;
    var n := WellFSM(m);
    WellStates(m);
    forall p, a | p in n.states && a in n.alphabet
      ensures MakeTransition(n, p, a).Some? && MakeTransition(n, p, a).value in n.states
    {
      WellMoves(m, p, a);
      if p in m.states {
        match MakeTransition(m, p, a)
        case None => WellIn(m, Transition(p, a, SINK));
        case Some(q) => TransitionIs(m, p, a);
      }
    }
    forall p, a | a !in n.alphabet
      ensures MakeTransition(n, p, a) == None
    {
      WellMoves(m, p, a);
    }
  }

  lemma {:induction false} SinkRejects(m: FSM, w: seq<Symbol>)
    requires WellFormed(m)
    ensures !Accepts(WellFSM(m), SINK, w)
  {
    hide WellTransitions, MakeTransition, Distinct;
    if w != [] {
      WellMoves(m, SINK, w[0]);
      if w[0] in m.alphabet { SinkRejects(m, w[1..]); }
    }
  }

  /** Completion does not change what is accepted from any state of the original. */
  lemma {:induction false} WellAccepts(m: FSM, p: State, w: seq<Symbol>)
    requires WellFormed(m) && p in m.states
    ensures Accepts(WellFSM(m), p, w) == Accepts(m, p, w)
    decreases |w|
  {
    hide WellTransitions, MakeTransition, Distinct;
    if w != [] {
      WellMoves(m, p, w[0]);
      match MakeTransition(m, p, w[0])
      case None =>
        if w[0] in m.alphabet { SinkRejects(m, w[1..]); }
      case Some(q) =>
        TransitionIs(m, p, w[0]);
        WellAccepts(m, q, w[1..]);
    }
  }
}

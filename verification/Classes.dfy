/** Refinement of the state pairs to a fixpoint, which is equality of the accepted words. */
module Classes {
  import opened Wrappers
  import opened Lists
  import opened Automaton

  type Relation = seq<(State, State)>

  /** Pairs of states that agree on being final. */
  function ZeroEq(m: FSM): Relation {
    Filter(Pairs(m.states, m.states), (pq: (State, State)) => (pq.0 in m.finalStates) == (pq.1 in m.finalStates))
  }

  predicate InSameClass(m: FSM, fclass: Relation, p: State, q: State, a: Symbol) {
    var pTrans, qTrans := MakeTransition(m, p, a), MakeTransition(m, q, a);
    pTrans.Some? && qTrans.Some? && (pTrans.value, qTrans.value) in fclass
  }

  predicate EkvTrans(m: FSM, fclass: Relation, p: State, q: State) {
    forall a :: a in m.alphabet ==> InSameClass(m, fclass, p, q, a)
  }

  /** The pairs that stay after one more symbol. */
  function NextEq(m: FSM, previous: Relation): Relation {
    Filter(Pairs(m.states, m.states), (pq: (State, State)) => pq in previous && EkvTrans(m, previous, pq.0, pq.1))
  }

  /** The pairs of fclass in the order in which they are generated. */
  function Listed(m: FSM, fclass: Relation): Relation {
    Filter(Pairs(m.states, m.states), (pq: (State, State)) => pq in fclass)
  }

  lemma ZeroIn(m: FSM, p: State, q: State)
    ensures (p, q) in ZeroEq(m) <==> p in m.states && q in m.states && ((p in m.finalStates) == (q in m.finalStates))
  {
    FilterIn(Pairs(m.states, m.states), (pq: (State, State)) => (pq.0 in m.finalStates) == (pq.1 in m.finalStates), (p, q));
    PairsIn(m.states, m.states, (p, q));
  }

  lemma NextIn(m: FSM, previous: Relation, p: State, q: State)
    ensures (p, q) in NextEq(m, previous) <==>
      p in m.states && q in m.states && (p, q) in previous && EkvTrans(m, previous, p, q)
  {
    FilterIn(Pairs(m.states, m.states),
      (pq: (State, State)) => pq in previous && EkvTrans(m, previous, pq.0, pq.1), (p, q));
    PairsIn(m.states, m.states, (p, q));
  }

  /** Refining makes the relation smaller, or only puts it in order. */
  lemma NextShrinks(m: FSM, fclass: Relation)
    ensures var n := NextEq(m, fclass);
      && Listed(m, n) == n && |n| <= |Listed(m, fclass)|
      && (|n| == |Listed(m, fclass)| ==> n == Listed(m, fclass))
  {
    var n := NextEq(m, fclass);
    var all := Pairs(m.states, m.states);
    var kept := (pq: (State, State)) => pq in fclass && EkvTrans(m, fclass, pq.0, pq.1);
    FilterStronger(all, (pq: (State, State)) => pq in fclass, kept);
    forall pq | pq in all
      ensures kept(pq) == (pq in n)
    {
      FilterIn(all, kept, pq);
    }
    FilterSame(all, kept, (pq: (State, State)) => pq in n);
  }

  /** Refine until nothing changes. */
  function LastEqClass(m: FSM, fclass: Relation): Relation
    decreases |Listed(m, fclass)|, if Listed(m, fclass) == fclass then 0 else 1
  {
    var nclass := NextEq(m, fclass);
    NextShrinks(m, fclass);
    if nclass == fclass then fclass else LastEqClass(m, nclass)
  }

  // ----- the fixpoint is language equality -----

  ghost predicate Within(r: Relation, s: Relation) {
    forall p, q :: (p, q) in r ==> (p, q) in s
  }

  /** Every pair of states that accept the same words is in the relation. */
  ghost predicate Covers(m: FSM, r: Relation) {
    forall p, q :: p in m.states && q in m.states && SameWords(m, p, m, q) ==> (p, q) in r
  }

  lemma ZeroCovers(m: FSM)
    ensures Covers(m, ZeroEq(m))
  {
    forall p, q | p in m.states && q in m.states && SameWords(m, p, m, q)
      ensures (p, q) in ZeroEq(m)
    {
      assert Accepts(m, p, []) == Accepts(m, q, []);
      ZeroIn(m, p, q);
    }
  }

  lemma AcceptsStep(m: FSM, p: State, a: Symbol, w: seq<Symbol>)
    ensures Accepts(m, p, [a] + w) ==
      match MakeTransition(m, p, a) case None => false case Some(r) => Accepts(m, r, w)
  {
    assert ([a] + w)[1..] == w;
  }

  /** States that accept the same words move to states that accept the same words. */
  lemma SameWordsStep(m: FSM, p: State, q: State, a: Symbol)
    requires SameWords(m, p, m, q) && MakeTransition(m, p, a).Some? && MakeTransition(m, q, a).Some?
    ensures SameWords(m, MakeTransition(m, p, a).value, m, MakeTransition(m, q, a).value)
  {
    forall w
      ensures Accepts(m, MakeTransition(m, p, a).value, w) == Accepts(m, MakeTransition(m, q, a).value, w)
    {
      AcceptsStep(m, p, a, w);
      AcceptsStep(m, q, a, w);
    }
  }

  lemma NextCovers(m: FSM, r: Relation)
    requires Complete(m) && Covers(m, r)
    ensures Covers(m, NextEq(m, r))
  {
    hide NextEq, SameWords, MakeTransition;
    forall p, q | p in m.states && q in m.states && SameWords(m, p, m, q)
      ensures (p, q) in NextEq(m, r)
    {
      forall a | a in m.alphabet
        ensures InSameClass(m, r, p, q, a)
      {
        SameWordsStep(m, p, q, a);
      }
      NextIn(m, r, p, q);
    }
  }

  lemma {:induction false} LastSpec(m: FSM, fclass: Relation)
    requires Complete(m) && Covers(m, fclass)
    ensures var r := LastEqClass(m, fclass);
      NextEq(m, r) == r && Within(r, fclass) && Covers(m, r)
    decreases |Listed(m, fclass)|, if Listed(m, fclass) == fclass then 0 else 1
  {
    hide Covers, Complete;
    var nclass := NextEq(m, fclass);
    NextShrinks(m, fclass);
    if nclass != fclass {
      NextCovers(m, fclass);
      LastSpec(m, nclass);
      forall p, q | (p, q) in nclass
        ensures (p, q) in fclass
      {
        NextIn(m, fclass, p, q);
      }
    }
  }

  /** Pairs of a fixpoint inside ZeroEq accept the same words. */
  lemma {:induction false} FixpointSound(m: FSM, r: Relation, p: State, q: State, w: seq<Symbol>)
    requires Complete(m) && NextEq(m, r) == r && Within(r, ZeroEq(m)) && (p, q) in r
    ensures Accepts(m, p, w) == Accepts(m, q, w)
    decreases |w|
  {
    hide NextEq, ZeroEq, MakeTransition;
    if w == [] {
      ZeroIn(m, p, q);
    } else {
      NextIn(m, r, p, q);
      if w[0] in m.alphabet {
        assert InSameClass(m, r, p, q, w[0]);
        FixpointSound(m, r, MakeTransition(m, p, w[0]).value, MakeTransition(m, q, w[0]).value, w[1..]);
      }
    }
  }

  /** The pairs of states that accept the same words, as the minimizer computes them. */
  function EqualStates(m: FSM): Relation {
    LastEqClass(m, ZeroEq(m))
  }

  /** The refinement ends with exactly the pairs of states that accept the same words. */
  lemma EqualStatesExact(m: FSM)
    requires Complete(m)
    ensures forall p, q :: (p, q) in EqualStates(m) <==> p in m.states && q in m.states && SameWords(m, p, m, q)
  {
    hide LastEqClass, ZeroEq, NextEq, Complete, Accepts;
    var r := EqualStates(m);
    ZeroCovers(m);
    LastSpec(m, ZeroEq(m));
    forall p, q | (p, q) in r
      ensures p in m.states && q in m.states && SameWords(m, p, m, q)
    {
      ZeroIn(m, p, q);
      forall w
        ensures Accepts(m, p, w) == Accepts(m, q, w)
      {
        FixpointSound(m, r, p, q, w);
      }
    }
  }
}

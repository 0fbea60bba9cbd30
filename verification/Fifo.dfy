/** Channels that keep the order of their messages, and sums over processes. */
module Fifo {
  import opened Wrappers

  function Get(v: seq<int>, i: int): int { if 0 <= i < |v| then v[i] else 0 }

  /** The messages on a channel that have not been received. */
  function Held<C(==)>(q: map<C, seq<int>>, ch: C): seq<int> {
    if ch in q then q[ch] else []
  }

  function Pop<C(==)>(q: map<C, seq<int>>, ch: Option<C>): map<C, seq<int>> {
    match ch
    case None => q
    case Some(c) => if Held(q, c) == [] then q else q[c := Held(q, c)[1..]]
  }

  function Push<C(==)>(q: map<C, seq<int>>, m: Option<(C, int)>): map<C, seq<int>> {
    match m
    case None => q
    case Some((c, v)) => q[c := Held(q, c) + [v]]
  }

  /** One step takes the first message of at most one channel and adds one to at most one. */
  lemma HeldAfter<C>(q: map<C, seq<int>>, source: Option<C>, target: Option<(C, int)>, ch: C)
    requires source.Some? ==> Held(q, source.value) != []
    ensures Held(Push(Pop(q, source), target), ch) ==
      (if source == Some(ch) then Held(q, ch)[1..] else Held(q, ch))
      + (if target.Some? && target.value.0 == ch then [target.value.1] else [])
  {}

  /** A channel that holds messages r to n of all that are ever sent on it still holds a range of them
      after one is taken or the next one is given. */
  lemma SliceStep(full: seq<int>, r: int, n: int, taken: bool, given: bool, v: int, q: seq<int>, q': seq<int>)
    requires 0 <= r <= n <= |full| && q == full[r..n] && !(taken && given)
    requires taken ==> q != []
    requires given ==> n < |full| && v == full[n]
    requires q' == (if taken then q[1..] else q) + (if given then [v] else [])
    ensures var r', n' := r + (if taken then 1 else 0), n + (if given then 1 else 0);
      0 <= r' <= n' <= |full| && q' == full[r'..n']
  {}

  function Sum(xs: seq<int>): int {
    if xs == [] then 0 else xs[0] + Sum(xs[1..])
  }

  lemma {:induction false} SumUpdate(xs: seq<int>, i: nat, v: int)
    requires i < |xs|
    ensures Sum(xs[i := v]) == Sum(xs) - xs[i] + v
  {
    if i == 0 {
      assert xs[0 := v][1..] == xs[1..];
    } else {
      assert xs[i := v][1..] == xs[1..][i - 1 := v];
      SumUpdate(xs[1..], i - 1, v);
    }
  }

  lemma {:induction false} SumNonnegative(xs: seq<int>)
    requires forall i :: 0 <= i < |xs| ==> xs[i] >= 0
    ensures Sum(xs) >= 0
  {
    if xs != [] { SumNonnegative(xs[1..]); }
  }

  lemma {:induction false} SumConstant(xs: seq<int>, c: int)
    requires forall i :: 0 <= i < |xs| ==> xs[i] == c
    ensures Sum(xs) == |xs| * c
  {
    if xs != [] { SumConstant(xs[1..], c); }
  }
}

/** The ranks that the enumeration sort counts are a permutation of 1..n, in stable ascending order. */
module Ranks {
  import opened Sets
  import opened Fifo
  import opened Enumeration

  /** Number i comes before number j in stable ascending order; numbers are counted from 1. */
  predicate Before(xs: seq<int>, i: int, j: int) {
    Get(xs, i - 1) < Get(xs, j - 1) || (Get(xs, i - 1) == Get(xs, j - 1) && i < j)
  }

  /** The first k numbers that come before number id. */
  function Earlier(xs: seq<int>, id: int, k: nat): set<int> {
    set i | 1 <= i <= k && Before(xs, i, id)
  }

  function RankUpTo(xs: seq<int>, id: int, k: nat): nat {
    1 + |Earlier(xs, id, k)|
  }

  function Rank(xs: seq<int>, id: int): nat {
    RankUpTo(xs, id, |xs|)
  }

  ghost predicate Bytes(xs: seq<int>) {
    forall i :: 0 <= i < |xs| ==> 0 <= xs[i] < 256
  }

  /** What process id adds for the k-th number is whether it comes before its own. */
  lemma RankGrows(xs: seq<int>, id: int, k: nat)
    requires Bytes(xs) && 1 <= id <= |xs| && 1 <= k <= |xs|
    ensures RankUpTo(xs, id, k) ==
      RankUpTo(xs, id, k - 1) + if Counts(Get(xs, id - 1), Get(xs, k - 1), k, id) then 1 else 0
  {
    var a, b := Earlier(xs, id, k - 1), Earlier(xs, id, k);
    if Before(xs, k, id) {
      assert b == a + {k};
    } else {
      assert b == a;
    }
  }

  lemma RankStart(xs: seq<int>, id: int)
    ensures RankUpTo(xs, id, 0) == 1
  {
    assert Earlier(xs, id, 0) == {};
  }

  function Upto(n: nat): (s: set<int>)
    ensures forall i :: i in s <==> 1 <= i <= n
  {
    if n == 0 then {} else Upto(n - 1) + {n}
  }

  lemma {:induction false} UptoSize(n: nat)
    ensures |Upto(n)| == n
  {
    if n > 0 { UptoSize(n - 1); }
  }

  lemma RankRange(xs: seq<int>, id: int)
    requires 1 <= id <= |xs|
    ensures 1 <= Rank(xs, id) <= |xs|
  {
    UptoSize(|xs|);
    SubsetSmaller(Earlier(xs, id, |xs|), Upto(|xs|), id);
  }

  /** Ranks follow the order, so different numbers have different ranks. */
  lemma RankOrder(xs: seq<int>, i: int, j: int)
    requires 1 <= i <= |xs| && 1 <= j <= |xs|
    ensures Before(xs, i, j) <==> Rank(xs, i) < Rank(xs, j)
    ensures Rank(xs, i) == Rank(xs, j) ==> i == j
  {
    if Before(xs, i, j) {
      SubsetSmaller(Earlier(xs, i, |xs|), Earlier(xs, j, |xs|), i);
    } else if Before(xs, j, i) {
      SubsetSmaller(Earlier(xs, j, |xs|), Earlier(xs, i, |xs|), j);
    }
  }

  function RanksOf(xs: seq<int>, ids: set<int>): set<int> {
    set i | i in ids :: Rank(xs, i)
  }

  lemma {:induction false} RanksSize(xs: seq<int>, ids: set<int>)
    requires ids <= Upto(|xs|)
    ensures |RanksOf(xs, ids)| == |ids|
    decreases ids
  {
    hide Rank;
    if ids == {} {
      assert RanksOf(xs, ids) == {};
    } else {
      var i :| i in ids;
      RanksSize(xs, ids - {i});
      forall j | j in ids - {i}
        ensures Rank(xs, j) != Rank(xs, i)
      {
        RankOrder(xs, i, j);
      }
      assert RanksOf(xs, ids) == RanksOf(xs, ids - {i}) + {Rank(xs, i)};
    }
  }

  /** Every rank from 1 to n is taken. */
  lemma RankTaken(xs: seq<int>, k: int)
    requires 1 <= k <= |xs|
    ensures exists i :: 1 <= i <= |xs| && Rank(xs, i) == k
  {
    hide Rank;
    var all := Upto(|xs|);
    RanksSize(xs, all);
    forall r | r in RanksOf(xs, all)
      ensures r in all
    {
      var i :| i in all && r == Rank(xs, i);
      RankRange(xs, i);
    }
    SubsetSize(RanksOf(xs, all), all);
    assert k in RanksOf(xs, all);
  }

  /** The number with rank k. */
  ghost function Origin(xs: seq<int>, k: int): (i: int)
    requires 1 <= k <= |xs|
    ensures 1 <= i <= |xs| && Rank(xs, i) == k
  {
    RankTaken(xs, k);
    var i :| 1 <= i <= |xs| && Rank(xs, i) == k; i
  }

  /** The k-th number of the stable ascending order. */
  ghost function Ranked(xs: seq<int>, k: int): int {
    if 1 <= k <= |xs| then Get(xs, Origin(xs, k) - 1) else 0
  }

  ghost function Sorted(xs: seq<int>): seq<int> {
    seq(|xs|, k => Ranked(xs, k + 1))
  }

  lemma OriginOf(xs: seq<int>, i: int)
    requires 1 <= i <= |xs|
    ensures 1 <= Rank(xs, i) <= |xs| && Origin(xs, Rank(xs, i)) == i && Ranked(xs, Rank(xs, i)) == xs[i - 1]
  {
    hide Rank;
    RankRange(xs, i);
    RankOrder(xs, i, Origin(xs, Rank(xs, i)));
  }

  // ----- what the order is -----

  /** Ascending, and equal numbers keep their order. */
  lemma SortedAscending(xs: seq<int>, a: int, b: int)
    requires 0 <= a < b < |xs|
    ensures Sorted(xs)[a] <= Sorted(xs)[b]
    ensures Sorted(xs)[a] == Sorted(xs)[b] ==> Origin(xs, a + 1) < Origin(xs, b + 1)
  {
    hide Rank;
    RankOrder(xs, Origin(xs, a + 1), Origin(xs, b + 1));
  }

  /** A sequence of positions, each at most once. */
  ghost predicate Positions(f: seq<int>, n: nat) {
    |f| == n && (forall k :: 0 <= k < n ==> 0 <= f[k] < n) && forall i, j :: 0 <= i < j < n ==> f[i] != f[j]
  }

  lemma {:induction false} PositionsHit(f: seq<int>, n: nat) returns (p: nat)
    requires n > 0 && Positions(f, n)
    ensures p < n && f[p] == n - 1
  {
    var hit := set k | 0 <= k < n :: f[k] + 1;
    SeqSetSize(f, n);
    assert hit <= Upto(n);
    UptoSize(n);
    SubsetSize(hit, Upto(n));
    assert n in hit;
    p :| 0 <= p < n && f[p] + 1 == n;
  }

  lemma {:induction false} SeqSetSize(f: seq<int>, n: nat)
    requires n <= |f| && forall i, j :: 0 <= i < j < |f| ==> f[i] != f[j]
    ensures |set k | 0 <= k < n :: f[k] + 1| == n
  {
    var hit := set k | 0 <= k < n :: f[k] + 1;
    if n == 0 {
      assert hit == {};
    } else {
      SeqSetSize(f, n - 1);
      var rest := set k | 0 <= k < n - 1 :: f[k] + 1;
      assert hit == rest + {f[n - 1] + 1};
    }
  }

  function Drop(s: seq<int>, p: nat): (r: seq<int>)
    requires p < |s|
    ensures |r| == |s| - 1
    ensures forall k :: 0 <= k < |r| ==> r[k] == s[if k < p then k else k + 1]
    ensures multiset(s) == multiset(r) + multiset{s[p]}
  {
    assert s == s[..p] + [s[p]] + s[p + 1..];
    s[..p] + s[p + 1..]
  }

  lemma DropPositions(f: seq<int>, n: nat, p: nat)
    requires n > 0 && Positions(f, n) && p < n && f[p] == n - 1
    ensures Positions(Drop(f, p), n - 1)
  {
    hide Drop;
  }

  /** Picking every position once gives a permutation. */
  lemma {:induction false} PickAll(xs: seq<int>, ys: seq<int>, f: seq<int>)
    requires Positions(f, |xs|) && |ys| == |xs| && forall k :: 0 <= k < |xs| ==> ys[k] == xs[f[k]]
    ensures multiset(ys) == multiset(xs)
    decreases |xs|
  {
    hide Drop;
    var n := |xs|;
    if n > 0 {
      var p := PositionsHit(f, n);
      DropPositions(f, n, p);
      PickAll(xs[..n - 1], Drop(ys, p), Drop(f, p));
      assert xs == xs[..n - 1] + [xs[n - 1]];
    }
  }

  lemma SortedPermutation(xs: seq<int>)
    ensures multiset(Sorted(xs)) == multiset(xs)
  {
    hide Rank;
    var f := seq(|xs|, k requires 0 <= k < |xs| => Origin(xs, k + 1) - 1);
    PickAll(xs, Sorted(xs), f);
  }
}

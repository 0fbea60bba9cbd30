/** When the word that the decoder returns is a code word: exactly if the locator has as many roots as the
    recurrence it was computed as is long. */
module Verdict {
  import opened Sets
  import opened Field
  import opened Poly
  import opened Massey
  import opened Locator
  import opened Word
  import opened Repair

  // ----- the errors that the decoder removes, zero ones included -----

  /** One error for every root of lam among the positions of w, with the difference of v and w there. */
  ghost function Marked(w: seq<bv8>, v: seq<bv8>, lam: Coeffs): (es: seq<Error>)
    requires |w| == |v|
  {
    if w == [] then []
    else
      Marked(w[1..], v[1..], lam) + if IsRoot(lam, |w| - 1) then [Error(|w| - 1, Add(w[0], v[0]))] else []
  }

  /** The error sits at a root and has the difference of the bytes there. */
  ghost predicate IsMark(w: seq<bv8>, v: seq<bv8>, lam: Coeffs, e: Error)
    requires |w| == |v|
  {
    0 <= e.loc < |w| && IsRoot(lam, e.loc) && e.value == Add(w[|w| - 1 - e.loc], v[|w| - 1 - e.loc])
  }

  lemma {:induction false} MarkedShape(w: seq<bv8>, v: seq<bv8>, lam: Coeffs)
    requires |w| == |v|
    ensures forall e :: e in Marked(w, v, lam) ==> IsMark(w, v, lam, e)
  {
    hide Add, IsRoot;
    if w != [] {
      MarkedShape(w[1..], v[1..], lam);
      forall e | e in Marked(w, v, lam)
        ensures IsMark(w, v, lam, e)
      {
        if e in Marked(w[1..], v[1..], lam) { assert IsMark(w[1..], v[1..], lam, e); }
      }
    }
  }

  ghost predicate Apart(es: seq<Error>) {
    forall i, j :: 0 <= i < j < |es| ==> es[i].loc != es[j].loc
  }

  lemma ApartAppend(es: seq<Error>, e: Error)
    requires Apart(es) && forall f :: f in es ==> f.loc < e.loc
    ensures Apart(es + [e])
  {
    var all := es + [e];
    forall i, j | 0 <= i < j < |all| ensures all[i].loc != all[j].loc {
      assert all[i] == es[i] && es[i] in es;
      if j < |es| { assert all[j] == es[j]; }
    }
  }

  /** No two marks share a location, and every root in the word has its mark. */
  lemma {:induction false} MarkedLocations(w: seq<bv8>, v: seq<bv8>, lam: Coeffs)
    requires |w| == |v|
    ensures Apart(Marked(w, v, lam))
    ensures forall loc :: 0 <= loc < |w| && IsRoot(lam, loc) ==> exists e :: e in Marked(w, v, lam) && e.loc == loc
  {
    hide Add, IsRoot;
    if w != [] {
      hide Apart;
      var t, es := Marked(w[1..], v[1..], lam), Marked(w, v, lam);
      MarkedLocations(w[1..], v[1..], lam);
      MarkedShape(w[1..], v[1..], lam);
      if IsRoot(lam, |w| - 1) { ApartAppend(t, Error(|w| - 1, Add(w[0], v[0]))); }
      forall loc | 0 <= loc < |w| && IsRoot(lam, loc)
        ensures exists e :: e in es && e.loc == loc
      {
        if loc < |w| - 1 {
          var e :| e in t && e.loc == loc;
          assert e in es;
        } else {
          assert Error(|w| - 1, Add(w[0], v[0])) in es;
        }
      }
    }
  }

  /** What they contribute to the syndromes is the difference of the two words' values. */
  lemma {:induction false} MarkedDifference(w: seq<bv8>, v: seq<bv8>, lam: Coeffs, n: nat, j: nat)
    requires |w| == |v| && j < n
    requires forall i :: 0 <= i < |w| && !IsRoot(lam, |w| - 1 - i) ==> v[i] == w[i]
    ensures Syndromes(Marked(w, v, lam), n)[j] == Add(Horner(w, Alpha(j + 1)), Horner(v, Alpha(j + 1)))
  {
    hide Add, Mul, Alpha, Horner, Power, Syndromes, IsRoot;
    var x := Alpha(j + 1);
    if w == [] {
      HornerEmpty(x);
      NoSyndromes(n, j);
      AddZero(0);
    } else {
      forall i | 0 <= i < |w[1..]| && !IsRoot(lam, |w[1..]| - 1 - i) ensures v[1..][i] == w[1..][i] {
        assert v[i + 1] == w[i + 1];
      }
      MarkedDifference(w[1..], v[1..], lam, n, j);
      HornerHead(w, x); HornerHead(v, x);
      var y := Power(x, |w| - 1);
      var a, b := Horner(w[1..], x), Horner(v[1..], x);
      AddSwap(Mul(w[0], y), a, Mul(v[0], y), b);
      MulDistrib(w[0], v[0], y);
      var es := Marked(w[1..], v[1..], lam);
      if IsRoot(lam, |w| - 1) {
        var e := Error(|w| - 1, Add(w[0], v[0]));
        SyndromesAppend(es, e, n, j);
        PowerAlpha(j + 1, |w| - 1);
        assert (j + 1) * (|w| - 1) == e.loc * (j + 1);
        AddComm(Mul(e.value, y), Add(a, b));
      } else {
        assert v[0] == w[0];
        assert Marked(w, v, lam) == es;
        AddZero(w[0]); MulZero(0, y); AddZero(Add(a, b));
      }
    }
  }

  // ----- as many roots as the recurrence is long -----

  /** The same errors with the value one. */
  function Ones(es: seq<Error>): seq<Error> {
    seq(|es|, k requires 0 <= k < |es| => Error(es[k].loc, 1))
  }

  /** The locator depends on the locations only. */
  lemma {:induction false} LocatorOfOnes(es: seq<Error>)
    ensures LocatorOf(Ones(es)) == LocatorOf(es)
  {
    hide TimesLinear;
    if es != [] {
      assert Ones(es)[1..] == Ones(es[1..]);
      LocatorOfOnes(es[1..]);
    }
  }

  /** A polynomial of degree at most |es| with constant one and roots at all locations is the locator. */
  lemma RootsGiveLocator(lam: Coeffs, es: seq<Error>)
    requires Distinct(es) && |lam| > |es| && At(lam, 0) == 1 && DegreeAtMost(lam, |es|)
    requires forall k :: 0 <= k < |es| ==> Eval(lam, Alpha(-es[k].loc)) == 0
    ensures Same(lam, LocatorOf(es))
  {
    hide Add, Mul, Alpha, Eval, LocatorOf, Distinct, Inverses, Sum;
    var n := |es|;
    var p, c := lam[..n + 1], LocatorOf(es);
    var roots := Inverses(es) + [0];
    assert |Sum(p, c)| == n + 1 by { SumLength(p, c); }
    forall k | 0 <= k <= n ensures Eval(Sum(p, c), roots[k]) == 0 {
      EvalSum(p, c, roots[k]);
      if k < n {
        EvalSame(p, lam, roots[k]);
        LocatorRoots(es, -es[k].loc);
        assert (es[k].loc + -es[k].loc) % 255 == 0;
        AddZero(0);
      } else {
        EvalAtZero(p); EvalAtZero(c);
        LocatorConstant(es);
        AddZero(1);
      }
    }
    LocationRoots(es);
    ManyRoots(Sum(p, c), roots);
    AddZeroPoly(p, c);
  }

  /** The inverses of the error locations. */
  function Inverses(es: seq<Error>): (ys: seq<bv8>)
    ensures |ys| == |es| && forall k :: 0 <= k < |es| ==> ys[k] == Alpha(-es[k].loc)
  {
    seq(|es|, k requires 0 <= k < |es| => Alpha(-es[k].loc))
  }

  lemma LocationRoots(es: seq<Error>)
    requires Distinct(es)
    ensures forall i, j :: 0 <= i < j < |es| ==> Inverses(es)[i] != Inverses(es)[j]
    ensures forall i :: 0 <= i < |es| ==> Inverses(es)[i] != 0
  {
    hide Alpha, Inverses;
    forall i | 0 <= i < |es| ensures Inverses(es)[i] != 0 { AlphaNonzero(-es[i].loc); }
    forall i, j | 0 <= i < j < |es| ensures Inverses(es)[i] != Inverses(es)[j] {
      AlphaEqual(-es[i].loc, -es[j].loc);
    }
  }

  lemma LocatorOfWithout(es: seq<Error>, k: nat)
    requires k < |es|
    ensures LocatorOf(Without(es, k)) == LocatorOf(Without(Ones(es), k))
  {
    LocatorOfOnes(Without(es, k));
    assert Ones(Without(es, k)) == Without(Ones(es), k);
  }

  /** If the values are evaluator over slope, then the evaluator of the errors has the value om at location k. */
  lemma EvaluatorAt(es: seq<Error>, k: nat, lam: Coeffs, om: Coeffs)
    requires Distinct(Ones(es)) && k < |es| && Same(lam, LocatorOf(es))
    requires es[k].value == ValueAt(lam, om, es[k].loc)
    ensures Eval(EvaluatorOf(es, |es|), Alpha(-es[k].loc)) == Eval(om, Alpha(-es[k].loc))
  {
    hide Add, Mul, Alpha, Eval, Slope, LocatorOf, Inv, EvaluatorOf, Without, Distinct, Same;
    var y, x := Alpha(-es[k].loc), Alpha(es[k].loc);
    var ones := Ones(es);
    forall i | 0 <= i < |es| && i != k ensures Eval(LocatorOf(Without(es, i)), y) == 0 {
      LocatorOfWithout(es, i);
      OthersVanish(ones, i, k);
    }
    EvaluatorValue(es, |es|, k, y);
    LocatorOfWithout(es, k);
    LocatorOfOnes(es);
    LocatorSlope(ones, k);
    EvalSame(lam, LocatorOf(es), y);
    var c := Eval(LocatorOf(Without(es, k)), y);
    AlphaNonzero(es[k].loc);
    MulZero(x, c);
    var d, v := Mul(x, c), Eval(om, y);
    MulAssoc(Mul(v, Inv(d)), x, c);
    MulAssoc(v, Inv(d), d); MulInv(d); MulOne(v);
  }

  /** A series is determined by its product with a polynomial whose constant is one. */
  lemma {:induction false} ConvDetermines(p: Coeffs, s: Coeffs, t: Coeffs, n: nat)
    requires At(p, 0) == 1 && |s| == |t| && n <= |s|
    requires forall i :: 0 <= i < n ==> Conv(p, s, i) == Conv(p, t, i)
    ensures forall i :: 0 <= i < n ==> s[i] == t[i]
  {
    hide Add, Mul;
    if n > 0 {
      var m := n - 1;
      ConvDetermines(p, s, t, m);
      ConvPrefix(p[1..], s, t, m - 1);
      var r := Conv(p[1..], s, m - 1);
      MulOne(s[m]); MulOne(t[m]);
      assert Conv(p, s, m) == Conv(p, t, m);
      assert p[0] == 1 && At(s, m) == s[m] && At(t, m) == t[m];
      CancelRight(s[m], t[m], r);
    }
  }

  lemma CancelRight(a: bv8, b: bv8, r: bv8)
    requires Add(a, r) == Add(b, r)
    ensures a == b
  {
    hide Add;
    AddAssoc(a, r, r); AddAssoc(b, r, r); AddZero(r); AddZero(a); AddZero(b);
  }

  /** Two polynomials with fewer coefficients than error locations that agree at all of them are equal. */
  lemma AgreeAtLocations(es: seq<Error>, p: Coeffs, q: Coeffs)
    requires Distinct(Ones(es)) && |p| == |q| == |es|
    requires forall k :: 0 <= k < |es| ==> Eval(p, Alpha(-es[k].loc)) == Eval(q, Alpha(-es[k].loc))
    ensures p == q
  {
    hide Add, Alpha, Eval, Distinct, Inverses, Sum, Ones;
    var ones := Ones(es);
    var ys := Inverses(ones);
    OnesLocations(es);
    SumLength(p, q);
    forall k | 0 <= k < |es| ensures Eval(Sum(p, q), ys[k]) == 0 {
      EvalSum(p, q, ys[k]);
      AddZero(Eval(p, ys[k]));
    }
    LocationRoots(ones);
    ManyRoots(Sum(p, q), ys);
    AddZeroPoly(p, q);
  }

  lemma OnesLocations(es: seq<Error>)
    ensures |Ones(es)| == |es| && forall k :: 0 <= k < |es| ==> Ones(es)[k].loc == es[k].loc
  {}

  /** The marked errors as the decoder sees them. */
  ghost predicate MarkedOk(es: seq<Error>, lam: Coeffs, om: Coeffs) {
    && Distinct(Ones(es)) && |es| <= NPAR
    && forall k :: 0 <= k < |es| ==> IsRoot(lam, es[k].loc) && es[k].value == ValueAt(lam, om, es[k].loc)
  }

  lemma MarkedIsOk(w: seq<bv8>, v: seq<bv8>, lam: Coeffs, om: Coeffs)
    requires |v| == |w| <= 255 && |Marked(w, v, lam)| <= NPAR
    requires forall i :: 0 <= i < |w| ==> v[i] == RepairedByte(w, lam, om, i)
    ensures MarkedOk(Marked(w, v, lam), lam, om)
  {
    hide Add, IsRoot, ValueAt, Marked;
    var es := Marked(w, v, lam);
    MarkedShape(w, v, lam);
    MarkedLocations(w, v, lam);
    forall k | 0 <= k < |es|
      ensures 0 <= es[k].loc < 255 && IsRoot(lam, es[k].loc) && es[k].value == ValueAt(lam, om, es[k].loc)
    {
      assert es[k] in es;
      var i := |w| - 1 - es[k].loc;
      assert v[i] == Add(w[i], ValueAt(lam, om, es[k].loc));
      AddCancel(w[i], ValueAt(lam, om, es[k].loc));
    }
  }

  lemma KeyShape(lam: Coeffs, om: Coeffs, s: Coeffs)
    requires IsKeySolution(lam, om, s)
    ensures |lam| == |om| == MAXDEG && |s| == NPAR
    ensures forall i :: 0 <= i < MAXDEG ==> om[i] == if i < NPAR then Conv(lam, s, i) else 0
  {
    hide Conv, Shortest, Generates;
  }

  /** The recurrence is the locator of the marked errors. */
  lemma MarkedLocator(es: seq<Error>, lam: Coeffs, om: Coeffs, s: Coeffs)
    requires MarkedOk(es, lam, om) && Generates(lam, |es|, s, NPAR) && |lam| == MAXDEG
    ensures Same(lam, LocatorOf(es))
  {
    hide Alpha, Eval, LocatorOf, Conv, Same, ValueAt, Distinct;
    var ones := Ones(es);
    forall k | 0 <= k < |ones| ensures Eval(lam, Alpha(-ones[k].loc)) == 0 { assert IsRoot(lam, es[k].loc); }
    RootsGiveLocator(lam, ones);
    LocatorOfOnes(es);
  }

  /** The product of the recurrence and the syndrome has fewer coefficients than the recurrence is long. */
  lemma KeyDegree(lam: Coeffs, om: Coeffs, s: Coeffs, n: nat)
    requires IsKeySolution(lam, om, s) && n <= NPAR && Generates(lam, n, s, NPAR)
    ensures |om| == MAXDEG && Same(om[..n], om) && Same(om, om[..n])
  {
    hide Conv, IsKeySolution;
    KeyShape(lam, om, s);
    TruncatedSame(om, n);
  }

  /** That product is the evaluator of the marked errors. */
  lemma KeyIsEvaluator(es: seq<Error>, lam: Coeffs, om: Coeffs, s: Coeffs)
    requires IsKeySolution(lam, om, s) && MarkedOk(es, lam, om) && Generates(lam, |es|, s, NPAR) && |lam| == MAXDEG
    ensures Same(lam, LocatorOf(es)) && Same(om, EvaluatorOf(es, |es|))
  {
    hide Alpha, Eval, LocatorOf, Same, EvaluatorOf, ValueAt, IsKeySolution, Generates, IsRoot, Distinct;
    var n := |es|;
    MarkedLocator(es, lam, om, s);
    KeyDegree(lam, om, s, n);
    var head := om[..n];
    forall k | 0 <= k < n
      ensures Eval(head, Alpha(-es[k].loc)) == Eval(EvaluatorOf(es, n), Alpha(-es[k].loc))
    {
      EvaluatorAt(es, k, lam, om);
      EvalSame(head, om, Alpha(-es[k].loc));
    }
    AgreeAtLocations(es, head, EvaluatorOf(es, n));
  }

  lemma TruncatedSame(p: Coeffs, n: nat)
    requires n <= |p| && forall i :: n <= i < |p| ==> p[i] == 0
    ensures Same(p[..n], p) && Same(p, p[..n])
  {}

  /** The syndrome is that of the marked errors. */
  lemma MarkedSyndrome(es: seq<Error>, lam: Coeffs, om: Coeffs, s: Coeffs)
    requires IsKeySolution(lam, om, s) && MarkedOk(es, lam, om) && Generates(lam, |es|, s, NPAR)
    ensures s == Syndromes(es, NPAR)
  {
    hide Add, Mul, Alpha, Eval, Slope, Inv, LocatorOf, Conv, EvaluatorOf, ValueAt, IsKeySolution, MarkedOk, Syndromes, Same;
    KeyShape(lam, om, s);
    KeyIsEvaluator(es, lam, om, s);
    var t := Syndromes(es, NPAR);
    assert es[..|es|] == es;
    forall i | 0 <= i < NPAR ensures Conv(lam, s, i) == Conv(lam, t, i) {
      KeyEquation(es, |es|, NPAR, i);
      ConvSame(lam, LocatorOf(es), t, i);
      SameAt(om, EvaluatorOf(es, |es|), i);
    }
    ConvDetermines(lam, s, t, NPAR);
  }

  lemma SameAt(p: Coeffs, q: Coeffs, i: nat)
    requires Same(p, q)
    ensures At(p, i) == At(q, i)
  {}

  /** If lam is a recurrence as long as it has roots in the word, removing the errors leaves a code word. */
  lemma RootsMatchLength(w: seq<bv8>, v: seq<bv8>, lam: Coeffs, om: Coeffs)
    requires |v| == |w| <= 255 && IsKeySolution(lam, om, SyndromeOf(w)) && |Marked(w, v, lam)| <= NPAR
    requires forall i :: 0 <= i < |w| ==> v[i] == RepairedByte(w, lam, om, i)
    requires Generates(lam, |Marked(w, v, lam)|, SyndromeOf(w), NPAR)
    ensures IsCodeword(v)
  {
    hide Add, Alpha, Generates, Syndromes, Horner, IsKeySolution, Marked, MarkedOk, IsRoot, ValueAt;
    var es := Marked(w, v, lam);
    MarkedIsOk(w, v, lam, om);
    MarkedSyndrome(es, lam, om, SyndromeOf(w));
    forall j | 1 <= j <= NPAR ensures Horner(v, Alpha(j)) == 0 {
      MarkedDifference(w, v, lam, NPAR, j - 1);
      assert SyndromeOf(w)[j - 1] == Horner(w, Alpha(j));
      AddCancel(Horner(w, Alpha(j)), Horner(v, Alpha(j)));
      AddZero(Horner(w, Alpha(j)));
    }
  }

  // ----- a code word as the result -----

  /** A polynomial has at most as many roots among the locations as its degree. */
  lemma RootsAtMost(lam: Coeffs, d: nat, locs: seq<int>)
    requires At(lam, 0) == 1 && DegreeAtMost(lam, d)
    requires forall i, j :: 0 <= i < j < |locs| ==> locs[i] != locs[j]
    requires forall i :: 0 <= i < |locs| ==> IsRoot(lam, locs[i])
    ensures |locs| <= d
  {
    hide Alpha, Eval;
    if |locs| > d {
      var p := if d + 1 <= |lam| then lam[..d + 1] else lam;
      var ys := seq(|locs|, k requires 0 <= k < |locs| => Alpha(-locs[k]));
      forall k | 0 <= k < |ys| ensures Eval(p, ys[k]) == 0 {
        assert IsRoot(lam, locs[k]);
        EvalSame(p, lam, ys[k]);
      }
      forall i, j | 0 <= i < j < |ys| ensures ys[i] != ys[j] {
        assert IsRoot(lam, locs[i]) && IsRoot(lam, locs[j]);
        AlphaEqual(-locs[i], -locs[j]);
      }
      assert p[0] == 1;
      ManyRoots(p, ys);
    }
  }

  /** If the result is a code word, the recurrence is as long as it has roots. */
  lemma CodewordMatches(w: seq<bv8>, v: seq<bv8>, lam: Coeffs, om: Coeffs, locs: seq<int>)
    requires |v| == |w| <= 255 && IsKeySolution(lam, om, SyndromeOf(w)) && IsCodeword(v)
    requires forall i :: 0 <= i < |w| ==> v[i] == RepairedByte(w, lam, om, i)
    requires forall i, j :: 0 <= i < j < |locs| ==> locs[i] != locs[j]
    requires forall loc :: loc in locs <==> IsRoot(lam, loc)
    ensures Generates(lam, |locs|, SyndromeOf(w), NPAR)
  {
    hide Add, Conv, LocatorOf, Syndromes, SyndromeOf, IsCodeword, IsRoot, ValueAt, Errors, Shortest, DegreeAtMost;
    var s := SyndromeOf(w);
    var len: nat :| len <= NPAR && Generates(lam, len, s, NPAR) && Shortest(len, s, NPAR);
    var es := Errors(v, w);
    SyndromeOfErrors(v, w);
    LocatorGenerates(es, NPAR);
    ShortestAtMost(len, s, LocatorOf(es), |es|);
    ErrorsShape(v, w);
    ErrorsMeaning(v, w);
    var found := seq(|es|, k requires 0 <= k < |es| => es[k].loc);
    forall k | 0 <= k < |es| ensures es[k].loc in locs {
      assert es[k] in es;
      var i := |w| - 1 - es[k].loc;
      assert v[i] == RepairedByte(w, lam, om, i);
    }
    SubsequenceShorter(found, locs);
    RootsAtMost(lam, len, locs);
  }

  lemma ShortestAtMost(len: int, s: Coeffs, q: Coeffs, len': int)
    requires Shortest(len, s, NPAR) && Generates(q, len', s, NPAR)
    ensures len <= len'
  {
    hide Generates;
  }

  lemma SubsequenceShorter(xs: seq<int>, ys: seq<int>)
    requires forall i, j :: 0 <= i < j < |xs| ==> xs[i] != xs[j]
    requires forall i, j :: 0 <= i < j < |ys| ==> ys[i] != ys[j]
    requires forall x :: x in xs ==> x in ys
    ensures |xs| <= |ys|
  {
    DistinctSize(xs);
    DistinctSize(ys);
    SubsetSize(set x | x in xs, set y | y in ys);
  }

  /** The repaired word is a code word exactly if the locator has as many roots as the recurrence is long. */
  lemma ResultIsCodeword(w: seq<bv8>, v: seq<bv8>, lam: Coeffs, om: Coeffs, locs: seq<int>)
    requires |v| == |w| <= 255 && IsKeySolution(lam, om, SyndromeOf(w))
    requires forall i :: 0 <= i < |w| ==> v[i] == RepairedByte(w, lam, om, i)
    requires |locs| <= NPAR && forall i, j :: 0 <= i < j < |locs| ==> locs[i] != locs[j]
    requires forall loc :: loc in locs <==> IsRoot(lam, loc)
    requires forall i :: 0 <= i < |locs| ==> locs[i] < |w|
    ensures IsCodeword(v) <==> Generates(lam, |locs|, SyndromeOf(w), NPAR)
  {
    hide SyndromeOf, IsCodeword, IsRoot, IsKeySolution, Generates, Marked, RepairedByte;
    if IsCodeword(v) {
      CodewordMatches(w, v, lam, om, locs);
    }
    if Generates(lam, |locs|, SyndromeOf(w), NPAR) {
      MarkedCount(w, v, lam, locs);
      RootsMatchLength(w, v, lam, om);
    }
  }

  lemma MarkedCount(w: seq<bv8>, v: seq<bv8>, lam: Coeffs, locs: seq<int>)
    requires |v| == |w|
    requires forall i, j :: 0 <= i < j < |locs| ==> locs[i] != locs[j]
    requires forall loc :: loc in locs <==> IsRoot(lam, loc)
    requires forall i :: 0 <= i < |locs| ==> locs[i] < |w|
    ensures |Marked(w, v, lam)| == |locs|
  {
    hide Marked;
    var es := Marked(w, v, lam);
    MarkedShape(w, v, lam);
    MarkedLocations(w, v, lam);
    var found := seq(|es|, k requires 0 <= k < |es| => es[k].loc);
    forall i, j | 0 <= i < j < |found| ensures found[i] != found[j] {
      assert es[i].loc != es[j].loc;
    }
    forall k | 0 <= k < |found| ensures found[k] in locs { assert es[k] in es; }
    SubsequenceShorter(found, locs);
    forall loc | loc in locs ensures loc in found {
      var e :| e in es && e.loc == loc;
      var k :| 0 <= k < |es| && es[k] == e;
      assert found[k] == loc;
    }
    SubsequenceShorter(locs, found);
  }
}

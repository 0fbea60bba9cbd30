/** Error locators, error evaluators and their roots: the algebra behind the decoder. */
module Locator {
  import opened Field
  import opened Poly
  import opened Massey

  /** An error of a nonzero value at the coefficient x^loc of the received word. */
  datatype Error = Error(loc: int, value: bv8)

  ghost predicate Distinct(es: seq<Error>) {
    && (forall i :: 0 <= i < |es| ==> 0 <= es[i].loc < 255 && es[i].value != 0)
    && (forall i, j :: 0 <= i < j < |es| ==> es[i].loc != es[j].loc)
  }

  /** The geometric series alpha^loc, alpha^(2 loc), ... */
  function Geo(loc: int, n: nat): (g: Coeffs)
    ensures |g| == n
  {
    seq(n, j => Alpha(loc * (j + 1)))
  }

  /** The first n syndromes of a list of errors. */
  ghost function Syndromes(es: seq<Error>, n: nat): Coeffs
    ensures |Syndromes(es, n)| == n
  {
    if es == [] then Zeros(n) else
      var e := es[|es| - 1];
      Sum(Syndromes(es[..|es| - 1], n), Scale(e.value, Geo(e.loc, n)))
  }

  /** The product of q with 1 + alpha^loc z. */
  ghost function TimesLinear(loc: int, q: Coeffs): Coeffs {
    Sum(q + [0], Scale(Alpha(loc), [0] + q))
  }

  /** The product of 1 + alpha^loc z over the errors. */
  ghost function LocatorOf(es: seq<Error>): Coeffs
    ensures |LocatorOf(es)| == |es| + 1
  {
    if es == [] then [1] else TimesLinear(es[0].loc, LocatorOf(es[1..]))
  }

  function Without(es: seq<Error>, k: nat): seq<Error>
    requires k < |es|
  {
    es[..k] + es[k + 1..]
  }

  /** The error evaluator: the sum over the first k errors of value * X * (locator without that error). */
  ghost function EvaluatorOf(es: seq<Error>, k: nat): Coeffs
    requires k <= |es|
    ensures |EvaluatorOf(es, k)| == |es|
  {
    if k == 0 then Zeros(|es|) else
      Sum(EvaluatorOf(es, k - 1),
          Scale(Mul(es[k - 1].value, Alpha(es[k - 1].loc)), LocatorOf(Without(es, k - 1))))
  }

  // ----- convolution is linear in the series -----

  lemma {:induction false} ConvSeriesSum(p: Coeffs, s: Coeffs, t: Coeffs, n: int)
    requires |s| == |t|
    ensures Conv(p, Sum(s, t), n) == Add(Conv(p, s, n), Conv(p, t, n))
  {
    hide Add, Mul;
    AddZero(0);
    if p != [] {
      ConvSeriesSum(p[1..], s, t, n - 1);
      assert At(Sum(s, t), n) == Add(At(s, n), At(t, n));
      MulDistrib(At(s, n), At(t, n), p[0]);
      AddSwap(Mul(p[0], At(s, n)), Mul(p[0], At(t, n)), Conv(p[1..], s, n - 1), Conv(p[1..], t, n - 1));
    }
  }

  lemma {:induction false} ConvSeriesScale(p: Coeffs, c: bv8, s: Coeffs, n: int)
    ensures Conv(p, Scale(c, s), n) == Mul(c, Conv(p, s, n))
  {
    hide Add, Mul;
    MulZero(c, 0);
    if p != [] {
      ConvSeriesScale(p[1..], c, s, n - 1);
      var x := At(s, n);
      assert At(Scale(c, s), n) == Mul(c, x);
      MulAssoc(p[0], c, x); MulAssoc(c, p[0], x); MulComm(p[0], c);
      MulDistrib(Mul(p[0], x), Conv(p[1..], s, n - 1), c);
    }
  }

  lemma {:induction false} ConvSeriesZero(p: Coeffs, n: nat, m: int)
    ensures Conv(p, Zeros(n), m) == 0
  {
    hide Add, Mul;
    AddZero(0);
    if p != [] {
      ConvSeriesZero(p[1..], n, m - 1);
      MulZero(p[0], 0);
    }
  }

  // ----- products with linear factors -----

  lemma TimesLinearAt(loc: int, q: Coeffs, k: int)
    ensures At(TimesLinear(loc, q), k) == Add(At(q, k), Mul(Alpha(loc), At(q, k - 1)))
  {
    hide Add, Mul, Alpha;
    MulZero(Alpha(loc), 0);
    AddZero(0);
  }

  lemma TimesLinearComm(a: int, b: int, q: Coeffs)
    ensures TimesLinear(a, TimesLinear(b, q)) == TimesLinear(b, TimesLinear(a, q))
  {
    hide Add, Mul, Alpha;
    var l, r := TimesLinear(a, TimesLinear(b, q)), TimesLinear(b, TimesLinear(a, q));
    forall k | 0 <= k < |l| ensures l[k] == r[k] {
      hide TimesLinear, At;
      var x, y := Alpha(a), Alpha(b);
      var u, v, w := At(q, k), At(q, k - 1), At(q, k - 2);
      TimesLinearAt(a, TimesLinear(b, q), k); TimesLinearAt(b, TimesLinear(a, q), k);
      TimesLinearAt(a, q, k); TimesLinearAt(b, q, k); TimesLinearAt(a, q, k - 1); TimesLinearAt(b, q, k - 1);
      MulDistrib(v, Mul(y, w), x); MulDistrib(v, Mul(x, w), y);
      MulAssoc(x, y, w); MulAssoc(y, x, w); MulComm(x, y);
      AddSwap(u, Mul(y, v), Mul(x, v), Mul(x, Mul(y, w)));
      AtInside(l, k); AtInside(r, k);
    }
  }

  lemma AtInside(p: Coeffs, k: int)
    requires 0 <= k < |p|
    ensures At(p, k) == p[k]
  {}

  lemma {:induction false} LocatorPull(es: seq<Error>, k: nat)
    requires k < |es|
    ensures LocatorOf(es) == TimesLinear(es[k].loc, LocatorOf(Without(es, k)))
  {
    hide TimesLinear;
    if k == 0 {
      assert Without(es, 0) == es[1..];
    } else {
      var w := Without(es, k);
      assert w[0] == es[0] && w[1..] == Without(es[1..], k - 1);
      LocatorPull(es[1..], k - 1);
      TimesLinearComm(es[0].loc, es[k].loc, LocatorOf(w[1..]));
    }
  }

  lemma EvalTimesLinear(loc: int, q: Coeffs, x: bv8)
    ensures Eval(TimesLinear(loc, q), x) == Mul(Add(1, Mul(Alpha(loc), x)), Eval(q, x))
    ensures Slope(TimesLinear(loc, q), x)
         == Add(Mul(Alpha(loc), Eval(q, x)), Mul(Add(1, Mul(Alpha(loc), x)), Slope(q, x)))
  {
    hide Add, Mul, Alpha, Eval, Slope;
    var a := Alpha(loc);
    EvalSum(q + [0], Scale(a, [0] + q), x);
    EvalSame(q + [0], q, x);
    EvalScale(a, [0] + q, x);
    EvalShift(q, x);
    var u, s := Eval(q, x), Slope(q, x);
    MulDistrib(1, Mul(a, x), u); MulOne(u); MulAssoc(a, x, u);
    MulDistrib(1, Mul(a, x), s); MulOne(s); MulAssoc(a, x, s);
    MulDistrib(u, Mul(x, s), a);
    AddAssoc(s, Mul(a, u), Mul(a, Mul(x, s))); AddComm(s, Mul(a, u)); AddAssoc(Mul(a, u), s, Mul(a, Mul(x, s)));
  }

  lemma LinearRoot(loc: int, r: int)
    ensures Add(1, Mul(Alpha(loc), Alpha(r))) == 0 <==> (loc + r) % 255 == 0
  {
    hide Add, Mul, Alpha;
    AlphaMul(loc, r);
    AddCancel(1, Alpha(loc + r));
    AlphaStart();
    AlphaEqual(loc + r, 0);
  }

  /** The locator vanishes at alpha^r exactly when r is the negative of an error location. */
  lemma {:induction false} LocatorRoots(es: seq<Error>, r: int)
    ensures Eval(LocatorOf(es), Alpha(r)) == 0 <==> exists i :: 0 <= i < |es| && (es[i].loc + r) % 255 == 0
  {
    hide Add, Mul, Alpha, TimesLinear;
    if es == [] {
      hide Eval;
      EvalConstant(1, Alpha(r));
    } else {
      var t := es[1..];
      LocatorRoots(t, r);
      EvalTimesLinear(es[0].loc, LocatorOf(t), Alpha(r));
      LinearRoot(es[0].loc, r);
      MulZero(Add(1, Mul(Alpha(es[0].loc), Alpha(r))), Eval(LocatorOf(t), Alpha(r)));
      if exists i :: 0 <= i < |es| && (es[i].loc + r) % 255 == 0 {
        var i :| 0 <= i < |es| && (es[i].loc + r) % 255 == 0;
        if i > 0 { assert t[i - 1] == es[i]; }
      }
      if exists i :: 0 <= i < |t| && (t[i].loc + r) % 255 == 0 {
        var i :| 0 <= i < |t| && (t[i].loc + r) % 255 == 0;
        assert es[i + 1] == t[i];
      }
    }
  }

  lemma EvalConstant(c: bv8, x: bv8)
    ensures Eval([c], x) == c
  {
    hide Add, Mul;
    assert [c][1..] == [];
    MulZero(x, 0); AddZero(c);
  }

  // ----- the locator generates the syndromes, with the evaluator as remainder -----

  lemma {:induction false} Telescope(q: Coeffs, loc: int, n: nat, i: int)
    requires i < n
    ensures Add(Conv(q, Geo(loc, n), i), Mul(Alpha(loc), Conv(q, Geo(loc, n), i - 1)))
         == Mul(Alpha(loc), At(q, i))
  {
    hide Add, Mul, Alpha;
    var x, g := Alpha(loc), Geo(loc, n);
    if q == [] {
      MulZero(x, 0); AddZero(0);
    } else {
      var t := q[1..];
      Telescope(t, loc, n, i - 1);
      var a, u, v := q[0], Conv(t, g, i - 1), Conv(t, g, i - 2);
      var s, s' := At(g, i), At(g, i - 1);
      MulDistrib(Mul(a, s'), v, x);
      AddSwap(Mul(a, s), u, Mul(x, Mul(a, s')), Mul(x, v));
      assert Add(Conv(q, g, i), Mul(x, Conv(q, g, i - 1)))
          == Add(Add(Mul(a, s), Mul(x, Mul(a, s'))), Add(u, Mul(x, v)));
      MulAssoc(x, a, s'); MulAssoc(a, x, s'); MulComm(x, a);
      MulZero(x, 0); MulZero(a, 0); AddZero(0);
      if i > 0 {
        assert Mul(x, s') == s by { AlphaMul(loc, loc * i); assert loc + loc * i == loc * (i + 1); }
        AddZero(Mul(a, s));
        AddZero(Mul(x, At(t, i - 1)));
      } else if i == 0 {
        assert s == x;
        AddZero(Mul(a, x));
      }
    }
  }

  lemma ConvTimesLinear(q: Coeffs, loc: int, n: nat, i: int)
    requires i < n
    ensures Conv(TimesLinear(loc, q), Geo(loc, n), i) == Mul(Alpha(loc), At(q, i))
  {
    hide Add, Mul, Alpha, Conv, Geo;
    var g := Geo(loc, n);
    ConvSum(q + [0], Scale(Alpha(loc), [0] + q), g, i);
    ConvSame(q + [0], q, g, i);
    ConvScale(Alpha(loc), [0] + q, g, i);
    ConvShift(q, g, i);
    Telescope(q, loc, n, i);
  }

  /** The key equation, coefficient by coefficient. */
  lemma {:induction false} KeyEquation(es: seq<Error>, k: nat, n: nat, i: int)
    requires k <= |es| && i < n
    ensures Conv(LocatorOf(es), Syndromes(es[..k], n), i) == At(EvaluatorOf(es, k), i)
  {
    hide Add, Mul, Alpha, Conv, Geo, LocatorOf;
    var p := LocatorOf(es);
    if k == 0 {
      ConvSeriesZero(p, n, i);
    } else {
      var e := es[k - 1];
      KeyEquation(es, k - 1, n, i);
      assert es[..k][..k - 1] == es[..k - 1];
      var c := LocatorOf(Without(es, k - 1));
      ConvSeriesSum(p, Syndromes(es[..k - 1], n), Scale(e.value, Geo(e.loc, n)), i);
      ConvSeriesScale(p, e.value, Geo(e.loc, n), i);
      LocatorPull(es, k - 1);
      ConvTimesLinear(c, e.loc, n, i);
      MulAssoc(e.value, Alpha(e.loc), At(c, i));
      MulZero(Mul(e.value, Alpha(e.loc)), 0); AddZero(0);
    }
  }

  lemma {:induction false} LocatorConstant(es: seq<Error>)
    ensures At(LocatorOf(es), 0) == 1
  {
    hide Add, Mul, Alpha, TimesLinear;
    if es != [] {
      LocatorConstant(es[1..]);
      TimesLinearAt(es[0].loc, LocatorOf(es[1..]), 0);
      MulZero(Alpha(es[0].loc), 0); AddZero(1);
    }
  }

  lemma LocatorGenerates(es: seq<Error>, n: nat)
    ensures Generates(LocatorOf(es), |es|, Syndromes(es, n), n)
  {
    hide Conv, LocatorOf, EvaluatorOf, Syndromes;
    LocatorConstant(es);
    assert es[..|es|] == es;
    forall m | |es| <= m < n ensures Conv(LocatorOf(es), Syndromes(es, n), m) == 0 {
      KeyEquation(es, |es|, n, m);
    }
  }

  // ----- a shortest recurrence for the syndromes is the locator -----

  lemma {:induction false} ConvGeo(p: Coeffs, loc: int, n: nat, m: int)
    requires 0 <= m < n && DegreeAtMost(p, m)
    ensures Conv(p, Geo(loc, n), m) == Mul(Alpha(loc * (m + 1)), Eval(p, Alpha(-loc)))
  {
    hide Add, Mul, Alpha;
    var y, g, x := Alpha(-loc), Geo(loc, n), Alpha(loc * (m + 1));
    if p == [] {
      MulZero(x, 0);
    } else {
      var a, t := p[0], p[1..];
      MulDistrib(a, Mul(y, Eval(t, y)), x); MulComm(a, x);
      MulAssoc(x, y, Eval(t, y));
      if m == 0 {
        ConvZero(t, g, m - 1); EvalZero(t, y);
        MulZero(y, 0); MulZero(x, 0);
      } else {
        ConvGeo(t, loc, n, m - 1);
        AlphaMul(loc * (m + 1), -loc);
        assert loc * (m + 1) + -loc == loc * m;
      }
    }
  }

  lemma {:induction false} Conv2Geo(q: Coeffs, e: int, p: Coeffs, d: nat, loc: int, n: nat, m: int)
    requires DegreeAtMost(q, e) && DegreeAtMost(p, d) && -1 <= e && d + e <= m < n && 0 <= m
    ensures Conv2(q, p, Geo(loc, n), m)
         == Mul(Alpha(loc * (m + 1)), Mul(Eval(q, Alpha(-loc)), Eval(p, Alpha(-loc))))
  {
    hide Add, Mul, Alpha, Conv, Geo;
    var y, g, x := Alpha(-loc), Geo(loc, n), Alpha(loc * (m + 1));
    var v := Eval(p, y);
    if e == -1 {
      EvalZero(q, y);
      Conv2Vanish(q, -1, p, g, m);
      MulZero(0, v); MulZero(x, 0);
    } else if q == [] {
      MulZero(0, v); MulZero(x, 0);
    } else {
      var a, t := q[0], q[1..];
      var w := Eval(t, y);
      ConvGeo(p, loc, n, m);
      MulDistrib(a, Mul(y, w), v);
      MulDistrib(Mul(a, v), Mul(Mul(y, w), v), x);
      MulAssoc(a, x, v); MulAssoc(x, a, v); MulComm(a, x);
      MulAssoc(y, w, v); MulAssoc(x, y, Mul(w, v));
      AlphaMul(loc * (m + 1), -loc);
      assert loc * (m + 1) + -loc == loc * m;
      if m == 0 {
        assert DegreeAtMost(t, -1);
        Conv2Vanish(t, -1, p, g, m - 1);
        EvalZero(t, y);
        MulZero(0, v); MulZero(Alpha(loc * m), 0);
      } else {
        Conv2Geo(t, e - 1, p, d, loc, n, m - 1);
      }
    }
  }

  lemma {:induction false} Conv2SeriesLinear(q: Coeffs, p: Coeffs, s: Coeffs, c: bv8, t: Coeffs, n: int)
    requires |s| == |t|
    ensures Conv2(q, p, Sum(s, Scale(c, t)), n) == Add(Conv2(q, p, s, n), Mul(c, Conv2(q, p, t, n)))
  {
    hide Add, Mul, Conv;
    MulZero(c, 0); AddZero(0);
    if q != [] {
      Conv2SeriesLinear(q[1..], p, s, c, t, n - 1);
      ConvSeriesSum(p, s, Scale(c, t), n);
      ConvSeriesScale(p, c, t, n);
      var a, u, v := q[0], Conv(p, s, n), Conv(p, t, n);
      var u', v' := Conv2(q[1..], p, s, n - 1), Conv2(q[1..], p, t, n - 1);
      MulDistrib(u, Mul(c, v), a);
      MulAssoc(a, c, v); MulAssoc(c, a, v); MulComm(a, c);
      MulDistrib(Mul(a, v), v', c);
      AddSwap(Mul(a, u), Mul(c, Mul(a, v)), u', Mul(c, v'));
    }
  }

  lemma {:induction false} Conv2SeriesZero(q: Coeffs, p: Coeffs, n: nat, m: int)
    ensures Conv2(q, p, Zeros(n), m) == 0
  {
    hide Add, Mul, Conv;
    AddZero(0);
    if q != [] {
      Conv2SeriesZero(q[1..], p, n, m - 1);
      ConvSeriesZero(p, n, m);
      MulZero(q[0], 0);
    }
  }

  /** What error e contributes to coefficient m of q * p * S. */
  ghost function Contribution(e: Error, q: Coeffs, p: Coeffs, m: int): bv8 {
    Mul(e.value, Mul(Alpha(e.loc * (m + 1)), Mul(Eval(q, Alpha(-e.loc)), Eval(p, Alpha(-e.loc)))))
  }

  /** If q vanishes at the inverse of every error position but the k-th, only that error contributes. */
  lemma {:induction false} SingleContribution(es: seq<Error>, k: nat, q: Coeffs, e: nat, p: Coeffs, d: nat, n: nat, m: int)
    requires DegreeAtMost(q, e) && DegreeAtMost(p, d) && d + e <= m < n
    requires forall i :: 0 <= i < |es| && i != k ==> Eval(q, Alpha(-es[i].loc)) == 0
    ensures Conv2(q, p, Syndromes(es, n), m) == if k < |es| then Contribution(es[k], q, p, m) else 0
  {
    hide Add, Mul, Alpha, Conv2, Geo, Eval;
    if es == [] {
      Conv2SeriesZero(q, p, n, m);
    } else {
      var last := |es| - 1;
      var f := es[last];
      SingleContribution(es[..last], k, q, e, p, d, n, m);
      Conv2SeriesLinear(q, p, Syndromes(es[..last], n), f.value, Geo(f.loc, n), m);
      Conv2Geo(q, e, p, d, f.loc, n, m);
      AddZero(Contribution(f, q, p, m));
      if last != k {
        var v := Eval(p, Alpha(-f.loc));
        MulZero(0, v); MulZero(Alpha(f.loc * (m + 1)), 0); MulZero(f.value, 0);
        AddZero(Conv2(q, p, Syndromes(es[..last], n), m));
      }
    }
  }

  lemma WithoutDistinct(es: seq<Error>, k: nat)
    requires Distinct(es) && k < |es|
    ensures Eval(LocatorOf(Without(es, k)), Alpha(-es[k].loc)) != 0
    ensures forall i :: 0 <= i < |es| && i != k ==> Eval(LocatorOf(Without(es, k)), Alpha(-es[i].loc)) == 0
  {
    hide Alpha, LocatorOf, Eval;
    var w := Without(es, k);
    LocatorRoots(w, -es[k].loc);
    forall i | 0 <= i < |w| ensures (w[i].loc + -es[k].loc) % 255 != 0 {
      assert w[i] == if i < k then es[i] else es[i + 1];
    }
    forall i | 0 <= i < |es| && i != k ensures Eval(LocatorOf(w), Alpha(-es[i].loc)) == 0 {
      LocatorRoots(w, -es[i].loc);
      var j := if i < k then i else i - 1;
      assert w[j] == es[i];
      assert (w[j].loc + -es[i].loc) % 255 == 0;
    }
  }

  /** A recurrence no longer than the number of errors vanishes at every inverse error position. */
  lemma RecurrenceVanishes(p: Coeffs, len: nat, es: seq<Error>, n: nat, k: nat)
    requires Distinct(es) && k < |es| && len <= |es| && 2 * |es| <= n
    requires Generates(p, len, Syndromes(es, n), n)
    ensures Eval(p, Alpha(-es[k].loc)) == 0
  {
    hide Add, Mul, Alpha, Conv, Conv2, Eval, LocatorOf, Syndromes;
    var q := LocatorOf(Without(es, k));
    var m := len + |es| - 1;
    WithoutDistinct(es, k);
    Conv2Vanish(q, |es| - 1, p, Syndromes(es, n), m);
    SingleContribution(es, k, q, |es| - 1, p, len, n, m);
    var e := es[k];
    var u, v, x := Eval(q, Alpha(-e.loc)), Eval(p, Alpha(-e.loc)), Alpha(e.loc * (m + 1));
    AlphaNonzero(e.loc * (m + 1));
    MulZero(u, v); MulZero(x, Mul(u, v)); MulZero(e.value, Mul(x, Mul(u, v)));
  }

  // ----- a nonzero polynomial has no more roots than its degree -----

  /** The quotient of p by z + a. */
  ghost function Quotient(p: Coeffs, a: bv8): Coeffs
    ensures |Quotient(p, a)| == if p == [] then 0 else |p| - 1
  {
    if |p| <= 1 then [] else [Eval(p[1..], a)] + Quotient(p[1..], a)
  }

  lemma {:induction false} Division(p: Coeffs, a: bv8, x: bv8)
    ensures Eval(p, x) == Add(Mul(Add(x, a), Eval(Quotient(p, a), x)), Eval(p, a))
  {
    hide Add, Mul;
    if p == [] {
      MulZero(Add(x, a), 0); AddZero(0);
    } else if |p| == 1 {
      hide Eval;
      assert p == [p[0]];
      EvalConstant(p[0], x); EvalConstant(p[0], a);
      EvalZero([], x);
      MulZero(Add(x, a), 0); AddZero(p[0]);
    } else {
      var c, t := p[0], p[1..];
      var q, r := Eval(Quotient(t, a), x), Eval(t, a);
      Division(t, a, x);
      var z := Add(x, a);
      assert Quotient(p, a)[1..] == Quotient(t, a);
      assert Eval(Quotient(p, a), x) == Add(r, Mul(x, q));
      MulDistrib(Mul(z, q), r, x);
      MulDistrib(r, Mul(x, q), z);
      MulAssoc(x, z, q); MulAssoc(z, x, q); MulComm(x, z);
      MulDistrib(x, a, r);
      var zq := Mul(z, Mul(x, q));
      var xr, ar := Mul(x, r), Mul(a, r);
      assert Eval(p, x) == Add(c, Add(zq, xr));
      assert Add(Mul(z, Add(r, Mul(x, q))), Add(c, ar)) == Add(Add(Add(xr, ar), zq), Add(c, ar));
      DivisionSums(c, zq, xr, ar);
    }
  }

  lemma DivisionSums(c: bv8, s: bv8, x: bv8, a: bv8)
    ensures Add(Add(Add(x, a), s), Add(c, a)) == Add(c, Add(s, x))
  {
    hide Add;
    AddComm(Add(x, a), s); AddComm(c, a);
    AddAssoc(s, Add(x, a), Add(a, c)); AddAssoc(x, a, Add(a, c));
    AddCancel(a, c);
    AddAssoc(s, x, c); AddComm(Add(s, x), c);
  }

  lemma {:induction false} QuotientZero(p: Coeffs, a: bv8)
    requires Eval(p, a) == 0 && DegreeAtMost(Quotient(p, a), -1)
    ensures DegreeAtMost(p, -1)
  {
    hide Add, Mul;
    if |p| == 1 {
      assert p == [p[0]];
      EvalConstant(p[0], a);
    } else if |p| > 1 {
      var q := Quotient(p, a);
      assert q[0] == 0;
      assert q[1..] == Quotient(p[1..], a);
      QuotientZero(p[1..], a);
      MulZero(a, 0); AddZero(p[0]);
      forall i: nat | i < |p| ensures p[i] == 0 { if i > 0 { assert p[1..][i - 1] == 0; } }
    }
  }

  /** A polynomial with as many distinct roots as coefficients is zero. */
  lemma {:induction false} ManyRoots(p: Coeffs, xs: seq<bv8>)
    requires |xs| >= |p|
    requires forall i, j :: 0 <= i < j < |xs| ==> xs[i] != xs[j]
    requires forall i :: 0 <= i < |xs| ==> Eval(p, xs[i]) == 0
    ensures DegreeAtMost(p, -1)
    decreases |xs|
  {
    hide Add, Mul, Eval;
    if p != [] {
      var a, t := xs[0], xs[1..];
      forall i | 0 <= i < |t| ensures Eval(Quotient(p, a), t[i]) == 0 {
        var x := t[i];
        assert x == xs[i + 1] && Eval(p, xs[i + 1]) == 0;
        Division(p, a, x);
        AddZero(Mul(Add(x, a), Eval(Quotient(p, a), x)));
        AddCancel(x, a);
        MulZero(Add(x, a), Eval(Quotient(p, a), x));
      }
      ManyRoots(Quotient(p, a), t);
      QuotientZero(p, a);
    }
  }

  lemma EvalAtZero(p: Coeffs)
    ensures Eval(p, 0) == At(p, 0)
  {
    hide Add, Mul;
    if p != [] { MulZero(0, Eval(p[1..], 0)); AddZero(p[0]); }
  }

  lemma AddZeroPoly(p: Coeffs, q: Coeffs)
    requires |p| == |q| && DegreeAtMost(Sum(p, q), -1)
    ensures p == q
  {
    hide Add;
    forall i | 0 <= i < |p| ensures p[i] == q[i] {
      assert Sum(p, q)[i] == 0;
      AddCancel(p[i], q[i]);
    }
  }

  /** A recurrence no longer than the number of errors is the error locator. */
  lemma LocatorUnique(p: Coeffs, len: nat, es: seq<Error>, n: nat)
    requires Distinct(es) && len <= |es| && 2 * |es| <= n && |p| > |es|
    requires Generates(p, len, Syndromes(es, n), n)
    ensures Same(p, LocatorOf(es))
  {
    hide Add, Mul, Alpha, Conv, Eval, LocatorOf, Syndromes;
    var v := |es|;
    var p', c := p[..v + 1], LocatorOf(es);
    var roots := seq(v, k requires 0 <= k < v => Alpha(-es[k].loc)) + [0];
    forall k | 0 <= k <= v ensures Eval(Sum(p', c), roots[k]) == 0 {
      EvalSum(p', c, roots[k]);
      if k < v {
        RecurrenceVanishes(p, len, es, n, k);
        EvalSame(p', p, roots[k]);
        LocatorRoots(es, -es[k].loc);
        assert (es[k].loc + -es[k].loc) % 255 == 0;
        AddZero(0);
      } else {
        EvalAtZero(p'); EvalAtZero(c);
        LocatorConstant(es);
        AddZero(1);
      }
    }
    forall i, j | 0 <= i < j < |roots| ensures roots[i] != roots[j] {
      if j == v { AlphaNonzero(-es[i].loc); } else { AlphaEqual(-es[i].loc, -es[j].loc); }
    }
    ManyRoots(Sum(p', c), roots);
    AddZeroPoly(p', c);
  }

  // ----- error values -----

  lemma {:induction false} EvaluatorValue(es: seq<Error>, n: nat, k: nat, y: bv8)
    requires n <= |es|
    requires forall i :: 0 <= i < n && i != k ==> Eval(LocatorOf(Without(es, i)), y) == 0
    ensures Eval(EvaluatorOf(es, n), y)
         == if k < n then Mul(Mul(es[k].value, Alpha(es[k].loc)), Eval(LocatorOf(Without(es, k)), y)) else 0
  {
    hide Add, Mul, Alpha, Eval, LocatorOf;
    if n == 0 {
      EvalZero(Zeros(|es|), y);
    } else {
      EvaluatorValue(es, n - 1, k, y);
      var f, c := Mul(es[n - 1].value, Alpha(es[n - 1].loc)), LocatorOf(Without(es, n - 1));
      EvalSum(EvaluatorOf(es, n - 1), Scale(f, c), y);
      EvalScale(f, c, y);
      AddZero(Eval(EvaluatorOf(es, n - 1), y)); AddZero(Mul(f, Eval(c, y)));
      MulZero(f, 0);
    }
  }

  lemma OthersVanish(es: seq<Error>, i: nat, k: nat)
    requires Distinct(es) && k < |es| && i < |es| && i != k
    ensures Eval(LocatorOf(Without(es, i)), Alpha(-es[k].loc)) == 0
  {
    hide Alpha, Eval, LocatorOf;
    WithoutDistinct(es, i);
  }

  lemma QuotientOfProducts(v: bv8, x: bv8, u: bv8)
    requires x != 0 && u != 0
    ensures Mul(Mul(Mul(v, x), u), Inv(Mul(x, u))) == v
  {
    hide Mul, Inv;
    var d := Mul(x, u);
    MulZero(x, u);
    MulAssoc(v, x, u);
    MulAssoc(v, d, Inv(d)); MulInv(d); MulOne(v);
  }

  /** The derivative of the locator at the inverse of an error location. */
  lemma LocatorSlope(es: seq<Error>, k: nat)
    requires Distinct(es) && k < |es|
    ensures var c := Eval(LocatorOf(Without(es, k)), Alpha(-es[k].loc));
      Slope(LocatorOf(es), Alpha(-es[k].loc)) == Mul(Alpha(es[k].loc), c) && c != 0
  {
    hide Add, Mul, Alpha, Eval, Slope, LocatorOf, Without, TimesLinear;
    var y, x := Alpha(-es[k].loc), Alpha(es[k].loc);
    var c := LocatorOf(Without(es, k));
    LocatorPull(es, k);
    EvalTimesLinear(es[k].loc, c, y);
    LinearRoot(es[k].loc, -es[k].loc);
    MulZero(0, Slope(c, y));
    AddZero(Mul(x, Eval(c, y)));
    WithoutDistinct(es, k);
  }

  /** Forney's formula: the evaluator divided by the derivative of the locator is the error value. */
  lemma ErrorValue(es: seq<Error>, k: nat)
    requires Distinct(es) && k < |es|
    ensures Mul(Eval(EvaluatorOf(es, |es|), Alpha(-es[k].loc)), Inv(Slope(LocatorOf(es), Alpha(-es[k].loc))))
         == es[k].value
  {
    hide Add, Mul, Alpha, Eval, Slope, LocatorOf, Inv, EvaluatorOf, Without, TimesLinear;
    var y, x, v := Alpha(-es[k].loc), Alpha(es[k].loc), es[k].value;
    var c := LocatorOf(Without(es, k));
    forall i | 0 <= i < |es| && i != k ensures Eval(LocatorOf(Without(es, i)), y) == 0 { OthersVanish(es, i, k); }
    EvaluatorValue(es, |es|, k, y);
    LocatorSlope(es, k);
    AlphaNonzero(es[k].loc);
    QuotientOfProducts(v, x, Eval(c, y));
  }
}

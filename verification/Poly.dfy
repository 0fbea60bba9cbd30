/** Polynomials over GF(256), as coefficient sequences with the constant term first, and the
    convolutions and evaluations the codec's loops compute with them. */
module Poly {
  import opened Field

  type Coeffs = seq<bv8>

  /** The coefficient of z^k; zero outside the sequence. */
  function At(p: Coeffs, k: int): bv8 {
    if 0 <= k < |p| then p[k] else 0
  }

  /** All coefficients above z^d are zero. */
  ghost predicate DegreeAtMost(p: Coeffs, d: int) {
    forall i :: d < i < |p| && 0 <= i ==> p[i] == 0
  }

  /** The same polynomial, up to trailing zeros. */
  ghost predicate Same(p: Coeffs, q: Coeffs) {
    forall i: nat :: At(p, i) == At(q, i)
  }

  function Sum(p: Coeffs, q: Coeffs): Coeffs
    requires |p| == |q|
  {
    seq(|p|, i requires 0 <= i < |p| => Add(p[i], q[i]))
  }

  lemma SumLength(p: Coeffs, q: Coeffs)
    requires |p| == |q|
    ensures |Sum(p, q)| == |p|
  {}

  ghost function Scale(c: bv8, p: Coeffs): Coeffs {
    seq(|p|, i requires 0 <= i < |p| => Mul(c, p[i]))
  }

  /** Coefficient n of the product of p with the power series s (zero before index 0). */
  ghost function Conv(p: Coeffs, s: Coeffs, n: int): bv8 {
    if p == [] then 0 else Add(Mul(p[0], At(s, n)), Conv(p[1..], s, n - 1))
  }

  /** The value of the polynomial p at x. */
  ghost function Eval(p: Coeffs, x: bv8): bv8 {
    if p == [] then 0 else Add(p[0], Mul(x, Eval(p[1..], x)))
  }

  /** The value at x of the formal derivative of p. */
  ghost function Slope(p: Coeffs, x: bv8): bv8 {
    if p == [] then 0 else Add(Eval(p[1..], x), Mul(x, Slope(p[1..], x)))
  }

  function Zeros(n: nat): Coeffs {
    seq(n, i => 0)
  }

  // ----- convolution -----

  lemma {:induction false} ConvZero(p: Coeffs, s: Coeffs, n: int)
    requires DegreeAtMost(p, -1)
    ensures Conv(p, s, n) == 0
  {
    hide Add, Mul;
    if p != [] {
      ConvZero(p[1..], s, n - 1);
      MulZero(At(s, n), 0);
      AddZero(0);
    }
  }

  lemma {:induction false} ConvSame(p: Coeffs, q: Coeffs, s: Coeffs, n: int)
    requires Same(p, q)
    ensures Conv(p, s, n) == Conv(q, s, n)
    decreases |p|
  {
    hide Add, Mul;
    if p == [] {
      assert DegreeAtMost(q, -1) by { forall i: nat | i < |q| ensures q[i] == 0 { assert At(p, i) == At(q, i); } }
      ConvZero(q, s, n);
    } else if q == [] {
      assert DegreeAtMost(p, -1) by { forall i: nat | i < |p| ensures p[i] == 0 { assert At(p, i) == At(q, i); } }
      ConvZero(p, s, n);
    } else {
      TailSame(p, q);
      ConvSame(p[1..], q[1..], s, n - 1);
    }
  }

  lemma TailSame(p: Coeffs, q: Coeffs)
    requires Same(p, q) && p != [] && q != []
    ensures Same(p[1..], q[1..]) && p[0] == q[0]
  {
    assert At(p, 0) == At(q, 0);
    forall i: nat ensures At(p[1..], i) == At(q[1..], i) { assert At(p, i + 1) == At(q, i + 1); }
  }

  lemma {:induction false} ConvSum(p: Coeffs, q: Coeffs, s: Coeffs, n: int)
    requires |p| == |q|
    ensures Conv(Sum(p, q), s, n) == Add(Conv(p, s, n), Conv(q, s, n))
  {
    hide Add, Mul;
    if p == [] {
      AddZero(0);
    } else {
      assert Sum(p, q)[1..] == Sum(p[1..], q[1..]);
      ConvSum(p[1..], q[1..], s, n - 1);
      MulDistrib(p[0], q[0], At(s, n));
      AddSwap(Mul(p[0], At(s, n)), Mul(q[0], At(s, n)), Conv(p[1..], s, n - 1), Conv(q[1..], s, n - 1));
    }
  }

  lemma {:induction false} ConvScale(c: bv8, p: Coeffs, s: Coeffs, n: int)
    ensures Conv(Scale(c, p), s, n) == Mul(c, Conv(p, s, n))
  {
    hide Add, Mul;
    if p == [] {
      MulZero(c, 0);
    } else {
      assert Scale(c, p)[1..] == Scale(c, p[1..]);
      ConvScale(c, p[1..], s, n - 1);
      MulAssoc(c, p[0], At(s, n));
      MulDistrib(Mul(p[0], At(s, n)), Conv(p[1..], s, n - 1), c);
    }
  }

  lemma ConvShift(p: Coeffs, s: Coeffs, n: int)
    ensures Conv([0] + p, s, n) == Conv(p, s, n - 1)
  {
    hide Add, Mul;
    assert ([0] + p)[1..] == p;
    MulZero(At(s, n), 0);
    AddZero(Conv(p, s, n - 1));
  }

  /** Multiplying by z inside a fixed length, when no nonzero coefficient falls off the end. */
  function ShiftUp(p: Coeffs): Coeffs
    requires p != []
  {
    [0] + p[..|p| - 1]
  }

  lemma ConvShiftUp(p: Coeffs, s: Coeffs, n: int)
    requires p != [] && p[|p| - 1] == 0
    ensures Conv(ShiftUp(p), s, n) == Conv(p, s, n - 1)
  {
    hide Add, Mul, Conv;
    ConvShift(p, s, n);
    ConvSame(ShiftUp(p), [0] + p, s, n);
  }

  lemma {:induction false} ConvNegative(p: Coeffs, s: Coeffs, n: int)
    requires n < 0
    ensures Conv(p, s, n) == 0
  {
    hide Add, Mul;
    if p != [] {
      ConvNegative(p[1..], s, n - 1);
      MulZero(p[0], 0);
      AddZero(0);
    }
  }

  /** The convolution looks at no index of the series beyond n. */
  lemma {:induction false} ConvPrefix(p: Coeffs, s: Coeffs, t: Coeffs, n: int)
    requires forall k :: 0 <= k <= n ==> At(s, k) == At(t, k)
    ensures Conv(p, s, n) == Conv(p, t, n)
  {
    hide Add, Mul;
    if p != [] {
      ConvPrefix(p[1..], s, t, n - 1);
      assert n >= 0 ==> At(s, n) == At(t, n);
    }
  }

  // ----- convolving twice -----

  /** Coefficient n of p * (q * s). */
  ghost function Conv2(p: Coeffs, q: Coeffs, s: Coeffs, n: int): bv8 {
    if p == [] then 0 else Add(Mul(p[0], Conv(q, s, n)), Conv2(p[1..], q, s, n - 1))
  }

  lemma {:induction false} Conv2Head(q: Coeffs, p: Coeffs, s: Coeffs, n: int)
    requires p != []
    ensures Conv2(q, p, s, n) == Add(Mul(p[0], Conv(q, s, n)), Conv2(q, p[1..], s, n - 1))
  {
    hide Add, Mul;
    if q == [] {
      MulZero(p[0], 0); AddZero(0);
    } else {
      Conv2Head(q[1..], p, s, n - 1);
      var a, b, x := p[0], q[0], At(s, n);
      var u, v := Conv(p[1..], s, n - 1), Conv(q[1..], s, n - 1);
      var w := Conv2(q[1..], p[1..], s, n - 2);
      assert Conv2(q, p, s, n) == Add(Mul(b, Add(Mul(a, x), u)), Add(Mul(a, v), w));
      assert Conv2(q, p[1..], s, n - 1) == Add(Mul(b, u), w);
      MulDistrib(Mul(a, x), u, b); MulDistrib(Mul(b, x), v, a);
      MulAssoc(a, b, x); MulAssoc(b, a, x); MulComm(a, b);
      AddSwap(Mul(b, Mul(a, x)), Mul(b, u), Mul(a, v), w);
    }
  }

  /** Convolution is commutative in the two polynomials applied to the series. */
  lemma {:induction false} Conv2Swap(p: Coeffs, q: Coeffs, s: Coeffs, n: int)
    ensures Conv2(p, q, s, n) == Conv2(q, p, s, n)
  {
    hide Add, Mul;
    if p == [] {
      Conv2Empty(q, s, n);
    } else {
      Conv2Swap(p[1..], q, s, n - 1);
      Conv2Head(q, p, s, n);
    }
  }

  lemma {:induction false} Conv2Empty(q: Coeffs, s: Coeffs, n: int)
    ensures Conv2(q, [], s, n) == 0
  {
    hide Add, Mul;
    if q != [] {
      Conv2Empty(q[1..], s, n - 1);
      MulZero(q[0], 0); AddZero(0);
    }
  }

  lemma {:induction false} Conv2Vanish(p: Coeffs, d: int, q: Coeffs, s: Coeffs, n: int)
    requires DegreeAtMost(p, d)
    requires forall m :: n - d <= m <= n ==> Conv(q, s, m) == 0
    ensures Conv2(p, q, s, n) == 0
  {
    hide Add, Mul, Conv;
    if p != [] {
      Conv2Vanish(p[1..], d - 1, q, s, n - 1);
      MulZero(p[0], Conv(q, s, n));
      AddZero(0);
    }
  }

  lemma Conv2Lead(p: Coeffs, d: int, q: Coeffs, s: Coeffs, n: int)
    requires DegreeAtMost(p, d) && At(p, 0) == 1
    requires forall m :: n - d <= m < n ==> Conv(q, s, m) == 0
    ensures Conv2(p, q, s, n) == Conv(q, s, n)
  {
    hide Add, Mul, Conv;
    Conv2Vanish(p[1..], d - 1, q, s, n - 1);
    MulOne(Conv(q, s, n));
    AddZero(Conv(q, s, n));
  }

  // ----- evaluation -----

  lemma {:induction false} EvalZero(p: Coeffs, x: bv8)
    requires DegreeAtMost(p, -1)
    ensures Eval(p, x) == 0 && Slope(p, x) == 0
  {
    hide Add, Mul;
    if p != [] {
      EvalZero(p[1..], x);
      MulZero(x, 0);
      AddZero(0);
    }
  }

  lemma {:induction false} EvalSame(p: Coeffs, q: Coeffs, x: bv8)
    requires Same(p, q)
    ensures Eval(p, x) == Eval(q, x) && Slope(p, x) == Slope(q, x)
    decreases |p|
  {
    hide Add, Mul;
    if p == [] {
      assert DegreeAtMost(q, -1) by { forall i: nat | i < |q| ensures q[i] == 0 { assert At(p, i) == At(q, i); } }
      EvalZero(q, x);
    } else if q == [] {
      assert DegreeAtMost(p, -1) by { forall i: nat | i < |p| ensures p[i] == 0 { assert At(p, i) == At(q, i); } }
      EvalZero(p, x);
    } else {
      TailSame(p, q);
      EvalSame(p[1..], q[1..], x);
    }
  }

  lemma {:induction false} EvalSum(p: Coeffs, q: Coeffs, x: bv8)
    requires |p| == |q|
    ensures Eval(Sum(p, q), x) == Add(Eval(p, x), Eval(q, x))
    ensures Slope(Sum(p, q), x) == Add(Slope(p, x), Slope(q, x))
  {
    hide Add, Mul;
    if p == [] {
      AddZero(0);
    } else {
      assert Sum(p, q)[1..] == Sum(p[1..], q[1..]);
      EvalSum(p[1..], q[1..], x);
      var u, v := Eval(p[1..], x), Eval(q[1..], x);
      var s, t := Slope(p[1..], x), Slope(q[1..], x);
      MulDistrib(u, v, x); MulDistrib(s, t, x);
      AddSwap(p[0], q[0], Mul(x, u), Mul(x, v));
      AddSwap(u, v, Mul(x, s), Mul(x, t));
    }
  }

  lemma {:induction false} EvalScale(c: bv8, p: Coeffs, x: bv8)
    ensures Eval(Scale(c, p), x) == Mul(c, Eval(p, x))
    ensures Slope(Scale(c, p), x) == Mul(c, Slope(p, x))
  {
    hide Add, Mul;
    if p == [] {
      MulZero(c, 0);
    } else {
      assert Scale(c, p)[1..] == Scale(c, p[1..]);
      EvalScale(c, p[1..], x);
      var u, s := Eval(p[1..], x), Slope(p[1..], x);
      MulDistrib(p[0], Mul(x, u), c); MulDistrib(u, Mul(x, s), c);
      MulAssoc(c, x, u); MulAssoc(x, c, u); MulComm(c, x);
      MulAssoc(c, x, s); MulAssoc(x, c, s);
    }
  }

  lemma EvalShift(p: Coeffs, x: bv8)
    ensures Eval([0] + p, x) == Mul(x, Eval(p, x))
    ensures Slope([0] + p, x) == Add(Eval(p, x), Mul(x, Slope(p, x)))
  {
    hide Add, Mul;
    assert ([0] + p)[1..] == p;
    AddZero(Mul(x, Eval(p, x)));
  }

  ghost function Power(x: bv8, n: nat): bv8 {
    if n == 0 then 1 else Mul(x, Power(x, n - 1))
  }

  lemma {:induction false} EvalAppend(p: Coeffs, c: bv8, x: bv8)
    ensures Eval(p + [c], x) == Add(Eval(p, x), Mul(c, Power(x, |p|)))
  {
    hide Add, Mul;
    if p == [] {
      assert [c][1..] == [];
      MulZero(x, 0); MulOne(c); AddComm(c, 0);
      assert Eval([c], x) == Add(c, Mul(x, Eval([], x)));
      assert p + [c] == [c];
    } else {
      assert (p + [c])[1..] == p[1..] + [c];
      EvalAppend(p[1..], c, x);
      var u, w := Eval(p[1..], x), Mul(c, Power(x, |p| - 1));
      MulDistrib(u, w, x);
      AddAssoc(p[0], Mul(x, u), Mul(x, w));
      MulAssoc(x, c, Power(x, |p| - 1)); MulAssoc(c, x, Power(x, |p| - 1)); MulComm(x, c);
    }
  }

  lemma {:induction false} PowerAlpha(r: int, n: nat)
    ensures Power(Alpha(r), n) == Alpha(r * n)
  {
    hide Mul, Alpha;
    if n == 0 {
      AlphaStart();
    } else {
      PowerAlpha(r, n - 1);
      AlphaMul(r, r * (n - 1));
      assert r + r * (n - 1) == r * n;
    }
  }

  /** In characteristic two the derivative keeps the odd coefficients only. */
  lemma SlopeTwo(p: Coeffs, x: bv8)
    requires |p| >= 2
    ensures Slope(p, x) == Add(p[1], Mul(Mul(x, x), Slope(p[2..], x)))
  {
    hide Add, Mul;
    var q := p[2..];
    assert p[1..][1..] == q;
    var u, s := Eval(q, x), Slope(q, x);
    assert Slope(p, x) == Add(Add(p[1], Mul(x, u)), Mul(x, Add(u, Mul(x, s))));
    MulDistrib(u, Mul(x, s), x);
    MulAssoc(x, x, s);
    AddAssoc(p[1], Mul(x, u), Add(Mul(x, u), Mul(x, Mul(x, s))));
    AddCancel(Mul(x, u), Mul(x, Mul(x, s)));
  }
}

/** Products of polynomials: how the full convolution evaluates, and the generator's roots. */
module Product {
  import opened Field
  import opened Poly

  lemma {:induction false} ConvAppend(p: Coeffs, c: bv8, s: Coeffs, n: int)
    ensures Conv(p + [c], s, n) == Add(Conv(p, s, n), Mul(c, At(s, n - |p|)))
  {
    hide Add, Mul;
    if p == [] {
      assert p + [c] == [c] && [c][1..] == [];
      AddComm(Mul(c, At(s, n)), 0);
    } else {
      assert (p + [c])[1..] == p[1..] + [c];
      ConvAppend(p[1..], c, s, n - 1);
      AddAssoc(Mul(p[0], At(s, n)), Conv(p[1..], s, n - 1), Mul(c, At(s, n - |p|)));
    }
  }

  /** The first len coefficients of p * q. */
  ghost function ProductOf(p: Coeffs, q: Coeffs, len: nat): (r: Coeffs)
    ensures |r| == len
  {
    seq(len, n => Conv(p, q, n))
  }

  function Padded(q: Coeffs, len: nat): (r: Coeffs)
    ensures |r| == len
  {
    seq(len, i => At(q, i))
  }

  lemma {:induction false} EvalProduct(p: Coeffs, q: Coeffs, len: nat, x: bv8)
    requires len >= |p| + |q|
    ensures Eval(ProductOf(p, q, len), x) == Mul(Eval(p, x), Eval(q, x))
  {
    hide Add, Mul;
    if p == [] {
      EvalZero(ProductOf(p, q, len), x);
      MulZero(0, Eval(q, x));
    } else {
      var a, t := p[0], p[1..];
      EvalProduct(t, q, len - 1, x);
      var l, r := Scale(a, Padded(q, len)), [0] + ProductOf(t, q, len - 1);
      assert ProductOf(p, q, len) == Sum(l, r) by {
        forall n | 0 <= n < len ensures ProductOf(p, q, len)[n] == Sum(l, r)[n] {
          if n == 0 { ConvNegative(t, q, -1); }
        }
      }
      hide Eval, ProductOf, Scale, Sum;
      EvalSum(l, r, x);
      EvalScale(a, Padded(q, len), x);
      EvalSame(Padded(q, len), q, x);
      EvalShift(ProductOf(t, q, len - 1), x);
      EvalHead(p, x);
      var u, v := Eval(t, x), Eval(q, x);
      MulDistrib(a, Mul(x, u), v); MulAssoc(x, u, v);
    }
  }

  lemma EvalHead(p: Coeffs, x: bv8)
    requires p != []
    ensures Eval(p, x) == Add(p[0], Mul(x, Eval(p[1..], x)))
  {}

  lemma EvalLinear(a: bv8, x: bv8)
    ensures Eval([a, 1], x) == Add(x, a)
  {
    hide Add, Mul;
    assert [a, 1][1..] == [1] && [1][1..] == [];
    assert Eval([1], x) == Add(1, Mul(x, Eval([], x)));
    MulZero(x, 0); AddZero(1); MulOne(x); AddComm(a, x);
  }

  /** (x + alpha) (x + alpha^2) ... (x + alpha^n). */
  ghost function RootProduct(n: nat, x: bv8): bv8 {
    if n == 0 then 1 else Mul(Add(x, Alpha(n)), RootProduct(n - 1, x))
  }

  lemma {:induction false} RootProductZero(n: nat, x: bv8)
    ensures RootProduct(n, x) == 0 <==> exists k :: 1 <= k <= n && x == Alpha(k)
  {
    hide Add, Mul, Alpha;
    if n != 0 {
      RootProductZero(n - 1, x);
      AddCancel(x, Alpha(n));
      MulZero(Add(x, Alpha(n)), RootProduct(n - 1, x));
    }
  }

  /** Multiplying by a monic linear factor raises the degree of a monic polynomial by one. */
  lemma ConvLinearMonic(a: bv8, q: Coeffs, d: nat, n: nat)
    requires DegreeAtMost(q, d) && At(q, d) == 1
    ensures n > d + 1 ==> Conv([a, 1], q, n) == 0
    ensures n == d + 1 ==> Conv([a, 1], q, n) == 1
  {
    hide Add, Mul;
    assert [a, 1][1..] == [1] && [1][1..] == [];
    assert Conv([1], q, n - 1) == Add(Mul(1, At(q, n - 1)), Conv([], q, n - 2));
    MulZero(a, 0); MulOne(At(q, n - 1)); AddZero(At(q, n - 1));
  }
}

/** The shift register of the encoder performs polynomial division. */
module Division {
  import opened Field
  import opened Poly
  import opened Locator
  import opened Product
  import opened Word

  /** g is monic of degree n and is the product of x + alpha^k for k = 1..n. */
  ghost predicate IsGenerator(g: Coeffs, n: nat) {
    && At(g, n) == 1 && DegreeAtMost(g, n)
    && forall x: bv8 :: Eval(g, x) == RootProduct(n, x)
  }

  /** reg is the remainder, and quot the quotient, of m * x^NPAR divided by g. */
  ghost predicate IsDivision(m: seq<bv8>, g: Coeffs, quot: seq<bv8>, reg: Coeffs) {
    && |quot| == |m| && |reg| == NPAR
    && forall x: bv8 :: Mul(Horner(m, x), Power(x, NPAR)) == Add(Mul(Horner(quot, x), Eval(g, x)), Eval(reg, x))
  }

  /** One shift of the register fed with byte c. */
  ghost function Shifted(reg: Coeffs, g: Coeffs, c: bv8): Coeffs
    requires |reg| == NPAR && |g| >= NPAR
  {
    Sum([0] + reg[..NPAR - 1], Scale(Add(c, reg[NPAR - 1]), g[..NPAR]))
  }

  lemma GeneratorMonic(g: Coeffs)
    requires IsGenerator(g, NPAR)
    ensures |g| > NPAR && g[NPAR] == 1 && DegreeAtMost(g, NPAR)
  {}

  lemma DivisionStart(g: Coeffs)
    ensures IsDivision([], g, [], Zeros(NPAR))
  {
    hide Add, Mul, Horner, Eval, Power;
    forall x: bv8 ensures Mul(Horner([], x), Power(x, NPAR)) == Add(Mul(Horner([], x), Eval(g, x)), Eval(Zeros(NPAR), x)) {
      HornerEmpty(x);
      MulZero(0, Power(x, NPAR)); MulZero(0, Eval(g, x));
      EvalZero(Zeros(NPAR), x);
      AddZero(0);
    }
  }

  lemma MonicValue(g: Coeffs, x: bv8)
    requires |g| > NPAR && g[NPAR] == 1 && DegreeAtMost(g, NPAR)
    ensures Eval(g, x) == Add(Eval(g[..NPAR], x), Power(x, NPAR))
  {
    hide Add, Mul, Eval, Power;
    EvalSame(g, g[..NPAR] + [1], x);
    EvalAppend(g[..NPAR], 1, x);
    MulOne(Power(x, NPAR));
  }

  lemma ShiftedValue(reg: Coeffs, g: Coeffs, c: bv8, x: bv8)
    requires |reg| == NPAR && |g| >= NPAR
    ensures Eval(Shifted(reg, g, c), x)
         == Add(Add(Mul(x, Eval(reg, x)), Mul(reg[NPAR - 1], Power(x, NPAR))),
                Mul(Add(c, reg[NPAR - 1]), Eval(g[..NPAR], x)))
  {
    hide Add, Mul, Eval;
    var t, r := reg[..NPAR - 1], reg[NPAR - 1];
    var y := Power(x, NPAR - 1);
    EvalSum([0] + t, Scale(Add(c, r), g[..NPAR]), x);
    EvalScale(Add(c, r), g[..NPAR], x);
    EvalShift(t, x);
    assert reg == t + [r];
    EvalAppend(t, r, x);
    MulDistrib(Eval(t, x), Mul(r, y), x);
    MulAssoc(x, r, y); MulAssoc(r, x, y); MulComm(x, r);
    AddCancel(Mul(x, Eval(t, x)), Mul(r, Mul(x, y)));
  }

  lemma ShiftSums(c: bv8, r: bv8, p: bv8, g: bv8, h: bv8, a: bv8, b: bv8)
    requires g == Add(h, p)
    ensures Add(Add(Mul(Add(c, r), g), a), Add(Add(b, Mul(r, p)), Mul(Add(c, r), h)))
         == Add(Mul(c, p), Add(a, b))
  {
    hide Add, Mul;
    var d := Add(c, r);
    var rp, cp, w := Mul(r, p), Mul(c, p), Add(b, Mul(r, p));
    AddComm(w, Mul(d, h));
    AddSwap(Mul(d, g), a, Mul(d, h), w);
    MulDistrib(g, h, d);
    assert Add(g, h) == p by { AddComm(g, h); AddCancel(h, p); }
    MulDistrib(c, r, p);
    AddAssoc(a, b, rp); AddComm(Add(a, b), rp);
    AddAssoc(cp, rp, Add(rp, Add(a, b)));
    AddCancel(rp, Add(a, b));
  }

  lemma DivisionStep(m: seq<bv8>, g: Coeffs, quot: seq<bv8>, reg: Coeffs, c: bv8)
    requires IsDivision(m, g, quot, reg)
    requires |g| > NPAR && g[NPAR] == 1 && DegreeAtMost(g, NPAR)
    ensures IsDivision(m + [c], g, quot + [Add(c, reg[NPAR - 1])], Shifted(reg, g, c))
  {
    hide Add, Mul, Eval, Power, Shifted;
    var r := reg[NPAR - 1];
    var d := Add(c, r);
    var m', quot', reg' := m + [c], quot + [d], Shifted(reg, g, c);
    assert |reg'| == NPAR by { ShiftedLength(reg, g, c); }
    assert m'[..|m|] == m && quot'[..|quot|] == quot;
    forall x: bv8
      ensures Mul(Horner(m', x), Power(x, NPAR)) == Add(Mul(Horner(quot', x), Eval(g, x)), Eval(reg', x))
    {
      hide Horner;
      var p, ge, h, q, u := Power(x, NPAR), Eval(g, x), Eval(g[..NPAR], x), Horner(quot, x), Eval(reg, x);
      HornerLast(m, c, x); HornerLast(quot, d, x);
      MonicValue(g, x);
      ShiftedValue(reg, g, c, x);
      MulDistrib(c, Mul(x, Horner(m, x)), p); MulAssoc(x, Horner(m, x), p);
      MulDistrib(Mul(q, ge), u, x);
      MulDistrib(d, Mul(x, q), ge); MulAssoc(x, q, ge);
      ShiftSums(c, r, p, ge, h, Mul(x, Mul(q, ge)), Mul(x, u));
    }
  }

  lemma ShiftedLength(reg: Coeffs, g: Coeffs, c: bv8)
    requires |reg| == NPAR && |g| >= NPAR
    ensures |Shifted(reg, g, c)| == NPAR
  {}

  lemma HornerLast(m: seq<bv8>, c: bv8, x: bv8)
    ensures Horner(m + [c], x) == Add(c, Mul(x, Horner(m, x)))
  {
    assert (m + [c])[..|m|] == m;
  }

  /** The message followed by the remainder, leading coefficient first, is a code word. */
  lemma SystematicCodeword(m: seq<bv8>, g: Coeffs, quot: seq<bv8>, reg: Coeffs)
    requires IsDivision(m, g, quot, reg) && IsGenerator(g, NPAR)
    ensures IsCodeword(m + Reversed(reg))
  {
    hide Add, Mul, Eval, Power, Horner, Alpha, RootProduct;
    forall j | 1 <= j <= NPAR ensures Horner(m + Reversed(reg), Alpha(j)) == 0 {
      var x := Alpha(j);
      HornerAppend(m, Reversed(reg), x);
      HornerReversed(reg, x);
      RootProductZero(NPAR, x);
      MulZero(Horner(quot, x), 0);
      AddZero(Eval(reg, x));
    }
  }

  lemma SameTail(m: seq<bv8>, s: seq<bv8>, t: seq<bv8>, x: bv8)
    requires |s| == |t| && Horner(m + s, x) == Horner(m + t, x)
    ensures Horner(s, x) == Horner(t, x)
  {
    hide Add, Mul, Horner, Power;
    HornerAppend(m, s, x); HornerAppend(m, t, x);
    var u := Mul(Horner(m, x), Power(x, |s|));
    AddCancel(u, Horner(s, x)); AddCancel(u, Horner(t, x));
  }

  /** A message has only one code word. */
  lemma SystematicUnique(m: seq<bv8>, s: seq<bv8>, t: seq<bv8>)
    requires |s| == |t| == NPAR && IsCodeword(m + s) && IsCodeword(m + t)
    ensures s == t
  {
    hide Add, Mul, Horner, Eval, Alpha, Sum;
    var p, q := Reversed(s), Reversed(t);
    assert Reversed(p) == s && Reversed(q) == t;
    var roots := seq(NPAR, k => Alpha(k + 1));
    forall k | 0 <= k < NPAR ensures Eval(Sum(p, q), roots[k]) == 0 {
      var x := Alpha(k + 1);
      assert Horner(m + s, x) == 0 && Horner(m + t, x) == 0;
      SameTail(m, s, t, x);
      HornerReversed(p, x); HornerReversed(q, x);
      EvalSum(p, q, x);
      AddZero(Eval(p, x));
    }
    forall i, j | 0 <= i < j < NPAR ensures roots[i] != roots[j] { AlphaEqual(i + 1, j + 1); }
    assert |Sum(p, q)| == NPAR by { SumLength(p, q); }
    ManyRoots(Sum(p, q), roots);
    AddZeroPoly(p, q);
    assert s == Reversed(p) && t == Reversed(q);
  }
}

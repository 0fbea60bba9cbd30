/** Linear recurrences over GF(256): what one round of Berlekamp-Massey keeps, and Massey's bound
    that makes its recurrence a shortest one. */
module Massey {
  import opened Field
  import opened Poly

  /** The recurrence p of length len predicts s[len..n]. */
  ghost predicate Generates(p: Coeffs, len: int, s: Coeffs, n: int) {
    && 0 <= len && At(p, 0) == 1 && DegreeAtMost(p, len)
    && forall m :: len <= m < n ==> Conv(p, s, m) == 0
  }

  ghost predicate Shortest(len: int, s: Coeffs, n: int) {
    forall q: Coeffs, len': int :: Generates(q, len', s, n) ==> len <= len'
  }

  /** If p fails at index n, every recurrence that does not fail there is at least n + 1 - len long. */
  lemma MasseyBound(p: Coeffs, len: int, q: Coeffs, len': int, s: Coeffs, n: int)
    requires Generates(p, len, s, n) && Conv(p, s, n) != 0
    requires Generates(q, len', s, n + 1)
    ensures len' >= n + 1 - len
  {
    hide Conv, Conv2, At;
    if len' <= n - len {
      Conv2Lead(q, len', p, s, n);
      Conv2Vanish(p, len, q, s, n);
      Conv2Swap(p, q, s, n);
    }
  }

  /** What holds before round n: psi is a shortest recurrence for the first n terms, and d is the
      last recurrence that failed, scaled and shifted so that it contributes 1 at index n. */
  ghost predicate RoundInv(psi: Coeffs, d: Coeffs, len: int, s: Coeffs, n: int) {
    && 0 <= len <= n
    && |psi| == |d| >= n + 2
    && Generates(psi, len, s, n)
    && Shortest(len, s, n)
    && d[0] == 0 && DegreeAtMost(d, n + 1 - len)
    && (forall m :: n + 1 - len <= m < n ==> Conv(d, s, m) == 0)
    && (len > 0 ==> Conv(d, s, n) == 1)
  }

  lemma RoundStart(psi: Coeffs, d: Coeffs, s: Coeffs)
    requires |psi| == |d| >= 2
    requires psi[0] == 1 && DegreeAtMost(psi, 0)
    requires d[0] == 0 && DegreeAtMost(d, 1)
    ensures RoundInv(psi, d, 0, s, 0)
  {}

  lemma ShorterPrefix(len: int, s: Coeffs, n: int)
    requires Shortest(len, s, n)
    ensures Shortest(len, s, n + 1)
  {
    hide Conv, DegreeAtMost, At;
    var next := n + 1;
    forall q: Coeffs, len': int | Generates(q, len', s, next) ensures len <= len' {
      assert Generates(q, len', s, n);
    }
  }

  lemma ShiftUpShape(d: Coeffs, e: int)
    requires |d| >= 2 && 0 <= e && DegreeAtMost(d, e)
    ensures |ShiftUp(d)| == |d| && ShiftUp(d)[0] == 0 && DegreeAtMost(ShiftUp(d), e + 1)
  {
    var t := ShiftUp(d);
    forall i | e + 1 < i < |t| && 0 <= i ensures t[i] == 0 { assert t[i] == d[i - 1]; }
  }

  /** No discrepancy: only the correction polynomial is shifted. */
  lemma RoundQuiet(psi: Coeffs, d: Coeffs, len: int, s: Coeffs, n: int)
    requires RoundInv(psi, d, len, s, n) && |d| >= n + 3
    requires Conv(psi, s, n) == 0
    ensures RoundInv(psi, ShiftUp(d), len, s, n + 1)
  {
    hide Conv, At, ShiftUp;
    ShiftUpShape(d, n + 1 - len);
    forall m ensures Conv(ShiftUp(d), s, m) == Conv(d, s, m - 1) { ConvShiftUp(d, s, m); }
    ShorterPrefix(len, s, n);
  }

  /** psi corrected by the scaled d. */
  ghost function Corrected(psi: Coeffs, d: Coeffs, delta: bv8): Coeffs
    requires |psi| == |d|
  {
    Sum(psi, Scale(delta, d))
  }

  lemma CorrectedConv(psi: Coeffs, d: Coeffs, delta: bv8, s: Coeffs, m: int)
    requires |psi| == |d|
    ensures Conv(Corrected(psi, d, delta), s, m) == Add(Conv(psi, s, m), Mul(delta, Conv(d, s, m)))
  {
    hide Add, Mul, Conv;
    ConvSum(psi, Scale(delta, d), s, m);
    ConvScale(delta, d, s, m);
  }

  /** With a discrepancy, the corrected polynomial predicts one more term at length max(len, n + 1 - len). */
  lemma CorrectedGenerates(psi: Coeffs, d: Coeffs, len: int, s: Coeffs, n: int, delta: bv8)
    requires RoundInv(psi, d, len, s, n)
    requires delta == Conv(psi, s, n) && delta != 0
    ensures Generates(Corrected(psi, d, delta), if len < n + 1 - len then n + 1 - len else len, s, n + 1)
  {
    hide Add, Mul, Conv;
    var q := Corrected(psi, d, delta);
    var len' := if len < n + 1 - len then n + 1 - len else len;
    assert At(q, 0) == 1 by { MulZero(delta, 0); AddZero(1); }
    forall i | len' < i < |q| && 0 <= i ensures q[i] == 0 {
      assert psi[i] == 0 && d[i] == 0;
      MulZero(delta, 0); AddZero(0);
    }
    forall m | len' <= m < n + 1 ensures Conv(q, s, m) == 0 {
      CorrectedConv(psi, d, delta, s, m);
      if m < n {
        MulZero(delta, 0); AddZero(0);
      } else {
        assert len > 0;
        MulOne(delta); AddZero(delta);
      }
    }
  }

  /** A discrepancy that the current length can absorb. */
  lemma RoundAbsorb(psi: Coeffs, d: Coeffs, len: int, s: Coeffs, n: int, delta: bv8)
    requires RoundInv(psi, d, len, s, n) && |d| >= n + 3
    requires delta == Conv(psi, s, n) && delta != 0 && len >= n + 1 - len
    ensures RoundInv(Corrected(psi, d, delta), ShiftUp(d), len, s, n + 1)
  {
    hide Conv, At, ShiftUp, Add, Mul;
    CorrectedGenerates(psi, d, len, s, n, delta);
    ShiftUpShape(d, n + 1 - len);
    forall m ensures Conv(ShiftUp(d), s, m) == Conv(d, s, m - 1) { ConvShiftUp(d, s, m); }
    ShorterPrefix(len, s, n);
  }

  /** A discrepancy that forces the recurrence to grow; the old one becomes the correction. */
  lemma RoundGrow(psi: Coeffs, d: Coeffs, len: int, s: Coeffs, n: int, delta: bv8)
    requires RoundInv(psi, d, len, s, n) && |d| >= n + 3
    requires delta == Conv(psi, s, n) && delta != 0 && len < n + 1 - len
    ensures RoundInv(Corrected(psi, d, delta), ShiftUp(Scale(Inv(delta), psi)), n + 1 - len, s, n + 1)
  {
    hide Conv, At, ShiftUp, Add, Mul, Inv;
    CorrectedGenerates(psi, d, len, s, n, delta);
    var c := Scale(Inv(delta), psi);
    forall i | len < i < |c| && 0 <= i ensures c[i] == 0 { MulZero(Inv(delta), 0); }
    ShiftUpShape(c, len);
    forall m ensures Conv(ShiftUp(c), s, m) == Mul(Inv(delta), Conv(psi, s, m - 1)) {
      ConvShiftUp(c, s, m);
      ConvScale(Inv(delta), psi, s, m - 1);
    }
    forall m | len + 1 <= m < n + 1 ensures Conv(ShiftUp(c), s, m) == 0 { MulZero(Inv(delta), 0); }
    MulInv(delta);
    var next := n + 1;
    forall q: Coeffs, len': int | Generates(q, len', s, next) ensures next - len <= len' {
      MasseyBound(psi, len, q, len', s, n);
    }
  }
}

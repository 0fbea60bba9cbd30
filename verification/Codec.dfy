/** The Reed-Solomon codec: logarithm tables, encoder, syndromes, Berlekamp-Massey, root search and
    in-place repair, over the codec's static arrays. */
module Codec {
  import opened Field
  import opened BitPoly
  import opened Poly
  import opened Massey
  import opened Locator
  import opened Word
  import opened Product
  import opened Division
  import opened Repair
  import opened Verdict
  import opened Decoding

  /** The number whose bits are p1 (lowest) to p8. */
  function Pack(p1: bv8, p2: bv8, p3: bv8, p4: bv8, p5: bv8, p6: bv8, p7: bv8, p8: bv8): bv8 {
    p1 + p2 * 2 + p3 * 4 + p4 * 8 + p5 * 16 + p6 * 32 + p7 * 64 + p8 * 128
  }

  lemma PackStep(p1: bv8, p2: bv8, p3: bv8, p4: bv8, p5: bv8, p6: bv8, p7: bv8, p8: bv8)
    requires p1 <= 1 && p2 <= 1 && p3 <= 1 && p4 <= 1 && p5 <= 1 && p6 <= 1 && p7 <= 1 && p8 <= 1
    ensures Pack(p8, p1, p2 ^ p8, p3 ^ p8, p4 ^ p8, p5, p6, p7) == Step(Pack(p1, p2, p3, p4, p5, p6, p7, p8))
  {}

  class Rscode {
    const gexp: array<bv8>
    const glog: array<int>
    const genPoly: array<bv8>
    const pBytes: array<bv8>
    const synBytes: array<bv8>
    const lambda: array<bv8>
    const omega: array<bv8>
    const errorLocs: array<int>
    var nErrors: nat

    /** The arrays have their declared sizes and do not overlap. */
    ghost predicate Shape() {
      && gexp.Length == 512 && glog.Length == 256 && errorLocs.Length == 256
      && genPoly.Length == 2 * MAXDEG
      && pBytes.Length == synBytes.Length == lambda.Length == omega.Length == MAXDEG
      && glog != errorLocs
      && IntArrays() !! ByteArrays()
      && gexp != genPoly && gexp != pBytes && gexp != synBytes && gexp != lambda && gexp != omega
      && genPoly != pBytes && genPoly != synBytes && genPoly != lambda && genPoly != omega
      && pBytes != synBytes && pBytes != lambda && pBytes != omega
      && synBytes != lambda && synBytes != omega && lambda != omega
    }

    /** The codec's own arrays; a caller's buffer is none of them. */
    ghost function Repr(): set<object> {
      IntArrays() + ByteArrays()
    }

    ghost function IntArrays(): set<object> {
      {glog, errorLocs}
    }

    ghost function ByteArrays(): set<object> {
      {gexp, genPoly, pBytes, synBytes, lambda, omega}
    }

    /** The tables hold the powers and the logarithms of alpha. */
    ghost predicate Tables()
      reads gexp, glog
    {
      && Shape()
      && (forall i :: 0 <= i < 511 ==> gexp[i] == Alpha(i))
      && (forall x: bv8 :: glog[Index(x)] == Log(x))
    }

    /** Allocates the static arrays, fills the tables and computes the generator. */
    constructor ()
      ensures Shape() && Ready() && fresh(Repr())
    {
      hide IsRemainder, IsGenerator, Alpha, Log, Index;
      gexp := new bv8[512](_ => 0);
      glog := new int[256](_ => 0);
      genPoly := new bv8[2 * MAXDEG](_ => 0);
      pBytes := new bv8[MAXDEG](_ => 0);
      synBytes := new bv8[MAXDEG](_ => 0);
      lambda := new bv8[MAXDEG](_ => 0);
      omega := new bv8[MAXDEG](_ => 0);
      errorLocs := new int[256](_ => 0);
      nErrors := 0;
      new;
      InitExpTable();
      ComputeGenpoly(NPAR, genPoly);
    }

    method InitExpTable()
      requires Shape()
      modifies gexp, glog
      ensures Tables()
      ensures gexp[0] == 1 && forall i :: 0 <= i < 510 ==> IsRemainder(gexp[i], 2, gexp[i + 1])
    {
      FillPowers();
      FillLogarithms();
    }

    /** Shifts the register p1..p8 once per table entry; every entry is the one before times x, reduced. */
    method FillPowers()
      requires Shape()
      modifies gexp
      ensures forall i :: 0 <= i < 511 ==> gexp[i] == Alpha(i)
      ensures gexp[0] == 1 && forall i :: 0 <= i < 510 ==> IsRemainder(gexp[i], 2, gexp[i + 1])
    {
      hide Step, Alpha, Pack, IsRemainder;
      var p1, p2, p3, p4, p5, p6, p7, p8: bv8 := 1, 0, 0, 0, 0, 0, 0, 0;
      gexp[0] := 1;
      gexp[255] := gexp[0];
      AlphaIter();
      PackStart();
      var i := 1;
      while i < 256
        invariant 1 <= i <= 256
        invariant p1 <= 1 && p2 <= 1 && p3 <= 1 && p4 <= 1 && p5 <= 1 && p6 <= 1 && p7 <= 1 && p8 <= 1
        invariant Pack(p1, p2, p3, p4, p5, p6, p7, p8) == Alpha(i - 1)
        invariant forall k :: 0 <= k < i ==> gexp[k] == Alpha(k)
        invariant forall k :: 255 <= k < i + 255 ==> gexp[k] == Alpha(k)
      {
        PackStep(p1, p2, p3, p4, p5, p6, p7, p8);
        AlphaNext(i - 1);
        XorBit(p4, p8); XorBit(p3, p8); XorBit(p2, p8);
        var pinit := p8;
        p8 := p7;
        p7 := p6;
        p6 := p5;
        p5 := p4 ^ pinit;
        p4 := p3 ^ pinit;
        p3 := p2 ^ pinit;
        p2 := p1;
        p1 := pinit;
        gexp[i] := Pack(p1, p2, p3, p4, p5, p6, p7, p8);
        AlphaMod(i + 255, i);
        gexp[i + 255] := gexp[i];
        i := i + 1;
      }
      AlphaStart();
      forall i | 0 <= i < 510 ensures IsRemainder(gexp[i], 2, gexp[i + 1]) { PowerRemainder(i); }
    }

    /** Inverts the power table by searching it for every nonzero byte. */
    method FillLogarithms()
      requires Shape()
      requires forall i :: 0 <= i < 511 ==> gexp[i] == Alpha(i)
      modifies glog
      ensures forall x: bv8 :: glog[Index(x)] == Log(x)
    {
      hide Alpha, Log, Index;
      glog[0] := 0;
      LogOfZero();
      var i := 1;
      forall x: bv8 ensures Index(x) == 0 <==> x == 0 { IndexZero(x); }
      while i < 256
        invariant 1 <= i <= 256
        invariant forall x: bv8 :: Index(x) < i ==> glog[Index(x)] == Log(x)
      {
        glog[i] := SearchPower(i);
        ghost var y: bv8 :| Index(y) == i && glog[i] == Log(y);
        forall x: bv8 | Index(x) < i + 1 ensures glog[Index(x)] == Log(x) {
          if Index(x) == i { IndexInjective(x, y); }
        }
        i := i + 1;
      }
    }

    /** The least exponent whose power of alpha has the value i. */
    method SearchPower(i: int) returns (z: int)
      requires Shape() && 0 < i < 256
      requires forall k :: 0 <= k < 511 ==> gexp[k] == Alpha(k)
      ensures exists y: bv8 :: Index(y) == i && z == Log(y)
    {
      hide Alpha, Log, Index;
      ValueCovered(i);
      ghost var k: nat :| k < 255 && Index(Iter(1, k)) == i;
      ghost var y := Iter(1, k);
      IndexZero(y);
      LogSpec(y);
      z := 0;
      while z < 256
        invariant 0 <= z <= Log(y)
      {
        if Index(gexp[z]) == i {
          IndexInjective(gexp[z], y);
          LogUnique(y, z);
          break;
        }
        z := z + 1;
      }
    }

    function GMult(a: bv8, b: bv8): (r: bv8)
      requires Tables()
      reads gexp, glog
      ensures r == Mul(a, b)
    {
      if a == 0 || b == 0 then 0
      else
        LogSpec(a); LogSpec(b);
        var i, j := glog[Index(a)], glog[Index(b)];
        gexp[i + j]
    }

    function GInv(elt: bv8): (r: bv8)
      requires Tables()
      reads gexp, glog
      ensures r == Inv(elt)
    {
      LogBound(elt);
      gexp[255 - glog[Index(elt)]]
    }

    // ----- polynomial arithmetic on arrays -----

    method ZeroPoly(poly: array<bv8>)
      requires poly.Length >= MAXDEG
      modifies poly
      ensures poly[..MAXDEG] == Zeros(MAXDEG)
      ensures poly[MAXDEG..] == old(poly[MAXDEG..])
    {
      for i := 0 to MAXDEG
        invariant forall k :: 0 <= k < i ==> poly[k] == 0
        invariant poly[MAXDEG..] == old(poly[MAXDEG..])
      {
        poly[i] := 0;
      }
    }

    method CopyPoly(dst: array<bv8>, src: array<bv8>)
      requires dst.Length >= MAXDEG && src.Length >= MAXDEG && dst != src
      modifies dst
      ensures dst[..MAXDEG] == src[..MAXDEG]
      ensures dst[MAXDEG..] == old(dst[MAXDEG..])
    {
      for i := 0 to MAXDEG
        invariant forall k :: 0 <= k < i ==> dst[k] == src[k]
        invariant dst[MAXDEG..] == old(dst[MAXDEG..])
      {
        dst[i] := src[i];
      }
    }

    /** Shifts the coefficients up by one; the last one falls off. */
    method MulZPoly(src: array<bv8>)
      requires src.Length == MAXDEG
      modifies src
      ensures src[..] == ShiftUp(old(src[..]))
    {
      var i := MAXDEG - 1;
      while i > 0
        invariant 0 <= i < MAXDEG
        invariant forall k :: 0 <= k <= i ==> src[k] == old(src[k])
        invariant forall k :: i < k < MAXDEG ==> src[k] == old(src[k - 1])
      {
        src[i] := src[i - 1];
        i := i - 1;
      }
      src[0] := 0;
    }

    /** The full product, by scaling, shifting and adding one row per coefficient of p1. */
    method MultPolys(dst: array<bv8>, p1: array<bv8>, p2: array<bv8>)
      requires Tables() && dst.Length == 2 * MAXDEG && p1.Length >= MAXDEG && p2.Length >= MAXDEG
      requires dst != p1 && dst != p2 && dst != gexp
      modifies dst
      ensures dst[..] == ProductOf(p1[..MAXDEG], p2[..MAXDEG], 2 * MAXDEG)
    {
      hide Add, Mul, Conv, Log, Alpha;
      var tmp1 := new bv8[2 * MAXDEG](_ => 0);
      ghost var p, q := p1[..MAXDEG], p2[..MAXDEG];
      for i := 0 to 2 * MAXDEG
        invariant forall k :: 0 <= k < i ==> dst[k] == 0
      {
        dst[i] := 0;
      }
      assert p[..0] == [];
      forall n ensures Conv(p[..0], q, n) == 0 { ConvZero([], q, n); }
      for i := 0 to MAXDEG
        invariant forall n :: 0 <= n < 2 * MAXDEG ==> dst[n] == Conv(p[..i], q, n)
        modifies dst, tmp1
      {
        ScaleAndShift(tmp1, p2, p1[i], i);
        label Added:
        for j := 0 to 2 * MAXDEG
          invariant forall n :: 0 <= n < j ==> dst[n] == Add(old@Added(dst[n]), tmp1[n])
          invariant forall n :: j <= n < 2 * MAXDEG ==> dst[n] == old@Added(dst[n])
          modifies dst
        {
          dst[j] := Add(dst[j], tmp1[j]);
        }
        assert p[..i + 1] == p[..i] + [p[i]];
        forall n | 0 <= n < 2 * MAXDEG ensures dst[n] == Conv(p[..i + 1], q, n) {
          ConvAppend(p[..i], p[i], q, n);
          MulComm(p[i], At(q, n - i));
        }
      }
      assert p[..MAXDEG] == p;
    }

    /** tmp := c * p2, shifted up by i. */
    method ScaleAndShift(tmp: array<bv8>, p2: array<bv8>, c: bv8, i: nat)
      requires Tables() && tmp.Length == 2 * MAXDEG && p2.Length >= MAXDEG && i < MAXDEG
      requires tmp != p2 && tmp != gexp
      modifies tmp
      ensures forall n :: 0 <= n < 2 * MAXDEG ==> tmp[n] == Mul(At(p2[..MAXDEG], n - i), c)
    {
      hide Add, Mul, Log, Alpha;
      ghost var q := p2[..MAXDEG];
      MulZero(0, c);
      for j := MAXDEG to 2 * MAXDEG
        invariant forall n :: MAXDEG <= n < j ==> tmp[n] == 0
      {
        tmp[j] := 0;
      }
      for j := 0 to MAXDEG
        invariant forall n :: 0 <= n < j ==> tmp[n] == Mul(At(q, n), c)
        invariant forall n :: MAXDEG <= n < 2 * MAXDEG ==> tmp[n] == 0
      {
        tmp[j] := GMult(p2[j], c);
      }
      assert forall n :: 0 <= n < 2 * MAXDEG ==> tmp[n] == Mul(At(q, n), c);
      ShiftBy(tmp, i);
      forall n | 0 <= n < 2 * MAXDEG ensures tmp[n] == Mul(At(q, n - i), c) { }
    }

    method ShiftBy(tmp: array<bv8>, i: nat)
      requires tmp.Length == 2 * MAXDEG && i < MAXDEG
      modifies tmp
      ensures forall n :: 0 <= n < 2 * MAXDEG ==> tmp[n] == if n < i then 0 else old(tmp[n - i])
    {
      var j := 2 * MAXDEG - 1;
      while j >= i
        invariant i - 1 <= j < 2 * MAXDEG
        invariant forall n :: 0 <= n <= j ==> tmp[n] == old(tmp[n])
        invariant forall n :: j < n < 2 * MAXDEG ==> tmp[n] == old(tmp[n - i])
      {
        tmp[j] := tmp[j - i];
        j := j - 1;
      }
      for k := 0 to i
        invariant forall n :: 0 <= n < k ==> tmp[n] == 0
        invariant forall n :: i <= n < 2 * MAXDEG ==> tmp[n] == old(tmp[n - i])
      {
        tmp[k] := 0;
      }
    }

    // ----- encoder -----

    method ComputeGenpoly(nbytes: nat, genpoly: array<bv8>)
      requires Tables() && 1 <= nbytes < MAXDEG && genpoly.Length == 2 * MAXDEG && genpoly != gexp
      modifies genpoly
      ensures IsGenerator(genpoly[..], nbytes)
    {
      hide Add, Mul, Eval, Log, Alpha;
      var tp := new bv8[256](_ => 0);
      var tp1 := new bv8[256](_ => 0);
      ZeroPoly(tp1);
      tp1[0] := 1;
      GeneratorStart(tp1[..MAXDEG]);
      for i := 1 to nbytes + 1
        invariant IsGenerator(tp1[..MAXDEG], i - 1)
        invariant i > 1 ==> IsGenerator(genpoly[..], i - 1)
        modifies tp, tp1, genpoly
      {
        ZeroPoly(tp);
        tp[0] := gexp[i];
        tp[1] := 1;
        GeneratorStep(tp[..MAXDEG], tp1[..MAXDEG], i);
        MultPolys(genpoly, tp, tp1);
        CopyPoly(tp1, genpoly);
        GeneratorPrefix(genpoly[..], tp1[..MAXDEG], i);
      }
    }

    lemma GeneratorStart(p: Coeffs)
      requires p == Zeros(MAXDEG)[0 := 1]
      ensures IsGenerator(p, 0)
    {
      hide Add, Mul, Eval;
      forall x: bv8 ensures Eval(p, x) == RootProduct(0, x) {
        EvalSame(p, [1], x);
        EvalConstant(1, x);
      }
    }

    lemma GeneratorStep(t: Coeffs, p: Coeffs, i: nat)
      requires 1 <= i < MAXDEG && |p| == MAXDEG && IsGenerator(p, i - 1)
      requires t == Zeros(MAXDEG)[0 := Alpha(i)][1 := 1]
      ensures IsGenerator(ProductOf(t, p, 2 * MAXDEG), i)
    {
      hide Add, Mul, Eval, Conv, Alpha, RootProduct;
      var g, l := ProductOf(t, p, 2 * MAXDEG), [Alpha(i), 1];
      assert Same(t, l);
      forall n: nat | n < 2 * MAXDEG
        ensures n > i ==> g[n] == 0
        ensures n == i ==> g[n] == 1
      {
        ConvSame(t, l, p, n);
        ConvLinearMonic(Alpha(i), p, i - 1, n);
      }
      forall x: bv8 ensures Eval(g, x) == RootProduct(i, x) {
        EvalProduct(t, p, 2 * MAXDEG, x);
        EvalSame(t, l, x);
        EvalLinear(Alpha(i), x);
        RootProductStep(i, x);
      }
    }

    lemma GeneratorPrefix(g: Coeffs, p: Coeffs, i: nat)
      requires i < MAXDEG && |g| == 2 * MAXDEG && p == g[..MAXDEG] && IsGenerator(g, i)
      ensures IsGenerator(p, i)
    {
      hide Eval, RootProduct;
      forall x: bv8 ensures Eval(p, x) == RootProduct(i, x) { EvalSame(p, g, x); }
    }

    /** The tables are filled and genPoly is the generator of the code. */
    ghost predicate Ready()
      reads gexp, glog, genPoly
    {
      Tables() && IsGenerator(genPoly[..], NPAR)
    }

    /** Appends the parity bytes, highest coefficient first, to the message. */
    method BuildCodeword(msg: seq<bv8>, dst: array<bv8>)
      requires Shape() && |msg| + NPAR <= dst.Length && dst !in Repr()
      modifies dst
      ensures dst[..|msg| + NPAR] == msg + Reversed(pBytes[..NPAR])
      ensures dst[|msg| + NPAR..] == old(dst[|msg| + NPAR..])
    {
      var n := |msg|;
      for i := 0 to n
        invariant forall k :: 0 <= k < i ==> dst[k] == msg[k]
        invariant forall k :: i <= k < dst.Length ==> dst[k] == old(dst[k])
      {
        dst[i] := msg[i];
      }
      for i := 0 to NPAR
        invariant forall k :: 0 <= k < n ==> dst[k] == msg[k]
        invariant forall k :: n <= k < n + i ==> dst[k] == pBytes[NPAR - 1 - (k - n)]
        invariant forall k :: n + i <= k < dst.Length ==> dst[k] == old(dst[k])
      {
        dst[i + n] := pBytes[NPAR - 1 - i];
      }
    }

    /** Appends the remainder of the division by the generator, so that the result is a code word. */
    method EncodeData(msg: seq<bv8>, dst: array<bv8>)
      requires Ready() && |msg| + NPAR <= dst.Length
      requires dst !in Repr()
      modifies pBytes, dst
      ensures dst[..|msg|] == msg && IsCodeword(dst[..|msg| + NPAR])
      ensures dst[|msg|..|msg| + NPAR] == Reversed(pBytes[..NPAR])
      ensures dst[|msg| + NPAR..] == old(dst[|msg| + NPAR..])
    {
      hide Alpha, Log, IsDivision, IsGenerator, IsCodeword;
      ghost var quot := ComputeParity(msg);
      SystematicCodeword(msg, genPoly[..], quot, pBytes[..NPAR]);
      BuildCodeword(msg, dst);
      assert dst[..|msg|] == dst[..|msg| + NPAR][..|msg|];
    }

    /** Runs the shift register over the message: the parity bytes are the remainder of
        msg * x^NPAR divided by the generator. */
    method ComputeParity(msg: seq<bv8>) returns (ghost quot: seq<bv8>)
      requires Ready()
      modifies pBytes
      ensures IsDivision(msg, genPoly[..], quot, pBytes[..NPAR])
    {
      hide Add, Mul, Alpha, Log, IsDivision, IsGenerator, Shifted;
      var lfsr := new bv8[NPAR + 1](_ => 0);
      ghost var g := genPoly[..];
      quot := [];
      DivisionStart(g);
      GeneratorMonic(g);
      assert lfsr[..NPAR] == Zeros(NPAR);
      assert msg[..0] == [];
      for i := 0 to |msg|
        invariant IsDivision(msg[..i], g, quot, lfsr[..NPAR])
        modifies lfsr
      {
        var dbyte := Add(msg[i], lfsr[NPAR - 1]);
        ghost var reg := lfsr[..NPAR];
        ShiftRegister(lfsr, dbyte);
        assert lfsr[..NPAR] == Shifted(reg, g, msg[i]) by {
          ShiftedAt(reg, g, msg[i]);
        }
        DivisionStep(msg[..i], g, quot, reg, msg[i]);
        assert msg[..i + 1] == msg[..i] + [msg[i]];
        quot := quot + [dbyte];
      }
      assert msg[..|msg|] == msg;
      ghost var rem := lfsr[..NPAR];
      for i := 0 to NPAR
        invariant forall k :: 0 <= k < i ==> pBytes[k] == lfsr[k]
        invariant lfsr[..NPAR] == rem
        modifies pBytes
      {
        pBytes[i] := lfsr[i];
      }
      assert pBytes[..NPAR] == rem;
    }

    method ShiftRegister(lfsr: array<bv8>, dbyte: bv8)
      requires Ready() && lfsr.Length == NPAR + 1 && lfsr != gexp && lfsr != genPoly
      modifies lfsr
      ensures lfsr[0] == Mul(genPoly[0], dbyte)
      ensures forall k :: 1 <= k < NPAR ==> lfsr[k] == Add(old(lfsr[k - 1]), Mul(genPoly[k], dbyte))
    {
      hide Add, Mul, IsGenerator, Alpha, Log;
      assert Tables() && genPoly.Length == 2 * MAXDEG;
      hide Rscode.Ready, Rscode.Tables, Rscode.Shape;
      ghost var before := lfsr[..];
      var j := NPAR - 1;
      while j > 0
        invariant 0 <= j < NPAR && Tables()
        invariant forall k :: 0 <= k <= j ==> lfsr[k] == before[k]
        invariant forall k :: j < k < NPAR ==> lfsr[k] == Add(before[k - 1], Mul(genPoly[k], dbyte))
        modifies lfsr
      {
        var next := Add(lfsr[j - 1], GMult(genPoly[j], dbyte));
        assert next == Add(before[j - 1], Mul(genPoly[j], dbyte));
        lfsr[j] := next;
        j := j - 1;
      }
      lfsr[0] := GMult(genPoly[0], dbyte);
    }

    lemma ShiftedAt(reg: Coeffs, g: Coeffs, c: bv8)
      requires |reg| == NPAR && |g| >= NPAR
      ensures var d := Add(c, reg[NPAR - 1]);
        && |Shifted(reg, g, c)| == NPAR
        && Shifted(reg, g, c)[0] == Mul(g[0], d)
        && forall k :: 1 <= k < NPAR ==> Shifted(reg, g, c)[k] == Add(reg[k - 1], Mul(g[k], d))
    {
      hide Add, Mul;
      var d := Add(c, reg[NPAR - 1]);
      MulComm(d, g[0]); AddZero(Mul(g[0], d));
      forall k | 1 <= k < NPAR ensures Shifted(reg, g, c)[k] == Add(reg[k - 1], Mul(g[k], d)) { MulComm(d, g[k]); }
    }

    // ----- syndromes -----

    /** Evaluates the n bytes of data from off at alpha^1 .. alpha^NPAR. */
    method DecodeData(data: array<bv8>, off: nat, n: nat)
      requires Tables() && off + n <= data.Length && data !in Repr()
      modifies synBytes
      ensures synBytes[..NPAR] == SyndromeOf(data[off..off + n])
      ensures synBytes[NPAR..] == old(synBytes[NPAR..])
    {
      hide Add, Mul, Horner, Alpha, Log;
      ghost var w := data[off..off + n];
      for j := 0 to NPAR
        invariant forall k :: 0 <= k < j ==> synBytes[k] == Horner(w, Alpha(k + 1))
        invariant synBytes[NPAR..] == old(synBytes[NPAR..])
        modifies synBytes
      {
        var sum: bv8 := 0;
        HornerEmpty(Alpha(j + 1));
        assert w[..0] == [];
        for i := 0 to n
          invariant sum == Horner(w[..i], Alpha(j + 1))
          modifies {}
        {
          assert w[i] == data[off + i];
          sum := Add(data[off + i], GMult(gexp[j + 1], sum));
          HornerLast(w[..i], w[i], Alpha(j + 1));
          assert w[..i + 1] == w[..i] + [w[i]];
        }
        assert w[..n] == w;
        synBytes[j] := sum;
      }
    }

    /** 1 when some syndrome byte is not zero. */
    method CheckSyndrome() returns (nz: int)
      requires Shape()
      ensures nz == 0 || nz == 1
      ensures nz == 0 <==> forall k :: 0 <= k < NPAR ==> synBytes[k] == 0
    {
      nz := 0;
      var i := 0;
      while i < NPAR
        invariant 0 <= i <= NPAR && nz == 0
        invariant forall k :: 0 <= k < i ==> synBytes[k] == 0
      {
        if synBytes[i] != 0 {
          nz := 1;
          break;
        }
        i := i + 1;
      }
    }

    // ----- Berlekamp-Massey -----

    method ComputeDiscrepancy(psi: array<bv8>, len: nat, n: nat) returns (sum: bv8)
      requires Tables() && psi.Length == MAXDEG && len <= n < NPAR
      requires DegreeAtMost(psi[..], len)
      ensures sum == Conv(psi[..], synBytes[..NPAR], n)
    {
      hide Add, Mul, Conv, Alpha, Log;
      ghost var p, s := psi[..], synBytes[..NPAR];
      sum := 0;
      assert p[..0] == [];
      ConvZero(p[..0], s, n);
      for i := 0 to len + 1
        invariant sum == Conv(p[..i], s, n)
      {
        ConvAppend(p[..i], p[i], s, n);
        assert p[..i + 1] == p[..i] + [p[i]];
        sum := Add(sum, GMult(psi[i], synBytes[n - i]));
      }
      ConvSame(p[..len + 1], p, s, n);
    }

    /** dst := psi + delta * d. */
    method CorrectPsi(dst: array<bv8>, psi: array<bv8>, delta: bv8, d: array<bv8>)
      requires Tables() && dst.Length == psi.Length == d.Length == MAXDEG
      requires dst != psi && dst != d && dst != gexp
      modifies dst
      ensures dst[..] == Corrected(psi[..], d[..], delta)
    {
      hide Add, Mul, Alpha, Log;
      for i := 0 to MAXDEG
        invariant forall k :: 0 <= k < i ==> dst[k] == Add(psi[k], Mul(delta, d[k]))
      {
        dst[i] := Add(psi[i], GMult(delta, d[i]));
      }
    }

    /** dst := psi / delta. */
    method ScaleByInverse(dst: array<bv8>, psi: array<bv8>, delta: bv8)
      requires Tables() && dst.Length == psi.Length == MAXDEG && dst != psi && dst != gexp
      modifies dst
      ensures dst[..] == Scale(Inv(delta), psi[..])
    {
      hide Add, Mul, Inv, Alpha, Log;
      for i := 0 to MAXDEG
        invariant forall k :: 0 <= k < i ==> dst[k] == Mul(Inv(delta), psi[k])
      {
        MulComm(psi[i], Inv(delta));
        dst[i] := GMult(psi[i], GInv(delta));
      }
    }

    /** Leaves in lambda a shortest recurrence for the syndrome bytes, and in omega its evaluator. */
    method ModifiedBerlekampMassey()
      requires Tables()
      modifies lambda, omega
      ensures lambda[..] == LocatorFound(synBytes[..NPAR]) && omega[..] == EvaluatorFound(synBytes[..NPAR])
      ensures IsKeySolution(lambda[..], omega[..], synBytes[..NPAR])
    {
      hide Conv, Alpha, Log, Generates, Shortest, RoundInv, NextRegister;
      var psi := new bv8[MAXDEG](_ => 0);
      var psi2 := new bv8[MAXDEG](_ => 0);
      var d := new bv8[MAXDEG](_ => 0);
      ghost var s := synBytes[..NPAR];
      StartPolys(psi, d, s);
      var k: int, len: int := -1, 0;
      for n := 0 to NPAR
        invariant k == len - 1 && 0 <= len
        invariant RoundInv(psi[..], d[..], len, s, n)
        invariant Register(psi[..], d[..], len) == RegisterAt(s, n)
        modifies psi, psi2, d
      {
        k, len := Round(psi, psi2, d, n, k, len);
      }
      InvResult(psi[..], d[..], len, s);
      hide RegisterAt;
      CopyPoly(lambda, psi);
      assert lambda[..] == lambda[..MAXDEG] == psi[..MAXDEG] == psi[..];
      ComputeModifiedOmega();
      assert lambda[..] == LocatorFound(s);
    }

    /** psi := 1 and d := z (no erasures are known). */
    method StartPolys(psi: array<bv8>, d: array<bv8>, ghost s: Coeffs)
      requires psi.Length == d.Length == MAXDEG && psi != d
      modifies psi, d
      ensures RoundInv(psi[..], d[..], 0, s, 0)
      ensures Register(psi[..], d[..], 0) == RegisterAt(s, 0)
    {
      hide Conv;
      var gamma := new bv8[MAXDEG](_ => 0);
      ZeroPoly(gamma);
      gamma[0] := 1;
      CopyPoly(d, gamma);
      assert d[..] == d[..MAXDEG] == gamma[..MAXDEG] == gamma[..];
      ShiftUpShape(gamma[..], 0);
      MulZPoly(d);
      CopyPoly(psi, gamma);
      assert psi[..] == psi[..MAXDEG] == gamma[..] == One();
      RoundStart(psi[..], d[..], s);
    }

    /** Round n: measures the discrepancy, corrects psi, grows the recurrence if it has to, and
        shifts the correction polynomial. */
    method Round(psi: array<bv8>, psi2: array<bv8>, d: array<bv8>, n: nat, k: int, len: nat)
      returns (k': int, len': nat)
      requires Tables() && psi.Length == psi2.Length == d.Length == MAXDEG && n < NPAR
      requires psi != psi2 && psi != d && psi2 != d && psi != gexp && psi2 != gexp && d != gexp
      requires psi != synBytes && psi2 != synBytes && d != synBytes
      requires k == len - 1 && RoundInv(psi[..], d[..], len, synBytes[..NPAR], n)
      modifies psi, psi2, d
      ensures k' == len' - 1 && RoundInv(psi[..], d[..], len', synBytes[..NPAR], n + 1)
      ensures Register(psi[..], d[..], len') == NextRegister(Register(old(psi[..]), old(d[..]), len), synBytes[..NPAR], n)
    {
      hide Add, Mul, Inv, Conv, Alpha, Log, Corrected, ShiftUp, Scale, RoundInv;
      ghost var p, e, s := psi[..], d[..], synBytes[..NPAR];
      k', len' := k, len;
      RoundDegree(p, e, len, s, n);
      var delta := ComputeDiscrepancy(psi, len, n);
      if delta != 0 {
        CorrectPsi(psi2, psi, delta, d);
        if len < n - k {
          len' := n - k;
          k' := n - len;
          ScaleByInverse(d, psi, delta);
          RoundGrow(p, e, len, s, n, delta);
        } else {
          RoundAbsorb(p, e, len, s, n, delta);
        }
        CopyPoly(psi, psi2);
        assert psi[..] == psi[..MAXDEG] == psi2[..MAXDEG] == psi2[..];
      } else {
        RoundQuiet(p, e, len, s, n);
      }
      MulZPoly(d);
    }

    lemma RoundDegree(psi: Coeffs, d: Coeffs, len: int, s: Coeffs, n: int)
      requires RoundInv(psi, d, len, s, n)
      ensures len <= n && DegreeAtMost(psi, len)
    {}

    /** omega := the first NPAR coefficients of lambda * syndrome. */
    method ComputeModifiedOmega()
      requires Tables()
      modifies omega
      ensures forall i :: 0 <= i < MAXDEG ==>
        omega[i] == if i < NPAR then Conv(lambda[..], synBytes[..NPAR], i) else 0
    {
      hide Conv, Alpha, Log;
      var product := new bv8[2 * MAXDEG](_ => 0);
      MultPolys(product, lambda, synBytes);
      ZeroPoly(omega);
      ghost var lam := lambda[..];
      assert lambda[..MAXDEG] == lam && synBytes[..MAXDEG] == synBytes[..];
      forall i | 0 <= i < NPAR ensures product[i] == Conv(lam, synBytes[..NPAR], i) {
        ConvPrefix(lam, synBytes[..], synBytes[..NPAR], i);
      }
      assert omega[..] == omega[..MAXDEG];
      for i := 0 to NPAR
        invariant forall k :: 0 <= k < i ==> omega[k] == product[k]
        invariant forall k :: i <= k < MAXDEG ==> omega[k] == 0
        modifies omega
      {
        omega[i] := product[i];
      }
    }

    // ----- roots and error values -----

    /** The value of lambda at alpha^r, from the powers in the table. */
    method LambdaAt(r: nat) returns (sum: bv8)
      requires Tables() && r < 256 && DegreeAtMost(lambda[..], NPAR)
      ensures sum == Eval(lambda[..], Alpha(r))
    {
      hide Add, Mul, Eval, Alpha, Log, Power;
      ghost var p, x := lambda[..], Alpha(r);
      sum := 0;
      EvalZero(p[..0], x);
      for k := 0 to NPAR + 1
        invariant sum == Eval(p[..k], x)
      {
        EvalAppend(p[..k], p[k], x);
        assert p[..k + 1] == p[..k] + [p[k]];
        PowerAlpha(r, k);
        AlphaMod((k * r) % 255, r * k);
        MulComm(p[k], Alpha(r * k));
        sum := Add(sum, GMult(gexp[(k * r) % 255], lambda[k]));
      }
      EvalSame(p[..NPAR + 1], p, x);
    }

    /** Collects the error locations, largest first. */
    method FindRoots()
      requires Tables() && DegreeAtMost(lambda[..], NPAR)
      modifies this`nErrors, errorLocs
      ensures nErrors <= 255
      ensures forall i, j :: 0 <= i < j < nErrors ==> errorLocs[i] != errorLocs[j]
      ensures forall loc :: loc in errorLocs[..nErrors] <==> IsRoot(lambda[..], loc)
    {
      hide Eval, Alpha, Log, IsRoot, DegreeAtMost;
      assert Tables() && errorLocs != glog && errorLocs.Length == 256 && lambda.Length == MAXDEG;
      hide Rscode.Tables, Rscode.Shape;
      nErrors := 0;
      ghost var p := lambda[..];
      forall loc ensures IsRoot(p, loc) ==> 0 <= loc < 255 { RootRange(p, loc); }
      for r := 1 to 256
        invariant nErrors < r && Tables()
        invariant forall i :: 0 <= i < nErrors ==> 255 - r < errorLocs[i] < 255
        invariant forall i, j :: 0 <= i < j < nErrors ==> errorLocs[i] != errorLocs[j]
        invariant forall loc :: loc in errorLocs[..nErrors] <==> 255 - r < loc && IsRoot(p, loc)
        modifies this`nErrors, errorLocs
      {
        var sum := LambdaAt(r);
        RootAt(p, r);
        ghost var found := errorLocs[..nErrors];
        if sum == 0 {
          errorLocs[nErrors] := 255 - r;
          nErrors := nErrors + 1;
          assert errorLocs[..nErrors] == found + [255 - r];
        }
        forall loc ensures loc in errorLocs[..nErrors] <==> 255 - (r + 1) < loc && IsRoot(p, loc) {
          RootRange(p, loc);
        }
      }
      forall loc ensures loc in errorLocs[..nErrors] <==> IsRoot(p, loc) { RootRange(p, loc); }
    }

    /** The value of omega at the inverse of location i. */
    method OmegaAt(i: int) returns (num: bv8)
      requires Tables() && 0 <= i < 255
      ensures num == Eval(omega[..], Alpha(-i))
    {
      hide Add, Mul, Eval, Alpha, Log, Power;
      ghost var p, x := omega[..], Alpha(-i);
      num := 0;
      EvalZero(p[..0], x);
      for j := 0 to MAXDEG
        invariant num == Eval(p[..j], x)
      {
        EvalAppend(p[..j], p[j], x);
        assert p[..j + 1] == p[..j] + [p[j]];
        InversePower(i, j);
        num := Add(num, GMult(omega[j], gexp[((255 - i) * j) % 255]));
      }
      assert p[..MAXDEG] == p;
    }

    /** The derivative of lambda at the inverse of location i: the odd coefficients only. */
    method SlopeAt(i: int) returns (denom: bv8)
      requires Tables() && 0 <= i < 255
      ensures denom == Slope(lambda[..], Alpha(-i))
    {
      hide Add, Mul, Slope, Alpha, Log, Power;
      ghost var p, x := lambda[..], Alpha(-i);
      denom := 0;
      SlopeWhole(p, x);
      var j := 1;
      while j < MAXDEG
        invariant 1 <= j <= MAXDEG + 1 && j % 2 == 1
        invariant Slope(p, x) == Add(denom, Mul(Power(x, j - 1), Slope(p[j - 1..], x)))
      {
        SlopeStep(p, x, j, denom);
        InversePower(i, j - 1);
        denom := Add(denom, GMult(lambda[j], gexp[((255 - i) * (j - 1)) % 255]));
        j := j + 2;
      }
      SlopeEnd(p, x, denom);
    }

    /** Repairs csize bytes in place, starting at off: they become what decoding makes of them, and the result
        is 1 if they are correctable. Whether that is a code word is known from the roots. */
    method CorrectErrors(codeword: array<bv8>, off: nat, csize: nat) returns (status: int)
      requires Tables() && off + csize <= codeword.Length && csize <= 255
      requires codeword !in Repr()
      requires synBytes[..NPAR] == SyndromeOf(codeword[off..off + csize])
      modifies this`nErrors, errorLocs, lambda, omega, codeword
      ensures status == if Correctable(LocatorFound(synBytes[..NPAR]), csize) then 1 else 0
      ensures codeword[off..off + csize] == Repaired(old(codeword[off..off + csize]))
      ensures codeword[..off] == old(codeword[..off]) && codeword[off + csize..] == old(codeword[off + csize..])
      ensures Corrects(old(codeword[off..off + csize]), codeword[off..off + csize], status)
      ensures status == 0 ==> codeword[..] == old(codeword[..])
      ensures lambda[..] == LocatorFound(synBytes[..NPAR]) && omega[..] == EvaluatorFound(synBytes[..NPAR])
      ensures IsKeySolution(lambda[..], omega[..], synBytes[..NPAR])
      ensures nErrors <= NPAR && forall i, j :: 0 <= i < j < nErrors ==> errorLocs[i] != errorLocs[j]
      ensures forall loc :: loc in errorLocs[..nErrors] <==> IsRoot(lambda[..], loc)
      ensures status == 1 ==>
        (IsCodeword(codeword[off..off + csize]) <==> Generates(lambda[..], nErrors, synBytes[..NPAR], NPAR))
    {
      hide Alpha, Log, IsKeySolution, IsRoot, InRadius, RepairedByte, SyndromeOf, IsCodeword, Generates, Correctable, LocatorFound, EvaluatorFound, Repaired;
      ghost var before := codeword[..];
      ghost var w := before[off..off + csize];
      assert codeword[off..off + csize] == w;
      ModifiedBerlekampMassey();
      KeySolutionDegree(lambda[..], omega[..], synBytes[..NPAR]);
      FindRoots();
      assert forall k :: 0 <= k < codeword.Length ==> codeword[k] == before[k];
      assert codeword[..] == before && codeword[off..off + csize] == w;
      ghost var lam, om, locs := lambda[..], omega[..], errorLocs[..nErrors];
      FewRoots(lam, om, SyndromeOf(w), locs);
      RadiusRepaired(w);
      if 0 < nErrors <= NPAR {
        assert IsRoot(lam, locs[0]) by { assert locs[0] in locs; }
        for r := 0 to nErrors
          invariant forall i :: 0 <= i < r ==> errorLocs[i] < csize
          modifies {}
        {
          if errorLocs[r] >= csize {
            OutsideRoot(lam, csize, locs, r, w);
            return 0;
          }
        }
        RootsInside(lam, csize, locs);
        RepairBytes(codeword, off, csize);
        RepairedIs(w, codeword[off..off + csize]);
        ResultIsCodeword(w, codeword[off..off + csize], lam, om, locs);
        return 1;
      }
      NoRoots(lam, csize, locs, w);
      return 0;
    }

    /** The error value at location i. */
    method ErrorAt(i: int) returns (err: bv8)
      requires Tables() && 0 <= i < 255
      ensures err == ValueAt(lambda[..], omega[..], i)
    {
      hide Eval, Slope, Alpha, Log, Mul, Inv;
      var num := OmegaAt(i);
      var denom := SlopeAt(i);
      err := GMult(num, GInv(denom));
    }

    /** Adds the error value at every location found. */
    method RepairBytes(codeword: array<bv8>, off: nat, csize: nat)
      requires Tables() && off + csize <= codeword.Length && csize <= 255 && nErrors <= 255
      requires codeword !in Repr()
      requires forall i :: 0 <= i < nErrors ==> errorLocs[i] < csize
      requires forall i, j :: 0 <= i < j < nErrors ==> errorLocs[i] != errorLocs[j]
      requires forall loc :: loc in errorLocs[..nErrors] <==> IsRoot(lambda[..], loc)
      modifies codeword
      ensures codeword[..off] == old(codeword[..off]) && codeword[off + csize..] == old(codeword[off + csize..])
      ensures forall k :: off <= k < off + csize ==>
        codeword[k] == RepairedByte(old(codeword[off..off + csize]), lambda[..], omega[..], k - off)
    {
      hide Add, Alpha, Log, IsRoot, ValueAt;
      ghost var w, lam, om := codeword[off..off + csize], lambda[..], omega[..];
      ghost var locs := errorLocs[..nErrors];
      ghost var end := off + csize;
      for r := 0 to nErrors
        invariant lambda[..] == lam && omega[..] == om && errorLocs[..nErrors] == locs
        invariant forall k :: 0 <= k < off || end <= k < codeword.Length ==> codeword[k] == old(codeword[k])
        invariant forall k :: off <= k < end ==>
          codeword[k] == if Location(end, k) in locs[..r]
            then Add(w[k - off], ValueAt(lam, om, Location(end, k))) else w[k - off]
        modifies codeword
      {
        var i := errorLocs[r];
        assert locs[r] == i && i in locs;
        RootRange(lam, i);
        var err := ErrorAt(i);
        NotEarlier(locs, r);
        assert Location(end, end - i - 1) == i;
        codeword[off + csize - i - 1] := Add(codeword[off + csize - i - 1], err);
      }
      assert locs[..nErrors] == locs;
    }
  }

  lemma RootProductStep(i: nat, x: bv8)
    requires i > 0
    ensures RootProduct(i, x) == Mul(Add(x, Alpha(i)), RootProduct(i - 1, x))
  {}

  lemma PackStart()
    ensures Pack(1, 0, 0, 0, 0, 0, 0, 0) == 1
  {}

  lemma XorBit(a: bv8, b: bv8)
    requires a <= 1 && b <= 1
    ensures a ^ b <= 1
  {}

  lemma AlphaIter()
    ensures Alpha(0) == 1 && Alpha(255) == 1
  {
    AlphaMod(255, 0);
  }

  lemma AlphaNext(k: nat)
    ensures Alpha(k + 1) == Step(Alpha(k))
  {
    hide Step;
    Period(k); Period(k + 1);
  }

  lemma LogOfZero()
    ensures Log(0) == 0
  {}

  lemma LogBound(x: bv8)
    ensures Log(x) < 255
  {
    hide Alpha;
    if x != 0 { LogSpec(x); }
  }

  lemma NotEarlier(xs: seq<int>, r: nat)
    requires r < |xs| && forall i, j :: 0 <= i < j < |xs| ==> xs[i] != xs[j]
    ensures xs[r] !in xs[..r] && xs[..r + 1] == xs[..r] + [xs[r]]
  {}

  /** The location of the byte at index k of a word ending before end. */
  function Location(end: nat, k: int): int {
    end - 1 - k
  }

  lemma RootAt(p: Coeffs, r: nat)
    requires 1 <= r < 256
    ensures IsRoot(p, 255 - r) <==> Eval(p, Alpha(r)) == 0
  {
    hide Alpha, Eval;
    AlphaMod(-(255 - r), r);
  }

  lemma RootRange(p: Coeffs, loc: int)
    ensures IsRoot(p, loc) ==> 0 <= loc < 255
  {}

  lemma InversePower(i: int, j: nat)
    requires 0 <= i < 255
    ensures Power(Alpha(-i), j) == Alpha(((255 - i) * j) % 255)
  {
    hide Alpha, Power;
    PowerAlpha(-i, j);
    Complement(i, j);
    Turns(j, -i * j);
    AlphaMod(((255 - i) * j) % 255, -i * j);
  }

  lemma Complement(i: int, j: int)
    ensures (255 - i) * j == 255 * j + -i * j
  {}

  lemma Turns(k: int, x: int)
    ensures (255 * k + x) % 255 == x % 255
  {
    var v := 255 * k + x;
    RemainderUnique(255, v / 255, v % 255, k + x / 255, x % 255);
  }

  lemma SlopeWhole(p: Coeffs, x: bv8)
    ensures Slope(p, x) == Add(0, Mul(Power(x, 0), Slope(p[0..], x)))
  {
    hide Add, Mul, Slope;
    assert p[0..] == p;
    MulOne(Slope(p, x)); AddZero(Slope(p, x));
  }

  lemma SlopeStep(p: Coeffs, x: bv8, j: nat, sum: bv8)
    requires 1 <= j < |p|
    ensures Add(sum, Mul(Power(x, j - 1), Slope(p[j - 1..], x)))
         == Add(Add(sum, Mul(p[j], Power(x, j - 1))), Mul(Power(x, j + 1), Slope(p[j + 1..], x)))
  {
    hide Add, Mul, Slope;
    var t, y := p[j - 1..], Power(x, j - 1);
    var s := Slope(p[j + 1..], x);
    assert t[2..] == p[j + 1..] && t[1] == p[j];
    SlopeTwo(t, x);
    MulDistrib(p[j], Mul(Mul(x, x), s), y); MulComm(y, p[j]);
    MulAssoc(y, Mul(x, x), s); MulComm(y, Mul(x, x)); MulAssoc(x, x, y);
    assert Power(x, j + 1) == Mul(x, Power(x, j));
    AddAssoc(sum, Mul(p[j], y), Mul(Power(x, j + 1), s));
  }

  lemma SlopeEnd(p: Coeffs, x: bv8, sum: bv8)
    requires |p| == MAXDEG && Slope(p, x) == Add(sum, Mul(Power(x, MAXDEG), Slope(p[MAXDEG..], x)))
    ensures Slope(p, x) == sum
  {
    hide Add, Mul, Slope, Power;
    EvalZero(p[MAXDEG..], x);
    MulZero(Power(x, MAXDEG), 0); AddZero(sum);
  }

  /** The located roots are no more than the parity bytes, so the program's test for that never fails. */
  lemma FewRoots(lam: Coeffs, om: Coeffs, s: Coeffs, locs: seq<int>)
    requires IsKeySolution(lam, om, s)
    requires forall i, j :: 0 <= i < j < |locs| ==> locs[i] != locs[j]
    requires forall loc :: loc in locs <==> IsRoot(lam, loc)
    ensures |locs| <= NPAR
  {
    hide IsRoot, Shortest, Conv;
    var len: nat :| len <= NPAR && Generates(lam, len, s, NPAR) && Shortest(len, s, NPAR);
    forall i | 0 <= i < |locs| ensures IsRoot(lam, locs[i]) { assert locs[i] in locs; }
    RootsAtMost(lam, len, locs);
  }

  lemma RadiusRepaired(w: seq<bv8>)
    requires |w| <= 255
    ensures forall c :: InRadius(c, w) ==> Correctable(LocatorFound(SyndromeOf(w)), |w|) && Repaired(w) == c
  {
    hide SyndromeOf, LocatorFound, EvaluatorFound, Repaired, Correctable, IsCodeword, Distance, IsKeySolution;
    forall c | InRadius(c, w)
      ensures Correctable(LocatorFound(SyndromeOf(w)), |w|) && Repaired(w) == c
    {
      FoundIsKey(SyndromeOf(w));
      InRadiusCorrectable(c, w, LocatorFound(SyndromeOf(w)), EvaluatorFound(SyndromeOf(w)));
      RepairedInRadius(c, w);
    }
  }

  lemma RepairedIs(w: seq<bv8>, v: seq<bv8>)
    requires |v| == |w| && Correctable(LocatorFound(SyndromeOf(w)), |w|)
    requires forall i :: 0 <= i < |w| ==>
      v[i] == RepairedByte(w, LocatorFound(SyndromeOf(w)), EvaluatorFound(SyndromeOf(w)), i)
    ensures v == Repaired(w)
  {
    hide RepairedByte, LocatorFound, EvaluatorFound, SyndromeOf, Correctable;
  }

  lemma OutsideRoot(lam: Coeffs, size: nat, locs: seq<int>, r: nat, w: seq<bv8>)
    requires r < |locs| && locs[r] >= size && forall loc :: loc in locs <==> IsRoot(lam, loc)
    requires |w| == size && lam == LocatorFound(SyndromeOf(w))
    ensures !Correctable(lam, size) && Repaired(w) == w
  {
    hide IsRoot, LocatorFound, EvaluatorFound, SyndromeOf, RepairedByte;
    assert locs[r] in locs;
  }

  lemma NoRoots(lam: Coeffs, size: nat, locs: seq<int>, w: seq<bv8>)
    requires locs == [] && forall loc :: loc in locs <==> IsRoot(lam, loc)
    requires |w| == size && lam == LocatorFound(SyndromeOf(w))
    ensures !Correctable(lam, size) && Repaired(w) == w
  {
    hide IsRoot, LocatorFound, EvaluatorFound, SyndromeOf, RepairedByte;
  }

  lemma RootsInside(lam: Coeffs, size: nat, locs: seq<int>)
    requires locs != [] && forall loc :: loc in locs <==> IsRoot(lam, loc)
    requires forall i :: 0 <= i < |locs| ==> locs[i] < size
    ensures Correctable(lam, size)
  {
    hide IsRoot;
    assert locs[0] in locs;
  }
}

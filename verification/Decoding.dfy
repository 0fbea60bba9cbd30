/** What the decoder makes of a word, whatever the word: the recurrence that Berlekamp-Massey ends with, its
    roots, and the bytes it changes. */
module Decoding {
  import opened Field
  import opened Poly
  import opened Massey
  import opened Locator
  import opened Word
  import opened Repair
  import opened Verdict

  /** The recurrence, the correction polynomial and the length of the recurrence. */
  datatype Register = Register(psi: Coeffs, d: Coeffs, len: int)

  /** Round n on the syndrome s. */
  ghost function NextRegister(r: Register, s: Coeffs, n: nat): (t: Register)
    requires |r.psi| == |r.d| == MAXDEG
    ensures |t.psi| == |t.d| == MAXDEG
  {
    var delta := Conv(r.psi, s, n);
    if delta == 0 then Register(r.psi, ShiftUp(r.d), r.len)
    else if r.len < n + 1 - r.len then
      Register(Corrected(r.psi, r.d, delta), ShiftUp(Scale(Inv(delta), r.psi)), n + 1 - r.len)
    else Register(Corrected(r.psi, r.d, delta), ShiftUp(r.d), r.len)
  }

  function One(): (p: Coeffs)
    ensures |p| == MAXDEG
  {
    [1] + Zeros(MAXDEG - 1)
  }

  /** After n rounds. */
  ghost function RegisterAt(s: Coeffs, n: nat): (r: Register)
    ensures |r.psi| == |r.d| == MAXDEG
  {
    if n == 0 then Register(One(), ShiftUp(One()), 0) else NextRegister(RegisterAt(s, n - 1), s, n - 1)
  }

  /** A round keeps what makes the recurrence a shortest one. */
  lemma NextInv(r: Register, s: Coeffs, n: nat)
    requires |r.psi| == |r.d| == MAXDEG && n < NPAR && RoundInv(r.psi, r.d, r.len, s, n)
    ensures var t := NextRegister(r, s, n); RoundInv(t.psi, t.d, t.len, s, n + 1)
  {
    hide Add, Mul, Inv, Conv, Corrected, ShiftUp, Scale, RoundInv;
    var delta := Conv(r.psi, s, n);
    if delta == 0 {
      RoundQuiet(r.psi, r.d, r.len, s, n);
    } else if r.len < n + 1 - r.len {
      RoundGrow(r.psi, r.d, r.len, s, n, delta);
    } else {
      RoundAbsorb(r.psi, r.d, r.len, s, n, delta);
    }
  }

  lemma {:induction false} RegisterInv(s: Coeffs, n: nat)
    requires n <= NPAR
    ensures var r := RegisterAt(s, n); RoundInv(r.psi, r.d, r.len, s, n)
  {
    if n == 0 {
      ShiftUpShape(One(), 0);
      RoundStart(One(), ShiftUp(One()), s);
    } else {
      hide RoundInv, NextRegister;
      RegisterInv(s, n - 1);
      NextInv(RegisterAt(s, n - 1), s, n - 1);
    }
  }

  ghost function LocatorFound(s: Coeffs): (lam: Coeffs)
    ensures |lam| == MAXDEG
  {
    RegisterAt(s, NPAR).psi
  }

  ghost function EvaluatorFound(s: Coeffs): (om: Coeffs)
    ensures |om| == MAXDEG
  {
    seq(MAXDEG, i => if i < NPAR then Conv(LocatorFound(s), s, i) else 0)
  }

  /** What is found is a shortest recurrence of all syndromes, and its evaluator. */
  lemma FoundIsKey(s: Coeffs)
    requires |s| == NPAR
    ensures IsKeySolution(LocatorFound(s), EvaluatorFound(s), s)
  {
    hide Conv, Generates, Shortest, RegisterAt;
    RegisterInv(s, NPAR);
    var r := RegisterAt(s, NPAR);
    InvResult(r.psi, r.d, r.len, s);
  }

  lemma InvResult(psi: Coeffs, d: Coeffs, len: int, s: Coeffs)
    requires RoundInv(psi, d, len, s, NPAR)
    ensures 0 <= len <= NPAR && Generates(psi, len, s, NPAR) && Shortest(len, s, NPAR)
  {}

  // ----- the repaired word -----

  /** There is a root, and all of them are locations of the word. */
  ghost predicate Correctable(lam: Coeffs, size: nat) {
    (exists loc :: IsRoot(lam, loc)) && forall loc :: IsRoot(lam, loc) ==> loc < size
  }

  /** The word after decoding: if it is correctable, every byte at a root changes by its error value; any
      other word stays as it is. */
  ghost function Repaired(w: seq<bv8>): (v: seq<bv8>)
    ensures |v| == |w|
  {
    var lam, om := LocatorFound(SyndromeOf(w)), EvaluatorFound(SyndromeOf(w));
    if Correctable(lam, |w|) then seq(|w|, i requires 0 <= i < |w| => RepairedByte(w, lam, om, i)) else w
  }

  /** The recurrence of zeros is constant, so nothing is located. */
  lemma {:induction false} ZeroRegister(n: nat)
    ensures RegisterAt(Zeros(NPAR), n).psi == One()
  {
    hide Conv, ShiftUp;
    if n > 0 {
      ZeroRegister(n - 1);
      ConvSeriesZero(One(), NPAR, n - 1);
    }
  }

  /** A word with a zero syndrome stays as it is, so the program may skip the correction. */
  lemma ZeroSyndromeStays(w: seq<bv8>)
    requires SyndromeOf(w) == Zeros(NPAR)
    ensures !Correctable(LocatorFound(SyndromeOf(w)), |w|) && Repaired(w) == w
  {
    hide RegisterAt, SyndromeOf, Eval, Alpha;
    ZeroRegister(NPAR);
    forall loc
      ensures !IsRoot(One(), loc)
    {
      assert Same(One(), [1]);
      EvalSame(One(), [1], Alpha(-loc));
      EvalConstant(1, Alpha(-loc));
    }
  }

  lemma InRadiusCorrectable(c: seq<bv8>, w: seq<bv8>, lam: Coeffs, om: Coeffs)
    requires InRadius(c, w) && IsKeySolution(lam, om, SyndromeOf(w))
    ensures Correctable(lam, |w|)
  {
    hide Errors, IsKeySolution, IsRoot, SyndromeOf, IsCodeword, Distinct, LocatorOf, Same, Distance;
    LocatorInRadius(c, w, lam, om);
    var es := Errors(c, w);
    ErrorsMeaning(c, w);
    assert es[0] in es;
    RootsAreErrors(c, w, lam, om, es[0].loc);
    forall loc | IsRoot(lam, loc) ensures loc < |w| { RootsAreErrors(c, w, lam, om, loc); }
  }

  /** A word with a zero syndrome is in the radius of no other code word. */
  lemma ZeroSyndromeAlone(c: seq<bv8>, w: seq<bv8>)
    requires SyndromeOf(w) == Zeros(NPAR)
    ensures !InRadius(c, w)
  {
    hide InRadius, Correctable, LocatorFound, EvaluatorFound, SyndromeOf, IsKeySolution, Repaired;
    if InRadius(c, w) {
      FoundIsKey(SyndromeOf(w));
      InRadiusCorrectable(c, w, LocatorFound(SyndromeOf(w)), EvaluatorFound(SyndromeOf(w)));
      ZeroSyndromeStays(w);
    }
  }

  lemma {:induction false} DistanceZero(c: seq<bv8>, r: seq<bv8>)
    requires |c| == |r|
    ensures Distance(c, r) == 0 <==> c == r
  {
    if c != [] {
      DistanceZero(c[1..], r[1..]);
      assert c == [c[0]] + c[1..] && r == [r[0]] + r[1..];
    }
  }

  lemma CodewordSyndrome(c: seq<bv8>)
    requires IsCodeword(c)
    ensures SyndromeOf(c) == Zeros(NPAR)
  {
    hide Horner, Alpha;
    forall j | 0 <= j < NPAR ensures SyndromeOf(c)[j] == 0 { assert Horner(c, Alpha(j + 1)) == 0; }
  }

  /** A word within half the designed distance of a code word becomes that code word. */
  lemma RepairedInRadius(c: seq<bv8>, w: seq<bv8>)
    requires IsCodeword(c) && |c| == |w| <= 255 && 2 * Distance(c, w) <= NPAR
    ensures Repaired(w) == c
  {
    hide IsCodeword, Distance, SyndromeOf, LocatorFound, EvaluatorFound, IsKeySolution, RepairedByte, Correctable;
    DistanceZero(c, w);
    if Distance(c, w) == 0 {
      CodewordSyndrome(c);
      ZeroSyndromeStays(w);
    } else {
      var lam, om := LocatorFound(SyndromeOf(w)), EvaluatorFound(SyndromeOf(w));
      FoundIsKey(SyndromeOf(w));
      assert InRadius(c, w);
      InRadiusCorrectable(c, w, lam, om);
      RepairedWord(w, Repaired(w), lam, om);
    }
  }

  /** A word whose syndrome is that of at most NPAR / 2 errors, one of them beyond the word, stays as it is. */
  lemma OutsideStays(w: seq<bv8>, es: seq<Error>, k: nat)
    requires Distinct(es) && 2 * |es| <= NPAR && SyndromeOf(w) == Syndromes(es, NPAR)
    requires k < |es| && |w| <= es[k].loc < 255
    ensures Repaired(w) == w
  {
    hide Distinct, SyndromeOf, Syndromes, LocatorFound, EvaluatorFound, RepairedByte, LocatorOf, Same, Alpha, Eval, Generates, Shortest, Conv;
    var s := SyndromeOf(w);
    var lam := LocatorFound(s);
    FoundIsKey(s);
    var len: nat :| len <= NPAR && Generates(lam, len, s, NPAR) && Shortest(len, s, NPAR);
    LocatorGenerates(es, NPAR);
    ShortestAtMost(len, s, LocatorOf(es), |es|);
    LocatorUnique(lam, len, es, NPAR);
    LocationsAreRoots(es, lam, es[k].loc);
    assert IsRoot(lam, es[k].loc);
  }
}

/** From locator and evaluator to the corrected word. */
module Repair {
  import opened Sets
  import opened Field
  import opened Poly
  import opened Massey
  import opened Locator
  import opened Word

  /** The value the decoder adds at location loc. */
  ghost function ValueAt(lam: Coeffs, om: Coeffs, loc: int): bv8 {
    Mul(Eval(om, Alpha(-loc)), Inv(Slope(lam, Alpha(-loc))))
  }

  ghost predicate IsRoot(lam: Coeffs, loc: int) {
    0 <= loc < 255 && Eval(lam, Alpha(-loc)) == 0
  }

  /** Byte i of the repaired word. */
  ghost function RepairedByte(w: seq<bv8>, lam: Coeffs, om: Coeffs, i: int): bv8
    requires 0 <= i < |w|
  {
    if IsRoot(lam, |w| - 1 - i) then Add(w[i], ValueAt(lam, om, |w| - 1 - i)) else w[i]
  }

  /** lam is a shortest recurrence for the syndrome s and om is lam * s truncated. */
  ghost predicate IsKeySolution(lam: Coeffs, om: Coeffs, s: Coeffs) {
    && |lam| == |om| == MAXDEG && |s| == NPAR
    && (exists len: nat :: len <= NPAR && Generates(lam, len, s, NPAR) && Shortest(len, s, NPAR))
    && forall i :: 0 <= i < MAXDEG ==> om[i] == if i < NPAR then Conv(lam, s, i) else 0
  }

  lemma KeySolutionDegree(lam: Coeffs, om: Coeffs, s: Coeffs)
    requires IsKeySolution(lam, om, s)
    ensures DegreeAtMost(lam, NPAR)
  {
    hide Conv, Shortest;
    var len: nat :| len <= NPAR && Generates(lam, len, s, NPAR) && Shortest(len, s, NPAR);
  }

  /** c is a code word and w differs from it in 1 to NPAR / 2 bytes. */
  ghost predicate InRadius(c: seq<bv8>, w: seq<bv8>) {
    |c| == |w| <= 255 && IsCodeword(c) && 1 <= Distance(c, w) && 2 * Distance(c, w) <= NPAR
  }

  /** Whatever code word the input is close to, the output is that code word. */
  ghost predicate Corrects(before: seq<bv8>, after: seq<bv8>, status: int) {
    forall c :: InRadius(c, before) ==> status == 1 && after == c
  }

  lemma LocatorInRadius(c: seq<bv8>, w: seq<bv8>, lam: Coeffs, om: Coeffs)
    requires InRadius(c, w) && IsKeySolution(lam, om, SyndromeOf(w))
    ensures Same(lam, LocatorOf(Errors(c, w)))
    ensures Distinct(Errors(c, w)) && 1 <= |Errors(c, w)| <= NPAR / 2
  {
    hide Conv, Shortest, Generates, IsCodeword, Distance, SyndromeOf, LocatorOf, Errors, Distinct, Same;
    var len: nat :| len <= NPAR && Generates(lam, len, SyndromeOf(w), NPAR) && Shortest(len, SyndromeOf(w), NPAR);
    ShortestIsLocator(c, w, lam, len);
    ErrorsShape(c, w);
  }

  /** The roots of the locator are exactly the positions where the word differs. */
  lemma RootsAreErrors(c: seq<bv8>, w: seq<bv8>, lam: Coeffs, om: Coeffs, loc: int)
    requires InRadius(c, w) && IsKeySolution(lam, om, SyndromeOf(w))
    ensures IsRoot(lam, loc) <==> 0 <= loc < |w| && c[|w| - 1 - loc] != w[|w| - 1 - loc]
    ensures IsRoot(lam, loc) ==> exists k :: 0 <= k < |Errors(c, w)| && Errors(c, w)[k].loc == loc
  {
    hide Alpha, Eval, LocatorOf, Conv, IsCodeword, Errors, IsKeySolution, SyndromeOf, Distinct, Same;
    var es := Errors(c, w);
    LocatorInRadius(c, w, lam, om);
    ErrorsMeaning(c, w);
    if 0 <= loc < 255 {
      LocationsAreRoots(es, lam, loc);
      if exists k :: 0 <= k < |es| && es[k].loc == loc {
        var k :| 0 <= k < |es| && es[k].loc == loc;
        assert es[k] in es;
      }
      if loc < |w| && c[|w| - 1 - loc] != w[|w| - 1 - loc] {
        var i := |w| - 1 - loc;
        var e := Error(loc, Add(c[i], w[i]));
        assert e in es;
      }
    }
  }

  /** Every byte of the repaired word is the byte of the code word. */
  lemma RepairedIsCodeword(c: seq<bv8>, w: seq<bv8>, lam: Coeffs, om: Coeffs, i: int)
    requires InRadius(c, w) && IsKeySolution(lam, om, SyndromeOf(w)) && 0 <= i < |w|
    ensures RepairedByte(w, lam, om, i) == c[i]
  {
    hide Add, Mul, Alpha, Eval, Slope, Inv, LocatorOf, Conv, Errors, SyndromeOf, Syndromes, Same, IsRoot, Shortest, Generates, Distance;
    var es, loc := Errors(c, w), |w| - 1 - i;
    RootsAreErrors(c, w, lam, om, loc);
    if c[i] != w[i] {
      LocatorInRadius(c, w, lam, om);
      var k :| 0 <= k < |es| && es[k].loc == loc;
      ErrorsMeaning(c, w);
      assert es[k] in es && es[k].value == Add(c[i], w[i]);
      SyndromeOfErrors(c, w);
      ValueAtLocation(es, k, lam, om);
      AddComm(c[i], w[i]); AddCancel(w[i], c[i]);
    }
  }

  lemma RepairedWord(w: seq<bv8>, v: seq<bv8>, lam: Coeffs, om: Coeffs)
    requires IsKeySolution(lam, om, SyndromeOf(w)) && |v| == |w|
    requires forall i :: 0 <= i < |w| ==> v[i] == RepairedByte(w, lam, om, i)
    ensures Corrects(w, v, 1)
  {
    hide IsKeySolution, SyndromeOf, RepairedByte, IsCodeword, Distance;
    forall c | InRadius(c, w) ensures v == c {
      forall i | 0 <= i < |w| ensures v[i] == c[i] { RepairedIsCodeword(c, w, lam, om, i); }
    }
  }

  // ----- counting locations -----

  lemma {:induction false} DistinctSize(xs: seq<int>)
    requires forall i, j :: 0 <= i < j < |xs| ==> xs[i] != xs[j]
    ensures |set x | x in xs| == |xs|
  {
    var s := set x | x in xs;
    if xs == [] {
      assert s == {};
    } else {
      var t := xs[1..];
      DistinctSize(t);
      assert s == (set x | x in t) + {xs[0]};
      assert xs[0] !in t;
    }
  }
}

/** Received words, code words and the decoding radius of the code. */
module Word {
  import opened Field
  import opened Poly
  import opened Massey
  import opened Locator

  /** The number of parity bytes. */
  const NPAR: nat := 109
  /** The length of the decoder's coefficient arrays. */
  const MAXDEG: nat := 218

  /** The word read as a polynomial whose leading coefficient comes first, evaluated at x. */
  ghost function Horner(d: seq<bv8>, x: bv8): bv8 {
    if d == [] then 0 else Add(d[|d| - 1], Mul(x, Horner(d[..|d| - 1], x)))
  }

  ghost function SyndromeOf(d: seq<bv8>): (s: Coeffs)
    ensures |s| == NPAR
  {
    seq(NPAR, j => Horner(d, Alpha(j + 1)))
  }

  /** A code word has all of alpha^1 .. alpha^NPAR among its roots. */
  ghost predicate IsCodeword(d: seq<bv8>) {
    forall j :: 1 <= j <= NPAR ==> Horner(d, Alpha(j)) == 0
  }

  /** The Hamming distance of two words of equal length. */
  ghost function Distance(c: seq<bv8>, r: seq<bv8>): nat
    requires |c| == |r|
  {
    if c == [] then 0 else (if c[0] != r[0] then 1 else 0) + Distance(c[1..], r[1..])
  }

  /** The errors that turn c into r. */
  ghost function Errors(c: seq<bv8>, r: seq<bv8>): (es: seq<Error>)
    requires |c| == |r|
  {
    if c == [] then []
    else Errors(c[1..], r[1..])
         + if c[0] != r[0] then [Error(|c| - 1, Add(c[0], r[0]))] else []
  }

  lemma {:induction false} ErrorsShape(c: seq<bv8>, r: seq<bv8>)
    requires |c| == |r|
    ensures |Errors(c, r)| == Distance(c, r)
    ensures forall i :: 0 <= i < |Errors(c, r)| ==> 0 <= Errors(c, r)[i].loc < |c|
    ensures |c| <= 255 ==> Distinct(Errors(c, r))
  {
    hide Add;
    if c != [] {
      ErrorsShape(c[1..], r[1..]);
      AddCancel(c[0], r[0]);
    }
  }

  /** Error i sits at a differing byte, and every differing byte is an error. */
  lemma {:induction false} ErrorsMeaning(c: seq<bv8>, r: seq<bv8>)
    requires |c| == |r|
    ensures forall e :: e in Errors(c, r) ==>
      0 <= e.loc < |c| && c[|c| - 1 - e.loc] != r[|c| - 1 - e.loc]
      && e.value == Add(c[|c| - 1 - e.loc], r[|c| - 1 - e.loc])
    ensures forall i :: 0 <= i < |c| && c[i] != r[i] ==>
      Error(|c| - 1 - i, Add(c[i], r[i])) in Errors(c, r)
  {
    hide Add;
    if c != [] {
      ErrorsMeaning(c[1..], r[1..]);
      forall e | e in Errors(c, r)
        ensures 0 <= e.loc < |c| && c[|c| - 1 - e.loc] != r[|c| - 1 - e.loc]
          && e.value == Add(c[|c| - 1 - e.loc], r[|c| - 1 - e.loc])
      {
        if e in Errors(c[1..], r[1..]) { assert c[|c| - 1 - e.loc] == c[1..][|c| - 2 - e.loc]; }
      }
      forall i | 0 <= i < |c| && c[i] != r[i] ensures Error(|c| - 1 - i, Add(c[i], r[i])) in Errors(c, r) {
        if i > 0 { assert c[1..][i - 1] == c[i] && r[1..][i - 1] == r[i]; }
      }
    }
  }

  lemma {:induction false} HornerHead(d: seq<bv8>, x: bv8)
    requires d != []
    ensures Horner(d, x) == Add(Mul(d[0], Power(x, |d| - 1)), Horner(d[1..], x))
  {
    hide Add, Mul;
    if |d| == 1 {
      MulZero(x, 0); MulOne(d[0]);
    } else {
      var t, z := d[..|d| - 1], d[|d| - 1];
      HornerHead(t, x);
      assert t[1..] == d[1..][..|d| - 2];
      var u, v := Mul(d[0], Power(x, |d| - 2)), Horner(t[1..], x);
      MulDistrib(u, v, x);
      MulAssoc(x, d[0], Power(x, |d| - 2)); MulAssoc(d[0], x, Power(x, |d| - 2)); MulComm(x, d[0]);
      AddAssoc(z, Mul(x, u), Mul(x, v)); AddComm(z, Mul(x, u)); AddAssoc(Mul(x, u), z, Mul(x, v));
    }
  }

  lemma SyndromesAppend(es: seq<Error>, e: Error, n: nat, j: nat)
    requires j < n
    ensures Syndromes(es + [e], n)[j] == Add(Syndromes(es, n)[j], Mul(e.value, Alpha(e.loc * (j + 1))))
  {
    hide Add, Mul, Alpha;
    assert (es + [e])[..|es|] == es;
  }

  /** Each syndrome of the errors is the difference of the two words' values. */
  lemma {:induction false} HornerDifference(c: seq<bv8>, r: seq<bv8>, n: nat, j: nat)
    requires |c| == |r| && j < n
    ensures Syndromes(Errors(c, r), n)[j] == Add(Horner(c, Alpha(j + 1)), Horner(r, Alpha(j + 1)))
  {
    hide Add, Mul, Alpha, Horner, Power, Syndromes;
    var x := Alpha(j + 1);
    if c == [] {
      HornerEmpty(x);
      NoSyndromes(n, j);
      AddZero(0);
    } else {
      HornerDifference(c[1..], r[1..], n, j);
      HornerHead(c, x); HornerHead(r, x);
      var y := Power(x, |c| - 1);
      var u, v := Horner(c[1..], x), Horner(r[1..], x);
      AddSwap(Mul(c[0], y), u, Mul(r[0], y), v);
      MulDistrib(c[0], r[0], y);
      var es := Errors(c[1..], r[1..]);
      if c[0] != r[0] {
        var e := Error(|c| - 1, Add(c[0], r[0]));
        SyndromesAppend(es, e, n, j);
        PowerAlpha(j + 1, |c| - 1);
        assert (j + 1) * (|c| - 1) == e.loc * (j + 1);
        AddComm(Mul(e.value, y), Add(u, v));
      } else {
        assert Errors(c, r) == es;
        AddZero(c[0]); MulZero(0, y); AddZero(Add(u, v));
      }
    }
  }

  lemma NoSyndromes(n: nat, j: nat)
    requires j < n
    ensures Syndromes([], n)[j] == 0
  {}

  lemma HornerEmpty(x: bv8)
    ensures Horner([], x) == 0
  {}

  /** The syndrome of a received word depends on its errors only. */
  lemma SyndromeOfErrors(c: seq<bv8>, r: seq<bv8>)
    requires |c| == |r| && IsCodeword(c)
    ensures SyndromeOf(r) == Syndromes(Errors(c, r), NPAR)
  {
    hide Add, Mul, Alpha, Horner, Errors, Syndromes;
    forall j | 0 <= j < NPAR ensures SyndromeOf(r)[j] == Syndromes(Errors(c, r), NPAR)[j] {
      HornerDifference(c, r, NPAR, j);
      AddZero(Horner(r, Alpha(j + 1)));
    }
  }

  lemma {:induction false} HornerAppend(m: seq<bv8>, t: seq<bv8>, x: bv8)
    ensures Horner(m + t, x) == Add(Mul(Horner(m, x), Power(x, |t|)), Horner(t, x))
  {
    hide Add, Mul;
    if t == [] {
      assert m + t == m;
      MulOne(Horner(m, x)); AddZero(Horner(m, x));
    } else {
      var t', z := t[..|t| - 1], t[|t| - 1];
      assert (m + t)[..|m + t| - 1] == m + t';
      HornerAppend(m, t', x);
      var h, y, u := Horner(m, x), Power(x, |t'|), Horner(t', x);
      MulDistrib(Mul(h, y), u, x);
      MulAssoc(x, h, y); MulAssoc(h, x, y); MulComm(x, h);
      AddAssoc(z, Mul(x, Mul(h, y)), Mul(x, u)); AddComm(z, Mul(x, Mul(h, y)));
      AddAssoc(Mul(x, Mul(h, y)), z, Mul(x, u));
    }
  }

  function Reversed(p: seq<bv8>): (r: seq<bv8>)
    ensures |r| == |p|
  {
    seq(|p|, i requires 0 <= i < |p| => p[|p| - 1 - i])
  }

  lemma {:induction false} HornerReversed(p: Coeffs, x: bv8)
    ensures Horner(Reversed(p), x) == Eval(p, x)
  {
    hide Add, Mul;
    if p != [] {
      assert Reversed(p)[..|p| - 1] == Reversed(p[1..]);
      HornerReversed(p[1..], x);
    }
  }

  // ----- what bounded-distance decoding needs -----

  /** For a word within half the designed distance of a code word, any shortest recurrence for its
      syndrome is the locator of its errors. */
  lemma ShortestIsLocator(c: seq<bv8>, r: seq<bv8>, p: Coeffs, len: nat)
    requires |c| == |r| <= 255 && IsCodeword(c) && 2 * Distance(c, r) <= NPAR
    requires |p| == MAXDEG && Generates(p, len, SyndromeOf(r), NPAR) && Shortest(len, SyndromeOf(r), NPAR)
    ensures Same(p, LocatorOf(Errors(c, r)))
  {
    hide Conv, LocatorOf, Errors, Syndromes, SyndromeOf, Distance, IsCodeword;
    var es := Errors(c, r);
    ErrorsShape(c, r);
    SyndromeOfErrors(c, r);
    LocatorGenerates(es, NPAR);
    LocatorUnique(p, len, es, NPAR);
  }

  /** The decoder's quotient at the inverse of an error location is the error value. */
  lemma ValueAtLocation(es: seq<Error>, k: nat, p: Coeffs, w: Coeffs)
    requires Distinct(es) && k < |es| <= NPAR && Same(p, LocatorOf(es))
    requires |w| == MAXDEG && forall i :: 0 <= i < MAXDEG ==>
      w[i] == if i < NPAR then Conv(p, Syndromes(es, NPAR), i) else 0
    ensures Mul(Eval(w, Alpha(-es[k].loc)), Inv(Slope(p, Alpha(-es[k].loc)))) == es[k].value
  {
    hide Add, Mul, Alpha, Eval, Slope, LocatorOf, Inv, EvaluatorOf, Syndromes, Conv, Distinct;
    var y := Alpha(-es[k].loc);
    var v := EvaluatorOf(es, |es|);
    assert es[..|es|] == es;
    forall i: nat ensures At(w, i) == At(v, i) {
      if i < NPAR {
        KeyEquation(es, |es|, NPAR, i);
        ConvSame(p, LocatorOf(es), Syndromes(es, NPAR), i);
      }
    }
    EvalSame(w, v, y);
    EvalSame(p, LocatorOf(es), y);
    ErrorValue(es, k);
  }

  /** The roots of a polynomial equal to the locator are the inverses of the error positions. */
  lemma LocationsAreRoots(es: seq<Error>, p: Coeffs, loc: int)
    requires Distinct(es) && Same(p, LocatorOf(es)) && 0 <= loc < 255
    ensures Eval(p, Alpha(-loc)) == 0 <==> exists i :: 0 <= i < |es| && es[i].loc == loc
  {
    hide Alpha, Eval, LocatorOf;
    EvalSame(p, LocatorOf(es), Alpha(-loc));
    LocatorRoots(es, -loc);
    forall i | 0 <= i < |es| ensures (es[i].loc + -loc) % 255 == 0 <==> es[i].loc == loc {
      assert -255 < es[i].loc - loc < 255;
    }
  }
}

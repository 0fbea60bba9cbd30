/** Bytes as polynomials with coefficients 0 and 1: the product of the tables is the product of polynomials,
    reduced by x^8 + x^4 + x^3 + x^2 + 1. */
module BitPoly {
  import opened Field

  // ----- polynomials of degree below 16 -----

  function Plus(p: bv16, q: bv16): bv16 {
    p ^ q
  }

  /** Multiplication by x. */
  function Double(p: bv16): bv16 {
    p << 1
  }

  function Wide(x: bv8): bv16 {
    x as bv16
  }

  /** Multiplication by x^i. */
  function UpBy(p: bv16, i: nat): bv16 {
    if i == 0 then p else Double(UpBy(p, i - 1))
  }

  function And(y: bv8, m: bv8): bv8 {
    y & m
  }

  predicate HasBit(y: bv8, m: bv8) {
    And(y, m) != 0
  }

  /** x^i for i below 8. */
  function Monomial(i: nat): bv8 {
    match i
    case 0 => 1
    case 1 => 2
    case 2 => 4
    case 3 => 8
    case 4 => 16
    case 5 => 32
    case 6 => 64
    case 7 => 128
    case _ => 0
  }

  /** Whether x^i occurs in y. */
  predicate HasTerm(y: bv8, i: nat) {
    HasBit(y, Monomial(i))
  }

  /** The product of p and the terms of y below x^n. */
  function Terms(p: bv16, y: bv8, n: nat): bv16 {
    if n == 0 then 0
    else Plus(Terms(p, y, n - 1), if HasTerm(y, n - 1) then UpBy(p, n - 1) else 0)
  }

  /** The product of polynomials. */
  function Times(p: bv16, y: bv8): bv16 {
    Terms(p, y, 8)
  }

  /** x^8 + x^4 + x^3 + x^2 + 1. */
  const MODULUS: bv16 := 0x11D

  /** x times y is q times the modulus, plus r. */
  predicate Divides(x: bv8, y: bv8, q: bv8, r: bv8) {
    Times(Wide(x), y) == Plus(Times(MODULUS, q), Wide(r))
  }

  // ----- the powers of alpha that are monomials -----

  /** The powers of alpha start as the powers of two; the first that is reduced is 29. */
  lemma PowersOfTwo()
    ensures Alpha(0) == 1 && Alpha(1) == 2 && Alpha(2) == 4 && Alpha(3) == 8
    ensures Alpha(4) == 16 && Alpha(5) == 32 && Alpha(6) == 64 && Alpha(7) == 128 && Alpha(8) == 29
  {
    IterFirst();
    hide Iter, Step;
    AlphaIs(0); AlphaIs(1); AlphaIs(2); AlphaIs(3); AlphaIs(4); AlphaIs(5); AlphaIs(6); AlphaIs(7); AlphaIs(8);
  }

  lemma IterFirst()
    ensures Iter(1, 0) == 1 && Iter(1, 1) == 2 && Iter(1, 2) == 4 && Iter(1, 3) == 8
    ensures Iter(1, 4) == 16 && Iter(1, 5) == 32 && Iter(1, 6) == 64 && Iter(1, 7) == 128 && Iter(1, 8) == 29
  {
    assert Step(1) == 2 && Step(2) == 4 && Step(4) == 8 && Step(8) == 16;
    assert Step(16) == 32 && Step(32) == 64 && Step(64) == 128 && Step(128) == 29;
    hide Step;
    assert Iter(1, 1) == Step(Iter(1, 0));
    assert Iter(1, 2) == Step(Iter(1, 1));
    assert Iter(1, 3) == Step(Iter(1, 2));
    assert Iter(1, 4) == Step(Iter(1, 3));
    assert Iter(1, 5) == Step(Iter(1, 4));
    assert Iter(1, 6) == Step(Iter(1, 5));
    assert Iter(1, 7) == Step(Iter(1, 6));
    assert Iter(1, 8) == Step(Iter(1, 7));
  }

  /** Multiplying by alpha^i shifts and reduces i times. */
  lemma MulAlpha(x: bv8, i: nat)
    requires i < 255
    ensures Mul(x, Alpha(i)) == Iter(x, i)
  {
    hide Iter, Mul, Alpha, Log;
    LogUnique(Alpha(i), i);
    MulIsIter(x, Alpha(i));
  }

  // ----- sums and shifts -----

  lemma PlusLaws(a: bv16, b: bv16, c: bv16)
    ensures Plus(Plus(a, b), c) == Plus(a, Plus(b, c)) && Plus(a, b) == Plus(b, a)
    ensures Plus(a, 0) == a && Plus(0, a) == a && Plus(a, a) == 0
  {}

  lemma PlusSwap(a: bv16, b: bv16, c: bv16, d: bv16)
    ensures Plus(Plus(a, b), Plus(c, d)) == Plus(Plus(a, c), Plus(b, d))
  {
    hide Plus;
    PlusLaws(a, b, Plus(c, d)); PlusLaws(b, c, d); PlusLaws(c, b, d); PlusLaws(a, c, Plus(b, d));
  }

  lemma PlusDouble(a: bv16, b: bv16)
    ensures Double(Plus(a, b)) == Plus(Double(a), Double(b)) && Double(0) == 0
  {}

  predicate SingleBit(m: bv8) {
    m == 1 || m == 2 || m == 4 || m == 8 || m == 16 || m == 32 || m == 64 || m == 128
  }

  lemma AndAdd(y: bv8, z: bv8, m: bv8)
    ensures And(Add(y, z), m) == Add(And(y, m), And(z, m))
  {}

  lemma AndBit(y: bv8, m: bv8)
    requires SingleBit(m)
    ensures And(y, m) == if HasBit(y, m) then m else 0
  {}

  lemma HasBitAdd(y: bv8, z: bv8, m: bv8)
    requires SingleBit(m)
    ensures HasBit(Add(y, z), m) == (HasBit(y, m) != HasBit(z, m))
  {
    AndAdd(y, z, m);
    AndBit(y, m);
    AndBit(z, m);
    AddZero(m);
    AddZero(0);
    hide And, Add, SingleBit;
  }

  lemma MonomialBit(i: nat)
    ensures if i < 8 then SingleBit(Monomial(i)) else Monomial(i) == 0
  {}

  lemma NoBit(y: bv8)
    ensures !HasBit(y, 0)
  {}

  lemma HasTermAdd(y: bv8, z: bv8, i: nat)
    ensures HasTerm(Add(y, z), i) == (HasTerm(y, i) != HasTerm(z, i))
  {
    hide HasBit, Add, Monomial, SingleBit;
    MonomialBit(i);
    if i < 8 {
      HasBitAdd(y, z, Monomial(i));
    } else {
      NoBit(y); NoBit(z); NoBit(Add(y, z));
    }
  }

  lemma {:induction false} TermsAdd(p: bv16, y: bv8, z: bv8, n: nat)
    ensures Terms(p, Add(y, z), n) == Plus(Terms(p, y, n), Terms(p, z, n))
  {
    hide HasTerm, UpBy, Add, Plus;
    if n > 0 {
      TermsAdd(p, y, z, n - 1);
      HasTermAdd(y, z, n - 1);
      var a := if HasTerm(y, n - 1) then UpBy(p, n - 1) else 0;
      var b := if HasTerm(z, n - 1) then UpBy(p, n - 1) else 0;
      PlusLaws(UpBy(p, n - 1), 0, 0);
      PlusLaws(0, 0, 0);
      PlusSwap(Terms(p, y, n - 1), a, Terms(p, z, n - 1), b);
    } else {
      PlusLaws(0, 0, 0);
    }
  }

  /** y times x, without the bit shifted out. */
  function Twice(y: bv8): bv8 {
    y << 1
  }

  function Carry(y: bv8): bv8 {
    y >> 7
  }

  lemma NextMonomial(i: nat)
    requires i < 7
    ensures Twice(Monomial(i)) == Monomial(i + 1) && Carry(Monomial(i)) == 0
  {
    assert Twice(1) == 2 && Twice(2) == 4 && Twice(4) == 8 && Twice(8) == 16;
    assert Twice(16) == 32 && Twice(32) == 64 && Twice(64) == 128;
  }

  lemma HasBitTwice(y: bv8, m: bv8)
    requires Carry(y) == 0 && Carry(m) == 0
    ensures HasBit(Twice(y), Twice(m)) == HasBit(y, m)
  {}

  lemma OutOfByte(y: bv8)
    ensures !HasBit(Twice(y), 1) && (Carry(y) == 0 ==> !HasBit(y, 128))
  {}

  lemma HasTermTwice(y: bv8, i: nat)
    requires Carry(y) == 0
    ensures HasTerm(Twice(y), i + 1) == HasTerm(y, i) && !HasTerm(Twice(y), 0)
  {
    hide HasBit, Twice, Carry;
    OutOfByte(y);
    if i < 7 {
      NextMonomial(i);
      HasBitTwice(y, Monomial(i));
    } else {
      NoBit(Twice(y)); NoBit(y);
    }
  }

  lemma {:induction false} TermsTwice(p: bv16, y: bv8, n: nat)
    requires Carry(y) == 0
    ensures Terms(p, Twice(y), n + 1) == Double(Terms(p, y, n))
  {
    hide HasTerm, Plus, Double, Twice, Carry;
    if n > 0 {
      TermsTwice(p, y, n - 1);
      HasTermTwice(y, n - 1);
      PlusDouble(Terms(p, y, n - 1), if HasTerm(y, n - 1) then UpBy(p, n - 1) else 0);
    } else {
      HasTermTwice(y, 0);
      PlusLaws(0, 0, 0);
      PlusDouble(0, 0);
    }
  }

  lemma TimesTwice(p: bv16, y: bv8)
    requires Carry(y) == 0
    ensures Times(p, Twice(y)) == Double(Times(p, y))
  {
    TermsTwice(p, y, 8);
    hide Plus, Double, Twice, Carry;
    PlusLaws(Terms(p, Twice(y), 8), 0, 0);
    assert Terms(p, Twice(y), 9) == Plus(Terms(p, Twice(y), 8), 0);
  }

  lemma {:induction false} TermsOne(p: bv16, n: nat)
    ensures Terms(p, 1, n) == (if n == 0 then 0 else p) && Terms(p, 0, n) == 0
  {
    hide Double, Plus;
    if n > 0 {
      TermsOne(p, n - 1);
      PlusLaws(p, 0, 0);
      PlusLaws(0, 0, 0);
      OneHasTerm(n - 1);
    }
  }

  lemma OneHasTerm(i: nat)
    ensures HasTerm(1, i) == (i == 0) && !HasTerm(0, i)
  {}

  // ----- division -----

  lemma StepDivides(r: bv8)
    ensures Double(Wide(r)) == Plus(Times(MODULUS, Carry(r)), Wide(Step(r)))
  {
    TermsOne(MODULUS, 8);
    hide Terms;
    assert Carry(r) == 0 || Carry(r) == 1;
  }

  /** One shift: the quotient takes up the bit shifted out. */
  lemma DividesTwice(x: bv8, y: bv8, q: bv8, r: bv8)
    requires Divides(x, y, q, r) && Carry(q) == 0 && Carry(y) == 0
    ensures Divides(x, Twice(y), Add(Twice(q), Carry(r)), Step(r))
  {
    hide Terms, Plus, Add, Step, Double, Twice, Carry, Wide;
    var m := Times(MODULUS, q);
    TimesTwice(Wide(x), y);
    TimesTwice(MODULUS, q);
    PlusDouble(m, Wide(r));
    StepDivides(r);
    TermsAdd(MODULUS, Twice(q), Carry(r), 8);
    PlusLaws(Double(m), Times(MODULUS, Carry(r)), Wide(Step(r)));
  }

  /** Products with the same left factor are added. */
  lemma DividesAdd(x: bv8, y: bv8, q: bv8, r: bv8, y': bv8, q': bv8, r': bv8)
    requires Divides(x, y, q, r) && Divides(x, y', q', r')
    ensures Divides(x, Add(y, y'), Add(q, q'), Add(r, r'))
  {
    hide Terms, Plus, Add, Wide;
    TermsAdd(Wide(x), y, y', 8);
    TermsAdd(MODULUS, q, q', 8);
    PlusSwap(Times(MODULUS, q), Wide(r), Times(MODULUS, q'), Wide(r'));
    WideAdd(r, r');
  }

  lemma WideAdd(r: bv8, r': bv8)
    ensures Plus(Wide(r), Wide(r')) == Wide(Add(r, r'))
  {}

  lemma MonomialIsAlpha(i: nat)
    requires i < 8
    ensures Monomial(i) == Alpha(i)
  {
    hide Alpha;
    PowersOfTwo();
    assert i in {0, 1, 2, 3, 4, 5, 6, 7};
  }

  /** Multiplying by x^i takes i shifts. */
  lemma {:induction false} DividesMonomial(x: bv8, i: nat) returns (q: bv8)
    requires i < 8
    ensures Divides(x, Monomial(i), q, Mul(x, Monomial(i)))
  {
    hide Mul, Iter, Alpha, Divides, Monomial;
    MonomialIsAlpha(i);
    MulAlpha(x, i);
    q := IterDivides(x, i);
  }

  lemma {:induction false} IterDivides(x: bv8, i: nat) returns (q: bv8)
    requires i < 8
    ensures Divides(x, Monomial(i), q, Iter(x, i)) && q < Monomial(i)
  {
    hide Step, Twice, Carry, Add, Divides, Terms;
    if i == 0 {
      q := 0;
      OneDivides(x);
    } else {
      var p := IterDivides(x, i - 1);
      Room(p, i - 1, Iter(x, i - 1));
      NextMonomial(i - 1);
      DividesTwice(x, Monomial(i - 1), p, Iter(x, i - 1));
      q := Add(Twice(p), Carry(Iter(x, i - 1)));
    }
  }

  lemma OneDivides(x: bv8)
    ensures Divides(x, 1, 0, x)
  {
    hide Terms, Plus, Wide;
    TermsOne(Wide(x), 8);
    TermsOne(MODULUS, 8);
    PlusLaws(Wide(x), 0, 0);
  }

  /** The quotient has fewer terms than the factor. */
  lemma Room(q: bv8, i: nat, r: bv8)
    requires i < 7 && q < Monomial(i)
    ensures Carry(q) == 0 && Add(Twice(q), Carry(r)) < Monomial(i + 1)
  {}

  /** The terms of y below x^n. */
  function Low(y: bv8, n: nat): bv8 {
    if n == 0 then 0 else Add(Low(y, n - 1), if HasTerm(y, n - 1) then Monomial(n - 1) else 0)
  }

  /** The sum of all monomials below x^n. */
  function Mask(n: nat): bv8 {
    match n
    case 0 => 0
    case 1 => 1
    case 2 => 3
    case 3 => 7
    case 4 => 15
    case 5 => 31
    case 6 => 63
    case 7 => 127
    case _ => 255
  }

  predicate Joins(low: bv8, m: bv8, high: bv8) {
    SingleBit(m) && low & m == 0 && high == low | m
  }

  lemma MaskJoins(n: nat)
    requires n < 8
    ensures Joins(Mask(n), Monomial(n), Mask(n + 1))
  {}

  lemma AndJoin(y: bv8, low: bv8, m: bv8, high: bv8)
    requires Joins(low, m, high)
    ensures Add(And(y, low), if HasBit(y, m) then m else 0) == And(y, high)
  {
    AndBit(y, m);
    hide HasBit, SingleBit;
  }

  lemma AndAll(y: bv8)
    ensures And(y, 0) == 0 && And(y, 255) == y
  {}

  lemma {:induction false} LowIsMasked(y: bv8, n: nat)
    requires n <= 8
    ensures Low(y, n) == And(y, Mask(n))
  {
    hide And, HasBit, Monomial, Joins, Add;
    AndAll(y);
    if n > 0 {
      LowIsMasked(y, n - 1);
      MaskJoins(n - 1);
      hide Mask;
      AndJoin(y, Mask(n - 1), Monomial(n - 1), Mask(n));
    }
  }

  lemma LowIsAll(y: bv8)
    ensures Low(y, 8) == y
  {
    hide And, Low;
    LowIsMasked(y, 8);
    AndAll(y);
  }

  lemma ZeroDivides(x: bv8)
    ensures Divides(x, 0, 0, 0)
  {
    hide Terms, Plus;
    TermsOne(Wide(x), 8);
    TermsOne(MODULUS, 8);
    PlusLaws(0, 0, 0);
  }

  lemma {:induction false} DividesLow(x: bv8, y: bv8, n: nat) returns (q: bv8)
    requires n <= 8
    ensures Divides(x, Low(y, n), q, Mul(x, Low(y, n)))
  {
    hide Divides, Mul, Add, HasTerm, Monomial;
    MulZero(x, 0);
    ZeroDivides(x);
    if n == 0 {
      q := 0;
    } else {
      var p := DividesLow(x, y, n - 1);
      if HasTerm(y, n - 1) {
        var t := DividesMonomial(x, n - 1);
        DividesAdd(x, Low(y, n - 1), p, Mul(x, Low(y, n - 1)), Monomial(n - 1), t, Mul(x, Monomial(n - 1)));
        MulDistrib(Low(y, n - 1), Monomial(n - 1), x);
        q := Add(p, t);
      } else {
        AddZero(Low(y, n - 1));
        q := p;
      }
    }
  }

  /** r is the remainder of the product of x and y as polynomials. */
  ghost predicate IsRemainder(x: bv8, y: bv8, r: bv8) {
    exists q: bv8 :: Divides(x, y, q, r)
  }

  /** The tables hold the field of polynomials modulo x^8 + x^4 + x^3 + x^2 + 1: the product of two bytes is
      the remainder of their product as polynomials. */
  lemma MulIsRemainder(x: bv8, y: bv8)
    ensures IsRemainder(x, y, Mul(x, y))
  {
    hide Divides, Mul, Low;
    LowIsAll(y);
    var q := DividesLow(x, y, 8);
  }

  lemma PowerRemainder(i: int)
    ensures IsRemainder(Alpha(i), 2, Alpha(i + 1))
  {
    hide IsRemainder, Mul, Alpha;
    PowersOfTwo();
    AlphaMul(i, 1);
    MulIsRemainder(Alpha(i), 2);
  }

  /** The sum of the shifted copies of the modulus that are wanted has high terms, if any is wanted. */
  lemma HighTerms(b0: bool, b1: bool, b2: bool, b3: bool, b4: bool, b5: bool, b6: bool, b7: bool, p: bv16)
    requires p == Plus(Plus(Plus(Plus(Plus(Plus(Plus(if b0 then 0x11D else 0, if b1 then 0x23A else 0),
      if b2 then 0x474 else 0), if b3 then 0x8E8 else 0), if b4 then 0x11D0 else 0), if b5 then 0x23A0 else 0),
      if b6 then 0x4740 else 0), if b7 then 0x8E80 else 0)
    ensures p <= 0xFF <==> !(b0 || b1 || b2 || b3 || b4 || b5 || b6 || b7)
  {}

  lemma ModulusShifts()
    ensures UpBy(MODULUS, 0) == 0x11D && UpBy(MODULUS, 1) == 0x23A && UpBy(MODULUS, 2) == 0x474
    ensures UpBy(MODULUS, 3) == 0x8E8 && UpBy(MODULUS, 4) == 0x11D0 && UpBy(MODULUS, 5) == 0x23A0
    ensures UpBy(MODULUS, 6) == 0x4740 && UpBy(MODULUS, 7) == 0x8E80
  {
    assert Double(0x11D) == 0x23A && Double(0x23A) == 0x474 && Double(0x474) == 0x8E8 && Double(0x8E8) == 0x11D0;
    assert Double(0x11D0) == 0x23A0 && Double(0x23A0) == 0x4740 && Double(0x4740) == 0x8E80;
    hide Double;
    assert UpBy(MODULUS, 1) == Double(UpBy(MODULUS, 0));
    assert UpBy(MODULUS, 2) == Double(UpBy(MODULUS, 1));
    assert UpBy(MODULUS, 3) == Double(UpBy(MODULUS, 2));
    assert UpBy(MODULUS, 4) == Double(UpBy(MODULUS, 3));
    assert UpBy(MODULUS, 5) == Double(UpBy(MODULUS, 4));
    assert UpBy(MODULUS, 6) == Double(UpBy(MODULUS, 5));
    assert UpBy(MODULUS, 7) == Double(UpBy(MODULUS, 6));
  }

  lemma NextTerms(z: bv8, n: nat)
    ensures Terms(MODULUS, z, n + 1) == Plus(Terms(MODULUS, z, n), if HasTerm(z, n) then UpBy(MODULUS, n) else 0)
  {
    hide UpBy, HasTerm, Plus;
  }

  lemma FirstTerms(z: bv8)
    ensures Terms(MODULUS, z, 1) == if HasTerm(z, 0) then UpBy(MODULUS, 0) else 0
  {
    hide UpBy, HasTerm, Plus;
    NextTerms(z, 0);
    PlusLaws(UpBy(MODULUS, 0), 0, 0);
    PlusLaws(0, 0, 0);
  }

  /** Only zero times the modulus has degree below 8. */
  lemma MultipleHigh(z: bv8)
    requires Times(MODULUS, z) <= 0xFF
    ensures z == 0
  {
    hide UpBy, HasTerm, Plus, Terms;
    ModulusShifts();
    FirstTerms(z);
    NextTerms(z, 1); NextTerms(z, 2); NextTerms(z, 3); NextTerms(z, 4); NextTerms(z, 5); NextTerms(z, 6); NextTerms(z, 7);
    HighTerms(HasTerm(z, 0), HasTerm(z, 1), HasTerm(z, 2), HasTerm(z, 3),
      HasTerm(z, 4), HasTerm(z, 5), HasTerm(z, 6), HasTerm(z, 7), Terms(MODULUS, z, 8));
    NoTerms(z);
  }

  lemma NoTerms(z: bv8)
    requires !HasTerm(z, 0) && !HasTerm(z, 1) && !HasTerm(z, 2) && !HasTerm(z, 3)
    requires !HasTerm(z, 4) && !HasTerm(z, 5) && !HasTerm(z, 6) && !HasTerm(z, 7)
    ensures z == 0
  {}

  /** Quotient and remainder are unique. */
  lemma ResidueUnique(x: bv8, y: bv8, q: bv8, r: bv8, q': bv8, r': bv8)
    requires Divides(x, y, q, r) && Divides(x, y, q', r')
    ensures q == q' && r == r'
  {
    hide Terms, Plus, Add, Wide;
    DividesAdd(x, y, q, r, y, q', r');
    AddZero(y);
    var z, s := Add(q, q'), Add(r, r');
    TermsOne(Wide(x), 8);
    PlusZero(Times(MODULUS, z), Wide(s));
    WideSmall(s);
    MultipleHigh(z);
    TermsOne(MODULUS, 8);
    AddCancel(q, q');
    AddCancel(r, r');
  }

  lemma PlusZero(a: bv16, b: bv16)
    ensures Plus(a, b) == 0 <==> a == b
  {
    hide Plus;
    PlusLaws(a, b, b);
    PlusLaws(b, a, a);
  }

  lemma WideSmall(s: bv8)
    ensures Wide(s) <= 0xFF && (Wide(s) == 0 <==> s == 0)
  {}

  /** So the field product is determined: it is the only remainder. */
  lemma MulExactly(x: bv8, y: bv8, r: bv8)
    ensures r == Mul(x, y) <==> IsRemainder(x, y, r)
  {
    hide Divides, Mul;
    MulIsRemainder(x, y);
    var q: bv8 :| Divides(x, y, q, Mul(x, y));
    if q': bv8 :| Divides(x, y, q', r) { ResidueUnique(x, y, q, Mul(x, y), q', r); }
  }
}

/** GF(256) generated by x^8 + x^4 + x^3 + x^2 + 1: bytes are added by exclusive or and
    multiplied through powers of alpha = 2. */
module Field {

  /** One shift-and-reduce step, the multiplication by alpha: the bit shifted out is fed back
      into bits 0, 2, 3 and 4. */
  function Step(x: bv8): bv8 {
    var carry := x >> 7;
    (x << 1) ^ carry ^ (carry << 2) ^ (carry << 3) ^ (carry << 4)
  }

  /** Exclusive or, the addition of the field. */
  function Add(x: bv8, y: bv8): bv8 {
    x ^ y
  }

  function Iter(x: bv8, n: nat): bv8 {
    if n == 0 then x else Step(Iter(x, n - 1))
  }

  lemma StepLinear(x: bv8, y: bv8)
    ensures Step(Add(x, y)) == Add(Step(x), Step(y))
  {}

  lemma StepInjective(x: bv8, y: bv8)
    requires Step(x) == Step(y)
    ensures x == y
  {
    StepLinear(x, y);
  }

  lemma {:induction false} IterAdd(x: bv8, m: nat, n: nat)
    ensures Iter(x, m + n) == Iter(Iter(x, m), n)
  {
    if n != 0 { IterAdd(x, m, n - 1); }
  }

  lemma {:induction false} IterLinear(x: bv8, y: bv8, n: nat)
    ensures Iter(Add(x, y), n) == Add(Iter(x, n), Iter(y, n))
  {
    hide Step, Add;
    if n != 0 {
      IterLinear(x, y, n - 1);
      StepLinear(Iter(x, n - 1), Iter(y, n - 1));
    }
  }

  lemma {:induction false} IterInjective(x: bv8, y: bv8, n: nat)
    requires Iter(x, n) == Iter(y, n)
    ensures x == y
  {
    hide Step;
    if n != 0 {
      StepInjective(Iter(x, n - 1), Iter(y, n - 1));
      IterInjective(x, y, n - 1);
    }
  }

  lemma {:induction false} IterZero(n: nat)
    ensures Iter(0, n) == 0
  {
    if n != 0 { IterZero(n - 1); }
  }

  /** A byte as a table index. */
  function Index(x: bv8): (v: nat)
    ensures v < 256
  {
    x as int
  }

  lemma IndexInjective(x: bv8, y: bv8)
    requires Index(x) == Index(y)
    ensures x == y
  {
    assert (x as int) as bv8 == x;
    assert (y as int) as bv8 == y;
  }

  lemma IndexZero(x: bv8)
    ensures Index(x) == 0 <==> x == 0
  {
    if Index(x) == 0 { IndexInjective(x, 0); }
  }

  // ----- alpha has multiplicative order exactly 255 -----

  function Jump17(x: bv8): bv8 {
    Step(Step(Step(Step(Step(Step(Step(Step(Step(Step(Step(Step(Step(Step(Step(Step(Step(x)))))))))))))))))
  }

  lemma Iter4(x: bv8)
    ensures Iter(x, 4) == Step(Step(Step(Step(x))))
  {
    hide Step;
    assert Iter(x, 1) == Step(Iter(x, 0));
    assert Iter(x, 2) == Step(Iter(x, 1));
    assert Iter(x, 3) == Step(Iter(x, 2));
  }

  lemma IterJump17(x: bv8)
    ensures Iter(x, 17) == Jump17(x)
  {
    hide Step;
    Iter4(x); Iter4(Iter(x, 4)); Iter4(Iter(x, 8)); Iter4(Iter(x, 12));
    IterAdd(x, 4, 4); IterAdd(x, 8, 4); IterAdd(x, 12, 4);
    assert Iter(x, 17) == Step(Iter(x, 16));
  }

  lemma Next17(n: nat, x: bv8, y: bv8)
    requires Iter(1, n) == x && Jump17(x) == y
    ensures Iter(1, n + 17) == y
  {
    hide Step, Jump17;
    IterAdd(1, n, 17);
    IterJump17(x);
  }

  lemma Powers()
    ensures Iter(1, 15) == 38 && Iter(1, 51) == 10 && Iter(1, 85) == 214 && Iter(1, 255) == 1
  {
    Next17(0, 1, 152); Next17(17, 152, 78); Next17(34, 78, 10); Next17(51, 10, 153); Next17(68, 153, 214);
    Next17(85, 214, 68); Next17(102, 68, 147); Next17(119, 147, 79); Next17(136, 79, 146); Next17(153, 146, 215);
    Next17(170, 215, 220); Next17(187, 220, 221); Next17(204, 221, 69); Next17(221, 69, 11); Next17(238, 11, 1);
    Iter4(1); Iter4(16); Iter4(29);
    IterAdd(1, 4, 4); IterAdd(1, 8, 4); IterAdd(1, 12, 3);
    assert Iter(1, 12) == 205;
    assert Iter(205, 1) == 135;
    assert Iter(205, 2) == 19;
    assert Iter(205, 3) == 38;
  }

  /** The divisors of 255 up to k are 1, 3, 5 and 15. */
  predicate SmallDivisors(k: nat) {
    k == 0 || ((255 % k == 0 ==> k == 1 || k == 3 || k == 5 || k == 15) && SmallDivisors(k - 1))
  }

  lemma {:induction false} SmallDivisor(k: nat, m: nat)
    requires SmallDivisors(k) && 0 < m <= k && 255 % m == 0
    ensures m == 1 || m == 3 || m == 5 || m == 15
  {
    if m != k { SmallDivisor(k - 1, m); }
  }

  lemma DivisorsOf255(m: nat)
    requires 0 < m < 255 && 255 % m == 0
    ensures 15 % m == 0 || 51 % m == 0 || 85 % m == 0
  {
    hide *;
    SmallDivisorsOf255();
    if m <= 15 {
      SmallDivisor(15, m);
      assert m == 1 || m == 3 || m == 5 || m == 15;
    } else {
      var q := Cofactor(m);
      SmallDivisor(15, q);
      assert q == 3 || q == 5 || q == 15;
      assert m == 85 || m == 51 || m == 17;
    }
  }

  lemma SmallDivisorsOf255()
    ensures SmallDivisors(15)
  {}

  lemma Cofactor(m: nat) returns (q: nat)
    requires 15 < m < 255 && 255 % m == 0
    ensures 1 < q <= 15 && q * m == 255 && 255 % q == 0
  {
    hide *;
    q := 255 / m;
    assert 255 == m * (255 / m) + 255 % m;
    SmallCofactor(q, m);
    assert 255 == q * (255 / q) + 255 % q;
    RemainderUnique(q, m, 0, 255 / q, 255 % q);
  }

  lemma SmallCofactor(q: nat, m: nat)
    requires q * m == 255 && m >= 16
    ensures 0 < q <= 15
  {}

  lemma ProductAtLeast(m: int, d: int)
    requires m >= 0 && d >= 1
    ensures m * d >= m && m * -d <= -m
  {
    assert m * d == m + m * (d - 1);
  }

  lemma RemainderUnique(m: nat, p: int, r: int, q: int, t: int)
    requires 0 < m
    requires m * p + r == m * q + t && 0 <= r < m && 0 <= t < m
    ensures r == t && p == q
  {
    hide *;
    var d := p - q;
    assert m * d == t - r by { assert m * p == m * q + m * d; }
    if d >= 1 { ProductAtLeast(m, d); }
    if d <= -1 { ProductAtLeast(m, -d); }
  }

  lemma {:induction false} MultiplesOfPeriod(m: nat, n: nat)
    requires 0 < m && Iter(1, m) == 1
    ensures Iter(1, n) == Iter(1, n % m)
  {
    hide Step;
    if n >= m {
      IterAdd(1, m, n - m);
      MultiplesOfPeriod(m, n - m);
      assert n % m == (n - m) % m by { ModStep(n, m); }
    }
  }

  lemma ModStep(n: nat, m: nat)
    requires 0 < m <= n
    ensures n % m == (n - m) % m
  {
    RemainderUnique(m, n / m - 1, n % m, (n - m) / m, (n - m) % m);
  }

  lemma Period(n: nat)
    ensures Iter(1, n) == Iter(1, n % 255)
  {
    Powers();
    MultiplesOfPeriod(255, n);
  }

  lemma {:induction false} NoShorterPeriod(m: nat)
    requires 0 < m < 255
    ensures Iter(1, m) != 1
  {
    hide Step, Iter;
    if Iter(1, m) == 1 {
      Powers();
      MultiplesOfPeriod(m, 255);
      if 255 % m != 0 {
        NoShorterPeriod(255 % m);
      } else {
        DivisorsOf255(m);
        MultiplesOfPeriod(m, 15); MultiplesOfPeriod(m, 51); MultiplesOfPeriod(m, 85);
        IterStart(1);
      }
    }
  }

  lemma IterStart(x: bv8)
    ensures Iter(x, 0) == x
  {}

  lemma PowersDistinct(i: nat, j: nat)
    requires i < j < 255
    ensures Iter(1, i) != Iter(1, j)
  {
    hide Step, Iter;
    if Iter(1, i) == Iter(1, j) {
      IterAdd(1, j - i, i);
      IterInjective(1, Iter(1, j - i), i);
      NoShorterPeriod(j - i);
    }
  }

  /** The values of the first n powers of alpha. */
  ghost function FirstPowers(n: nat): set<int> {
    if n == 0 then {} else FirstPowers(n - 1) + {Index(Iter(1, n - 1))}
  }

  lemma {:induction false} FirstPowersMember(n: nat, v: int)
    ensures v in FirstPowers(n) <==> exists k: nat :: k < n && Index(Iter(1, k)) == v
  {
    hide Step, Iter, Index;
    if n != 0 {
      FirstPowersMember(n - 1, v);
      if v in FirstPowers(n) && v !in FirstPowers(n - 1) { assert Index(Iter(1, n - 1)) == v; }
    }
  }

  lemma {:induction false} FirstPowersSize(n: nat)
    requires n <= 255
    ensures |FirstPowers(n)| == n
  {
    hide Step, Iter, Index;
    if n != 0 {
      FirstPowersSize(n - 1);
      var v := Index(Iter(1, n - 1));
      FirstPowersMember(n - 1, v);
      if v in FirstPowers(n - 1) {
        var k: nat :| k < n - 1 && Index(Iter(1, k)) == v;
        PowersDistinct(k, n - 1);
        IndexInjective(Iter(1, k), Iter(1, n - 1));
      }
    }
  }

  lemma {:induction false} IterNonzero(x: bv8, n: nat)
    requires x != 0
    ensures Iter(x, n) != 0
  {
    if n != 0 { IterNonzero(x, n - 1); }
  }

  lemma {:induction false} BoundedSize(s: set<int>, n: nat)
    requires forall v | v in s :: 1 <= v <= n
    ensures |s| <= n
  {
    if n == 0 {
      assert forall v | v in s :: false;
      assert s == {};
    } else {
      BoundedSize(s - {n}, n - 1);
      assert |s - {n}| >= |s| - 1;
    }
  }

  /** Every value from 1 to 255 is the value of a power of alpha below the order. */
  lemma ValueCovered(v: nat)
    requires 1 <= v <= 255
    ensures exists k: nat :: k < 255 && Index(Iter(1, k)) == v
  {
    hide Step, Iter, Index;
    FirstPowersMember(255, v);
    if v !in FirstPowers(255) {
      FirstPowersSize(255);
      var s := FirstPowers(255) + {v};
      forall w | w in s ensures 1 <= w <= 255 {
        if w != v {
          FirstPowersMember(255, w);
          var k: nat :| k < 255 && Index(Iter(1, k)) == w;
          IterNonzero(1, k);
          IndexZero(Iter(1, k));
        }
      }
      assert |s| == 256;
      BoundedSize(s, 255);
      assert false;
    }
  }

  /** Every nonzero byte is a power of alpha. */
  lemma PowersCover(x: bv8)
    requires x != 0
    ensures exists k: nat :: k < 255 && Iter(1, k) == x
  {
    hide Step, Iter, Index;
    IndexZero(x);
    ValueCovered(Index(x));
    var k: nat :| k < 255 && Index(Iter(1, k)) == Index(x);
    IndexInjective(Iter(1, k), x);
  }

  // ----- logarithms and multiplication -----

  /** alpha^k for any integer exponent. */
  function Alpha(k: int): bv8 {
    Iter(1, k % 255)
  }

  /** The entry of the logarithm table: the least exponent, and 0 for the byte 0. */
  ghost function Log(x: bv8): nat {
    if x == 0 then 0 else
      PowersCover(x);
      var k: nat :| k < 255 && Iter(1, k) == x;
      k
  }

  ghost function Mul(x: bv8, y: bv8): bv8 {
    if x == 0 || y == 0 then 0 else Alpha(Log(x) + Log(y))
  }

  ghost function Inv(x: bv8): bv8 {
    Alpha(255 - Log(x))
  }

  lemma LogSpec(x: bv8)
    requires x != 0
    ensures Log(x) < 255 && Alpha(Log(x)) == x
  {
    hide Step, Iter;
  }

  lemma LogUnique(x: bv8, k: int)
    requires x == Alpha(k)
    ensures x != 0 && Log(x) == k % 255
  {
    hide Step, Iter;
    IterNonzero(1, k % 255);
    LogSpec(x);
    if Log(x) < k % 255 { PowersDistinct(Log(x), k % 255); }
    if k % 255 < Log(x) { PowersDistinct(k % 255, Log(x)); }
  }

  lemma AlphaMod(i: int, j: int)
    requires i % 255 == j % 255
    ensures Alpha(i) == Alpha(j)
  {}

  lemma AlphaStart()
    ensures Alpha(0) == 1
  {}

  /** Multiplying adds exponents. */
  lemma AlphaMul(i: int, j: int)
    ensures Mul(Alpha(i), Alpha(j)) == Alpha(i + j)
  {
    hide Step, Iter, Alpha, Log;
    LogUnique(Alpha(i), i); LogUnique(Alpha(j), j);
    ModSum(i, j);
    AlphaMod(i % 255 + j % 255, i + j);
  }

  lemma ModSum(i: int, j: int)
    ensures (i % 255 + j % 255) % 255 == (i + j) % 255
  {}

  lemma AlphaNonzero(k: int)
    ensures Alpha(k) != 0
  {
    LogUnique(Alpha(k), k);
  }

  lemma AlphaEqual(i: int, j: int)
    ensures Alpha(i) == Alpha(j) <==> i % 255 == j % 255
  {
    LogUnique(Alpha(i), i); LogUnique(Alpha(j), j);
  }

  lemma MulComm(x: bv8, y: bv8)
    ensures Mul(x, y) == Mul(y, x)
  {
    hide Alpha, Log;
  }

  lemma MulZero(x: bv8, y: bv8)
    ensures Mul(x, y) == 0 <==> x == 0 || y == 0
    ensures Mul(x, 0) == 0 && Mul(0, x) == 0
  {
    hide Alpha, Log;
    if x != 0 && y != 0 { AlphaNonzero(Log(x) + Log(y)); }
  }

  lemma MulOne(x: bv8)
    ensures Mul(x, 1) == x && Mul(1, x) == x
  {
    hide Log, Step, Iter, Mul;
    AlphaStart();
    MulZero(1, x); MulZero(x, 1);
    if x != 0 { LogSpec(x); AlphaMul(Log(x), 0); AlphaMul(0, Log(x)); }
  }

  lemma MulAssoc(x: bv8, y: bv8, z: bv8)
    ensures Mul(Mul(x, y), z) == Mul(x, Mul(y, z))
  {
    hide Mul, Alpha, Log;
    MulZero(x, y); MulZero(y, z); MulZero(Mul(x, y), z); MulZero(x, Mul(y, z));
    if x != 0 && y != 0 && z != 0 {
      var i, j, k := Log(x), Log(y), Log(z);
      LogSpec(x); LogSpec(y); LogSpec(z);
      AlphaMul(i, j); AlphaMul(i + j, k); AlphaMul(j, k); AlphaMul(i, j + k);
    }
  }

  lemma AlphaIs(n: nat)
    ensures Alpha(n) == Iter(1, n)
  {
    hide Iter;
    Period(n);
  }

  /** Multiplying by y is the alpha step iterated log y times. */
  lemma MulIsIter(x: bv8, y: bv8)
    requires y != 0
    ensures Mul(x, y) == Iter(x, Log(y))
  {
    hide Step, Iter, Log, Alpha;
    var i, j := Log(x), Log(y);
    IterZero(j);
    if x != 0 {
      LogSpec(x); LogSpec(y);
      AlphaIs(i); AlphaIs(i + j);
      IterAdd(1, i, j);
    }
  }

  lemma MulDistrib(x: bv8, y: bv8, z: bv8)
    ensures Mul(Add(x, y), z) == Add(Mul(x, z), Mul(y, z))
    ensures Mul(z, Add(x, y)) == Add(Mul(z, x), Mul(z, y))
  {
    hide Step, Iter, Log, Mul, Add;
    MulComm(z, Add(x, y)); MulComm(z, x); MulComm(z, y);
    if z == 0 {
      MulZero(x, 0); MulZero(y, 0); MulZero(Add(x, y), 0);
      AddZero(0);
    } else {
      MulIsIter(Add(x, y), z); MulIsIter(x, z); MulIsIter(y, z);
      IterLinear(x, y, Log(z));
    }
  }

  lemma MulInv(x: bv8)
    requires x != 0
    ensures Mul(x, Inv(x)) == 1 && Mul(Inv(x), x) == 1 && Inv(x) != 0
  {
    hide Step, Iter, Log, Mul;
    LogSpec(x);
    AlphaMul(Log(x), 255 - Log(x));
    AlphaMul(255 - Log(x), Log(x));
    AlphaMod(255, 0); AlphaStart();
    AlphaNonzero(255 - Log(x));
  }

  lemma LogZero()
    ensures Log(0) == 0
  {}

  /** The table inverse of zero, which has none, is one. */
  lemma InvZero()
    ensures Inv(0) == 1
  {
    hide Alpha, Log;
    LogZero();
    AlphaMod(255, 0);
    AlphaStart();
  }

  // ----- addition -----

  lemma AddZero(x: bv8)
    ensures Add(x, 0) == x && Add(0, x) == x && Add(x, x) == 0
  {}

  lemma AddComm(x: bv8, y: bv8)
    ensures Add(x, y) == Add(y, x)
  {}

  lemma AddAssoc(x: bv8, y: bv8, z: bv8)
    ensures Add(Add(x, y), z) == Add(x, Add(y, z))
  {}

  lemma AddCancel(x: bv8, y: bv8)
    ensures Add(x, Add(x, y)) == y && Add(Add(x, y), y) == x
    ensures Add(x, y) == 0 <==> x == y
  {}

  /** The middle-four exchange. */
  lemma AddSwap(x: bv8, y: bv8, z: bv8, w: bv8)
    ensures Add(Add(x, y), Add(z, w)) == Add(Add(x, z), Add(y, w))
  {
    hide Add;
    AddAssoc(x, y, Add(z, w)); AddAssoc(y, z, w); AddComm(y, z);
    AddAssoc(z, y, w); AddAssoc(x, z, Add(y, w));
  }
}

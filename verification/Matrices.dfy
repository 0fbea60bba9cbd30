/** The product of two matrices given as lists of their rows, and the laws that fix it: it is linear in its
    left factor, and a left factor with a single one picks a row of the right one. */
module Matrices {

  lemma MulMono(a: int, b: int, c: int)
    requires a <= b && c >= 0
    ensures a * c <= b * c
  {}

  /** The elements that an entry of the product needs are there. */
  lemma InRange(n: nat, cols: nat, r: nat, c: nat, k: nat)
    requires k < n && c < cols
    ensures r * n + k < (r + 1) * n
    ensures k * cols + c < n * cols
  {
    MulMono(k + 1, n, cols);
  }

  /** The sum of the first k products of row r of a and column c of b; a has rows of n, b has rows of cols. */
  function Cell(a: seq<int>, b: seq<int>, n: nat, cols: nat, r: nat, c: nat, k: nat): int
    requires k <= n && c < cols && (r + 1) * n <= |a| && n * cols <= |b|
  {
    if k == 0 then 0
    else
      InRange(n, cols, r, c, k - 1);
      Cell(a, b, n, cols, r, c, k - 1) + a[r * n + (k - 1)] * b[(k - 1) * cols + c]
  }

  /** Entry (r, c) of m, which has rows of cols, is that of the product. */
  ghost predicate IsEntry(a: seq<int>, b: seq<int>, n: nat, cols: nat, m: seq<int>, r: nat, c: nat)
    requires n * cols <= |b| && c < cols
  {
    (r + 1) * n <= |a| && r * cols + c < |m| && m[r * cols + c] == Cell(a, b, n, cols, r, c, n)
  }

  /** m is the product of a, rows by n, and b, n by cols. */
  ghost predicate IsProduct(a: seq<int>, b: seq<int>, rows: nat, n: nat, cols: nat, m: seq<int>)
    requires n * cols <= |b|
  {
    |m| == rows * cols && forall r: nat, c: nat :: r < rows && c < cols ==> IsEntry(a, b, n, cols, m, r, c)
  }

  // ----- laws -----

  /** Products are linear in the left factor. */
  lemma {:induction false} CellLinear(a: seq<int>, a': seq<int>, x: seq<int>, s: int, t: int, b: seq<int>,
      n: nat, cols: nat, r: nat, c: nat, k: nat)
    requires |a| == |a'| == |x| && forall i :: 0 <= i < |x| ==> x[i] == s * a[i] + t * a'[i]
    requires k <= n && c < cols && (r + 1) * n <= |a| && n * cols <= |b|
    ensures Cell(x, b, n, cols, r, c, k) == s * Cell(a, b, n, cols, r, c, k) + t * Cell(a', b, n, cols, r, c, k)
  {
    if k > 0 {
      CellLinear(a, a', x, s, t, b, n, cols, r, c, k - 1);
      InRange(n, cols, r, c, k - 1);
      var i := r * n + (k - 1);
      var y := b[(k - 1) * cols + c];
      Distribute(a[i], a'[i], s, t, y);
      Distribute(Cell(a, b, n, cols, r, c, k - 1), Cell(a', b, n, cols, r, c, k - 1), s, t, 1);
      Collect(s, Cell(a, b, n, cols, r, c, k - 1), a[i] * y);
      Collect(t, Cell(a', b, n, cols, r, c, k - 1), a'[i] * y);
    }
  }

  lemma Distribute(p: int, q: int, s: int, t: int, y: int)
    ensures (s * p + t * q) * y == s * (p * y) + t * (q * y)
  {}

  lemma Collect(s: int, p: int, q: int)
    ensures s * (p + q) == s * p + s * q
  {}

  /** A left factor with a one at row p and column q and zeros elsewhere moves row q of the right factor
      to row p. */
  lemma {:induction false} UnitTimes(a: seq<int>, b: seq<int>, n: nat, cols: nat, p: nat, q: nat, r: nat, c: nat, k: nat)
    requires q < n && forall i :: 0 <= i < |a| ==> a[i] == if i == p * n + q then 1 else 0
    requires k <= n && c < cols && (r + 1) * n <= |a| && n * cols <= |b|
    ensures q * cols + c < |b|
    ensures Cell(a, b, n, cols, r, c, k) == if r == p && q < k then b[q * cols + c] else 0
  {
    InRange(n, cols, r, c, q);
    if k > 0 {
      UnitTimes(a, b, n, cols, p, q, r, c, k - 1);
      InRange(n, cols, r, c, k - 1);
      SamePlace(r, k - 1, p, q, n);
    }
  }

  /** An index determines row and column. */
  lemma SamePlace(r: nat, k: nat, p: nat, q: nat, n: nat)
    requires k < n && q < n
    ensures r * n + k == p * n + q <==> r == p && k == q
  {
    if r < p { MulMono(r + 1, p, n); }
    if p < r { MulMono(p + 1, r, n); }
  }

  /** Row r of a is that of the identity. */
  ghost predicate IsUnit(a: seq<int>, n: nat, r: nat) {
    && (r + 1) * n <= |a|
    && var row := a[r * n..(r + 1) * n];
       forall j :: 0 <= j < n ==> row[j] == if j == r then 1 else 0
  }

  /** Row r of the identity times b is row r of b. */
  lemma {:induction false} IdentityTimes(a: seq<int>, b: seq<int>, n: nat, cols: nat, r: nat, c: nat, k: nat)
    requires r < n && IsUnit(a, n, r)
    requires k <= n && c < cols && n * cols <= |b|
    ensures r * cols + c < |b|
    ensures Cell(a, b, n, cols, r, c, k) == if r < k then b[r * cols + c] else 0
  {
    InRange(n, cols, r, c, r);
    if k > 0 {
      IdentityTimes(a, b, n, cols, r, c, k - 1);
      InRange(n, cols, r, c, k - 1);
      assert a[r * n + (k - 1)] == a[r * n..(r + 1) * n][k - 1];
    }
  }
}

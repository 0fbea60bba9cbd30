/** The block interleaver: 255-byte code words stored column by column, the last one shorter. */
module Interleaver {
  import opened Field
  import opened Word

  const DATA_SIZE: nat := 146
  const BLOCK_SIZE: nat := 255

  /** The length of the encoded file. */
  function EncodedSize(size: nat): nat {
    size / DATA_SIZE * BLOCK_SIZE + if size % DATA_SIZE != 0 then size % DATA_SIZE + NPAR else 0
  }

  /** The number of code words in an encoded file of the given length. */
  function BlockCount(encodedSize: nat): nat {
    (encodedSize + BLOCK_SIZE - 1) / BLOCK_SIZE
  }

  /** Where symbol i of code word b is stored among blocks code words, the last one of length last. */
  function MapIndex(b: nat, i: nat, blocks: nat, last: nat): int {
    b + i * blocks - if i > last then i - last else 0
  }

  /** The number of symbols of code word b. */
  function WordSize(b: nat, blocks: nat, last: nat): nat {
    if b + 1 == blocks then last else BLOCK_SIZE
  }

  /** Total number of symbols. */
  function Total(blocks: nat, last: nat): int {
    (blocks - 1) * BLOCK_SIZE + last
  }

  ghost predicate Slot(b: nat, i: nat, blocks: nat, last: nat) {
    b < blocks && i < WordSize(b, blocks, last)
  }

  // ----- the index map is a bijection -----

  lemma MulMono(x: int, y: int, n: int)
    requires x <= y && 0 <= n
    ensures x * n <= y * n
  {
    assert (y - x) * n >= 0;
    MulSplit(x, y - x, n);
  }

  lemma MulSplit(x: int, y: int, n: int)
    ensures (x + y) * n == x * n + y * n
  {}

  lemma MulPred(x: int, n: int)
    ensures x * n == x * (n - 1) + x
  {}

  /** An index q * n + r below p * n has q < p. */
  lemma QuotientBelow(q: int, r: int, p: int, n: int)
    requires q * n + r < p * n && 0 <= r && 0 <= n
    ensures q < p
  {
    if q >= p { MulMono(p, q, n); }
  }

  /** The map lists the rows one after the other: full rows first, then rows without the last word. */
  lemma MapByRow(b: nat, i: nat, blocks: nat, last: nat)
    requires Slot(b, i, blocks, last) && last <= BLOCK_SIZE
    ensures i < last ==> MapIndex(b, i, blocks, last) == i * blocks + b
    ensures i >= last ==>
      b + 1 < blocks && MapIndex(b, i, blocks, last) == last * blocks + (i - last) * (blocks - 1) + b
  {
    if i >= last {
      MulSplit(last, i - last, blocks);
      MulPred(i - last, blocks);
    }
  }

  lemma TotalByRow(blocks: nat, last: nat)
    requires last <= BLOCK_SIZE
    ensures Total(blocks, last) == last * blocks + (BLOCK_SIZE - last) * (blocks - 1)
  {
    MulPred(last, blocks);
    MulSplit(last, BLOCK_SIZE - last, blocks - 1);
  }

  /** The slot stored at index k. */
  function SlotAt(k: nat, blocks: nat, last: nat): (nat, nat)
    requires blocks >= 1 && k < Total(blocks, last) && last <= BLOCK_SIZE
  {
    if k < last * blocks then (k % blocks, k / blocks)
    else
      assert blocks > 1;
      ((k - last * blocks) % (blocks - 1), last + (k - last * blocks) / (blocks - 1))
  }

  lemma MapInRange(b: nat, i: nat, blocks: nat, last: nat)
    requires Slot(b, i, blocks, last) && last <= BLOCK_SIZE
    ensures 0 <= MapIndex(b, i, blocks, last) < Total(blocks, last)
  {
    MapByRow(b, i, blocks, last);
    TotalByRow(blocks, last);
    MulMono(0, i, blocks);
    if i < last {
      MulMono(i + 1, last, blocks); MulSplit(i, 1, blocks);
      MulMono(0, BLOCK_SIZE - last, blocks - 1);
    } else {
      MulMono(0, i - last, blocks - 1); MulMono(0, last, blocks);
      MulMono(i - last + 1, BLOCK_SIZE - last, blocks - 1); MulSplit(i - last, 1, blocks - 1);
    }
  }

  lemma QuotientRemainder(q: nat, r: nat, n: nat)
    requires r < n
    ensures (q * n + r) / n == q && (q * n + r) % n == r
  {
    var v := q * n + r;
    assert v == n * (v / n) + v % n;
    RemainderUnique(n, v / n, v % n, q, r);
  }

  lemma SlotInFullRow(q: nat, r: nat, blocks: nat, last: nat)
    requires r < blocks && q < last && q * blocks + r < Total(blocks, last) && last <= BLOCK_SIZE
    ensures SlotAt(q * blocks + r, blocks, last) == (r, q)
  {
    hide Total;
    MulMono(q + 1, last, blocks); MulSplit(q, 1, blocks);
    QuotientRemainder(q, r, blocks);
  }

  lemma SlotInShortRow(q: nat, r: nat, k: nat, blocks: nat, last: nat)
    requires r < blocks - 1 && k == last * blocks + q * (blocks - 1) + r
    requires k < Total(blocks, last) && last <= BLOCK_SIZE
    ensures SlotAt(k, blocks, last) == (r, last + q)
  {
    hide Total;
    MulMono(0, q, blocks - 1);
    QuotientRemainder(q, r, blocks - 1);
  }

  /** Storing and looking up are inverse to each other. */
  lemma SlotOfMap(b: nat, i: nat, blocks: nat, last: nat)
    requires Slot(b, i, blocks, last) && last <= BLOCK_SIZE
    ensures 0 <= MapIndex(b, i, blocks, last) < Total(blocks, last)
    ensures SlotAt(MapIndex(b, i, blocks, last), blocks, last) == (b, i)
  {
    hide MapIndex, Total, SlotAt;
    MapInRange(b, i, blocks, last);
    MapByRow(b, i, blocks, last);
    if i < last {
      SlotInFullRow(i, b, blocks, last);
    } else {
      SlotInShortRow(i - last, b, MapIndex(b, i, blocks, last), blocks, last);
    }
  }

  lemma MapOfSlot(k: nat, blocks: nat, last: nat)
    requires blocks >= 1 && k < Total(blocks, last) && last <= BLOCK_SIZE
    ensures var (b, i) := SlotAt(k, blocks, last);
      Slot(b, i, blocks, last) && MapIndex(b, i, blocks, last) == k
  {
    hide Total, MapIndex;
    TotalByRow(blocks, last);
    if k < last * blocks {
      var q, r := k / blocks, k % blocks;
      Divided(k, blocks);
      QuotientBelow(q, r, last, blocks);
      MapByRow(r, q, blocks, last);
    } else {
      var m, n := k - last * blocks, blocks - 1;
      ShortRows(k, blocks, last);
      var q, r := m / n, m % n;
      Divided(m, n);
      QuotientBelow(q, r, BLOCK_SIZE - last, n);
      MapByRow(r, last + q, blocks, last);
    }
  }

  lemma Divided(k: nat, n: nat)
    requires n > 0
    ensures k == k / n * n + k % n && 0 <= k % n < n && 0 <= k / n
  {}

  lemma ShortRows(k: nat, blocks: nat, last: nat)
    requires blocks >= 1 && last * blocks <= k < last * blocks + (BLOCK_SIZE - last) * (blocks - 1)
    ensures blocks > 1
  {}

  lemma MapInjective(b: nat, i: nat, b': nat, i': nat, blocks: nat, last: nat)
    requires Slot(b, i, blocks, last) && Slot(b', i', blocks, last) && last <= BLOCK_SIZE
    requires MapIndex(b, i, blocks, last) == MapIndex(b', i', blocks, last)
    ensures b == b' && i == i'
  {
    SlotOfMap(b, i, blocks, last);
    SlotOfMap(b', i', blocks, last);
  }

  /** Symbols of one code word that are n apart lie at least n * (blocks - 1) bytes apart in the file. */
  lemma Spacing(b: nat, i: nat, n: nat, blocks: nat, last: nat)
    requires blocks >= 1
    ensures MapIndex(b, i + n, blocks, last) >= MapIndex(b, i, blocks, last) + n * (blocks - 1)
  {
    MulSplit(i, n, blocks);
    MulPred(n, blocks);
  }

  /** Neighbouring symbols of one code word lie at least this far apart in the file. */
  function Stride(blocks: nat): nat {
    if blocks <= 1 then 1 else blocks - 1
  }

  lemma StrideApart(b: nat, i: nat, n: nat, blocks: nat, last: nat)
    requires Slot(b, i + n, blocks, last) && last <= BLOCK_SIZE
    ensures MapIndex(b, i + n, blocks, last) >= MapIndex(b, i, blocks, last) + n * Stride(blocks)
  {
    if blocks >= 2 { Spacing(b, i, n, blocks, last); }
  }

  // ----- a burst is spread over the code words -----

  /** Code word b of an encoded file. */
  ghost function WordOf(file: seq<bv8>, b: nat, blocks: nat, last: nat): (w: seq<bv8>)
    requires b < blocks && last <= BLOCK_SIZE && |file| == Total(blocks, last)
    ensures |w| == WordSize(b, blocks, last)
  {
    seq(WordSize(b, blocks, last), i requires 0 <= i < WordSize(b, blocks, last) =>
      MapInRange(b, i, blocks, last); file[MapIndex(b, i, blocks, last)])
  }

  lemma {:induction false} DistanceWindow(c: seq<bv8>, r: seq<bv8>, lo: int, t: nat)
    requires |c| == |r|
    requires forall i :: 0 <= i < |c| && c[i] != r[i] ==> lo <= i < lo + t
    ensures Distance(c, r) <= t
  {
    if c != [] {
      var c', r' := c[1..], r[1..];
      if c[0] != r[0] {
        var t' := lo + t - 1;
        forall i | 0 <= i < |c'| && c'[i] != r'[i] ensures 0 <= i < 0 + t' {
          assert c[i + 1] != r[i + 1];
        }
        DistanceWindow(c', r', 0, t');
      } else {
        forall i | 0 <= i < |c'| && c'[i] != r'[i] ensures lo - 1 <= i < lo - 1 + t {
          assert c[i + 1] != r[i + 1];
        }
        DistanceWindow(c', r', lo - 1, t);
      }
    }
  }

  /** The files agree outside len bytes from start. */
  ghost predicate Burst(sent: seq<bv8>, received: seq<bv8>, start: nat, len: nat) {
    && |sent| == |received|
    && forall k :: 0 <= k < |sent| && !(start <= k < start + len) ==> sent[k] == received[k]
  }

  /** A burst of at most t * Stride(blocks) bytes damages at most t symbols of every code word. */
  lemma BurstSpread(sent: seq<bv8>, received: seq<bv8>, start: nat, len: nat, t: nat, b: nat, blocks: nat, last: nat)
    requires Burst(sent, received, start, len) && len <= t * Stride(blocks)
    requires b < blocks && last <= BLOCK_SIZE && |sent| == Total(blocks, last)
    ensures Distance(WordOf(sent, b, blocks, last), WordOf(received, b, blocks, last)) <= t
  {
    hide Distance, MapIndex, Total;
    var c, r := WordOf(sent, b, blocks, last), WordOf(received, b, blocks, last);
    if i: nat :| i < |c| && c[i] != r[i] && forall j :: 0 <= j < i ==> c[j] == r[j] {
      forall j | 0 <= j < |c| && c[j] != r[j] ensures i <= j < i + t {
        DamageNear(sent, received, start, len, t, b, blocks, last, i, j);
      }
      DistanceWindow(c, r, i, t);
    } else {
      NoFirstDifference(c, r, |c|);
      DistanceWindow(c, r, 0, t);
    }
  }

  lemma DamageNear(sent: seq<bv8>, received: seq<bv8>, start: nat, len: nat, t: nat, b: nat, blocks: nat, last: nat, i: nat, j: nat)
    requires Burst(sent, received, start, len) && len <= t * Stride(blocks)
    requires b < blocks && last <= BLOCK_SIZE && |sent| == Total(blocks, last)
    requires i < WordSize(b, blocks, last) && j < WordSize(b, blocks, last)
    requires WordOf(sent, b, blocks, last)[i] != WordOf(received, b, blocks, last)[i]
    requires WordOf(sent, b, blocks, last)[j] != WordOf(received, b, blocks, last)[j]
    ensures j < i + t
  {
    hide MapIndex, Total, Stride;
    MapInRange(b, i, blocks, last); MapInRange(b, j, blocks, last);
    if j >= i + t {
      StrideApart(b, i, j - i, blocks, last);
      MulMono(t, j - i, Stride(blocks));
    }
  }

  lemma {:induction false} NoFirstDifference(c: seq<bv8>, r: seq<bv8>, n: nat)
    requires |c| == |r| && n <= |c|
    requires forall i: nat :: i < |c| && c[i] != r[i] ==> exists j :: 0 <= j < i && c[j] != r[j]
    ensures forall i :: 0 <= i < n ==> c[i] == r[i]
  {
    if n != 0 { NoFirstDifference(c, r, n - 1); }
  }
}

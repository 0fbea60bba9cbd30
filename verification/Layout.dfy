/** How code words are laid out in an encoded file, symbol after symbol; where two symbols have the same
    index, the later one stays. */
module Layout {
  import opened Field
  import opened Poly
  import opened Word
  import opened Interleaver

  function Put(s: seq<bv8>, k: int, x: bv8): (r: seq<bv8>)
    ensures |r| == |s|
  {
    if 0 <= k < |s| then s[k := x] else s
  }

  /** enc after the first n symbols of w, as code word b, were stored. */
  function Laid(enc: seq<bv8>, w: seq<bv8>, n: nat, b: nat, blocks: nat, last: nat): (r: seq<bv8>)
    requires n <= |w|
    ensures |r| == |enc|
  {
    if n == 0 then enc else Put(Laid(enc, w, n - 1, b, blocks, last), MapIndex(b, n - 1, blocks, last), w[n - 1])
  }

  /** The file of the given size in which all words were stored one after the other. */
  function LayoutOf(words: seq<seq<bv8>>, size: nat, blocks: nat, last: nat): (enc: seq<bv8>)
    ensures |enc| == size
    decreases |words|
  {
    if words == [] then Zeros(size)
    else
      var b := |words| - 1;
      Laid(LayoutOf(words[..b], size, blocks, last), words[b], |words[b]|, b, blocks, last)
  }

  lemma {:induction false} LaidElsewhere(enc: seq<bv8>, w: seq<bv8>, n: nat, b: nat, blocks: nat, last: nat, k: nat)
    requires n <= |w| && k < |enc| && forall i :: 0 <= i < n ==> k != MapIndex(b, i, blocks, last)
    ensures Laid(enc, w, n, b, blocks, last)[k] == enc[k]
  {
    hide MapIndex;
    if n > 0 { LaidElsewhere(enc, w, n - 1, b, blocks, last, k); }
  }

  lemma MapIncreasing(b: nat, j: nat, i: nat, blocks: nat, last: nat)
    requires j < i && blocks >= 1 && (blocks >= 2 || i <= last)
    ensures MapIndex(b, j, blocks, last) < MapIndex(b, i, blocks, last)
  {
    MulMono(j + 1, i, blocks); MulSplit(j, 1, blocks);
    MulSplit(j, i - j, blocks); MulPred(i - j, blocks); MulMono(1, i - j, blocks - 1);
  }

  lemma {:induction false} LaidAt(enc: seq<bv8>, w: seq<bv8>, n: nat, b: nat, blocks: nat, last: nat, i: nat)
    requires i < n <= |w| && blocks >= 1 && (blocks >= 2 || |w| <= last)
    requires 0 <= MapIndex(b, i, blocks, last) < |enc|
    ensures Laid(enc, w, n, b, blocks, last)[MapIndex(b, i, blocks, last)] == w[i]
  {
    hide MapIndex;
    if i < n - 1 {
      LaidAt(enc, w, n - 1, b, blocks, last, i);
      MapIncreasing(b, i, n - 1, blocks, last);
    }
  }

  lemma {:induction false} LaidZeros(size: nat, m: nat, n: nat, b: nat, blocks: nat, last: nat)
    requires n <= m
    ensures Laid(Zeros(size), Zeros(m), n, b, blocks, last) == Zeros(size)
  {
    hide MapIndex;
    if n > 0 { LaidZeros(size, m, n - 1, b, blocks, last); }
  }

  lemma {:induction false} LayoutZeros(words: seq<seq<bv8>>, size: nat, blocks: nat, last: nat)
    requires forall w :: w in words ==> w == Zeros(|w|)
    ensures LayoutOf(words, size, blocks, last) == Zeros(size)
    decreases |words|
  {
    if words != [] {
      var b := |words| - 1;
      LayoutZeros(words[..b], size, blocks, last);
      LaidZeros(size, |words[b]|, |words[b]|, b, blocks, last);
    }
  }
}

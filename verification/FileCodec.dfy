/** Encoding a whole file into interleaved code words, and decoding it with repair. */
module FileCodec {
  import opened Field
  import opened Poly
  import opened Locator
  import opened Massey
  import opened Word
  import opened Division
  import opened Interleaver
  import opened Layout
  import opened Repair
  import opened Decoding
  import opened Codec

  /** Index arithmetic on an encoded file stays within a 32-bit int. */
  predicate FitsInt(size: nat) {
    BLOCK_SIZE * BlockCount(EncodedSize(size)) < 0x8000_0000
  }

  /** The data bytes that go into code word b. */
  function Chunk(file: seq<bv8>, b: nat): seq<bv8>
    requires b * DATA_SIZE <= |file|
  {
    if (b + 1) * DATA_SIZE <= |file| then file[b * DATA_SIZE..(b + 1) * DATA_SIZE] else file[b * DATA_SIZE..]
  }

  /** w is a code word that starts with chunk b of the file. */
  ghost predicate IsBlock(file: seq<bv8>, b: nat, w: seq<bv8>) {
    && b * DATA_SIZE <= |file|
    && |w| == |Chunk(file, b)| + NPAR
    && IsCodeword(w) && w[..|w| - NPAR] == Chunk(file, b)
  }

  function LastSize(size: nat): nat {
    size % DATA_SIZE + NPAR
  }

  /** The geometry of an encoded file whose last chunk is incomplete. */
  lemma Geometry(size: nat)
    requires size % DATA_SIZE != 0
    ensures BlockCount(EncodedSize(size)) == size / DATA_SIZE + 1
    ensures EncodedSize(size) == Total(BlockCount(EncodedSize(size)), LastSize(size))
    ensures EncodedSize(size) % BLOCK_SIZE == LastSize(size) && NPAR < LastSize(size) < BLOCK_SIZE
  {}

  lemma FullGeometry(size: nat)
    requires size % DATA_SIZE == 0
    ensures EncodedSize(size) == size / DATA_SIZE * BLOCK_SIZE
    ensures BlockCount(EncodedSize(size)) == size / DATA_SIZE
    ensures EncodedSize(size) % BLOCK_SIZE == 0
  {}

  /** enc stores, interleaved, one code word per chunk of the file. */
  ghost predicate IsEncoding(file: seq<bv8>, enc: seq<bv8>) {
    && |file| % DATA_SIZE != 0 && |enc| == EncodedSize(|file|)
    && var blocks, last := BlockCount(|enc|), LastSize(|file|);
       Geometry(|file|);
       forall b: nat :: b < blocks ==> IsBlock(file, b, WordOf(enc, b, blocks, last))
  }

  lemma ChunkSize(file: seq<bv8>, b: nat)
    requires |file| % DATA_SIZE != 0 && b <= |file| / DATA_SIZE
    ensures b * DATA_SIZE <= |file|
    ensures |Chunk(file, b)| + NPAR == WordSize(b, |file| / DATA_SIZE + 1, LastSize(|file|))
  {
    if b < |file| / DATA_SIZE { MulMono(b + 1, |file| / DATA_SIZE, DATA_SIZE); }
    MulMono(b, |file| / DATA_SIZE, DATA_SIZE);
  }

  ghost predicate AreBlocks(file: seq<bv8>, words: seq<seq<bv8>>) {
    forall b: nat :: b < |words| ==> IsBlock(file, b, words[b])
  }

  /** enc is the layout of one code word per chunk of the file, whatever the size of the file. */
  ghost predicate IsEncoded(file: seq<bv8>, words: seq<seq<bv8>>, enc: seq<bv8>) {
    var size := EncodedSize(|file|);
    && |words| == BlockCount(size) && AreBlocks(file, words)
    && enc == LayoutOf(words, size, BlockCount(size), LastSize(|file|))
  }

  /** What the encoder promises about its output. */
  ghost predicate EncodesTo(file: seq<bv8>, enc: seq<bv8>) {
    exists words: seq<seq<bv8>> :: IsEncoded(file, words, enc)
  }

  /** A chunk has only one code word. */
  lemma BlockUnique(file: seq<bv8>, b: nat, w: seq<bv8>, v: seq<bv8>)
    requires IsBlock(file, b, w) && IsBlock(file, b, v)
    ensures w == v
  {
    hide IsCodeword, Chunk;
    var m := Chunk(file, b);
    var s, t := w[|m|..], v[|m|..];
    assert w == m + s && v == m + t;
    SystematicUnique(m, s, t);
  }

  /** The encoded file is a function of the file, for every size. */
  lemma EncodingUnique(file: seq<bv8>, enc: seq<bv8>, enc': seq<bv8>)
    requires EncodesTo(file, enc) && EncodesTo(file, enc')
    ensures enc == enc'
  {
    hide LayoutOf, IsBlock;
    var words: seq<seq<bv8>> :| IsEncoded(file, words, enc);
    var words': seq<seq<bv8>> :| IsEncoded(file, words', enc');
    forall b: nat | b < |words| ensures words[b] == words'[b] { BlockUnique(file, b, words[b], words'[b]); }
    assert words == words';
  }

  // ----- encoder -----

  class Encoder {
    const codec: Rscode
    const output: array<bv8>
    const input: seq<bv8>
    var encoded: array<bv8>

    ghost predicate Valid()
      reads this, codec.gexp, codec.glog, codec.genPoly
    {
      && codec.Shape() && codec.Ready() && output.Length == 256
      && output !in codec.Repr() && encoded !in codec.Repr() && output != encoded
    }

    constructor (codec: Rscode, file: seq<bv8>)
      requires codec.Shape() && codec.Ready()
      ensures Valid() && this.codec == codec && input == file && fresh(output) && fresh(encoded)
    {
      hide Rscode.Ready, Rscode.Tables;
      this.codec := codec;
      input := file;
      output := new bv8[256](_ => 0);
      encoded := new bv8[0];
    }

    /** Encodes chunk after chunk and stores every code word at its interleaved indices. */
    method EncodeInput()
      requires Valid() && FitsInt(|input|)
      modifies this, output, codec.pBytes
      ensures Valid() && fresh(encoded)
      ensures encoded.Length == EncodedSize(|input|) && EncodesTo(input, encoded[..])
      ensures |input| % DATA_SIZE != 0 ==> IsEncoding(input, encoded[..])
    {
      hide Rscode.Ready, Rscode.Tables, IsCodeword, IsBlock, MapIndex, Total, LayoutOf, Laid, AreBlocks, IsEncoding, EncodesTo;
      var size := |input|;
      var encodedLength, dataLength := 0, DATA_SIZE;
      var encodedSize := size / DATA_SIZE * BLOCK_SIZE;
      var lastBlockSize := size % DATA_SIZE + NPAR;
      if size % DATA_SIZE != 0 {
        encodedSize := encodedSize + lastBlockSize;
      }
      var blocks := BlockCount(encodedSize);
      encoded := new bv8[encodedSize](_ => 0);
      var blocksCounter := 0;
      ghost var words: seq<seq<bv8>> := [];
      BlocksNeeded(size);
      LayoutStart(encoded[..], encodedSize, blocks, lastBlockSize);
      BlocksStart(input);
      while encodedLength < size
        invariant Valid() && fresh(encoded) && encoded.Length == encodedSize
        invariant encodedLength == blocksCounter * DATA_SIZE && blocksCounter <= blocks
        invariant encodedLength < size ==> dataLength == DATA_SIZE
        invariant |words| == blocksCounter && AreBlocks(input, words)
        invariant encoded[..] == LayoutOf(words, encodedSize, blocks, lastBlockSize)
        modifies encoded, output, codec.pBytes
      {
        NextBlock(size, blocksCounter);
        if dataLength + encodedLength > size {
          dataLength := size - encodedLength;
        }
        ghost var w := EncodeBlock(blocksCounter, dataLength, blocks, lastBlockSize);
        LayoutNext(words, w, encodedSize, blocks, lastBlockSize);
        BlocksNext(input, words, w);
        words := words + [w];
        encodedLength := encodedLength + DATA_SIZE;
        blocksCounter := blocksCounter + 1;
      }
      BlocksUsed(size, blocksCounter);
      EncodedAll(input, words, encoded[..]);
      if size % DATA_SIZE != 0 {
        EncodedReadable(input, encoded[..]);
      }
    }

    /** Encodes chunk b, of len bytes, and stores its code word. */
    method EncodeBlock(b: nat, len: nat, blocks: nat, last: nat) returns (ghost w: seq<bv8>)
      requires Valid() && b * DATA_SIZE <= |input| && len == |Chunk(input, b)| && len <= DATA_SIZE
      requires b < blocks && BLOCK_SIZE * blocks < 0x8000_0000 && NPAR <= last <= BLOCK_SIZE
      requires forall i :: 0 <= i < len + NPAR ==> 0 <= MapIndex(b, i, blocks, last) < encoded.Length
      modifies encoded, output, codec.pBytes
      ensures Valid() && IsBlock(input, b, w)
      ensures encoded[..] == Laid(old(encoded[..]), w, |w|, b, blocks, last)
    {
      hide Rscode.Tables, IsCodeword, IsBlock, MapIndex, Total, Laid;
      var from := b * DATA_SIZE;
      ghost var before := encoded[..];
      codec.EncodeData(input[from..from + len], output);
      assert encoded[..] == before;
      w := output[..len + NPAR];
      StoreWord(b, len + NPAR, blocks, last);
      assert w[..len] == output[..len] == Chunk(input, b);
      BlockMeaning(input, b, w);
    }

    /** Copies the first len bytes of output to the indices of code word b. */
    method StoreWord(b: nat, len: nat, blocks: nat, last: nat)
      requires output.Length == 256 && output != encoded && NPAR <= last <= BLOCK_SIZE && len <= BLOCK_SIZE
      requires b < blocks && BLOCK_SIZE * blocks < 0x8000_0000
      requires forall i :: 0 <= i < len ==> 0 <= MapIndex(b, i, blocks, last) < encoded.Length
      modifies encoded
      ensures encoded[..] == Laid(old(encoded[..]), output[..len], len, b, blocks, last)
    {
      hide MapIndex;
      ghost var before, w := encoded[..], output[..len];
      for i := 0 to len
        invariant encoded[..] == Laid(before, w, i, b, blocks, last)
      {
        var mapIndex := (b + i * blocks) % 0x1_0000_0000;
        if i > last {
          mapIndex := (mapIndex - (i - last)) % 0x1_0000_0000;
        }
        NoWrap(b, i, blocks, last, mapIndex);
        encoded[mapIndex] := output[i];
      }
    }
  }

  lemma NoWrap(b: nat, i: nat, blocks: nat, last: nat, index: int)
    requires b < blocks && i < BLOCK_SIZE && BLOCK_SIZE * blocks < 0x8000_0000
    requires MapIndex(b, i, blocks, last) >= 0
    requires var m := (b + i * blocks) % 0x1_0000_0000;
      index == if i > last then (m - (i - last)) % 0x1_0000_0000 else m
    ensures index == MapIndex(b, i, blocks, last) && 0 <= b + i * blocks < BLOCK_SIZE * blocks
  {
    MulMono(i + 1, BLOCK_SIZE, blocks); MulSplit(i, 1, blocks); MulMono(0, i, blocks);
  }

  lemma BlocksNeeded(size: nat)
    ensures size <= BlockCount(EncodedSize(size)) * DATA_SIZE
  {
    if size % DATA_SIZE != 0 { Geometry(size); } else { FullGeometry(size); }
  }

  /** While data is left there is a free code word, and its indices are inside the file. */
  lemma NextBlock(size: nat, b: nat)
    requires b * DATA_SIZE < size
    ensures var blocks, last := BlockCount(EncodedSize(size)), LastSize(size);
      var len := if b * DATA_SIZE + DATA_SIZE > size then size - b * DATA_SIZE else DATA_SIZE;
      && b < blocks && 0 <= len <= DATA_SIZE
      && (size % DATA_SIZE != 0 ==> len + NPAR == WordSize(b, blocks, last))
      && forall i :: 0 <= i < len + NPAR ==> 0 <= MapIndex(b, i, blocks, last) < EncodedSize(size)
  {
    var blocks, last := BlockCount(EncodedSize(size)), LastSize(size);
    BlocksNeeded(size);
    QuotientBelow(b, 0, blocks, DATA_SIZE);
    var len := if b * DATA_SIZE + DATA_SIZE > size then size - b * DATA_SIZE else DATA_SIZE;
    if size % DATA_SIZE != 0 {
      Geometry(size);
      forall i | 0 <= i < len + NPAR ensures 0 <= MapIndex(b, i, blocks, last) < EncodedSize(size) {
        MapInRange(b, i, blocks, last);
      }
    } else {
      FullGeometry(size);
      forall i | 0 <= i < len + NPAR ensures 0 <= MapIndex(b, i, blocks, last) < EncodedSize(size) {
        MulMono(i + 1, BLOCK_SIZE, blocks); MulSplit(i, 1, blocks); MulMono(1, blocks, i); MulMono(0, i, blocks);
      }
    }
  }

  lemma BlockMeaning(file: seq<bv8>, b: nat, w: seq<bv8>)
    requires b * DATA_SIZE <= |file|
    requires |w| == |Chunk(file, b)| + NPAR && IsCodeword(w) && w[..|w| - NPAR] == Chunk(file, b)
    ensures IsBlock(file, b, w)
  {}

  /** The first |words| code words are the blocks of the file and sit at their indices. */
  ghost predicate Stored(file: seq<bv8>, words: seq<seq<bv8>>, enc: seq<bv8>, blocks: nat, last: nat) {
    && last <= BLOCK_SIZE && |words| <= blocks && |enc| == Total(blocks, last)
    && forall b: nat :: b < |words| ==> IsBlock(file, b, words[b]) && words[b] == WordOf(enc, b, blocks, last)
  }

  lemma LayoutStart(enc: seq<bv8>, size: nat, blocks: nat, last: nat)
    requires |enc| == size && forall k :: 0 <= k < size ==> enc[k] == 0
    ensures enc == LayoutOf([], size, blocks, last)
  {}

  lemma LayoutNext(words: seq<seq<bv8>>, w: seq<bv8>, size: nat, blocks: nat, last: nat)
    ensures LayoutOf(words + [w], size, blocks, last)
         == Laid(LayoutOf(words, size, blocks, last), w, |w|, |words|, blocks, last)
  {
    hide Laid;
    assert (words + [w])[..|words|] == words;
  }

  lemma BlocksStart(file: seq<bv8>)
    ensures AreBlocks(file, [])
  {}

  lemma BlocksNext(file: seq<bv8>, words: seq<seq<bv8>>, w: seq<bv8>)
    requires AreBlocks(file, words) && IsBlock(file, |words|, w)
    ensures AreBlocks(file, words + [w])
  {
    hide IsBlock;
  }

  lemma EncodedAll(file: seq<bv8>, words: seq<seq<bv8>>, enc: seq<bv8>)
    requires |words| == BlockCount(EncodedSize(|file|)) && AreBlocks(file, words)
    requires enc == LayoutOf(words, EncodedSize(|file|), BlockCount(EncodedSize(|file|)), LastSize(|file|))
    ensures EncodesTo(file, enc)
  {
    hide AreBlocks, LayoutOf;
    assert IsEncoded(file, words, enc);
  }

  /** When all data is encoded, all code words are there. */
  lemma BlocksUsed(size: nat, n: nat)
    requires n <= BlockCount(EncodedSize(size)) && n * DATA_SIZE >= size
    ensures n == BlockCount(EncodedSize(size))
  {
    if size % DATA_SIZE != 0 { Geometry(size); } else { FullGeometry(size); }
  }

  lemma StoredStep(file: seq<bv8>, words: seq<seq<bv8>>, enc: seq<bv8>, enc': seq<bv8>, blocks: nat, last: nat, w: seq<bv8>)
    requires Stored(file, words, enc, blocks, last) && |words| < blocks && |enc'| == |enc|
    requires IsBlock(file, |words|, w) && |w| == WordSize(|words|, blocks, last)
    requires forall i :: 0 <= i < |w| ==> 0 <= MapIndex(|words|, i, blocks, last) < |enc|
    requires forall i :: 0 <= i < |w| ==> enc'[MapIndex(|words|, i, blocks, last)] == w[i]
    requires forall k :: 0 <= k < |enc| && (forall i :: 0 <= i < |w| ==> k != MapIndex(|words|, i, blocks, last)) ==> enc'[k] == enc[k]
    ensures Stored(file, words + [w], enc', blocks, last)
  {
    hide IsBlock, MapIndex, Total;
    var n := |words|;
    var words' := words + [w];
    forall b: nat | b < n + 1
      ensures IsBlock(file, b, words'[b]) && words'[b] == WordOf(enc', b, blocks, last)
    {
      if b < n {
        var v := WordOf(enc, b, blocks, last);
        forall j | 0 <= j < |v| ensures WordOf(enc', b, blocks, last)[j] == v[j] {
          MapInRange(b, j, blocks, last);
          var k := MapIndex(b, j, blocks, last);
          forall i | 0 <= i < |w| ensures k != MapIndex(n, i, blocks, last) {
            if k == MapIndex(n, i, blocks, last) { MapInjective(b, j, n, i, blocks, last); }
          }
        }
        assert words'[b] == words[b];
      } else {
        assert w == WordOf(enc', n, blocks, last);
      }
    }
  }

  /** What was laid out can be read off, if the last chunk is incomplete. */
  lemma {:induction false} LayoutStored(file: seq<bv8>, words: seq<seq<bv8>>, blocks: nat, last: nat)
    requires |file| % DATA_SIZE != 0 && blocks == BlockCount(EncodedSize(|file|)) && last == LastSize(|file|)
    requires |words| <= blocks && AreBlocks(file, words)
    ensures Stored(file, words, LayoutOf(words, EncodedSize(|file|), blocks, last), blocks, last)
    decreases |words|
  {
    hide IsBlock, MapIndex, Total, WordOf, Laid;
    var size := EncodedSize(|file|);
    Geometry(|file|);
    if words != [] {
      var n := |words| - 1;
      var front, w := words[..n], words[n];
      assert words == front + [w];
      LayoutStored(file, front, blocks, last);
      var enc := LayoutOf(front, size, blocks, last);
      var enc' := LayoutOf(words, size, blocks, last);
      LayoutNext(front, w, size, blocks, last);
      ChunkSize(file, n);
      BlockSize(file, n, w);
      forall i | 0 <= i < |w|
        ensures 0 <= MapIndex(n, i, blocks, last) < size && enc'[MapIndex(n, i, blocks, last)] == w[i]
      {
        MapInRange(n, i, blocks, last);
        LaidAt(enc, w, |w|, n, blocks, last, i);
      }
      forall k | 0 <= k < size && forall i :: 0 <= i < |w| ==> k != MapIndex(n, i, blocks, last)
        ensures enc'[k] == enc[k]
      {
        LaidElsewhere(enc, w, |w|, n, blocks, last, k);
      }
      StoredStep(file, front, enc, enc', blocks, last, w);
    }
  }

  lemma BlockSize(file: seq<bv8>, b: nat, w: seq<bv8>)
    requires IsBlock(file, b, w)
    ensures b * DATA_SIZE <= |file| && |w| == |Chunk(file, b)| + NPAR
  {}

  /** If the last chunk is incomplete, every code word can be read off the encoded file. */
  lemma EncodedReadable(file: seq<bv8>, enc: seq<bv8>)
    requires EncodesTo(file, enc) && |file| % DATA_SIZE != 0
    ensures IsEncoding(file, enc)
  {
    hide IsBlock, MapIndex, Total, WordOf, LayoutOf;
    var words: seq<seq<bv8>> :| IsEncoded(file, words, enc);
    Geometry(|file|);
    LayoutStored(file, words, BlockCount(|enc|), LastSize(|file|));
  }

  // ----- decoder -----

  /** The received file has the size of the encoding of file, and every code word in it is within
      half the designed distance of the one that was stored. */
  ghost predicate Close(file: seq<bv8>, received: seq<bv8>) {
    && |file| % DATA_SIZE != 0 && |received| == EncodedSize(|file|)
    && exists enc: seq<bv8> :: IsEncoding(file, enc) && |enc| == |received|
         && WordsClose(enc, received, BlockCount(|enc|), LastSize(|file|))
  }

  ghost predicate WordsClose(enc: seq<bv8>, received: seq<bv8>, blocks: nat, last: nat) {
    && last <= BLOCK_SIZE && |enc| == |received| == Total(blocks, last)
    && forall b: nat :: b < blocks ==>
         2 * Distance(WordOf(enc, b, blocks, last), WordOf(received, b, blocks, last)) <= NPAR
  }

  /** A word within half the distance of a code word becomes it. */
  ghost predicate Restores(before: seq<bv8>, after: seq<bv8>) {
    |after| == |before|
    && forall c: seq<bv8> :: IsCodeword(c) && |c| == |before| && 2 * Distance(c, before) <= NPAR ==> after == c
  }

  lemma RepairedRestores(w: seq<bv8>)
    requires |w| <= 255
    ensures Restores(w, Repaired(w))
  {
    hide IsCodeword, Distance, Repaired;
    forall c: seq<bv8> | IsCodeword(c) && |c| == |w| && 2 * Distance(c, w) <= NPAR ensures Repaired(w) == c {
      RepairedInRadius(c, w);
    }
  }

  /** Sizes the decoder can split into code words: no last word shorter than its parity. */
  predicate Decodable(size: nat) {
    size % BLOCK_SIZE == 0 || size % BLOCK_SIZE >= NPAR
  }

  class Decoder {
    const codec: Rscode
    const input: seq<bv8>
    const deInterleaved: array<bv8>
    var written: seq<bv8>

    ghost predicate Valid()
      reads codec.gexp, codec.glog, codec.genPoly
    {
      && codec.Shape() && codec.Ready()
      && deInterleaved.Length == |input| && deInterleaved !in codec.Repr()
    }

    constructor (codec: Rscode, received: seq<bv8>)
      requires codec.Shape() && codec.Ready()
      ensures Valid() && this.codec == codec && input == received && written == []
      ensures fresh(deInterleaved) && forall k :: 0 <= k < |input| ==> deInterleaved[k] == 0
    {
      hide Rscode.Ready, Rscode.Tables;
      this.codec := codec;
      input := received;
      deInterleaved := new bv8[|received|](_ => 0);
      written := [];
    }

    /** Gathers the symbols of every code word. */
    method DeInterleave()
      requires Valid() && BLOCK_SIZE * BlockCount(|input|) < 0x8000_0000
      requires forall k :: 0 <= k < |input| ==> deInterleaved[k] == 0
      modifies deInterleaved
      ensures Gathered(deInterleaved[..], input, BlockCount(|input|))
    {
      hide MapIndex, Total, WordOf, Gathered, SymbolsOf;
      var size := |input|;
      var blocks := BlockCount(size);
      var lastBlockSize := size % BLOCK_SIZE;
      var dataLength := DATA_SIZE;
      ReceivedGeometry(size);
      GatheredNone(deInterleaved[..], input);
      for j := 0 to blocks
        invariant j < blocks ==> dataLength == DATA_SIZE
        invariant Gathered(deInterleaved[..], input, j)
        invariant forall k :: j * BLOCK_SIZE <= k < size && 0 <= k ==> deInterleaved[k] == 0
      {
        if j == blocks - 1 {
          dataLength := lastBlockSize - NPAR;
        }
        ghost var before := deInterleaved[..];
        GatherWord(j, dataLength + NPAR, blocks, lastBlockSize);
        WordFits(size, j);
        GatheredStep(before, input, j);
      }
    }

    /** Gathers the first len symbols of code word j. */
    method GatherWord(j: nat, len: nat, blocks: nat, last: nat)
      requires Valid() && blocks == BlockCount(|input|) && last == |input| % BLOCK_SIZE
      requires j < blocks && BLOCK_SIZE * blocks < 0x8000_0000
      requires len == WordSize(j, blocks, last)
      modifies deInterleaved
      ensures j * BLOCK_SIZE + len <= |input|
      ensures deInterleaved[..] == Patch(old(deInterleaved[..]), j * BLOCK_SIZE, SymbolsOf(input, j))
    {
      hide MapIndex, Total, Patch;
      ghost var before, w := deInterleaved[..], SymbolsOf(input, j);
      WordFits(|input|, j);
      PatchNone(before, j * BLOCK_SIZE, w);
      for i := 0 to len
        invariant deInterleaved[..] == Patch(before, j * BLOCK_SIZE, w[..i])
      {
        GatherRange(|input|, j, i);
        var map_ := (j + i * blocks) % 0x1_0000_0000;
        if i > last {
          map_ := (map_ - (i - last)) % 0x1_0000_0000;
        }
        NoWrap(j, i, blocks, last, map_);
        PatchStep(before, j * BLOCK_SIZE, w, i);
        deInterleaved[i + j * BLOCK_SIZE] := input[map_];
      }
      assert w[..len] == w;
    }

    /** Decodes and repairs the len bytes at off in place, whatever they are. */
    method DecodeWord(off: nat, len: nat)
      requires Valid() && off + len <= |input| && len <= BLOCK_SIZE
      modifies deInterleaved, codec`nErrors, codec.errorLocs, codec.lambda, codec.omega, codec.synBytes
      ensures deInterleaved[off..off + len] == Repaired(old(deInterleaved[off..off + len]))
      ensures Restores(old(deInterleaved[off..off + len]), deInterleaved[off..off + len])
      ensures deInterleaved[..off] == old(deInterleaved[..off]) && deInterleaved[off + len..] == old(deInterleaved[off + len..])
    {
      hide SyndromeOf, Restores, Corrects, Repaired, Correctable, LocatorFound, EvaluatorFound;
      ghost var w, front, rest := deInterleaved[off..off + len], deInterleaved[..off], deInterleaved[off + len..];
      codec.DecodeData(deInterleaved, off, len);
      assert forall k :: 0 <= k < deInterleaved.Length ==> deInterleaved[k] == old(deInterleaved[k]);
      assert deInterleaved[off..off + len] == w && deInterleaved[..off] == front && deInterleaved[off + len..] == rest;
      var nz := codec.CheckSyndrome();
      if nz != 0 {
        var status := codec.CorrectErrors(deInterleaved, off, len);
      } else {
        assert codec.synBytes[..NPAR] == Zeros(NPAR);
        ZeroSyndromeStays(w);
      }
      RepairedRestores(w);
    }

    /** Writes the data bytes of every decoded code word. */
    method DecodeInput()
      requires Valid() && Decodable(|input|) && BLOCK_SIZE * BlockCount(|input|) < 0x8000_0000
      requires written == [] && forall k :: 0 <= k < |input| ==> deInterleaved[k] == 0
      modifies this`written, deInterleaved
      modifies codec`nErrors, codec.errorLocs, codec.lambda, codec.omega, codec.synBytes
      ensures DecodesTo(input, written)
      ensures forall file :: Close(file, input) ==> written == file
      ensures |input| > 0 && |input| % BLOCK_SIZE == 0 ==> EndsInZeros(written)
      ensures input == [] ==> written == []
    {
      hide SyndromeOf, Repaired, Gathered, Close, EndsInZeros, Joined, DataOf, WordGathered, DecodesTo;
      DeInterleave();
      ghost var data := deInterleaved[..];
      var size := |input|;
      var decoded, blockLength, writeSize := 0, BLOCK_SIZE, DATA_SIZE;
      ghost var afters: seq<seq<bv8>> := [];
      JoinedNone();
      while decoded < size
        invariant decoded <= size && |afters| * BLOCK_SIZE >= decoded && |afters| <= BlockCount(size)
        invariant decoded < size ==> decoded == |afters| * BLOCK_SIZE && blockLength == BLOCK_SIZE && writeSize == DATA_SIZE
        invariant deInterleaved[decoded..] == data[decoded..]
        invariant Decoded(input, afters) && written == Joined(afters)
      {
        if blockLength + decoded >= size {
          blockLength := size - decoded;
          writeSize := blockLength - NPAR;
        }
        LastBlock(size, decoded, |afters|, blockLength);
        ghost var after := DecodeBlock(decoded, blockLength, writeSize, |afters|, data);
        JoinedNext(afters, after);
        afters := afters + [after];
        decoded := decoded + blockLength;
      }
      assert DecodesTo(input, written) by { DecodedAll(input, afters, written); }
      forall file | Close(file, input) ensures written == file { CloseDecodes(file, input, written); }
      if size > 0 && size % BLOCK_SIZE == 0 { LastZeros(input, written); }
      if size == 0 { NothingDecodes(input, written); }
    }

    /** Decodes word n, of len bytes, and writes its data bytes. */
    method DecodeBlock(decoded: nat, len: nat, writeSize: nat, ghost n: nat, ghost data: seq<bv8>)
      returns (ghost after: seq<bv8>)
      requires Valid() && Decodable(|input|) && |data| == |input| && decoded == n * BLOCK_SIZE < |input|
      requires len == if BLOCK_SIZE + decoded >= |input| then |input| - decoded else BLOCK_SIZE
      requires NPAR <= len <= BLOCK_SIZE && writeSize == len - NPAR && n < BlockCount(|input|)
      requires deInterleaved[decoded..] == data[decoded..] && Gathered(data, input, BlockCount(|input|))
      modifies this`written, deInterleaved
      modifies codec`nErrors, codec.errorLocs, codec.lambda, codec.omega, codec.synBytes
      ensures deInterleaved[decoded + len..] == data[decoded + len..]
      ensures after == Repaired(WordGathered(input, n)) && written == old(written) + DataOf(after)
    {
      hide SyndromeOf, Restores, Repaired, Gathered, Decodable, WordGathered;
      assert deInterleaved[decoded..decoded + len] == data[decoded..decoded + len] by {
        assert deInterleaved[decoded..][..len] == data[decoded..][..len];
      }
      assert deInterleaved[decoded + len..] == data[decoded + len..] by {
        assert deInterleaved[decoded..][len..] == data[decoded..][len..];
      }
      DecodeWord(decoded, len);
      after := deInterleaved[decoded..decoded + len];
      SliceTake(deInterleaved[..], decoded, len, writeSize);
      assert deInterleaved[decoded..decoded + writeSize] == after[..|after| - NPAR];
      GatheredWord(data, input, n, len);
      written := written + deInterleaved[decoded..decoded + writeSize];
    }
  }

  ghost predicate EndsInZeros(s: seq<bv8>) {
    |s| >= DATA_SIZE && s[|s| - DATA_SIZE..] == Zeros(DATA_SIZE)
  }

  lemma {:induction false} HornerZeros(n: nat, x: bv8)
    ensures Horner(Zeros(n), x) == 0
  {
    hide Add, Mul;
    if n != 0 {
      HornerZeros(n - 1, x);
      assert Zeros(n)[..n - 1] == Zeros(n - 1);
      MulZero(x, 0); AddZero(0);
    }
  }

  lemma LastBlock(size: nat, decoded: nat, n: nat, len: nat)
    requires decoded < size && decoded == n * BLOCK_SIZE && Decodable(size)
    requires len == if BLOCK_SIZE + decoded >= size then size - decoded else BLOCK_SIZE
    ensures n < BlockCount(size) && NPAR <= len <= BLOCK_SIZE
    ensures decoded + len == size && size % BLOCK_SIZE == 0 ==> len == BLOCK_SIZE
    ensures size % BLOCK_SIZE != 0 ==> len == WordSize(n, BlockCount(size), size % BLOCK_SIZE)
    ensures decoded + len == size || decoded + len == (n + 1) * BLOCK_SIZE
    ensures (n + 1) * BLOCK_SIZE >= decoded + len
  {
    ReceivedGeometry(size);
  }

  // ----- what is written -----

  /** Code word j as the decoder gathers it; of a file whose size is a multiple of the block size, nothing
      is gathered for the last one. */
  function WordGathered(received: seq<bv8>, j: nat): (w: seq<bv8>)
    requires j < BlockCount(|received|)
  {
    if |received| % BLOCK_SIZE == 0 && j + 1 == BlockCount(|received|) then Zeros(BLOCK_SIZE) else SymbolsOf(received, j)
  }

  /** The data part of a decoded word. */
  function DataOf(w: seq<bv8>): seq<bv8> {
    if |w| >= NPAR then w[..|w| - NPAR] else []
  }

  function Joined(afters: seq<seq<bv8>>): seq<bv8>
    decreases |afters|
  {
    if afters == [] then [] else Joined(afters[..|afters| - 1]) + DataOf(afters[|afters| - 1])
  }

  /** The words afters are what the first code words of the received file decode to. */
  ghost predicate Decoded(received: seq<bv8>, afters: seq<seq<bv8>>) {
    |afters| <= BlockCount(|received|) && forall j :: 0 <= j < |afters| ==> afters[j] == Repaired(WordGathered(received, j))
  }

  lemma WordGatheredSize(received: seq<bv8>, j: nat)
    requires j < BlockCount(|received|)
    ensures |WordGathered(received, j)| <= BLOCK_SIZE
  {
    hide MapIndex;
  }

  lemma DecodedRestores(received: seq<bv8>, afters: seq<seq<bv8>>, j: nat)
    requires Decoded(received, afters) && j < |afters|
    ensures j < BlockCount(|received|) && Restores(WordGathered(received, j), afters[j])
  {
    hide WordGathered, Restores, Repaired;
    WordGatheredSize(received, j);
    RepairedRestores(WordGathered(received, j));
  }

  /** What is written is a function of what was received, for every size and every damage. */
  lemma DecodingUnique(received: seq<bv8>, data: seq<bv8>, data': seq<bv8>)
    requires DecodesTo(received, data) && DecodesTo(received, data')
    ensures data == data'
  {
    hide WordGathered, Repaired, Joined;
    var afters: seq<seq<bv8>> :| |afters| == BlockCount(|received|) && Decoded(received, afters) && data == Joined(afters);
    var afters': seq<seq<bv8>> :| |afters'| == BlockCount(|received|) && Decoded(received, afters') && data' == Joined(afters');
    assert afters == afters';
  }

  /** What the decoder promises about its output, whatever the size of its input. */
  ghost predicate DecodesTo(received: seq<bv8>, data: seq<bv8>) {
    exists afters: seq<seq<bv8>> :: |afters| == BlockCount(|received|) && Decoded(received, afters) && data == Joined(afters)
  }

  lemma JoinedNone()
    ensures Joined([]) == []
  {}

  lemma JoinedNext(afters: seq<seq<bv8>>, after: seq<bv8>)
    ensures Joined(afters + [after]) == Joined(afters) + DataOf(after)
  {
    hide DataOf;
    assert (afters + [after])[..|afters|] == afters;
  }

  lemma DecodedAll(received: seq<bv8>, afters: seq<seq<bv8>>, written: seq<bv8>)
    requires Decoded(received, afters) && written == Joined(afters) && |afters| * BLOCK_SIZE >= |received|
    ensures DecodesTo(received, written)
  {
    hide Decoded, Joined;
    assert |afters| <= BlockCount(|received|) by { DecodedCount(received, afters); }
  }

  lemma DecodedCount(received: seq<bv8>, afters: seq<seq<bv8>>)
    requires Decoded(received, afters)
    ensures |afters| <= BlockCount(|received|)
  {}

  function Take(s: seq<bv8>, n: nat): seq<bv8> {
    if n <= |s| then s[..n] else s
  }

  lemma SliceTake(s: seq<bv8>, from: nat, len: nat, m: nat)
    requires from + len <= |s| && m <= len
    ensures s[from..from + m] == s[from..from + len][..m]
  {}

  lemma SymbolsAreWord(received: seq<bv8>, j: nat)
    requires j < BlockCount(|received|) && |received| % BLOCK_SIZE != 0
    ensures var blocks, last := BlockCount(|received|), |received| % BLOCK_SIZE;
      |received| == Total(blocks, last) && WordGathered(received, j) == WordOf(received, j, blocks, last)
  {
    hide MapIndex, Total;
    ReceivedGeometry(|received|);
  }

  /** The data part of the restored word n is chunk n of the file. */
  lemma NextChunk(file: seq<bv8>, received: seq<bv8>, n: nat, after: seq<bv8>)
    requires Close(file, received) && n < BlockCount(|received|) && Restores(WordGathered(received, n), after)
    ensures n * DATA_SIZE <= |file| && DataOf(after) == Chunk(file, n)
  {
    hide IsCodeword, Distance, WordGathered, Chunk, MapIndex, WordOf;
    Geometry(|file|);
    SymbolsAreWord(received, n);
    var enc :| IsEncoding(file, enc) && |enc| == |received|
      && WordsClose(enc, received, BlockCount(|enc|), LastSize(|file|));
    var c := WordOf(enc, n, BlockCount(|enc|), LastSize(|file|));
    assert IsBlock(file, n, c);
    assert after == c;
  }

  lemma {:induction false} CloseJoins(file: seq<bv8>, received: seq<bv8>, afters: seq<seq<bv8>>)
    requires Close(file, received) && Decoded(received, afters)
    ensures Joined(afters) == Take(file, |afters| * DATA_SIZE)
    decreases |afters|
  {
    hide Close, Restores, Repaired, WordGathered, DataOf, Chunk, Take;
    if afters == [] {
      TakeNone(file);
    } else {
      var n := |afters| - 1;
      CloseJoins(file, received, afters[..n]);
      DecodedRestores(received, afters, n);
      NextChunk(file, received, n, afters[n]);
      TakeNext(file, n);
    }
  }

  lemma TakeNone(file: seq<bv8>)
    ensures Take(file, 0) == []
  {}

  lemma TakeNext(file: seq<bv8>, n: nat)
    requires n * DATA_SIZE <= |file|
    ensures Take(file, n * DATA_SIZE) + Chunk(file, n) == Take(file, (n + 1) * DATA_SIZE)
  {}

  /** A file that is close to an encoding decodes to the file encoded. */
  lemma CloseDecodes(file: seq<bv8>, received: seq<bv8>, data: seq<bv8>)
    requires Close(file, received) && DecodesTo(received, data)
    ensures data == file
  {
    hide Decoded, Joined;
    var afters: seq<seq<bv8>> :| |afters| == BlockCount(|received|) && Decoded(received, afters) && data == Joined(afters);
    CloseJoins(file, received, afters);
    CloseLength(file, received);
  }

  lemma CloseLength(file: seq<bv8>, received: seq<bv8>)
    requires Close(file, received)
    ensures BlockCount(|received|) * DATA_SIZE >= |file|
  {
    hide WordsClose, IsEncoding;
    Geometry(|file|);
  }

  lemma NothingDecodes(received: seq<bv8>, data: seq<bv8>)
    requires received == [] && DecodesTo(received, data)
    ensures data == []
  {
    hide Restores;
  }

  /** A word of zeros stays as it is. */
  lemma ZeroRestored(n: nat, after: seq<bv8>)
    requires Restores(Zeros(n), after)
    ensures after == Zeros(n)
  {
    hide Distance, IsCodeword;
    DistanceZero(Zeros(n), Zeros(n));
    ZeroCodeword(n);
  }

  lemma ZeroCodeword(n: nat)
    ensures IsCodeword(Zeros(n))
  {
    hide Horner, Alpha;
    forall j | 1 <= j <= NPAR ensures Horner(Zeros(n), Alpha(j)) == 0 { HornerZeros(n, Alpha(j)); }
  }

  lemma {:induction false} JoinedLength(received: seq<bv8>, afters: seq<seq<bv8>>)
    requires |received| % BLOCK_SIZE == 0 && Decoded(received, afters)
    ensures |Joined(afters)| == |afters| * DATA_SIZE
    decreases |afters|
  {
    if afters != [] {
      var n := |afters| - 1;
      hide Decoded, Restores, WordGathered;
      DecodedFront(received, afters);
      JoinedLength(received, afters[..n]);
    }
  }

  lemma DecodedFront(received: seq<bv8>, afters: seq<seq<bv8>>)
    requires afters != [] && Decoded(received, afters)
    ensures Decoded(received, afters[..|afters| - 1])
    ensures |received| % BLOCK_SIZE == 0 ==> |afters[|afters| - 1]| == BLOCK_SIZE
  {
    hide MapIndex;
    DecodedRestores(received, afters, |afters| - 1);
    hide Repaired;
  }

  /** If the size is a multiple of the block size, the last chunk written is zero. */
  lemma LastZeros(received: seq<bv8>, data: seq<bv8>)
    requires |received| > 0 && |received| % BLOCK_SIZE == 0 && DecodesTo(received, data)
    ensures EndsInZeros(data) && |data| == |received| / BLOCK_SIZE * DATA_SIZE
  {
    hide Restores;
    var afters: seq<seq<bv8>> :| |afters| == BlockCount(|received|) && Decoded(received, afters) && data == Joined(afters);
    var n := |afters| - 1;
    ReceivedGeometry(|received|);
    DecodedRestores(received, afters, n);
    ZeroRestored(BLOCK_SIZE, afters[n]);
    JoinedLength(received, afters);
  }

  lemma GatheredZeros(received: seq<bv8>, j: nat)
    requires |received| % BLOCK_SIZE == 0 && received == Zeros(|received|) && j < BlockCount(|received|)
    ensures WordGathered(received, j) == Zeros(BLOCK_SIZE)
  {
    hide MapIndex;
    if j + 1 < BlockCount(|received|) {
      var w := SymbolsOf(received, j);
      forall i | 0 <= i < |w| ensures w[i] == 0 { GatherRange(|received|, j, i); }
    }
  }

  lemma {:induction false} ZerosJoin(received: seq<bv8>, afters: seq<seq<bv8>>)
    requires |received| % BLOCK_SIZE == 0 && received == Zeros(|received|) && Decoded(received, afters)
    ensures Joined(afters) == Zeros(|afters| * DATA_SIZE)
    decreases |afters|
  {
    if afters != [] {
      var n := |afters| - 1;
      hide Restores, WordGathered;
      DecodedRestores(received, afters, n);
      DecodedFront(received, afters);
      hide Decoded;
      ZerosJoin(received, afters[..n]);
      GatheredZeros(received, n);
      ZeroRestored(BLOCK_SIZE, afters[n]);
      assert DataOf(afters[n]) == Zeros(DATA_SIZE);
    }
  }

  /** A file of zeros decodes to zeros. */
  lemma ZerosDecode(received: seq<bv8>, data: seq<bv8>)
    requires |received| % BLOCK_SIZE == 0 && received == Zeros(|received|) && DecodesTo(received, data)
    ensures data == Zeros(|received| / BLOCK_SIZE * DATA_SIZE)
  {
    hide Decoded, Joined;
    var afters: seq<seq<bv8>> :| |afters| == BlockCount(|received|) && Decoded(received, afters) && data == Joined(afters);
    ZerosJoin(received, afters);
    ReceivedGeometry(|received|);
  }

  /** s with the bytes from base on replaced by w. */
  function Patch(s: seq<bv8>, base: nat, w: seq<bv8>): (r: seq<bv8>)
    requires base + |w| <= |s|
    ensures |r| == |s|
  {
    s[..base] + w + s[base + |w|..]
  }

  lemma PatchNone(s: seq<bv8>, base: nat, w: seq<bv8>)
    requires base <= |s|
    ensures Patch(s, base, w[..0]) == s
  {}

  lemma PatchStep(s: seq<bv8>, base: nat, w: seq<bv8>, i: nat)
    requires base + |w| <= |s| && i < |w|
    ensures Patch(s, base, w[..i])[base + i := w[i]] == Patch(s, base, w[..i + 1])
  {}

  /** The symbols of code word j of a received file of any size. */
  function SymbolsOf(received: seq<bv8>, j: nat): (w: seq<bv8>)
    requires j < BlockCount(|received|)
    ensures |w| == WordSize(j, BlockCount(|received|), |received| % BLOCK_SIZE)
  {
    var blocks, last := BlockCount(|received|), |received| % BLOCK_SIZE;
    seq(WordSize(j, blocks, last), i requires 0 <= i < WordSize(j, blocks, last) =>
      GatherRange(|received|, j, i); received[MapIndex(j, i, blocks, last)])
  }

  /** The first n code words of the received file are in place. */
  ghost predicate Gathered(data: seq<bv8>, received: seq<bv8>, n: nat) {
    && |data| == |received| && n <= BlockCount(|received|)
    && forall b: nat :: b < n ==> WordIn(data, b) == WordGathered(received, b)
  }

  /** Code word b of a de-interleaved file. */
  function WordIn(data: seq<bv8>, b: nat): seq<bv8> {
    if (b + 1) * BLOCK_SIZE <= |data| then data[b * BLOCK_SIZE..(b + 1) * BLOCK_SIZE]
    else if b * BLOCK_SIZE <= |data| then data[b * BLOCK_SIZE..]
    else []
  }

  lemma ReceivedGeometry(size: nat)
    ensures var blocks, last := BlockCount(size), size % BLOCK_SIZE;
      && (last != 0 ==> size == Total(blocks, last) && blocks == size / BLOCK_SIZE + 1)
      && (last == 0 ==> size == blocks * BLOCK_SIZE)
  {}

  lemma GatherRange(size: nat, j: nat, i: nat)
    requires j < BlockCount(size) && i < WordSize(j, BlockCount(size), size % BLOCK_SIZE)
    ensures 0 <= MapIndex(j, i, BlockCount(size), size % BLOCK_SIZE) < size
    ensures i + j * BLOCK_SIZE < size
    ensures size % BLOCK_SIZE == 0 ==> i + j * BLOCK_SIZE < size - BLOCK_SIZE
  {
    var blocks, last := BlockCount(size), size % BLOCK_SIZE;
    ReceivedGeometry(size);
    if last != 0 {
      MapInRange(j, i, blocks, last);
    } else {
      MulMono(i + 1, BLOCK_SIZE, blocks); MulSplit(i, 1, blocks); MulMono(1, blocks, i);
      MulMono(j + 2, blocks, BLOCK_SIZE);
    }
  }

  lemma WordFits(size: nat, j: nat)
    requires j < BlockCount(size)
    ensures j * BLOCK_SIZE + WordSize(j, BlockCount(size), size % BLOCK_SIZE) <= size
    ensures size % BLOCK_SIZE == 0 ==>
      j * BLOCK_SIZE + WordSize(j, BlockCount(size), size % BLOCK_SIZE) <= size - BLOCK_SIZE
  {
    ReceivedGeometry(size);
    if j + 1 < BlockCount(size) { MulMono(j + 2, BlockCount(size), BLOCK_SIZE); }
  }

  lemma GatheredNone(data: seq<bv8>, received: seq<bv8>)
    requires |data| == |received|
    ensures Gathered(data, received, 0)
  {}

  lemma GatheredStep(before: seq<bv8>, received: seq<bv8>, j: nat)
    requires Gathered(before, received, j) && j < BlockCount(|received|)
    requires j * BLOCK_SIZE + |SymbolsOf(received, j)| <= |before|
    requires forall k :: j * BLOCK_SIZE <= k < |before| && 0 <= k ==> before[k] == 0
    ensures Gathered(Patch(before, j * BLOCK_SIZE, SymbolsOf(received, j)), received, j + 1)
  {
    hide MapIndex, Total;
    var w := SymbolsOf(received, j);
    var after := Patch(before, j * BLOCK_SIZE, w);
    ReceivedGeometry(|received|);
    forall b: nat | b < j + 1 ensures WordIn(after, b) == WordGathered(received, b) {
      if b < j {
        MulMono(b + 1, j, BLOCK_SIZE);
        assert WordIn(after, b) == WordIn(before, b);
      } else {
        GatheredHere(before, received, j);
      }
    }
  }

  lemma GatheredHere(before: seq<bv8>, received: seq<bv8>, j: nat)
    requires |before| == |received| && j < BlockCount(|received|)
    requires j * BLOCK_SIZE + |SymbolsOf(received, j)| <= |before|
    requires forall k :: j * BLOCK_SIZE <= k < |before| && 0 <= k ==> before[k] == 0
    ensures WordIn(Patch(before, j * BLOCK_SIZE, SymbolsOf(received, j)), j) == WordGathered(received, j)
  {
    hide MapIndex, Total, SymbolsOf;
    var w := SymbolsOf(received, j);
    var after := Patch(before, j * BLOCK_SIZE, w);
    var base := j * BLOCK_SIZE;
    ReceivedGeometry(|received|);
    if |received| % BLOCK_SIZE == 0 && j + 1 == BlockCount(|received|) {
      assert w == [] && after == before;
      assert before[base..base + BLOCK_SIZE] == Zeros(BLOCK_SIZE);
    } else if base + BLOCK_SIZE <= |received| {
      assert |w| == BLOCK_SIZE && after[base..base + BLOCK_SIZE] == w;
    } else {
      assert base + |w| == |received| && after[base..] == w;
    }
  }

  lemma GatheredWord(data: seq<bv8>, received: seq<bv8>, n: nat, len: nat)
    requires Gathered(data, received, BlockCount(|received|)) && n < BlockCount(|received|)
    requires n * BLOCK_SIZE < |received|
    requires len == if BLOCK_SIZE + n * BLOCK_SIZE >= |received| then |received| - n * BLOCK_SIZE else BLOCK_SIZE
    ensures |data| == |received| && data[n * BLOCK_SIZE..n * BLOCK_SIZE + len] == WordGathered(received, n)
  {
    hide WordGathered;
    assert WordIn(data, n) == WordGathered(received, n);
  }

  // ----- end to end -----

  /** A burst that damages at most NPAR / 2 symbols of each code word leaves the file close. */
  lemma BurstClose(file: seq<bv8>, enc: seq<bv8>, received: seq<bv8>, start: nat, len: nat)
    requires IsEncoding(file, enc) && Burst(enc, received, start, len)
    requires len <= NPAR / 2 * Stride(BlockCount(|enc|))
    ensures Close(file, received)
  {
    hide Distance, WordOf, MapIndex, IsBlock, Stride;
    Geometry(|file|);
    var blocks, last := BlockCount(|enc|), LastSize(|file|);
    forall b: nat | b < blocks
      ensures 2 * Distance(WordOf(enc, b, blocks, last), WordOf(received, b, blocks, last)) <= NPAR
    {
      BurstSpread(enc, received, start, len, NPAR / 2, b, blocks, last);
    }
  }

  /** Whatever encoder and decoder that keep their promises do to the file, it comes back. */
  ghost predicate Survives(file: seq<bv8>) {
    forall enc: seq<bv8>, data: seq<bv8> :: EncodesTo(file, enc) && DecodesTo(enc, data) ==> data == file
  }

  /** Whatever they do, it does not. */
  ghost predicate Lost(file: seq<bv8>) {
    forall enc: seq<bv8>, data: seq<bv8> :: EncodesTo(file, enc) && DecodesTo(enc, data) ==> data != file
  }

  ghost predicate Lossless(size: nat) {
    forall file: seq<bv8> :: |file| == size ==> Survives(file)
  }

  ghost predicate Lossy(size: nat) {
    exists file: seq<bv8> :: |file| == size && Lost(file)
  }

  lemma IncompleteSurvives(file: seq<bv8>)
    requires |file| % DATA_SIZE != 0
    ensures Survives(file)
  {
    hide EncodesTo, DecodesTo, IsEncoding, Close;
    forall enc, data | EncodesTo(file, enc) && DecodesTo(enc, data) ensures data == file {
      EncodedReadable(file, enc);
      Undamaged(file, enc);
      CloseDecodes(file, enc, data);
    }
  }

  lemma Undamaged(file: seq<bv8>, enc: seq<bv8>)
    requires IsEncoding(file, enc)
    ensures Close(file, enc)
  {
    BurstClose(file, enc, enc, 0, 0);
  }

  lemma EncodedLength(file: seq<bv8>, enc: seq<bv8>)
    requires EncodesTo(file, enc)
    ensures |enc| == EncodedSize(|file|)
  {
    hide LayoutOf, IsBlock;
  }

  lemma EmptySurvives()
    ensures Survives([])
  {
    hide EncodesTo, DecodesTo;
    forall enc, data | EncodesTo([], enc) && DecodesTo(enc, data) ensures data == [] {
      EncodedLength([], enc);
      NothingDecodes(enc, data);
    }
  }

  /** The code word of a chunk of zeros is zero. */
  lemma ZeroBlock(file: seq<bv8>, b: nat, w: seq<bv8>)
    requires file == Zeros(|file|) && IsBlock(file, b, w)
    ensures w == Zeros(|w|)
  {
    hide IsCodeword;
    ZeroCodeword(|w|);
    assert Zeros(|w|)[..|w| - NPAR] == Chunk(file, b);
    BlockUnique(file, b, w, Zeros(|w|));
  }

  lemma ZerosEncode(file: seq<bv8>, enc: seq<bv8>)
    requires file == Zeros(|file|) && EncodesTo(file, enc)
    ensures enc == Zeros(EncodedSize(|file|))
  {
    hide IsBlock, LayoutOf;
    var words: seq<seq<bv8>> :| IsEncoded(file, words, enc);
    forall w | w in words ensures w == Zeros(|w|) {
      var b: nat :| b < |words| && words[b] == w;
      ZeroBlock(file, b, w);
    }
    LayoutZeros(words, EncodedSize(|file|), BlockCount(EncodedSize(|file|)), LastSize(|file|));
  }

  /** A file of zeros comes back, whatever its size. */
  lemma ZerosSurvive(size: nat)
    ensures Survives(Zeros(size))
  {
    hide EncodesTo, DecodesTo;
    var file := Zeros(size);
    if size % DATA_SIZE != 0 {
      IncompleteSurvives(file);
    } else {
      FullGeometry(size);
      forall enc, data | EncodesTo(file, enc) && DecodesTo(enc, data) ensures data == file {
        ZerosEncode(file, enc);
        ZerosDecode(enc, data);
      }
    }
  }

  /** What comes back for a multiple of the data size has the size of the file, and its last chunk is zero. */
  lemma MultipleDecodes(file: seq<bv8>, enc: seq<bv8>, data: seq<bv8>)
    requires |file| > 0 && |file| % DATA_SIZE == 0 && EncodesTo(file, enc) && DecodesTo(enc, data)
    ensures EndsInZeros(data) && |data| == |file|
  {
    hide EncodesTo, DecodesTo, EndsInZeros;
    FullGeometry(|file|);
    EncodedLength(file, enc);
    LastZeros(enc, data);
  }

  lemma NonzeroEndLost(file: seq<bv8>)
    requires |file| > 0 && |file| % DATA_SIZE == 0 && !EndsInZeros(file)
    ensures Lost(file)
  {
    hide EncodesTo, DecodesTo, EndsInZeros;
    forall enc, data | EncodesTo(file, enc) && DecodesTo(enc, data) ensures data != file {
      MultipleDecodes(file, enc, data);
    }
  }

  /** A single full chunk survives exactly if it is zero. */
  lemma OneChunk(file: seq<bv8>)
    requires |file| == DATA_SIZE
    ensures if file == Zeros(DATA_SIZE) then Survives(file) else Lost(file)
  {
    hide Survives, Lost;
    if file == Zeros(DATA_SIZE) {
      ZerosSurvive(DATA_SIZE);
    } else {
      assert file[0..] == file;
      NonzeroEndLost(file);
    }
  }

  /** All files of a size come back if the last chunk is incomplete or there is none; of every other size
      there is a file that is lost. */
  lemma LosslessSizes(size: nat)
    ensures if size == 0 || size % 146 != 0 then Lossless(size) else Lossy(size)
  {
    hide Survives, Lost;
    if size == 0 || size % DATA_SIZE != 0 {
      forall file: seq<bv8> | |file| == size ensures Survives(file) {
        if size == 0 { EmptySurvives(); } else { IncompleteSurvives(file); }
      }
    } else {
      var file := seq(size, _ => 1 as bv8);
      assert file[size - DATA_SIZE..][0] == 1 && Zeros(DATA_SIZE)[0] == 0;
      NonzeroEndLost(file);
    }
  }

  /** The encoder program: a fresh codec, one file in, one encoded file out. */
  method EncodeFile(file: seq<bv8>) returns (enc: seq<bv8>)
    requires FitsInt(|file|)
    ensures EncodesTo(file, enc)
  {
    hide IsEncoding, EncodesTo, Rscode.Ready;
    var codec := new Rscode();
    var encoder := new Encoder(codec, file);
    encoder.EncodeInput();
    enc := encoder.encoded[..];
  }

  /** The decoder program: a fresh codec, one received file in, the repaired data out. */
  method DecodeFile(received: seq<bv8>) returns (data: seq<bv8>)
    requires Decodable(|received|) && BLOCK_SIZE * BlockCount(|received|) < 0x8000_0000
    ensures DecodesTo(received, data)
  {
    hide Close, EndsInZeros, DecodesTo, Rscode.Ready;
    var codec := new Rscode();
    var decoder := new Decoder(codec, received);
    decoder.DecodeInput();
    data := decoder.written;
  }

  function Overwrite(sent: seq<bv8>, start: nat, noise: seq<bv8>): (damaged: seq<bv8>)
    requires start + |noise| <= |sent|
    ensures |damaged| == |sent| && Burst(sent, damaged, start, |noise|)
    ensures noise == [] ==> damaged == sent
  {
    sent[..start] + noise + sent[start + |noise|..]
  }

  lemma SentDecodable(size: nat)
    ensures Decodable(EncodedSize(size)) && (EncodedSize(size) == 0 <==> size == 0)
    ensures size % DATA_SIZE == 0 ==> EncodedSize(size) % BLOCK_SIZE == 0
  {
    if size % DATA_SIZE != 0 { Geometry(size); } else { FullGeometry(size); }
  }

  /** Encodes a file, overwrites the encoded bytes from start on with noise, and decodes the result. A
      file of one code word may lose 54 bytes, one of more words 54 for each but one. */
  method SendThroughBurst(file: seq<bv8>, start: nat, noise: seq<bv8>) returns (received: seq<bv8>)
    requires FitsInt(|file|) && start + |noise| <= EncodedSize(|file|)
    ensures |file| % 146 != 0 && |noise| <= 54 * Stride(BlockCount(EncodedSize(|file|))) ==> received == file
    ensures |file| > 0 && |file| % DATA_SIZE == 0 ==> EndsInZeros(received)
    ensures file == [] ==> received == []
  {
    hide IsEncoding, Close, EndsInZeros, Burst, Decodable, EncodesTo, DecodesTo, Stride;
    var sent := EncodeFile(file);
    EncodedLength(file, sent);
    var damaged := Overwrite(sent, start, noise);
    SentDecodable(|file|);
    received := DecodeFile(damaged);
    if |file| % DATA_SIZE != 0 && |noise| <= NPAR / 2 * Stride(BlockCount(|sent|)) {
      EncodedReadable(file, sent);
      BurstClose(file, sent, damaged, start, |noise|);
      CloseDecodes(file, damaged, received);
    }
    if |file| > 0 && |file| % DATA_SIZE == 0 { LastZeros(damaged, received); }
    if file == [] { NothingDecodes(damaged, received); }
  }

  /** The undamaged round trip returns the file if its last chunk is incomplete or the file is zero, and
      does not if the last chunk is complete and not zero. */
  method RoundTrip(file: seq<bv8>) returns (received: seq<bv8>)
    requires FitsInt(|file|)
    ensures |file| % DATA_SIZE != 0 || file == Zeros(|file|) ==> received == file
    ensures |file| > 0 && |file| % DATA_SIZE == 0 && !EndsInZeros(file) ==> received != file
    ensures |file| == DATA_SIZE ==> (received == file <==> file == Zeros(DATA_SIZE))
  {
    hide EncodesTo, DecodesTo, EndsInZeros, Decodable;
    var sent := EncodeFile(file);
    EncodedLength(file, sent);
    SentDecodable(|file|);
    received := DecodeFile(sent);
    if |file| % DATA_SIZE != 0 {
      IncompleteSurvives(file);
    } else if file == Zeros(|file|) {
      ZerosSurvive(|file|);
    } else if |file| == DATA_SIZE {
      OneChunk(file);
    }
    if |file| > 0 && |file| % DATA_SIZE == 0 && !EndsInZeros(file) { NonzeroEndLost(file); }
  }
}

// The schedules over their own primitives: the SHA-256 stream, SHAKE over
// Keccak-f[1600], BLAKE3 over its compression. What the other modules prove for
// any compression or permutation is said here of the standards' own.
module Primitives {
  import opened Words
  import Stream
  import Pad
  import Md
  import MdStream
  import Sha256
  import Word64
  import KeccakF
  import Fips202
  import BlakeMix
  import Blake32
  import Blake3Tree
  import Blake3Modes
  import Blake3Streaming

  // ------------------------------------------------------------------------
  // SHA-256: FIPS 180-4, section 6.2

  function RegistersOf(h: seq<u32>): (r: Sha256.Registers)
    requires |h| == 8
  {
    Sha256.Registers(h[0], h[1], h[2], h[3], h[4], h[5], h[6], h[7])
  }

  function WordsOf(r: Sha256.Registers): (h: seq<u32>)
    ensures |h| == 8 && RegistersOf(h) == r
  {
    [r.a, r.b, r.c, r.d, r.e, r.f, r.g, r.h]
  }

  predicate Wide(blocks: seq<seq<u32>>)
  {
    forall i :: 0 <= i < |blocks| ==> |blocks[i]| == 16
  }

  // H^(i) from H^(i-1) and block i.
  function HashValue(k: seq<u32>, h0: Sha256.Registers, blocks: seq<seq<u32>>): (h: Sha256.Registers)
    requires |k| == 64 && Wide(blocks)
    decreases |blocks|
  {
    if |blocks| == 0 then h0
    else
      var n := |blocks| - 1;
      var before := HashValue(k, h0, blocks[..n]);
      Sha256.FeedForward(before, Sha256.Rounds(k, blocks[n], before, 64))
  }

  const SHA256_RULE := Pad.PadRule(64, Pad.BIT_LENGTH, 8, true)

  // Section 5.1.1: a one bit, the fewest zeros, the length in bits.
  function PaddedMessage(msg: seq<byte>): (p: seq<byte>)
  {
    msg + [0x80] + Zeros((55 - |msg|) % 64) + BytesBe(8 * |msg|, 8)
  }

  // Section 5.2.1: word j of block i, its first byte the most significant.
  function MessageWord(padded: seq<byte>, i: nat, j: nat): (w: u32)
    requires 64 * i + 64 <= |padded| && j < 16
  {
    BeValueOf4(padded[64 * i + 4 * j..64 * i + 4 * j + 4]);
    BeValue(padded[64 * i + 4 * j..64 * i + 4 * j + 4])
  }

  function MessageBlocks(padded: seq<byte>): (blocks: seq<seq<u32>>)
    ensures Wide(blocks)
  {
    seq(|padded| / 64, i requires 0 <= i < |padded| / 64 =>
      seq(16, j requires 0 <= j < 16 => MessageWord(padded, i, j)))
  }

  // Section 6.2: the last hash value's words in turn.
  function Sha256Hash(k: seq<u32>, h0: Sha256.Registers, msg: seq<byte>): (d: seq<byte>)
    requires |k| == 64
  {
    var h := HashValue(k, h0, MessageBlocks(PaddedMessage(msg)));
    BytesBe(h.a, 4) + BytesBe(h.b, 4) + BytesBe(h.c, 4) + BytesBe(h.d, 4)
    + BytesBe(h.e, 4) + BytesBe(h.f, 4) + BytesBe(h.g, 4) + BytesBe(h.h, 4)
  }

  lemma PaddedIs(msg: seq<byte>)
    ensures Pad.Padded(SHA256_RULE, msg) == PaddedMessage(msg) && |PaddedMessage(msg)| % 64 == 0
  {
    hide BytesBe;
    Pad.PadLenFits(SHA256_RULE, |msg|);
    FewestZeros(|msg|);
  }

  lemma FewestZeros(n: nat)
    ensures ((n + 8) / 64 + 1) * 64 - n - 9 == (55 - n) % 64
  {
    var blocks := (n + 8) / 64;
    assert 55 - n == -blocks * 64 + ((blocks + 1) * 64 - n - 9);
  }

  lemma BlocksAre(padded: seq<byte>)
    requires |padded| % 64 == 0
    ensures Stream.Blocks(true, 64, padded) == MessageBlocks(padded)
  {
    hide Stream.Blocks, BeValue;
    var cut, blocks := Stream.Blocks(true, 64, padded), MessageBlocks(padded);
    var n := |padded| / 64;
    Stream.BlocksSplit(true, 64, padded, n);
    assert padded[..n * 64] == padded;
    forall i | 0 <= i < n
      ensures cut[i] == blocks[i]
    {
      forall j | 0 <= j < 16
        ensures |cut[i]| == 16 && cut[i][j] == blocks[i][j]
      {
        Stream.BlocksTell(true, 64, padded, i, j);
      }
      assert cut[i][0] == blocks[i][0];
    }
  }

  lemma DigestWord(words: seq<u32>, i: nat)
    requires i < |words|
    ensures UnpackBe(words)[4 * i..4 * i + 4] == BytesBe(words[i], 4)
  {
    hide ByteOf;
    Md.LowWordDigits(0, words[i], 0);
  }

  lemma DigestIs(h: Sha256.Registers)
    ensures UnpackBe(WordsOf(h))
         == BytesBe(h.a, 4) + BytesBe(h.b, 4) + BytesBe(h.c, 4) + BytesBe(h.d, 4)
          + BytesBe(h.e, 4) + BytesBe(h.f, 4) + BytesBe(h.g, 4) + BytesBe(h.h, 4)
  {
    hide UnpackBe, BytesBe;
    var words := WordsOf(h);
    var d := UnpackBe(words);
    forall i | 0 <= i < 8
      ensures d[4 * i..4 * i + 4] == BytesBe(words[i], 4)
    {
      DigestWord(words, i);
    }
    assert d == d[4 * 0..4 * 0 + 4] + d[4 * 1..4 * 1 + 4] + d[4 * 2..4 * 2 + 4] + d[4 * 3..4 * 3 + 4]
              + d[4 * 4..4 * 4 + 4] + d[4 * 5..4 * 5 + 4] + d[4 * 6..4 * 6 + 4] + d[4 * 7..4 * 7 + 4];
  }

  // `compress`: block after block from a midstate.
  method CompressBlocks(state: Sha256.Registers, blocks: seq<seq<u32>>, k: seq<u32>) returns (h: Sha256.Registers)
    requires |k| == 64 && Wide(blocks)
    ensures h == HashValue(k, state, blocks)
  {
    hide Sha256.Rounds, Sha256.FeedForward;
    h := state;
    for i := 0 to |blocks|
      invariant h == HashValue(k, state, blocks[..i])
    {
      assert blocks[..i + 1][..i] == blocks[..i];
      h := Sha256.Compress(h, blocks[i], k);
    }
    assert blocks[..|blocks|] == blocks;
  }

  // The step as a total function of a midstate's words and a block's.
  function Step256(k: seq<u32>, h: seq<u32>, w: seq<u32>): (r: seq<u32>)
    requires |k| == 64
  {
    if |h| == 8 && |w| == 16 then
      WordsOf(Sha256.FeedForward(RegistersOf(h), Sha256.Rounds(k, w, RegistersOf(h), 64)))
    else h
  }

  function Sha256Family(k: seq<u32>, h0: Sha256.Registers): (md: Md.Family)
    requires |k| == 64
    ensures md.Valid() && md.rule == SHA256_RULE
  {
    Md.Family(SHA256_RULE, WordsOf(h0), (h, w) => Step256(k, h, w))
  }

  lemma {:induction false} FoldIsHashValue(k: seq<u32>, h0: Sha256.Registers, blocks: seq<seq<u32>>)
    requires |k| == 64 && Wide(blocks)
    ensures Md.Fold(Sha256Family(k, h0).compress, WordsOf(h0), blocks) == WordsOf(HashValue(k, h0, blocks))
    decreases |blocks|
  {
    hide Sha256.Rounds, Sha256.FeedForward;
    if |blocks| > 0 {
      FoldIsHashValue(k, h0, blocks[..|blocks| - 1]);
    }
  }

  // Any absorbs, then a finalize: FIPS 180-4's hash of everything absorbed.
  lemma Sha256StreamIsHash(k: seq<u32>, h0: Sha256.Registers, parts: seq<seq<byte>>, extras: seq<byte>)
    requires |k| == 64 && |Stream.Joined(parts)| + |extras| < 0x1_0000_0000
    ensures var md := Sha256Family(k, h0);
            MdStream.Finished(md, MdStream.AdvanceAll(md, MdStream.Init(md), parts), extras)
            == Sha256Hash(k, h0, Stream.Joined(parts) + extras)
  {
    hide MdStream.Finished, MdStream.AdvanceAll, HashValue, Md.Fold, Stream.Blocks, Stream.Joined, UnpackBe, WordsOf;
    var md, msg := Sha256Family(k, h0), Stream.Joined(parts) + extras;
    MdStream.StreamIsDigest(md, parts, extras);
    PaddedIs(msg);
    BlocksAre(PaddedMessage(msg));
    FoldIsHashValue(k, h0, MessageBlocks(PaddedMessage(msg)));
    DigestIs(HashValue(k, h0, MessageBlocks(PaddedMessage(msg))));
  }

  // ------------------------------------------------------------------------
  // Keccak-f[1600] under the byte sponge: FIPS 202

  function SplitRow(r: KeccakF.Row): (p: KeccakF.PairRow)
  {
    KeccakF.Pairs5(Word64.Split(r[0]), Word64.Split(r[1]), Word64.Split(r[2]), Word64.Split(r[3]), Word64.Split(r[4]))
  }

  function SplitGrid(a: KeccakF.Grid): (g: KeccakF.PairGrid)
  {
    KeccakF.PairRows5(SplitRow(a[0]), SplitRow(a[1]), SplitRow(a[2]), SplitRow(a[3]), SplitRow(a[4]))
  }

  // Section 3.3: the 24 rounds on the state's 25 lanes.
  function KeccakP(o: KeccakF.Offsets, rcs: seq<Word64.u64>, s: Fips202.Lanes): (r: Fips202.Lanes)
    requires |rcs| == 24
  {
    KeccakF.Pack(SplitGrid(KeccakF.RoundsOf(KeccakF.JoinGrid(KeccakF.Unpack(s)), o, rcs, 24)))
  }

  lemma SplitJoinRow(r: KeccakF.PairRow)
    ensures SplitRow(KeccakF.JoinRow(r)) == r
  {
    hide Word64.Split, Word64.Join;
    forall i | 0 <= i < 5
      ensures Word64.Split(Word64.Join(r[i])) == r[i]
    {
      Word64.SplitJoin(0, r[i]);
    }
  }

  lemma SplitJoinGrid(g: KeccakF.PairGrid)
    ensures SplitGrid(KeccakF.JoinGrid(g)) == g
  {
    hide SplitRow, KeccakF.JoinRow;
    forall y | 0 <= y < 5
      ensures SplitRow(KeccakF.JoinRow(g[y])) == g[y]
    {
      SplitJoinRow(g[y]);
    }
  }

  lemma PackUnpack(s: seq<u32>)
    requires |s| == 50
    ensures KeccakF.Pack(KeccakF.Unpack(s)) == s
  {
    hide KeccakF.PackRow, KeccakF.UnpackRow;
    PackUnpackRow(s, 0);
    PackUnpackRow(s, 1);
    PackUnpackRow(s, 2);
    PackUnpackRow(s, 3);
    PackUnpackRow(s, 4);
    assert s == s[..10] + s[10..20] + s[20..30] + s[30..40] + s[40..];
  }

  lemma PackUnpackRow(s: seq<u32>, y: nat)
    requires |s| == 50 && y < 5
    ensures KeccakF.PackRow(KeccakF.UnpackRow(s, y)) == s[10 * y..10 * y + 10]
  {
  }

  // The loop over rows of half pairs computes it.
  method PermuteLanes(s: Fips202.Lanes, o: KeccakF.Offsets, ghost rcs: seq<Word64.u64>, constants: seq<Word64.Pair>)
    returns (r: Fips202.Lanes)
    requires |rcs| == 24 && constants == KeccakF.SplitAll(rcs)
    ensures r == KeccakP(o, rcs, s)
  {
    hide KeccakF.Pack, KeccakF.Unpack, KeccakF.JoinGrid, KeccakF.RoundsOf, SplitGrid;
    r := KeccakF.Rounds(s, o, rcs, constants);
    SplitJoinGrid(KeccakF.Unpack(r));
    PackUnpack(r);
  }

  // ------------------------------------------------------------------------
  // BLAKE3's compression under its tree

  const FLAGS: seq<Blake3Tree.Flag> := [
    Blake3Tree.CHUNK_START, Blake3Tree.CHUNK_END, Blake3Tree.PARENT, Blake3Tree.ROOT,
    Blake3Tree.KEYED_HASH, Blake3Tree.DERIVE_KEY_CONTEXT, Blake3Tree.DERIVE_KEY_MATERIAL]

  // One bit a flag, the first the lowest.
  function BitsOf(flags: Blake3Tree.Flags, order: seq<Blake3Tree.Flag>): (w: nat)
    ensures w < Pow2(|order|)
  {
    if |order| == 0 then 0 else (if order[0] in flags then 1 else 0) + 2 * BitsOf(flags, order[1..])
  }

  // The domain flags as the word the compression takes.
  function FlagWord(flags: Blake3Tree.Flags): (w: u32)
  {
    assert Pow2(7) == 128;
    BitsOf(flags, FLAGS)
  }

  // Each flag has its own bit, as `compress.py` numbers them.
  lemma FlagWordIs(flags: Blake3Tree.Flags)
    ensures FlagWord(flags) == (if Blake3Tree.CHUNK_START in flags then 0x01 else 0)
                             + (if Blake3Tree.CHUNK_END in flags then 0x02 else 0)
                             + (if Blake3Tree.PARENT in flags then 0x04 else 0)
                             + (if Blake3Tree.ROOT in flags then 0x08 else 0)
                             + (if Blake3Tree.KEYED_HASH in flags then 0x10 else 0)
                             + (if Blake3Tree.DERIVE_KEY_CONTEXT in flags then 0x20 else 0)
                             + (if Blake3Tree.DERIVE_KEY_MATERIAL in flags then 0x40 else 0)
  {
    hide BitsOf, Pow2;
    var t6 := [Blake3Tree.DERIVE_KEY_MATERIAL];
    var t5 := [Blake3Tree.DERIVE_KEY_CONTEXT] + t6;
    var t4 := [Blake3Tree.KEYED_HASH] + t5;
    var t3 := [Blake3Tree.ROOT] + t4;
    var t2 := [Blake3Tree.PARENT] + t3;
    var t1 := [Blake3Tree.CHUNK_END] + t2;
    assert FLAGS == [Blake3Tree.CHUNK_START] + t1;
    FirstBit(flags, Blake3Tree.CHUNK_START, t1);
    FirstBit(flags, Blake3Tree.CHUNK_END, t2);
    FirstBit(flags, Blake3Tree.PARENT, t3);
    FirstBit(flags, Blake3Tree.ROOT, t4);
    FirstBit(flags, Blake3Tree.KEYED_HASH, t5);
    FirstBit(flags, Blake3Tree.DERIVE_KEY_CONTEXT, t6);
    FirstBit(flags, Blake3Tree.DERIVE_KEY_MATERIAL, []);
    assert t6 == [Blake3Tree.DERIVE_KEY_MATERIAL] + [];
    NoBits(flags);
  }

  lemma FirstBit(flags: Blake3Tree.Flags, first: Blake3Tree.Flag, rest: seq<Blake3Tree.Flag>)
    ensures BitsOf(flags, [first] + rest) == (if first in flags then 1 else 0) + 2 * BitsOf(flags, rest)
  {
    hide BitsOf;
    assert ([first] + rest)[1..] == rest;
    BitsOfFirst(flags, [first] + rest);
  }

  lemma NoBits(flags: Blake3Tree.Flags)
    ensures BitsOf(flags, []) == 0
  {
  }

  lemma {:induction false} BitsOfUnion(a: Blake3Tree.Flags, b: Blake3Tree.Flags, order: seq<Blake3Tree.Flag>, n: nat)
    requires |order| <= n
    ensures BitsOf(a + b, order) == Word64.Bitwise(Word64.OR, n, BitsOf(a, order), BitsOf(b, order))
  {
    hide Word64.Bitwise, Pow2;
    if |order| == 0 {
      Word64.OrZero(n, 0);
    } else {
      hide BitsOf;
      var bit, other := if order[0] in a then 1 else 0, if order[0] in b then 1 else 0;
      var x, y := BitsOf(a, order[1..]), BitsOf(b, order[1..]);
      BitsOfUnion(a, b, order[1..], n - 1);
      OrStep(n - 1, bit, x, other, y);
      BitsOfFirst(a, order);
      BitsOfFirst(b, order);
      BitsOfFirst(a + b, order);
    }
  }

  lemma BitsOfFirst(flags: Blake3Tree.Flags, order: seq<Blake3Tree.Flag>)
    requires |order| > 0
    ensures BitsOf(flags, order) == (if order[0] in flags then 1 else 0) + 2 * BitsOf(flags, order[1..])
  {
    hide Pow2;
  }

  lemma OrStep(n: nat, bit: nat, x: nat, other: nat, y: nat)
    requires bit < 2 && other < 2
    ensures Word64.Bitwise(Word64.OR, n + 1, bit + 2 * x, other + 2 * y)
         == (if bit + other == 0 then 0 else 1) + 2 * Word64.Bitwise(Word64.OR, n, x, y)
  {
    hide Word64.Bitwise, Pow2;
    Word64.BitwiseStep(Word64.OR, n, bit + 2 * x, other + 2 * y);
    assert (bit + 2 * x) % 2 == bit && (bit + 2 * x) / 2 == x;
    assert (other + 2 * y) % 2 == other && (other + 2 * y) / 2 == y;
  }

  // Or-ing flag words is uniting the flags.
  lemma FlagWordsOr(a: Blake3Tree.Flags, b: Blake3Tree.Flags)
    ensures FlagWord(a + b) == Word64.Or32(FlagWord(a), FlagWord(b))
  {
    hide Word64.Bitwise, BitsOf;
    BitsOfUnion(a, b, FLAGS, 32);
  }

  lemma OutputIsWords(v: BlakeMix.Vector, cv: Blake32.Half)
    ensures forall i :: 0 <= i < 16 ==> Blake32.PaperOutput(v, cv)[i] < 0x1_0000_0000
  {
    hide Blake32.Xor;
  }

  function OutputBlock(v: BlakeMix.Vector, cv: Blake32.Half): (b: Blake3Tree.Block)
  {
    OutputIsWords(v, cv);
    Blake32.PaperOutput(v, cv)
  }

  // The paper's compression of a node's operands.
  function NodeBlock(o: Blake3Tree.Output): (b: Blake3Tree.Block)
  {
    var v := Blake32.InitialVector(o.inputCv, o.iv, o.counter.0, o.counter.1, o.blockLen, FlagWord(o.flags));
    OutputBlock(Blake32.PaperRounds(v, o.block, 7), o.inputCv)
  }

  method CompressNode(o: Blake3Tree.Output) returns (b: Blake3Tree.Block)
    ensures b == NodeBlock(o)
  {
    hide Blake32.PaperRounds, Blake32.InitialVector, FlagWord, Blake32.PaperOutput;
    ghost var v := Blake32.InitialVector(o.inputCv, o.iv, o.counter.0, o.counter.1, o.blockLen, FlagWord(o.flags));
    OutputIsWords(Blake32.PaperRounds(v, o.block, 7), o.inputCv);
    b := Blake32.Compress(o.inputCv, o.block, o.counter.0, o.counter.1, o.blockLen, FlagWord(o.flags), o.iv);
  }

  // Over that compression, any run of the incremental hasher and the batched
  // one-shot hash give the same bytes: the BLAKE3 paper's.
  method StreamAndBatchAgree(iv: Blake3Tree.Cv, parts: seq<seq<byte>>, outLen: int)
    returns (streamed: Option<seq<byte>>, batched: Option<seq<seq<byte>>>)
    requires forall i :: 0 <= i < |parts| ==> |parts[i]| <= 0x1_0000_0000 - 64
    requires |Stream.Joined(parts)| <= 1024 * 0x1_0000_0000
    ensures streamed.Some? <==> 1 <= outLen <= 0x1_0000_0000 * 64
    ensures streamed.Some? ==>
              streamed.value == Blake3Tree.SpecHash(NodeBlock, Blake3Tree.Mode(iv, {}, iv), Stream.Joined(parts),
                                                    outLen)
    ensures streamed.Some? ==> batched == Some([streamed.value])
  {
    hide Units, Blake3Tree.SpecHash, NodeBlock;
    var msg := Stream.Joined(parts);
    UnitsBounds(|msg|, 1024);
    streamed := Blake3Streaming.HashParts(NodeBlock, iv, parts, outLen);
    batched := Blake3Modes.UnmarkedHash(NodeBlock, Blake3Tree.Mode(iv, {}, iv), [msg], |msg|, outLen);
    if streamed.Some? {
      assert batched.value[0] == Blake3Tree.SpecHash(NodeBlock, Blake3Tree.Mode(iv, {}, iv), [msg][0], outLen);
      assert batched.value == [streamed.value];
    }
  }
}

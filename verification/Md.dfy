// The Merkle-Damgard schedules of `md.py`: the one-shot digest, the
// runtime-length region, and the resumable stream.
//
// The compression is a parameter: a total function of a midstate and a block's
// words. The rest is the SHA-2 families' arrangement, a block packed
// big-endian and a digest that is the serialized midstate.
module Md {
  import opened Words
  import opened Stream
  import opened Pad

  type Midstate = seq<u32>
  type Compress = (Midstate, seq<u32>) -> Midstate

  datatype Family = Family(rule: PadRule, h0: Midstate, compress: Compress) {
    predicate Valid()
    {
      rule.Valid() && rule.blockSize % 4 == 0 && rule.trailer != NO_TRAILER && rule.reserve <= rule.blockSize
    }
  }

  // ------------------------------------------------------------------------
  // Blocks and the chain over them

  function Fold(c: Compress, h: Midstate, words: seq<seq<u32>>): (r: Midstate)
  {
    if |words| == 0 then h else c(Fold(c, h, words[..|words| - 1]), words[|words| - 1])
  }

  lemma {:induction false} FoldConcat(c: Compress, h: Midstate, a: seq<seq<u32>>, b: seq<seq<u32>>)
    ensures Fold(c, Fold(c, h, a), b) == Fold(c, h, a + b)
  {
    if |b| == 0 {
      assert a + b == a;
    } else {
      var n := |b|;
      FoldConcat(c, h, a, b[..n - 1]);
      assert (a + b)[..|a + b| - 1] == a + b[..n - 1];
    }
  }

  // The standard's digest: pad once, fold the blocks, serialize.
  function Digest(md: Family, msg: seq<byte>): (d: seq<byte>)
    requires md.Valid()
  {
    UnpackBe(Fold(md.compress, md.h0, Blocks(true, md.rule.blockSize, Padded(md.rule, msg))))
  }

  // `masked_chain`: fold every word block, keeping the first `live` only.
  method MaskedChain(c: Compress, h: Midstate, words: seq<seq<u32>>, live: Option<nat>) returns (state: Midstate)
    ensures state == Fold(c, h, if live.Some? && live.value < |words| then words[..live.value] else words)
  {
    state := h;
    ghost var keep := if live.Some? && live.value < |words| then live.value else |words|;
    for i := 0 to |words|
      invariant state == Fold(c, h, words[..if i < keep then i else keep])
    {
      var folded := c(state, words[i]);
      if live.None? || i < live.value {
        state := folded;
        assert words[..i + 1][..i] == words[..i];
      }
    }
    assert words[..|words|] == words;
  }

  // ------------------------------------------------------------------------
  // int32 counters

  function Wrap32(x: int): (w: int)
    ensures -0x8000_0000 <= w < 0x8000_0000
    ensures (w - x) % 0x1_0000_0000 == 0
  {
    (x + 0x8000_0000) % 0x1_0000_0000 - 0x8000_0000
  }

  function AsUint32(x: int): (w: u32)
  {
    x % 0x1_0000_0000
  }

  // A wrapped count is recovered by reading it as a uint32.
  lemma WrapRecovers(t: int, e: int)
    ensures AsUint32(Wrap32(Wrap32(t) + e)) == (t + e) % 0x1_0000_0000
    ensures 0 <= t < 0x8000_0000 ==> Wrap32(t) == t
  {
  }

  // `trailer_field` on an int32 byte count: the reservation, its last eight
  // bytes the length field.
  function TrailerField(rule: PadRule, count: int): (b: seq<byte>)
    requires rule.Valid() && rule.trailer != NO_TRAILER
    ensures |b| == rule.reserve
  {
    var v := AsUint32(count);
    var blocks := AsUint32(Wrap32(Wrap32(count + rule.reserve) / rule.blockSize + 1));
    var high := if rule.trailer == BIT_LENGTH then v / 0x2000_0000 else 0;
    var low := if rule.trailer == BIT_LENGTH then v * 8 % 0x1_0000_0000 else blocks;
    Zeros(rule.reserve - 8) + (if rule.bigEndian then UnpackBe([high, low]) else UnpackLe([low, high]))
  }

  // The two words are the field's own digits.
  lemma FieldOfHalves(rule: PadRule, high: u32, low: u32)
    ensures Field(rule, high * 0x1_0000_0000 + low)
         == if rule.bigEndian then UnpackBe([high, low]) else UnpackLe([low, high])
  {
    DigitsOfHalves(high, low);
    var be, le := UnpackBe([high, low]), UnpackLe([low, high]);
    assert UnpackBe(([high, low]))[4 * 0] == ByteOf(([high, low])[0], 3);
    assert UnpackBe(([high, low]))[4 * 0 + 1] == ByteOf(([high, low])[0], 2);
    assert UnpackBe(([high, low]))[4 * 0 + 2] == ByteOf(([high, low])[0], 1);
    assert UnpackBe(([high, low]))[4 * 0 + 3] == ByteOf(([high, low])[0], 0);
    assert UnpackBe(([high, low]))[4 * 1] == ByteOf(([high, low])[1], 3);
    assert UnpackBe(([high, low]))[4 * 1 + 1] == ByteOf(([high, low])[1], 2);
    assert UnpackBe(([high, low]))[4 * 1 + 2] == ByteOf(([high, low])[1], 1);
    assert UnpackBe(([high, low]))[4 * 1 + 3] == ByteOf(([high, low])[1], 0);
    assert be == [ByteOf(high, 3), ByteOf(high, 2), ByteOf(high, 1), ByteOf(high, 0),
                  ByteOf(low, 3), ByteOf(low, 2), ByteOf(low, 1), ByteOf(low, 0)];
    assert le == [ByteOf(low, 0), ByteOf(low, 1), ByteOf(low, 2), ByteOf(low, 3),
                  ByteOf(high, 0), ByteOf(high, 1), ByteOf(high, 2), ByteOf(high, 3)];
  }

  // A number's low word supplies its last four digits.
  lemma LowWordDigits(q: nat, w: u32, n: nat)
    ensures var v := q * 0x1_0000_0000 + w;
            && BytesBe(v, n + 4) == BytesBe(q, n) + [ByteOf(w, 3), ByteOf(w, 2), ByteOf(w, 1), ByteOf(w, 0)]
            && BytesLe(v, n + 4) == [ByteOf(w, 0), ByteOf(w, 1), ByteOf(w, 2), ByteOf(w, 3)] + BytesLe(q, n)
  {
    var v: nat := q * 0x1_0000_0000 + w;
    var v1: nat, v2: nat := q * 0x100_0000 + w / 0x100, q * 0x1_0000 + w / 0x1_0000;
    var v3: nat := q * 0x100 + w / 0x100_0000;
    assert v / 256 == v1 && v % 256 == w % 256;
    assert v1 / 256 == v2 && v1 % 256 == w / 0x100 % 256;
    assert v2 / 256 == v3 && v2 % 256 == w / 0x1_0000 % 256;
    assert v3 / 256 == q && v3 % 256 == w / 0x100_0000;
    DigitStep(v, n + 3);
    DigitStep(v1, n + 2);
    DigitStep(v2, n + 1);
    DigitStep(v3, n);
  }

  lemma DigitStep(v: nat, n: nat)
    ensures BytesBe(v, n + 1) == BytesBe(v / 256, n) + [v % 256]
    ensures BytesLe(v, n + 1) == [v % 256] + BytesLe(v / 256, n)
  {
  }

  lemma DigitsOfHalves(high: u32, low: u32)
    ensures var v := high * 0x1_0000_0000 + low;
            && BytesBe(v, 8) == [ByteOf(high, 3), ByteOf(high, 2), ByteOf(high, 1), ByteOf(high, 0),
                                 ByteOf(low, 3), ByteOf(low, 2), ByteOf(low, 1), ByteOf(low, 0)]
            && BytesLe(v, 8) == [ByteOf(low, 0), ByteOf(low, 1), ByteOf(low, 2), ByteOf(low, 3),
                                 ByteOf(high, 0), ByteOf(high, 1), ByteOf(high, 2), ByteOf(high, 3)]
  {
    hide BytesBe, BytesLe, ByteOf;
    LowWordDigits(high, low, 4);
    LowWordDigits(0, high, 0);
    NoDigits(0);
  }

  lemma NoDigits(v: nat)
    ensures BytesBe(v, 0) == [] && BytesLe(v, 0) == []
  {
  }

  // A full-width field: a bit length spans both words, a block count one.
  function FieldValue(rule: PadRule, count: int): (v: nat)
    requires rule.Valid() && rule.trailer != NO_TRAILER
    ensures v < 0x1_0000_0000_0000_0000
  {
    if rule.trailer == BIT_LENGTH then 8 * AsUint32(count)
    else AsUint32(Wrap32(Wrap32(count + rule.reserve) / rule.blockSize + 1))
  }

  // The runtime field is the rule's own field, of the value an int32 count can
  // still tell.
  lemma TrailerFieldIs(rule: PadRule, count: int)
    requires rule.Valid() && rule.trailer != NO_TRAILER
    ensures TrailerField(rule, count) == Zeros(rule.reserve - 8) + Field(rule, FieldValue(rule, count))
  {
    hide Field, UnpackBe, UnpackLe;
    var v := AsUint32(count);
    if rule.trailer == BIT_LENGTH {
      var high, low := BitLengthHalves(v);
      FieldOfHalves(rule, high, low);
    } else {
      FieldOfHalves(rule, 0, FieldValue(rule, count));
    }
  }

  lemma BitLengthHalves(v: u32) returns (high: u32, low: u32)
    ensures high == v / 0x2000_0000 && low == v * 8 % 0x1_0000_0000
    ensures high * 0x1_0000_0000 + low == 8 * v
  {
    high := v / 0x2000_0000;
    var rest: int := v % 0x2000_0000;
    low := 8 * rest;
    assert v * 8 == high * 0x1_0000_0000 + low;
  }

  // On a nonnegative int32 count the value is `PadRule.tail`'s exactly when it
  // is a bit length or the block count's int32 sum does not overflow.
  lemma FieldValueExact(rule: PadRule, t: nat)
    requires rule.Valid() && rule.trailer != NO_TRAILER
    requires t < 0x8000_0000 && rule.reserve <= 0x8000_0000
    ensures FieldValue(rule, t) == rule.Value(t)
       <==> rule.trailer == BIT_LENGTH || t + rule.reserve < 0x8000_0000
  {
    if rule.trailer == BLOCK_COUNT {
      BlockCountWraps(t + rule.reserve, rule.blockSize);
    }
  }

  lemma BlockCountWraps(x: nat, b: nat)
    requires x < 0x1_0000_0000 && b >= 8
    ensures AsUint32(Wrap32(Wrap32(x) / b + 1)) == x / b + 1 <==> x < 0x8000_0000
  {
    if x < 0x8000_0000 {
      QuotientBounds(x, b);
    } else {
      var w := x - 0x1_0000_0000;
      assert Wrap32(x) == w;
      QuotientBounds(w, b);
      QuotientBounds(x, b);
    }
  }

  lemma QuotientBounds(x: int, b: nat)
    requires b >= 8
    ensures x >= 0 ==> 0 <= 8 * (x / b) <= x
    ensures x < 0 ==> x < 8 * (x / b + 1) <= 0
  {
    var q := x / b;
    assert q * b <= x < q * b + b;
    if x >= 0 {
      MulMono(8, b, q);
    } else {
      assert q < 0;
      MulMono(8, b, -(q + 1));
    }
  }

  // The padding written at a runtime length, its field read off an int32 count.
  function RuntimeTail(rule: PadRule, length: nat, count: int): (t: seq<byte>)
    requires rule.Valid() && rule.trailer != NO_TRAILER
    ensures |t| == rule.PadLen(length)
  {
    PadLenFits(rule, length);
    [0x80] + Zeros(rule.PadLen(length) - 1 - rule.reserve) + TrailerField(rule, count)
  }

  // The runtime tail is the rule's own, of the value the count can still tell.
  lemma RuntimeTailIs(rule: PadRule, length: nat, count: int)
    requires rule.Valid() && rule.trailer != NO_TRAILER
    ensures RuntimeTail(rule, length, count) == TailWith(rule, length, FieldValue(rule, count))
  {
    hide TrailerField, Field, FieldValue;
    PadLenFits(rule, length);
    TrailerFieldIs(rule, count);
  }

  // A wrapped count still tells every length below the uint32 range.
  lemma CountTold(rule: PadRule, t: nat)
    requires rule.Valid() && rule.trailer != NO_TRAILER
    requires if rule.trailer == BIT_LENGTH then t < 0x1_0000_0000 else t + rule.reserve < 0x8000_0000
    ensures FieldValue(rule, Wrap32(t)) == rule.Value(t)
  {
    Recovered(t);
    if rule.trailer == BLOCK_COUNT {
      FieldValueExact(rule, t);
    } else {
      hide Wrap32, AsUint32;
    }
  }

  lemma Recovered(t: nat)
    requires t < 0x1_0000_0000
    ensures AsUint32(Wrap32(t)) == t
    ensures t < 0x8000_0000 ==> Wrap32(t) == t
  {
  }

  // ------------------------------------------------------------------------
  // Regions padded at a runtime length

  // `padded_region`
  function Region(rule: PadRule, content: seq<byte>, contentLen: int, active: int, lenBytes: seq<byte>): (r: seq<byte>)
    requires rule.Valid() && rule.trailer != NO_TRAILER && |lenBytes| == rule.reserve
    ensures |r| == |content|
  {
    var lenStart := active - rule.reserve;
    seq(|content|, pos requires 0 <= pos < |content| =>
      if pos < contentLen then content[pos]
      else if pos == contentLen then 0x80
      else if lenStart <= pos < active then lenBytes[pos - lenStart]
      else 0)
  }

  // Whatever lies past the content is overwritten, whatever lies past the
  // active blocks is zero.
  lemma RegionIs(rule: PadRule, content: seq<byte>, contentLen: nat, active: nat, lenBytes: seq<byte>)
    requires rule.Valid() && rule.trailer != NO_TRAILER && |lenBytes| == rule.reserve
    requires contentLen + 1 + rule.reserve <= active <= |content|
    ensures Region(rule, content, contentLen, active, lenBytes)
         == content[..contentLen] + [0x80] + Zeros(active - rule.reserve - contentLen - 1) + lenBytes
          + Zeros(|content| - active)
  {
  }

  // So a region is the content, its padding, and nothing else.
  lemma RegionPads(rule: PadRule, content: seq<byte>, contentLen: nat, active: nat, count: int)
    requires rule.Valid() && rule.trailer != NO_TRAILER
    requires contentLen <= active <= |content| && active - contentLen == rule.PadLen(contentLen)
    ensures Region(rule, content, contentLen, active, TrailerField(rule, count))
         == content[..contentLen] + RuntimeTail(rule, contentLen, count) + Zeros(|content| - active)
  {
    hide TrailerField, Region;
    PadLenFits(rule, contentLen);
    RegionIs(rule, content, contentLen, active, TrailerField(rule, count));
  }
}

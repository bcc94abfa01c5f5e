// The two padding rules of `pad.py`: Merkle-Damgard strengthening (with the
// HAIFA zero fill as its third case) and the sponges' pad10*1.
module Pad {
  import opened Words

  datatype Trailer = BIT_LENGTH | BLOCK_COUNT | NO_TRAILER

  datatype PadRule = PadRule(blockSize: nat, trailer: Trailer, reserve: nat, bigEndian: bool) {
    // `__post_init__`
    predicate Valid()
    {
      blockSize > 0 && blockSize % 8 == 0 && (trailer != NO_TRAILER ==> reserve >= 8)
    }

    function NBlocks(length: nat): (n: nat)
      requires Valid()
    {
      if trailer == NO_TRAILER then CeilDiv(length, blockSize) + (if length == 0 then 1 else 0)
      else (length + reserve) / blockSize + 1
    }

    // What the last eight bytes encode.
    function Value(length: nat): (v: nat)
      requires Valid()
    {
      if trailer == BIT_LENGTH then 8 * length else NBlocks(length)
    }

    function PadLen(length: nat): (n: int)
      requires Valid()
    {
      NBlocks(length) * blockSize - length
    }
  }

  // The eight-byte length field in the rule's own byte order.
  function Field(rule: PadRule, v: nat): (b: seq<byte>)
    ensures |b| == 8
  {
    if rule.bigEndian then BytesBe(v, 8) else BytesLe(v, 8)
  }

  // Read back in the rule's byte order, the field is its value.
  lemma FieldTells(rule: PadRule, v: nat)
    requires v < 0x1_0000_0000_0000_0000
    ensures (if rule.bigEndian then BeValue(Field(rule, v)) else LeValue(Field(rule, v))) == v
  {
    DigitsTell(v, 8);
  }

  lemma FieldInjective(rule: PadRule, v: nat, w: nat)
    requires v < 0x1_0000_0000_0000_0000 && w < 0x1_0000_0000_0000_0000
    requires Field(rule, v) == Field(rule, w)
    ensures v == w
  {
    FieldTells(rule, v);
    FieldTells(rule, w);
  }

  // The bytes a trailer rule appends when its field holds `v`.
  function TailWith(rule: PadRule, length: nat, v: nat): (t: seq<byte>)
    requires rule.Valid() && rule.trailer != NO_TRAILER
    ensures |t| == rule.PadLen(length) >= 9
  {
    PadLenFits(rule, length);
    [0x80] + Zeros(rule.PadLen(length) - 9) + Field(rule, v)
  }

  function TailOf(rule: PadRule, length: nat): (t: seq<byte>)
    requires rule.Valid()
    ensures |t| == rule.PadLen(length)
  {
    PadLenFits(rule, length);
    if rule.trailer == NO_TRAILER then Zeros(rule.PadLen(length)) else TailWith(rule, length, rule.Value(length))
  }

  // The block count is the least that fits: with a trailer the 0x80 byte and
  // the reservation, without one the message alone, never zero blocks.
  lemma PadLenFits(rule: PadRule, length: nat)
    requires rule.Valid()
    ensures rule.trailer != NO_TRAILER ==> rule.reserve + 1 <= rule.PadLen(length) <= rule.reserve + rule.blockSize
    ensures rule.trailer == NO_TRAILER ==> 0 <= rule.PadLen(length) <= rule.blockSize
    ensures rule.trailer == NO_TRAILER ==> (rule.PadLen(length) == rule.blockSize <==> length == 0)
    ensures rule.NBlocks(length) >= 1
  {
    var b := rule.blockSize;
    if rule.trailer == NO_TRAILER {
      ZeroFill(length, b);
    } else {
      DivBounds(length + rule.reserve, b);
      assert ((length + rule.reserve) / b + 1) * b == (length + rule.reserve) / b * b + b;
    }
  }

  lemma ZeroFill(length: nat, b: nat)
    requires b > 0
    ensures var n := CeilDiv(length, b) + (if length == 0 then 1 else 0);
            n >= 1 && 0 <= n * b - length <= b && (n * b - length == b <==> length == 0)
  {
    hide CeilDiv;
    if length == 0 {
      OneUnit(b);
    } else {
      UnitsBounds(length, b);
      assert Units(length, b) == CeilDiv(length, b);
      assert (Units(length, b) - 1) * b == Units(length, b) * b - b;
    }
  }

  // `PadRule.tail`: zero a buffer, open it, write the field over its end.
  // `None` is the OverflowError of a field that needs more than eight bytes.
  method Tail(rule: PadRule, length: nat) returns (tail: Option<seq<byte>>)
    requires rule.Valid()
    ensures tail.None? <==> rule.trailer != NO_TRAILER && rule.Value(length) >= 0x1_0000_0000_0000_0000
    ensures tail.Some? ==> tail.value == TailOf(rule, length)
  {
    PadLenFits(rule, length);
    var nblocks := rule.NBlocks(length);
    var buffer := new byte[nblocks * rule.blockSize - length](_ => 0);
    if rule.trailer == NO_TRAILER {
      return Some(buffer[..]);
    }
    var value := if rule.trailer == BIT_LENGTH then length * 8 else nblocks;
    if value >= 0x1_0000_0000_0000_0000 {
      return None;
    }
    buffer[0] := 0x80;
    var encoded := Field(rule, value);
    forall i | 0 <= i < 8 {
      buffer[buffer.Length - 8 + i] := encoded[i];
    }
    assert buffer[buffer.Length - 8..] == encoded;
    assert buffer[..] == [0x80] + Zeros(buffer.Length - 9) + encoded;
    return Some(buffer[..]);
  }

  function Padded(rule: PadRule, msg: seq<byte>): (p: seq<byte>)
    requires rule.Valid()
    ensures |p| == rule.NBlocks(|msg|) * rule.blockSize
  {
    msg + TailOf(rule, |msg|)
  }

  // ------------------------------------------------------------------------
  // What padding determines

  // With a trailer the padded bytes alone determine the message: the opening
  // 0x80 is the last nonzero byte before the field.
  lemma PaddedInjective(rule: PadRule, a: seq<byte>, b: seq<byte>)
    requires rule.Valid() && rule.trailer != NO_TRAILER
    requires Padded(rule, a) == Padded(rule, b)
    ensures a == b
  {
    if |a| < |b| {
      NoShorterReading(rule, a, b);
    } else if |b| < |a| {
      NoShorterReading(rule, b, a);
    } else {
      assert a == Padded(rule, a)[..|a|];
      assert b == Padded(rule, b)[..|b|];
    }
  }

  lemma NoShorterReading(rule: PadRule, a: seq<byte>, b: seq<byte>)
    requires rule.Valid() && rule.trailer != NO_TRAILER
    requires |a| < |b|
    ensures Padded(rule, a) != Padded(rule, b)
  {
    hide Field;
    var p, q := Padded(rule, a), Padded(rule, b);
    PadLenFits(rule, |a|);
    PadLenFits(rule, |b|);
    assert q[|b|] == 0x80;
    if |p| == |q| {
      assert p[|b|] == TailOf(rule, |a|)[|b| - |a|];
    }
  }

  // `haifa_counter`
  function HaifaCounter(index: nat, nblocks: nat, length: nat, blockSize: nat): (c: (nat, bool))
  {
    var last := index + 1 == nblocks;
    (if last then length else (index + 1) * blockSize, last)
  }

  function HaifaCounters(rule: PadRule, length: nat): (cs: seq<(nat, bool)>)
    requires rule.Valid()
  {
    var n := rule.NBlocks(length);
    seq(n, i requires 0 <= i < n => HaifaCounter(i, n, length, rule.blockSize))
  }

  // A zero fill alone loses trailing zero bytes ...
  lemma HaifaPaddingCollides(rule: PadRule)
    requires rule.Valid() && rule.trailer == NO_TRAILER
    ensures Padded(rule, []) == Padded(rule, [0])
  {
    PadLenFits(rule, 0);
    PadLenFits(rule, 1);
  }

  lemma OneUnit(b: nat)
    requires b > 0
    ensures CeilDiv(0, b) == 0 && CeilDiv(1, b) == 1
  {
    DivModOf(0, b - 1, b);
    DivModOf(1, 0, b);
  }

  // ... and the counter every compression is handed puts them back.
  lemma HaifaDetermines(rule: PadRule, a: seq<byte>, b: seq<byte>)
    requires rule.Valid() && rule.trailer == NO_TRAILER
    requires Padded(rule, a) == Padded(rule, b)
    requires HaifaCounters(rule, |a|) == HaifaCounters(rule, |b|)
    ensures a == b
  {
    PadLenFits(rule, |a|);
    PadLenFits(rule, |b|);
    var n := rule.NBlocks(|a|);
    assert |HaifaCounters(rule, |a|)| == n && |HaifaCounters(rule, |b|)| == rule.NBlocks(|b|);
    assert HaifaCounters(rule, |a|)[n - 1].0 == |a|;
    assert HaifaCounters(rule, |b|)[n - 1].0 == |b|;
    assert a == Padded(rule, a)[..|a|];
    assert b == Padded(rule, b)[..|b|];
  }

  // The counter is RFC 7693's byte offset (section 3.2): it grows by a block a
  // step, never counts padding, and is final on the last block only.
  lemma HaifaCountsBytes(rule: PadRule, length: nat, i: nat)
    requires rule.Valid() && rule.trailer == NO_TRAILER && i < rule.NBlocks(length)
    ensures var c := HaifaCounters(rule, length)[i];
            && c.0 == (if (i + 1) * rule.blockSize <= length then (i + 1) * rule.blockSize else length)
            && (c.1 <==> i == rule.NBlocks(length) - 1)
  {
    var n, b := rule.NBlocks(length), rule.blockSize;
    PadLenFits(rule, length);
    if i + 1 < n {
      assert (n - 1) * b < length || n == 1 by { assert (n - 1) * b == n * b - b; }
      MulMono(i + 1, n - 1, b);
    }
  }

  // ------------------------------------------------------------------------
  // `SpongePad`

  datatype SpongePad = SpongePad(rate: nat, head: byte, finalBit: bool) {
    predicate Valid()
    {
      rate >= 1 && (finalBit ==> head < 0x80)
    }

    function NBlocks(length: nat): (n: nat)
      requires rate >= 1
    {
      length / rate + 1
    }

    function PadLen(length: nat): (n: nat)
      requires rate >= 1
      ensures 1 <= n <= rate && n == rate - length % rate
    {
      assert length == (length / rate) * rate + length % rate;
      assert (length / rate + 1) * rate == (length / rate) * rate + rate;
      NBlocks(length) * rate - length
    }
  }

  // `b | 0x80` and `b ^ 0x80` on a byte.
  function Or80(b: byte): (r: byte)
  {
    if b < 0x80 then b + 0x80 else b
  }

  function Xor80(b: byte): (r: byte)
  {
    if b < 0x80 then b + 0x80 else b - 0x80
  }

  // Byte i of an n-byte pad: the head opens it, bit 7 closes it.
  function SpongePadByte(pad: SpongePad, n: nat, i: nat): (b: byte)
    requires i < n
  {
    var b := if i == 0 then pad.head else 0;
    if pad.finalBit && i == n - 1 then Or80(b) else b
  }

  function SpongeTail(pad: SpongePad, length: nat): (t: seq<byte>)
    requires pad.rate >= 1
    ensures |t| == pad.PadLen(length)
  {
    seq(pad.PadLen(length), i requires 0 <= i < pad.PadLen(length) => SpongePadByte(pad, pad.PadLen(length), i))
  }

  // `SpongePad.tail`, in place.
  method SpongeTailInPlace(pad: SpongePad, length: nat) returns (tail: seq<byte>)
    requires pad.Valid()
    ensures tail == SpongeTail(pad, length)
  {
    var n := pad.PadLen(length);
    var buffer := new byte[n](_ => 0);
    buffer[0] := pad.head;
    if pad.finalBit {
      buffer[n - 1] := Or80(buffer[n - 1]);
    }
    tail := buffer[..];
  }

  function SpongePadded(pad: SpongePad, msg: seq<byte>): (p: seq<byte>)
    requires pad.rate >= 1
    ensures |p| == pad.NBlocks(|msg|) * pad.rate
  {
    msg + SpongeTail(pad, |msg|)
  }

  predicate Determines(pad: SpongePad, a: seq<byte>, b: seq<byte>)
    requires pad.rate >= 1
  {
    SpongePadded(pad, a) == SpongePadded(pad, b) ==> a == b
  }

  // A nonzero head is exactly what makes the sponge padding injective (a rate
  // of one byte aside, where the length of the padded message says it all).
  lemma SpongePadInjective(pad: SpongePad)
    requires pad.Valid()
    ensures (forall a, b :: Determines(pad, a, b)) <==> pad.head != 0 || pad.rate == 1
  {
    if pad.head != 0 || pad.rate == 1 {
      forall a, b
        ensures Determines(pad, a, b)
      {
        SpongeReadings(pad, a, b);
        SpongeReadings(pad, b, a);
        SameLength(pad, a, b);
      }
    } else {
      assert !Determines(pad, [], [0]);
    }
  }

  lemma SameLength(pad: SpongePad, a: seq<byte>, b: seq<byte>)
    requires pad.rate >= 1
    ensures |a| == |b| ==> Determines(pad, a, b)
  {
    assert a == SpongePadded(pad, a)[..|a|];
    assert b == SpongePadded(pad, b)[..|b|];
  }

  lemma SpongeReadings(pad: SpongePad, a: seq<byte>, b: seq<byte>)
    requires pad.Valid() && (pad.head != 0 || pad.rate == 1)
    ensures |a| < |b| ==> SpongePadded(pad, a) != SpongePadded(pad, b)
  {
    if |a| < |b| {
      var p, q := SpongePadded(pad, a), SpongePadded(pad, b);
      if |p| == |q| {
        assert p[|b|] == SpongePadByte(pad, |p| - |a|, |b| - |a|);
        assert q[|b|] == SpongePadByte(pad, |p| - |b|, 0);
      }
    }
  }

}

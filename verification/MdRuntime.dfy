// Whole-message digests at a runtime length: the capacity buffer of
// `byte_hash.py`, padded in place by `md.py` and folded through a masked chain.
module MdRuntime {
  import opened Words
  import opened Stream
  import opened Pad
  import opened Md

  // `padded_message_region`: a region as wide as the buffer could need, the
  // read clamped into range. `None` is the ValueError of a rule with no field.
  function PaddedMessageRegion(rule: PadRule, buf: seq<byte>, length: nat): (r: Option<seq<byte>>)
    requires rule.Valid() && |buf| > 0
    ensures r.None? <==> rule.trailer == NO_TRAILER
    ensures r.Some? ==> |r.value| == rule.NBlocks(|buf|) * rule.blockSize
  {
    if rule.trailer == NO_TRAILER then None
    else
      var slots := rule.NBlocks(|buf|) * rule.blockSize;
      var content := seq(slots, pos requires 0 <= pos < slots => buf[if pos < |buf| then pos else |buf| - 1]);
      Some(Region(rule, content, length, rule.NBlocks(length) * rule.blockSize, TrailerField(rule, length)))
  }

  lemma NBlocksMono(rule: PadRule, a: nat, b: nat)
    requires rule.Valid() && rule.trailer != NO_TRAILER && a <= b
    ensures rule.NBlocks(a) <= rule.NBlocks(b)
    ensures rule.NBlocks(a) * rule.blockSize <= rule.NBlocks(b) * rule.blockSize
  {
    DivMono(a + rule.reserve, b + rule.reserve, rule.blockSize);
    MulMono(rule.NBlocks(a), rule.NBlocks(b), rule.blockSize);
  }

  // The live blocks are the padded message; what lies past the length in the
  // buffer, whatever it is, reaches none of them.
  lemma RegionIsPadded(rule: PadRule, buf: seq<byte>, length: nat)
    requires rule.Valid() && rule.trailer != NO_TRAILER
    requires |buf| > 0 && length <= |buf| && rule.NBlocks(|buf|) * rule.blockSize < 0x8000_0000
    ensures var region, padded := PaddedMessageRegion(rule, buf, length).value, Padded(rule, buf[..length]);
            padded <= region && forall i :: |padded| <= i < |region| ==> region[i] == 0
  {
    hide TrailerField, FieldValue, Field, Region;
    var slots, active := rule.NBlocks(|buf|) * rule.blockSize, rule.NBlocks(length) * rule.blockSize;
    NBlocksMono(rule, length, |buf|);
    PadLenFits(rule, length);
    CountFits(rule, length);
    RuntimeTailIs(rule, length, length);
    var content := seq(slots, pos requires 0 <= pos < slots => buf[if pos < |buf| then pos else |buf| - 1]);
    RegionPads(rule, content, length, active, length);
    assert content[..length] == buf[..length];
  }

  lemma CountFits(rule: PadRule, length: nat)
    requires rule.Valid() && rule.trailer != NO_TRAILER && rule.NBlocks(length) * rule.blockSize < 0x8000_0000
    ensures FieldValue(rule, length) == rule.Value(length)
  {
    PadLenFits(rule, length);
    FieldValueExact(rule, length);
  }

  // `sha256_bytes`: every block the buffer could need is compressed, and the
  // ones past the message are selected away. `None` is the zero-width buffer.
  method BytesDigest(md: Family, buf: seq<byte>, length: nat) returns (d: Option<seq<byte>>)
    requires md.Valid() && length <= |buf|
    requires md.rule.NBlocks(|buf|) * md.rule.blockSize < 0x8000_0000
    ensures d.None? <==> |buf| == 0
    ensures d.Some? ==> d.value == Digest(md, buf[..length])
  {
    hide Blocks, Fold, Padded, UnpackBe, PaddedMessageRegion;
    if |buf| == 0 {
      return None;
    }
    var block := md.rule.blockSize;
    var region := PaddedMessageRegion(md.rule, buf, length).value;
    var words := Blocks(true, block, region);
    var live := md.rule.NBlocks(length);
    var state := MaskedChain(md.compress, md.h0, words, Some(live));
    RegionIsPadded(md.rule, buf, length);
    ghost var padded := Padded(md.rule, buf[..length]);
    BlocksSplit(true, block, region, live);
    assert region[..live * block] == padded;
    assert words[..live] == Blocks(true, block, padded);
    assert live == |words| ==> words == words[..live];
    return Some(UnpackBe(state));
  }

  // ------------------------------------------------------------------------
  // Capacity buffers

  // `capacity`
  function Capacity(onHost: bool, length: nat, block: nat): (width: nat)
  {
    if !onHost then (if length > 1 then length else 1)
    else if length <= block then block
    else Pow2(BitLength(length - 1))
  }

  // Every width is admissible: a device message's own, a host message's one
  // block, or the power of two that less than doubles it.
  lemma CapacityAdmits(onHost: bool, length: nat, block: nat)
    requires block > 0
    ensures var width := Capacity(onHost, length, block);
            && length <= width && width >= 1
            && (!onHost ==> width == if length == 0 then 1 else length)
            && (onHost && length <= block ==> width == block)
            && (onHost && length > block ==> IsPow2(width) && width < 2 * length)
  {
    if length > 0 {
      BitLengthBounds(length - 1);
    }
  }

  // `at_capacity`: one row, widened in place. `None` is the ValueError of a
  // width below the length.
  method AtCapacity(msg: seq<byte>, width: nat) returns (buf: Option<seq<byte>>)
    ensures buf.None? <==> width < |msg|
    ensures buf.Some? ==> buf.value == msg + Zeros(width - |msg|)
  {
    if width < |msg| {
      return None;
    }
    if width == |msg| {
      assert msg + Zeros(0) == msg;
      return Some(msg);
    }
    var row := new byte[width](_ => 0);
    forall i | 0 <= i < |msg| {
      row[i] := msg[i];
    }
    assert row[..] == msg + Zeros(width - |msg|);
    return Some(row[..]);
  }

  // `digest`, by either marker: the runtime-length form out of a capacity
  // buffer, or the statically padded words. Both are the standard's digest.
  method DigestMessage(md: Family, msg: seq<byte>, bytesMarker: bool, onHost: bool) returns (d: Option<seq<byte>>)
    requires md.Valid()
    requires bytesMarker ==>
      md.rule.NBlocks(Capacity(onHost, |msg|, md.rule.blockSize)) * md.rule.blockSize < 0x8000_0000
    ensures d.None? <==> !bytesMarker && md.rule.Value(|msg|) >= 0x1_0000_0000_0000_0000
    ensures d.Some? ==> d.value == Digest(md, msg)
  {
    hide Blocks, Fold, Capacity, UnpackBe;
    if bytesMarker {
      CapacityAdmits(onHost, |msg|, md.rule.blockSize);
      var buf := AtCapacity(msg, Capacity(onHost, |msg|, md.rule.blockSize));
      assert buf.value[..|msg|] == msg;
      d := BytesDigest(md, buf.value, |msg|);
    } else {
      var tail := Tail(md.rule, |msg|);
      if tail.None? {
        return None;
      }
      var state := MaskedChain(md.compress, md.h0, Blocks(true, md.rule.blockSize, msg + tail.value), None);
      return Some(UnpackBe(state));
    }
  }
}

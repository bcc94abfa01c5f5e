// The resumable stream of `md.py`: a midstate over every complete block, the
// partial block, and the int32 pair of counts.
module MdStream {
  import opened Words
  import opened Stream
  import opened Pad
  import opened Md

  datatype State = State(h: Midstate, pending: seq<byte>, pendingLen: nat, total: int)

  predicate Shaped(md: Family, s: State)
  {
    |s.pending| == md.rule.blockSize && s.pendingLen < md.rule.blockSize
  }

  // `sha256_stream_init`
  function Init(md: Family): (s: State)
    requires md.Valid()
    ensures Shaped(md, s)
  {
    State(md.h0, Zeros(md.rule.blockSize), 0, 0)
  }

  // The content a state holds open, followed by more bytes.
  function Open(s: State, data: seq<byte>): (all: seq<byte>)
    requires s.pendingLen <= |s.pending|
  {
    s.pending[..s.pendingLen] + data
  }

  // What absorbing means: the midstate moves over every complete block.
  function Advance(md: Family, s: State, data: seq<byte>): (r: State)
    requires md.Valid() && Shaped(md, s)
    ensures Shaped(md, r)
  {
    var all := Open(s, data);
    State(Fold(md.compress, s.h, Blocks(true, md.rule.blockSize, all)), Held(md.rule.blockSize, all),
          |all| % md.rule.blockSize, Wrap32(s.total + |data|))
  }

  function StateOf(md: Family, msg: seq<byte>): (s: State)
    requires md.Valid()
    ensures Shaped(md, s)
  {
    Advance(md, Init(md), msg)
  }

  // ------------------------------------------------------------------------
  // `MdStream.absorb`

  // The low candidate is the chain over the first blocks, the high one
  // continues it from the serialized midstate; the live one is selected.
  method ChainCandidates(md: Family, start: Midstate, words: seq<seq<u32>>, minBlocks: nat, active: nat)
    returns (h: Midstate)
    requires minBlocks <= active <= |words| <= minBlocks + 1
    ensures h == Fold(md.compress, start, words[..active])
  {
    hide Fold, PackBe, UnpackBe;
    h := start;
    FoldNothing(md.compress, start, words);
    if |words| > 0 {
      if minBlocks > 0 {
        h := MaskedChain(md.compress, h, words[..minBlocks], None);
        PackBeUnpackBe(h);
        h := PackBe(UnpackBe(h));
      }
      if |words| > minBlocks {
        var high := MaskedChain(md.compress, h, words[minBlocks..], None);
        FoldConcat(md.compress, start, words[..minBlocks], words[minBlocks..]);
        assert words[..minBlocks] + words[minBlocks..] == words == words[..|words|];
        PackBeUnpackBe(high);
        if active == |words| {
          h := PackBe(UnpackBe(high));
        }
      }
    }
  }

  lemma FoldNothing(c: Compress, h: Midstate, words: seq<seq<u32>>)
    ensures Fold(c, h, words[..0]) == h
  {
  }

  method Absorb(md: Family, s: State, data: seq<byte>) returns (r: State)
    requires md.Valid() && Shaped(md, s)
    ensures r == Advance(md, s, data)
  {
    hide Blocks, Fold, Held, Gather, NextPending, Wrap32;
    var block, length := md.rule.blockSize, |data|;
    var newLen := s.pendingLen + length;
    var active := newLen / block;
    var maxBlocks := (block - 1 + length) / block;
    var minBlocks := length / block;
    DivBounds(newLen, block);
    DivBounds(block - 1 + length, block);
    DivBounds(length, block);
    Layout(true, s.pending, s.pendingLen, data, maxBlocks, active);
    var combined := Gather(s.pending + data, s.pendingLen, block, (maxBlocks + 1) * block);
    var words := Blocks(true, block, combined[..maxBlocks * block]);
    var h := ChainCandidates(md, s.h, words, minBlocks, active);
    var tailLen := newLen - active * block;
    r := State(h, NextPending(block, combined, active * block, tailLen), tailLen, Wrap32(s.total + length));
  }

  // ------------------------------------------------------------------------
  // Resuming

  lemma OpenHeld(md: Family, s: State, data: seq<byte>, more: seq<byte>, k: nat)
    requires md.Valid() && Shaped(md, s)
    requires k == |Open(s, data)| / md.rule.blockSize && k * md.rule.blockSize <= |Open(s, data)|
    ensures Open(Advance(md, s, data), more) == Open(s, data)[k * md.rule.blockSize..] + more
  {
    hide Blocks, Fold, Open;
    DivBounds(|Open(s, data)|, md.rule.blockSize);
    OpenIs(Advance(md, s, data), more);
  }

  lemma OpenIs(s: State, data: seq<byte>)
    requires s.pendingLen <= |s.pending|
    ensures Open(s, data) == s.pending[..s.pendingLen] + data
  {
  }

  // Two absorbs are one absorb of both, on every field, from every state.
  lemma AdvanceAppends(md: Family, s: State, a: seq<byte>, b: seq<byte>)
    requires md.Valid() && Shaped(md, s)
    ensures Advance(md, Advance(md, s, a), b) == Advance(md, s, a + b)
  {
    hide Blocks, Fold, Held, Open, Wrap32;
    var block, all := md.rule.blockSize, Open(s, a);
    var k := |all| / block;
    DivBounds(|all|, block);
    OpenHeld(md, s, a, b, k);
    OpenConcat(s, a, b);
    BlocksResume(true, block, all, b, k);
    HeldResume(block, all, b, k);
    FoldConcat(md.compress, s.h, Blocks(true, block, all), Blocks(true, block, all[k * block..] + b));
    WrapAdds(s.total, |a|, |b|);
  }

  lemma OpenConcat(s: State, a: seq<byte>, b: seq<byte>)
    requires s.pendingLen <= |s.pending|
    ensures Open(s, a + b) == Open(s, a) + b
  {
  }

  lemma WrapAdds(t: int, a: nat, b: nat)
    ensures Wrap32(Wrap32(t + a) + b) == Wrap32(t + (a + b))
  {
  }

  // Any run of absorbs leaves the state of the whole message.
  function AdvanceAll(md: Family, s: State, parts: seq<seq<byte>>): (r: State)
    requires md.Valid() && Shaped(md, s)
    ensures Shaped(md, r)
  {
    if |parts| == 0 then s else Advance(md, AdvanceAll(md, s, parts[..|parts| - 1]), parts[|parts| - 1])
  }

  lemma {:induction false} AnySplit(md: Family, parts: seq<seq<byte>>)
    requires md.Valid()
    ensures AdvanceAll(md, Init(md), parts) == StateOf(md, Joined(parts))
  {
    if |parts| == 0 {
      InitIsEmpty(md);
    } else {
      hide Advance, Init;
      var n := |parts| - 1;
      AnySplit(md, parts[..n]);
      AdvanceAppends(md, Init(md), Joined(parts[..n]), parts[n]);
    }
  }

  lemma InitIsEmpty(md: Family)
    requires md.Valid()
    ensures StateOf(md, []) == Init(md)
  {
    assert Open(Init(md), []) == [];
    assert Held(md.rule.blockSize, []) == Zeros(md.rule.blockSize) by { assert 0 / md.rule.blockSize == 0; }
  }

  // ------------------------------------------------------------------------
  // `MdStream.finalize`

  // What finishing a state with a tail means.
  function Finished(md: Family, s: State, extras: seq<byte>): (d: seq<byte>)
    requires md.Valid() && Shaped(md, s)
  {
    var content := Open(s, extras);
    var tail := RuntimeTail(md.rule, |content|, Wrap32(s.total + |extras|));
    UnpackBe(Fold(md.compress, s.h, Blocks(true, md.rule.blockSize, content + tail)))
  }

  // One row of a finalize. `None` is the width the two-block layout rejects.
  method Finalize(md: Family, s: State, extras: seq<byte>) returns (d: Option<seq<byte>>)
    requires md.Valid() && Shaped(md, s)
    ensures d.None? <==> |extras| > md.rule.blockSize - md.rule.reserve
    ensures d.Some? ==> d.value == Finished(md, s, extras)
  {
    hide Blocks, Fold, Gather, TrailerField, Region, UnpackBe, Wrap32, Open, RuntimeTail;
    var block: int, lb: int, e := md.rule.blockSize, md.rule.reserve, |extras|;
    if e > block - lb {
      return None;
    }
    var contentLen := s.pendingLen + e;
    var lenBytes := TrailerField(md.rule, Wrap32(s.total + e));
    var twoBlocks := contentLen > block - lb - 1;
    var activeBytes := if twoBlocks then 2 * block else block;
    var content := Gather(s.pending + extras, s.pendingLen, block, 2 * block);
    GatherReads(s.pending, s.pendingLen, extras, 2 * block);
    var region := Region(md.rule, content, contentLen, activeBytes, lenBytes);
    TwoBlockLayout(md.rule, contentLen);
    RegionPads(md.rule, content, contentLen, activeBytes, Wrap32(s.total + e));
    OpenIs(s, extras);
    ghost var padded := Open(s, extras) + RuntimeTail(md.rule, contentLen, Wrap32(s.total + e));
    assert region == padded + Zeros(2 * block - activeBytes);
    var words := Blocks(true, block, region);
    LayoutBlocks(block, region, padded);
    var two := MaskedChain(md.compress, s.h, words, None);
    var one := MaskedChain(md.compress, s.h, words[..1], None);
    return Some(if twoBlocks then UnpackBe(two) else UnpackBe(one));
  }

  // A one-block layout is the two-block one's first.
  lemma LayoutBlocks(block: nat, region: seq<byte>, padded: seq<byte>)
    requires block > 0 && block % 8 == 0 && |region| == 2 * block
    requires padded <= region && (|padded| == block || |padded| == 2 * block)
    ensures |Blocks(true, block, region)| == 2
    ensures Blocks(true, block, padded)
         == if |padded| == block then Blocks(true, block, region)[..1] else Blocks(true, block, region)
  {
    hide Blocks;
    BlocksSplit(true, block, region, 2);
    BlocksSplit(true, block, region, 1);
    assert region[..2 * block] == region && region[..1 * block] == region[..block];
    assert padded == region[..|padded|];
  }

  lemma TwoBlockLayout(rule: PadRule, contentLen: nat)
    requires rule.Valid() && rule.trailer != NO_TRAILER && rule.reserve <= rule.blockSize
    requires contentLen <= 2 * rule.blockSize - rule.reserve - 1
    ensures rule.PadLen(contentLen) >= 0
    ensures contentLen + rule.PadLen(contentLen)
         == if contentLen > rule.blockSize - rule.reserve - 1 then 2 * rule.blockSize else rule.blockSize
  {
    var n := if contentLen > rule.blockSize - rule.reserve - 1 then 1 else 0;
    DivModOf(n, contentLen + rule.reserve - n * rule.blockSize, rule.blockSize);
  }

  // A length's padding, its field read off the wrapped count of that length.
  function CountedTail(rule: PadRule, length: nat): (t: seq<byte>)
    requires rule.Valid() && rule.trailer != NO_TRAILER
  {
    TailWith(rule, length, FieldValue(rule, Wrap32(length)))
  }

  lemma PadLenPeriodic(rule: PadRule, length: nat, k: nat)
    requires rule.Valid() && rule.trailer != NO_TRAILER
    ensures rule.PadLen(length + k * rule.blockSize) == rule.PadLen(length)
  {
    AddMultipleDiv(length + rule.reserve, k, rule.blockSize);
    var q := (length + rule.reserve) / rule.blockSize;
    assert (k + q + 1) * rule.blockSize == k * rule.blockSize + (q + 1) * rule.blockSize;
  }

  // Any stream, finished with any tail, folds the padded whole once.
  lemma FinishedIsOneFold(md: Family, msg: seq<byte>, extras: seq<byte>)
    requires md.Valid()
    ensures Finished(md, StateOf(md, msg), extras)
         == UnpackBe(Fold(md.compress, md.h0,
                          Blocks(true, md.rule.blockSize, msg + extras + CountedTail(md.rule, |msg| + |extras|))))
  {
    hide Blocks, Fold, Held, Open, FieldValue, TailWith, RuntimeTail, UnpackBe, Wrap32;
    var block, s := md.rule.blockSize, StateOf(md, msg);
    var k, t := |msg| / block, |msg| + |extras|;
    DivBounds(|msg|, block);
    OpenIs(Init(md), msg);
    OpenHeld(md, Init(md), msg, extras, k);
    assert Open(Init(md), msg) == msg;
    var content := msg[k * block..] + extras;
    PadLenPeriodic(md.rule, |content|, k);
    var tail := RuntimeTail(md.rule, |content|, Wrap32(s.total + |extras|));
    WrapAdds(0, |msg|, |extras|);
    SameTail(md.rule, |content|, t, Wrap32(t));
    RuntimeTailIs(md.rule, t, Wrap32(t));
    BlocksResume(true, block, msg, extras + tail, k);
    assert msg + (extras + tail) == msg + extras + tail;
    assert msg[k * block..] + (extras + tail) == content + tail;
    FoldConcat(md.compress, md.h0, Blocks(true, block, msg), Blocks(true, block, content + tail));
  }

  lemma SameTail(rule: PadRule, a: nat, b: nat, count: int)
    requires rule.Valid() && rule.trailer != NO_TRAILER && rule.PadLen(a) == rule.PadLen(b)
    ensures RuntimeTail(rule, a, count) == RuntimeTail(rule, b, count)
  {
  }

  // Up to the range of its count, the stream is the one-shot digest.
  lemma StreamIsDigest(md: Family, parts: seq<seq<byte>>, extras: seq<byte>)
    requires md.Valid()
    requires var t := |Joined(parts)| + |extras|;
             if md.rule.trailer == BIT_LENGTH then t < 0x1_0000_0000 else t + md.rule.reserve < 0x8000_0000
    ensures Finished(md, AdvanceAll(md, Init(md), parts), extras) == Digest(md, Joined(parts) + extras)
  {
    hide Blocks, Fold, Finished, AdvanceAll, StateOf, Joined, TailWith, FieldValue, UnpackBe, Wrap32;
    var msg := Joined(parts);
    AnySplit(md, parts);
    FinishedIsOneFold(md, msg, extras);
    CountTold(md.rule, |msg| + |extras|);
  }

  // And that range is exact: past it the stream pads a shorter length.
  lemma StreamPadsExactly(md: Family, msg: seq<byte>, extras: seq<byte>)
    requires md.Valid() && md.rule.trailer == BIT_LENGTH && 8 * (|msg| + |extras|) < 0x1_0000_0000_0000_0000
    ensures var t := |msg| + |extras|;
            CountedTail(md.rule, t) == TailOf(md.rule, t) <==> t < 0x1_0000_0000
  {
    hide Field, TailWith;
    var t := |msg| + |extras|;
    BitCount(md.rule, t);
    var v := FieldValue(md.rule, Wrap32(t));
    if TailWith(md.rule, t, v) == TailOf(md.rule, t) {
      TailEnds(md.rule, t, v);
      TailEnds(md.rule, t, 8 * t);
      FieldInjective(md.rule, v, 8 * t);
    }
  }

  lemma BitCount(rule: PadRule, t: nat)
    requires rule.Valid() && rule.trailer == BIT_LENGTH
    ensures FieldValue(rule, Wrap32(t)) == 8 * (t % 0x1_0000_0000)
  {
  }

  lemma TailEnds(rule: PadRule, length: nat, v: nat)
    requires rule.Valid() && rule.trailer != NO_TRAILER
    ensures var tail := TailWith(rule, length, v); tail[|tail| - 8..] == Field(rule, v)
  {
    hide Field;
    PadLenFits(rule, length);
  }
}

// The byte sponge of FIPS 202, section 4, in one shot (`sponge.py`), and
// incremental SHAKE over it (`streaming.py`). The permutation is a parameter.
module Shake {
  import opened Words
  import opened Stream
  import opened Pad
  import Bits
  import Fips202
  import Word64

  type Lanes = Fips202.Lanes

  function ZeroLanes(): (s: Lanes)
  {
    seq(50, _ => 0)
  }

  type Permutation = Fips202.Permutation

  // `_xor_into_rate`: a packed block into the rate prefix.
  function XorIntoRate(s: Lanes, block: seq<u32>): (r: Lanes)
  {
    seq(50, i requires 0 <= i < 50 => if i < |block| then Word64.Xor32(s[i], block[i]) else s[i])
  }

  // Every absorbed block is followed by a permutation.
  function AbsorbRows(p: Permutation, s: Lanes, rows: seq<seq<u32>>): (r: Lanes)
  {
    if |rows| == 0 then s else p(XorIntoRate(AbsorbRows(p, s, rows[..|rows| - 1]), rows[|rows| - 1]))
  }

  lemma {:induction false} AbsorbConcat(p: Permutation, s: Lanes, a: seq<seq<u32>>, b: seq<seq<u32>>)
    ensures AbsorbRows(p, AbsorbRows(p, s, a), b) == AbsorbRows(p, s, a + b)
  {
    if |b| == 0 {
      assert a + b == a;
    } else {
      hide XorIntoRate;
      var n := |b| - 1;
      AbsorbConcat(p, s, a, b[..n]);
      assert (a + b)[..|a + b| - 1] == a + b[..n];
    }
  }

  // The state k permutations on.
  function Iterate(p: Permutation, s: Lanes, k: nat): (r: Lanes)
  {
    if k == 0 then s else p(Iterate(p, s, k - 1))
  }

  lemma {:induction false} IterateAdds(p: Permutation, s: Lanes, a: nat, b: nat)
    ensures Iterate(p, Iterate(p, s, a), b) == Iterate(p, s, a + b)
  {
    if b > 0 {
      IterateAdds(p, s, a, b - 1);
    }
  }

  // `validate_sponge_params`
  predicate ValidParams(rate: int, suffix: int)
  {
    0 < rate < 200 && rate % 4 == 0 && 0 <= suffix < 0x80
  }

  function RateWords(rate: nat, s: Lanes): (w: seq<u32>)
    requires rate <= 200
    ensures |w| == rate / 4
  {
    s[..rate / 4]
  }

  function RateBytes(rate: nat, s: Lanes): (b: seq<byte>)
    requires rate <= 200 && rate % 4 == 0
    ensures |b| == rate
  {
    UnpackLe(RateWords(rate, s))
  }

  // ------------------------------------------------------------------------
  // FIPS 202: the output as a stream of bytes

  // Byte `from + i`.
  function OutputByte(p: Permutation, rate: nat, s: Lanes, from: nat, i: nat): (b: byte)
    requires ValidParams(rate, 0)
  {
    RateBytes(rate, Iterate(p, s, (from + i) / rate))[(from + i) % rate]
  }

  // Bytes [from, from + n) of the squeezed output.
  function Output(p: Permutation, rate: nat, s: Lanes, from: nat, n: nat): (out: seq<byte>)
    requires ValidParams(rate, 0)
    ensures |out| == n
  {
    seq(n, i requires 0 <= i < n => OutputByte(p, rate, s, from, i))
  }

  lemma OutputConcat(p: Permutation, rate: nat, s: Lanes, from: nat, a: nat, b: nat)
    requires ValidParams(rate, 0)
    ensures Output(p, rate, s, from, a + b) == Output(p, rate, s, from, a) + Output(p, rate, s, from + a, b)
  {
    var whole, parts := Output(p, rate, s, from, a + b), Output(p, rate, s, from, a) + Output(p, rate, s, from + a, b);
    forall i | 0 <= i < |whole|
      ensures whole[i] == parts[i]
    {
      assert i >= a ==> from + a + (i - a) == from + i;
    }
  }

  // Reading from a later state is reading further along.
  lemma OutputShift(p: Permutation, rate: nat, s: Lanes, q: nat, from: nat, n: nat)
    requires ValidParams(rate, 0)
    ensures Output(p, rate, Iterate(p, s, q), from, n) == Output(p, rate, s, q * rate + from, n)
  {
    hide OutputByte;
    var later, along := Output(p, rate, Iterate(p, s, q), from, n), Output(p, rate, s, q * rate + from, n);
    forall i | 0 <= i < |later|
      ensures later[i] == along[i]
    {
      ByteShift(p, rate, s, q, from, i);
    }
  }

  lemma ByteShift(p: Permutation, rate: nat, s: Lanes, q: nat, from: nat, i: nat)
    requires ValidParams(rate, 0)
    ensures OutputByte(p, rate, Iterate(p, s, q), from, i) == OutputByte(p, rate, s, q * rate + from, i)
  {
    hide Iterate, RateBytes;
    PositionShift(q, rate, from, i);
    IterateAdds(p, s, q, (from + i) / rate);
  }

  lemma PositionShift(q: nat, rate: nat, from: nat, i: nat)
    requires rate > 0
    ensures (q * rate + from + i) / rate == q + (from + i) / rate
    ensures (q * rate + from + i) % rate == (from + i) % rate
  {
    AddMultipleDiv(from + i, q, rate);
  }

  // The first k blocks of output.
  function RowsOut(p: Permutation, rate: nat, s: Lanes, k: nat): (w: seq<u32>)
    requires ValidParams(rate, 0)
    ensures |w| == k * (rate / 4)
  {
    if k == 0 then []
    else
      assert k * (rate / 4) == (k - 1) * (rate / 4) + rate / 4;
      RowsOut(p, rate, s, k - 1) + RateWords(rate, Iterate(p, s, k - 1))
  }

  lemma {:induction false} RowsAreOutput(p: Permutation, rate: nat, s: Lanes, k: nat)
    requires ValidParams(rate, 0)
    ensures UnpackLe(RowsOut(p, rate, s, k)) == Output(p, rate, s, 0, k * rate)
  {
    hide RateWords, Iterate, Output;
    if k == 0 {
      assert Output(p, rate, s, 0, 0) == [];
    } else {
      RowsAreOutput(p, rate, s, k - 1);
      BlockIsOutput(p, rate, s, k - 1);
      OutputConcat(p, rate, s, 0, (k - 1) * rate, rate);
      assert k * rate == (k - 1) * rate + rate;
    }
  }

  lemma BlockIsOutput(p: Permutation, rate: nat, s: Lanes, k: nat)
    requires ValidParams(rate, 0)
    ensures RateBytes(rate, Iterate(p, s, k)) == Output(p, rate, s, k * rate, rate)
  {
    hide RateBytes, Iterate;
    forall i | 0 <= i < rate
      ensures RateBytes(rate, Iterate(p, s, k))[i] == OutputByte(p, rate, s, k * rate, i)
    {
      DivModOf(k, i, rate);
    }
  }

  // ------------------------------------------------------------------------
  // The standard's bytes

  // Xoring words into the rate prefix xors the state's bytes, and leaves those
  // past them alone.
  lemma XorIntoRateBytes(s: Lanes, block: seq<u32>, k: nat)
    requires |block| <= 50 && k < 200
    ensures UnpackLe(XorIntoRate(s, block))[k]
         == if k < 4 * |block| then Word64.Xor8(UnpackLe(s)[k], UnpackLe(block)[k]) else UnpackLe(s)[k]
  {
    hide ByteOf, Word64.Xor32, Word64.Xor8;
    if k < 4 * |block| {
      Bits.XorBytes(s[k / 4], block[k / 4], k % 4);
    }
  }

  lemma XorNothing(b: byte)
    ensures Word64.Xor8(b, 0) == b
  {
    assert Pow2(8) == 256;
    Word64.XorZero(8, b);
  }

  // Zero words change nothing, and the same words twice undo themselves.
  lemma XorIntoRateUndoes(s: Lanes, block: seq<u32>)
    requires |block| <= 50
    ensures XorIntoRate(s, seq(|block|, _ => 0)) == s
    ensures XorIntoRate(XorIntoRate(s, block), block) == s
  {
    hide Word64.Xor32;
    forall i | 0 <= i < 50
      ensures i < |block| ==> Word64.Xor32(s[i], 0) == s[i]
      ensures i < |block| ==> Word64.Xor32(Word64.Xor32(s[i], block[i]), block[i]) == s[i]
    {
      if i < |block| {
        Bits.XorUndoes(s[i], block[i]);
      }
    }
  }

  // One absorbed block is the standard's S xor (P_i || 0^c).
  lemma BlockMixes(rate: nat, s: Lanes, m: seq<byte>, i: nat)
    requires ValidParams(rate, 0) && (i + 1) * rate <= |m|
    ensures i * rate >= 0 && i * rate + rate <= |m|
    ensures XorIntoRate(s, PackLe(m[i * rate..i * rate + rate]))
         == PackLe(seq(200, k requires 0 <= k < 200 => Fips202.MixedByte(rate, s, m, i, k)))
  {
    hide PackLe, UnpackLe, XorIntoRate, Word64.Xor8;
    assert (i + 1) * rate == i * rate + rate;
    var block := m[i * rate..i * rate + rate];
    var mixed := seq(200, k requires 0 <= k < 200 => Fips202.MixedByte(rate, s, m, i, k));
    var state := XorIntoRate(s, PackLe(block));
    UnpackLePackLe(block);
    forall k | 0 <= k < 200
      ensures UnpackLe(state)[k] == mixed[k]
    {
      XorIntoRateBytes(s, PackLe(block), k);
      XorNothing(UnpackLe(s)[k]);
    }
    assert UnpackLe(state) == mixed;
    PackLeUnpackLe(state);
  }

  lemma {:induction false} RowsAreStates(p: Permutation, rate: nat, m: seq<byte>, n: nat)
    requires ValidParams(rate, 0) && n * rate <= |m|
    ensures AbsorbRows(p, ZeroLanes(), Blocks(false, rate, m[..n * rate])) == Fips202.StateAfter(p, rate, m, n)
  {
    if n == 0 {
      assert m[..0] == [];
    } else {
      assert n * rate == (n - 1) * rate + rate;
      var front, block := m[..(n - 1) * rate], m[(n - 1) * rate..(n - 1) * rate + rate];
      assert m[..n * rate] == front + block;
      BlocksConcat(false, rate, front, n - 1, block);
      OneBlock(rate, block);
      AbsorbConcat(p, ZeroLanes(), Blocks(false, rate, front), Blocks(false, rate, block));
      hide Blocks, AbsorbRows, XorIntoRate, ZeroLanes;
      RowsAreStates(p, rate, m, n - 1);
      AbsorbSingle(p, Fips202.StateAfter(p, rate, m, n - 1), PackLe(block));
      BlockMixes(rate, Fips202.StateAfter(p, rate, m, n - 1), m, n - 1);
    }
  }

  lemma PaddedIsMessage(rate: nat, suffix: byte, msg: seq<byte>)
    requires ValidParams(rate, suffix)
    ensures SpongePadded(SpongePad(rate, suffix, true), msg) == Fips202.Message(rate, suffix, msg)
  {
    var pad := SpongePad(rate, suffix, true);
    var q := rate - |msg| % rate;
    var t := SpongeTail(pad, |msg|);
    assert |t| == q;
    forall i | 0 <= i < q
      ensures t[i] == Fips202.PadByte(suffix, q, i)
    {
    }
  }

  lemma {:induction false} IterateIsPermuted(p: Permutation, s: Lanes, n: nat)
    ensures Iterate(p, s, n) == Fips202.Permuted(p, s, n)
  {
    if n > 0 {
      IterateIsPermuted(p, s, n - 1);
    }
  }

  // The absorbed state's output is FIPS 202's sponge.
  lemma OutputIsSponge(p: Permutation, rate: nat, suffix: byte, msg: seq<byte>, n: nat)
    requires ValidParams(rate, suffix)
    ensures Output(p, rate, Absorbed(p, rate, suffix, msg), 0, n) == Fips202.Sponge(p, rate, suffix, msg, n)
  {
    hide AbsorbRows, Blocks, SpongePadded, Fips202.StateAfter, UnpackLe, Iterate, Fips202.Permuted;
    var m := Fips202.Message(rate, suffix, msg);
    PaddedIsMessage(rate, suffix, msg);
    var blocks := |m| / rate;
    DivBounds(|m|, rate);
    assert m[..blocks * rate] == m;
    RowsAreStates(p, rate, m, blocks);
    var s := Absorbed(p, rate, suffix, msg);
    forall i | 0 <= i < n
      ensures OutputByte(p, rate, s, 0, i) == Fips202.OutByte(p, rate, s, i)
    {
      IterateIsPermuted(p, s, i / rate);
      PrefixBytes(rate, Iterate(p, s, i / rate), i % rate);
    }
  }

  lemma PrefixBytes(rate: nat, s: Lanes, k: nat)
    requires ValidParams(rate, 0) && k < rate
    ensures RateBytes(rate, s)[k] == UnpackLe(s)[k]
  {
    hide ByteOf;
  }

  // ------------------------------------------------------------------------
  // `KeccakSponge.hash`

  // The state after the padded message.
  function Absorbed(p: Permutation, rate: nat, suffix: byte, msg: seq<byte>): (s: Lanes)
    requires ValidParams(rate, suffix)
  {
    AbsorbRows(p, ZeroLanes(), Blocks(false, rate, SpongePadded(SpongePad(rate, suffix, true), msg)))
  }

  // `KeccakSponge(rate, suffix, output_size).hash(msg)`: the unrolled absorb,
  // then the terminating squeeze, which permutes only between reads. `None` is
  // a rejected parameter.
  method Hash(p: Permutation, rate: int, suffix: int, outputSize: int, msg: seq<byte>) returns (out: Option<seq<byte>>)
    ensures out.Some? <==> 0 < rate < 200 && rate % 4 == 0 && 0 <= suffix < 0x80 && outputSize >= 1
    ensures out.Some? ==> out.value == Fips202.Sponge(p, rate, suffix, msg, outputSize)
  {
    hide Fips202.Sponge, AbsorbRows, Output, Blocks, SpongeTail, RateWords, Iterate, UnpackLe, RowsOut;
    if !ValidParams(rate, suffix) || outputSize < 1 {
      return None;
    }
    var tail := SpongeTailInPlace(SpongePad(rate, suffix, true), |msg|);
    var blocks := Blocks(false, rate, msg + tail);
    var state: Lanes := ZeroLanes();
    AbsorbNothing(p, state, blocks);
    for i := 0 to |blocks|
      invariant state == AbsorbRows(p, ZeroLanes(), blocks[..i])
    {
      AbsorbOne(p, ZeroLanes(), blocks, i);
      state := p(XorIntoRate(state, blocks[i]));
    }
    assert blocks[..|blocks|] == blocks;
    ghost var full := state;

    var squeezes := CeilDiv(outputSize, rate);
    var words: seq<u32> := [];
    FirstRow(p, rate, full);
    for i := 0 to squeezes
      invariant words == RowsOut(p, rate, full, i)
      invariant i < squeezes || squeezes == 0 ==> state == Iterate(p, full, i)
    {
      NextRow(p, rate, full, i);
      words := words + RateWords(rate, state);
      if i + 1 < squeezes {
        state := p(state);
      }
    }
    RowsAreOutput(p, rate, full, squeezes);
    UnitsBounds(outputSize, rate);
    OutputPrefix(p, rate, full, 0, outputSize, squeezes * rate);
    OutputIsSponge(p, rate, suffix, msg, outputSize);
    return Some(UnpackLe(words)[..outputSize]);
  }

  lemma AbsorbNothing(p: Permutation, s: Lanes, rows: seq<seq<u32>>)
    ensures AbsorbRows(p, s, rows[..0]) == s
  {
  }

  lemma AbsorbOne(p: Permutation, s: Lanes, rows: seq<seq<u32>>, i: nat)
    requires i < |rows|
    ensures AbsorbRows(p, s, rows[..i + 1]) == p(XorIntoRate(AbsorbRows(p, s, rows[..i]), rows[i]))
  {
    assert rows[..i + 1][..i] == rows[..i];
  }

  lemma FirstRow(p: Permutation, rate: nat, s: Lanes)
    requires ValidParams(rate, 0)
    ensures RowsOut(p, rate, s, 0) == [] && Iterate(p, s, 0) == s
  {
  }

  lemma NextRow(p: Permutation, rate: nat, s: Lanes, k: nat)
    requires ValidParams(rate, 0)
    ensures RowsOut(p, rate, s, k + 1) == RowsOut(p, rate, s, k) + RateWords(rate, Iterate(p, s, k))
    ensures Iterate(p, s, k + 1) == p(Iterate(p, s, k))
  {
  }

  lemma OutputPrefix(p: Permutation, rate: nat, s: Lanes, from: nat, n: nat, m: nat)
    requires ValidParams(rate, 0) && n <= m
    ensures Output(p, rate, s, from, m)[..n] == Output(p, rate, s, from, n)
  {
    OutputConcat(p, rate, s, from, n, m - n);
  }

  // ------------------------------------------------------------------------
  // Incremental SHAKE

  datatype Absorb = ShakeAbsorb(state: Lanes, pending: seq<byte>, pendingLen: nat, rate: nat, suffix: byte)

  predicate Shaped(a: Absorb)
  {
    ValidParams(a.rate, a.suffix) && |a.pending| == a.rate && a.pendingLen < a.rate
  }

  // `shake_init`, its ValueErrors as `None`.
  function Init(rate: int, suffix: int): (a: Option<Absorb>)
    ensures a.Some? <==> 0 < rate < 200 && rate % 4 == 0 && 0 <= suffix < 0x80
    ensures a.Some? ==> Shaped(a.value)
  {
    if ValidParams(rate, suffix) then Some(ShakeAbsorb(ZeroLanes(), Zeros(rate), 0, rate, suffix)) else None
  }

  function Open(a: Absorb, data: seq<byte>): (all: seq<byte>)
    requires a.pendingLen <= |a.pending|
  {
    a.pending[..a.pendingLen] + data
  }

  // What absorbing means: every complete block goes into the state.
  function Advance(p: Permutation, a: Absorb, data: seq<byte>): (r: Absorb)
    requires Shaped(a)
    ensures Shaped(r) && r.rate == a.rate && r.suffix == a.suffix
  {
    var all := Open(a, data);
    a.(state := AbsorbRows(p, a.state, Blocks(false, a.rate, all)), pending := Held(a.rate, all),
       pendingLen := |all| % a.rate)
  }

  // The absorb loop: one pass to the upper candidate, the lower one
  // snapshotted on the way, the live one selected.
  method AbsorbCandidates(p: Permutation, start: Lanes, rows: seq<seq<u32>>, minBlocks: nat, active: nat)
    returns (merged: Lanes)
    requires minBlocks <= active <= |rows| <= minBlocks + 1
    ensures merged == AbsorbRows(p, start, rows[..active])
  {
    hide AbsorbRows, XorIntoRate;
    var maxBlocks := |rows|;
    var state, lower := start, start;
    AbsorbNothing(p, start, rows);
    for i := 0 to maxBlocks
      invariant state == AbsorbRows(p, start, rows[..i])
      invariant i > minBlocks ==> lower == AbsorbRows(p, start, rows[..minBlocks])
    {
      if i == minBlocks {
        lower := state;
      }
      AbsorbOne(p, start, rows, i);
      state := p(XorIntoRate(state, rows[i]));
    }
    merged := if minBlocks == maxBlocks || active == maxBlocks then state else lower;
  }

  // `ShakeAbsorb.absorb`
  method AbsorbBytes(p: Permutation, a: Absorb, data: seq<byte>) returns (r: Absorb)
    requires Shaped(a)
    ensures r == Advance(p, a, data)
  {
    hide AbsorbRows, Blocks, Held, Gather, NextPending;
    var rate, length := a.rate, |data|;
    var maxBlocks := (rate - 1 + length) / rate;
    var newLen := a.pendingLen + length;
    var active := newLen / rate;
    var minBlocks := length / rate;
    DivBounds(newLen, rate);
    DivBounds(rate - 1 + length, rate);
    DivBounds(length, rate);
    Layout(false, a.pending, a.pendingLen, data, maxBlocks, active);
    var stream := Gather(a.pending + data, a.pendingLen, rate, (maxBlocks + 1) * rate);
    var merged := AbsorbCandidates(p, a.state, Blocks(false, rate, stream[..maxBlocks * rate]), minBlocks, active);
    var tailLen := newLen - active * rate;
    r := ShakeAbsorb(merged, NextPending(rate, stream, active * rate, tailLen), tailLen, rate, a.suffix);
  }

  lemma OpenIs(a: Absorb, data: seq<byte>)
    requires a.pendingLen <= |a.pending|
    ensures Open(a, data) == a.pending[..a.pendingLen] + data
  {
  }

  lemma OpenHeld(p: Permutation, a: Absorb, data: seq<byte>, more: seq<byte>, k: nat)
    requires Shaped(a) && k == |Open(a, data)| / a.rate && k * a.rate <= |Open(a, data)|
    ensures Open(Advance(p, a, data), more) == Open(a, data)[k * a.rate..] + more
  {
    hide Blocks, AbsorbRows, Open;
    DivBounds(|Open(a, data)|, a.rate);
    OpenIs(Advance(p, a, data), more);
  }

  // Two absorbs are one absorb of both, on every field, from every state.
  lemma AdvanceAppends(p: Permutation, a: Absorb, x: seq<byte>, y: seq<byte>)
    requires Shaped(a)
    ensures Advance(p, Advance(p, a, x), y) == Advance(p, a, x + y)
  {
    hide Blocks, AbsorbRows, Held, Open;
    var all := Open(a, x);
    var k := |all| / a.rate;
    DivBounds(|all|, a.rate);
    OpenHeld(p, a, x, y, k);
    OpenConcat(a, x, y);
    BlocksResume(false, a.rate, all, y, k);
    HeldResume(a.rate, all, y, k);
    AbsorbConcat(p, a.state, Blocks(false, a.rate, all), Blocks(false, a.rate, all[k * a.rate..] + y));
  }

  lemma OpenConcat(a: Absorb, x: seq<byte>, y: seq<byte>)
    requires a.pendingLen <= |a.pending|
    ensures Open(a, x + y) == Open(a, x) + y
  {
  }

  function AdvanceAll(p: Permutation, a: Absorb, parts: seq<seq<byte>>): (r: Absorb)
    requires Shaped(a)
    ensures Shaped(r) && r.rate == a.rate && r.suffix == a.suffix
  {
    if |parts| == 0 then a else Advance(p, AdvanceAll(p, a, parts[..|parts| - 1]), parts[|parts| - 1])
  }

  lemma {:induction false} AnySplit(p: Permutation, a: Absorb, parts: seq<seq<byte>>)
    requires Shaped(a) && Advance(p, a, []) == a
    ensures AdvanceAll(p, a, parts) == Advance(p, a, Joined(parts))
  {
    if |parts| > 0 {
      hide Advance;
      var n := |parts| - 1;
      AnySplit(p, a, parts[..n]);
      AdvanceAppends(p, a, Joined(parts[..n]), parts[n]);
    }
  }

  lemma EverySplit(p: Permutation, rate: nat, suffix: byte, parts: seq<seq<byte>>)
    requires ValidParams(rate, suffix)
    ensures var init := Init(rate, suffix).value;
            AdvanceAll(p, init, parts) == Advance(p, init, Joined(parts))
  {
    var init := Init(rate, suffix).value;
    assert Open(init, []) == [];
    assert Held(rate, []) == Zeros(rate);
    AnySplit(p, init, parts);
  }

  // `_padded_state`'s block: the suffix placed by comparison, bit 7 folded into
  // the last byte.
  function PaddedByte(a: Absorb, slot: nat): (b: byte)
    requires Shaped(a) && slot < a.rate
  {
    var b: byte := if slot == a.pendingLen then a.suffix else if slot < a.pendingLen then a.pending[slot] else 0;
    if slot == a.rate - 1 then Xor80(b) else b
  }

  function PaddedBlock(a: Absorb): (block: seq<byte>)
    requires Shaped(a)
    ensures |block| == a.rate
  {
    seq(a.rate, slot requires 0 <= slot < a.rate => PaddedByte(a, slot))
  }

  // The runtime pad is the static one, at every pending length: the last slot
  // only ever holds the suffix or a zero, where xor with bit 7 sets it.
  lemma PaddedBlockIs(a: Absorb)
    requires Shaped(a)
    ensures PaddedBlock(a) == Open(a, []) + SpongeTail(SpongePad(a.rate, a.suffix, true), a.pendingLen)
  {
    var pad := SpongePad(a.rate, a.suffix, true);
    RemainderLen(pad, a.pendingLen);
    var tail, block := SpongeTail(pad, a.pendingLen), PaddedBlock(a);
    forall slot | 0 <= slot < a.rate
      ensures block[slot] == if slot < a.pendingLen then a.pending[slot] else tail[slot - a.pendingLen]
    {
    }
  }

  lemma RemainderLen(pad: SpongePad, r: nat)
    requires r < pad.rate
    ensures pad.PadLen(r) == pad.rate - r
  {
  }

  function PaddedState(p: Permutation, a: Absorb): (s: Lanes)
    requires Shaped(a)
  {
    p(XorIntoRate(a.state, PackLe(PaddedBlock(a))))
  }

  lemma TailPeriodic(pad: SpongePad, length: nat, k: nat)
    requires pad.rate >= 1
    ensures SpongeTail(pad, k * pad.rate + length) == SpongeTail(pad, length)
  {
    AddMultipleDiv(length, k, pad.rate);
  }

  // Finalizing whatever was absorbed is the one-shot sponge's absorb.
  lemma PaddedStateIs(p: Permutation, rate: nat, suffix: byte, msg: seq<byte>)
    requires ValidParams(rate, suffix)
    ensures PaddedState(p, Advance(p, Init(rate, suffix).value, msg)) == Absorbed(p, rate, suffix, msg)
  {
    hide Blocks, AbsorbRows, Held, Open, SpongeTail, PaddedBlock, XorIntoRate;
    var init, pad := Init(rate, suffix).value, SpongePad(rate, suffix, true);
    var k := |msg| / rate;
    DivBounds(|msg|, rate);
    OpenIs(init, msg);
    assert Open(init, msg) == msg;
    var a := Advance(p, init, msg);
    OpenHeld(p, init, msg, [], k);
    var rest := msg[k * rate..];
    assert rest + [] == rest;
    PaddedBlockIs(a);
    TailPeriodic(pad, |rest|, k);
    BlocksResume(false, rate, msg, SpongeTail(pad, |msg|), k);
    OneBlock(rate, PaddedBlock(a));
    AbsorbConcat(p, ZeroLanes(), Blocks(false, rate, msg), [PackLe(PaddedBlock(a))]);
    AbsorbSingle(p, a.state, PackLe(PaddedBlock(a)));
  }

  lemma OneBlock(rate: nat, block: seq<byte>)
    requires rate > 0 && rate % 4 == 0 && |block| == rate
    ensures Blocks(false, rate, block) == [PackLe(block)]
  {
    assert block[..rate] == block;
  }

  lemma AbsorbSingle(p: Permutation, s: Lanes, row: seq<u32>)
    ensures AbsorbRows(p, s, [row]) == p(XorIntoRate(s, row))
  {
    assert [row][..0] == [];
  }

  // ------------------------------------------------------------------------
  // The squeezing halves

  // The two squeezers: whole blocks only, and any byte count. Nothing narrows
  // the second back to the first.
  datatype Squeezer =
    | ShakeBlockSqueeze(state: Lanes)
    | ShakeSqueeze(state: Lanes, offset: nat)

  datatype Request = SqueezeBlocks(nblocks: int) | Widen | Squeeze(nbytes: int)

  predicate Placed(rate: nat, q: Squeezer)
  {
    ValidParams(rate, 0) && (q.ShakeSqueeze? ==> q.offset < rate)
  }

  // A squeezer at byte k of the output from `base`.
  function At(p: Permutation, rate: nat, base: Lanes, k: nat): (q: Squeezer)
    requires ValidParams(rate, 0)
    ensures Placed(rate, q)
  {
    ShakeSqueeze(Iterate(p, base, k / rate), k % rate)
  }

  // What one request gives: the bytes from the carried position, and the
  // position past them. `None` is a count below one, or a request the squeezer's
  // type does not have.
  function Serve(p: Permutation, rate: nat, q: Squeezer, r: Request): (t: Option<(Squeezer, seq<byte>)>)
    requires Placed(rate, q)
    ensures t.Some? ==> Placed(rate, t.value.0)
  {
    match (q, r)
    case (ShakeBlockSqueeze(state), SqueezeBlocks(n)) =>
      if n < 1 then None
      else Some((ShakeBlockSqueeze(Iterate(p, state, n)), Output(p, rate, state, 0, n * rate)))
    case (ShakeBlockSqueeze(state), Widen) =>
      Some((ShakeSqueeze(state, 0), []))
    case (ShakeSqueeze(state, offset), Squeeze(n)) =>
      if n < 1 then None
      else Some((At(p, rate, state, offset + n), Output(p, rate, state, offset, n)))
    case _ => None
  }

  // `ShakeBlockSqueeze.squeeze_blocks`: words collected, unpacked once, and a
  // permutation after the last block too.
  method TakeBlocks(p: Permutation, rate: nat, q: Squeezer, nblocks: int) returns (t: Option<(Squeezer, seq<byte>)>)
    requires Placed(rate, q) && q.ShakeBlockSqueeze?
    ensures t == Serve(p, rate, q, SqueezeBlocks(nblocks))
  {
    hide RateWords, Iterate, Output, RowsOut;
    if nblocks < 1 {
      return None;
    }
    var state := q.state;
    var words: seq<u32> := [];
    FirstRow(p, rate, q.state);
    for i := 0 to nblocks
      invariant words == RowsOut(p, rate, q.state, i)
      invariant state == Iterate(p, q.state, i)
    {
      NextRow(p, rate, q.state, i);
      words := words + RateWords(rate, state);
      state := p(state);
    }
    RowsAreOutput(p, rate, q.state, nblocks);
    return Some((ShakeBlockSqueeze(state), UnpackLe(words)));
  }

  // The two counts a byte squeeze works out: blocks it must be able to read,
  // permutations its carry can need.
  lemma SqueezeCounts(offset: nat, n: nat, rate: nat, upper: nat, nperms: nat)
    requires rate > 0 && offset < rate && n >= 1
    requires upper == CeilDiv(rate - 1 + n, rate) && nperms == (rate - 1 + n) / rate
    ensures offset + n <= upper * rate
    ensures nperms <= upper <= nperms + 1
    ensures (offset + n) / rate <= nperms
  {
    hide CeilDiv;
    CeilBounds(rate - 1 + n, rate);
    DivMono(offset + n, rate - 1 + n, rate);
  }

  // Read to the upper block count, keeping every state the carry could be.
  method ReadChain(p: Permutation, rate: nat, start: Lanes, upper: nat, nperms: nat)
    returns (stream: seq<byte>, chain: seq<Lanes>)
    requires ValidParams(rate, 0) && nperms <= upper <= nperms + 1
    ensures stream == Output(p, rate, start, 0, upper * rate)
    ensures |chain| == nperms + 1 && forall k :: 0 <= k <= nperms ==> chain[k] == Iterate(p, start, k)
  {
    hide Iterate, Output, RateBytes;
    var state := start;
    chain := [state];
    stream := [];
    NoOutput(p, rate, start);
    for i := 0 to upper
      invariant stream == Output(p, rate, start, 0, i * rate)
      invariant |chain| == (if i < nperms then i else nperms) + 1
      invariant forall k :: 0 <= k < |chain| ==> chain[k] == Iterate(p, start, k)
      invariant state == chain[|chain| - 1]
    {
      NextBlock(p, rate, start, i);
      stream := stream + RateBytes(rate, state);
      if i < nperms {
        state := p(state);
        chain := chain + [state];
      }
    }
  }

  // `ShakeSqueeze.squeeze`
  method TakeBytes(p: Permutation, rate: nat, q: Squeezer, nbytes: int) returns (t: Option<(Squeezer, seq<byte>)>)
    requires Placed(rate, q) && q.ShakeSqueeze?
    ensures t == Serve(p, rate, q, Squeeze(nbytes))
  {
    hide Iterate, Output, CeilDiv;
    if nbytes < 1 {
      return None;
    }
    DivBounds(rate - 1 + nbytes, rate);
    var upper, nperms := CeilDiv(rate - 1 + nbytes, rate), (rate - 1 + nbytes) / rate;
    SqueezeCounts(q.offset, nbytes, rate, upper, nperms);
    var stream, chain := ReadChain(p, rate, q.state, upper, nperms);
    var out := stream[q.offset..q.offset + nbytes];
    OutputSlice(p, rate, q.state, q.offset, nbytes, upper * rate);
    var end := q.offset + nbytes;
    DivBounds(end, rate);
    var carried := Selected(chain, end / rate);
    return Some((ShakeSqueeze(carried, end % rate), out));
  }

  // The carry, selected out of the chain.
  method Selected(chain: seq<Lanes>, consumed: nat) returns (carried: Lanes)
    requires consumed < |chain|
    ensures carried == chain[consumed]
  {
    carried := chain[0];
    for k := 1 to |chain|
      invariant carried == if consumed < k then chain[consumed] else chain[0]
    {
      if consumed == k {
        carried := chain[k];
      }
    }
  }

  lemma NoOutput(p: Permutation, rate: nat, s: Lanes)
    requires ValidParams(rate, 0)
    ensures Output(p, rate, s, 0, 0 * rate) == [] && Iterate(p, s, 0) == s
  {
  }

  lemma NextBlock(p: Permutation, rate: nat, s: Lanes, k: nat)
    requires ValidParams(rate, 0)
    ensures Output(p, rate, s, 0, (k + 1) * rate) == Output(p, rate, s, 0, k * rate) + RateBytes(rate, Iterate(p, s, k))
    ensures Iterate(p, s, k + 1) == p(Iterate(p, s, k))
  {
    hide Output, RateBytes;
    BlockIsOutput(p, rate, s, k);
    OutputConcat(p, rate, s, 0, k * rate, rate);
    assert (k + 1) * rate == k * rate + rate;
  }

  lemma OutputSlice(p: Permutation, rate: nat, s: Lanes, from: nat, n: nat, m: nat)
    requires ValidParams(rate, 0) && from + n <= m
    ensures Output(p, rate, s, 0, m)[from..from + n] == Output(p, rate, s, from, n)
  {
    hide Output;
    OutputConcat(p, rate, s, 0, from, m - from);
    OutputPrefix(p, rate, s, from, n, m - from);
    var front, back := Output(p, rate, s, 0, from), Output(p, rate, s, from, m - from);
    assert (front + back)[from..from + n] == back[..n];
  }

  // ------------------------------------------------------------------------
  // Any run of requests

  // The squeezer's next unread byte is byte k of the output from `base`.
  predicate Reads(p: Permutation, rate: nat, base: Lanes, q: Squeezer, k: nat)
    requires ValidParams(rate, 0)
  {
    q.state == Iterate(p, base, k / rate) && k % rate == if q.ShakeSqueeze? then q.offset else 0
  }

  // One request reads on from there.
  lemma ServeReadsOn(p: Permutation, rate: nat, base: Lanes, q: Squeezer, k: nat, r: Request)
    requires Placed(rate, q) && Reads(p, rate, base, q, k)
    ensures var t := Serve(p, rate, q, r);
            t.Some? ==>
              (var n := |t.value.1|;
               t.value.1 == Output(p, rate, base, k, n) && Reads(p, rate, base, t.value.0, k + n))
  {
    hide Output, Reads, Iterate;
    if q.ShakeBlockSqueeze? && r.SqueezeBlocks? && r.nblocks >= 1 {
      BlocksReadOn(p, rate, base, q, k, r.nblocks);
    } else if q.ShakeBlockSqueeze? && r.Widen? {
      WidenReadsOn(p, rate, base, q, k);
    } else if q.ShakeSqueeze? && r.Squeeze? && r.nbytes >= 1 {
      BytesReadOn(p, rate, base, q, k, r.nbytes);
    }
  }

  lemma BlocksReadOn(p: Permutation, rate: nat, base: Lanes, q: Squeezer, k: nat, n: nat)
    requires Placed(rate, q) && Reads(p, rate, base, q, k) && q.ShakeBlockSqueeze?
    ensures Output(p, rate, q.state, 0, n * rate) == Output(p, rate, base, k, n * rate)
    ensures Reads(p, rate, base, ShakeBlockSqueeze(Iterate(p, q.state, n)), k + n * rate)
  {
    hide Iterate, Output;
    DivBounds(k, rate);
    OutputShift(p, rate, base, k / rate, 0, n * rate);
    IterateAdds(p, base, k / rate, n);
    WholeBlocksOn(k / rate, n, rate);
  }

  lemma WidenReadsOn(p: Permutation, rate: nat, base: Lanes, q: Squeezer, k: nat)
    requires Placed(rate, q) && Reads(p, rate, base, q, k) && q.ShakeBlockSqueeze?
    ensures Output(p, rate, base, k, 0) == [] && Reads(p, rate, base, ShakeSqueeze(q.state, 0), k)
  {
    hide Iterate;
  }

  lemma BytesReadOn(p: Permutation, rate: nat, base: Lanes, q: Squeezer, k: nat, n: nat)
    requires Placed(rate, q) && Reads(p, rate, base, q, k) && q.ShakeSqueeze?
    ensures Output(p, rate, q.state, q.offset, n) == Output(p, rate, base, k, n)
    ensures Reads(p, rate, base, At(p, rate, q.state, q.offset + n), k + n)
  {
    hide Iterate, Output;
    DivBounds(k, rate);
    DivBounds(q.offset + n, rate);
    OutputShift(p, rate, base, k / rate, q.offset, n);
    IterateAdds(p, base, k / rate, (q.offset + n) / rate);
    PositionShift(k / rate, rate, q.offset, n);
  }

  lemma WholeBlocksOn(j: nat, n: nat, rate: nat)
    requires rate > 0
    ensures (j * rate + n * rate) / rate == j + n && (j * rate + n * rate) % rate == 0
  {
    AddMultipleDiv(n * rate, j, rate);
    AddMultipleDiv(0, n, rate);
  }

  // Requests a squeezer can be sent: positive counts, whole blocks before the
  // widening, bytes after it.
  predicate Admissible(wide: bool, requests: seq<Request>)
    decreases |requests|
  {
    |requests| == 0 ||
    match requests[0]
    case SqueezeBlocks(n) => !wide && n >= 1 && Admissible(wide, requests[1..])
    case Widen => !wide && Admissible(true, requests[1..])
    case Squeeze(n) => wide && n >= 1 && Admissible(wide, requests[1..])
  }

  function Asked(rate: nat, r: Request): (n: int)
  {
    match r
    case SqueezeBlocks(n) => n * rate
    case Widen => 0
    case Squeeze(n) => n
  }

  function TotalAsked(rate: nat, requests: seq<Request>): (n: int)
  {
    if |requests| == 0 then 0 else Asked(rate, requests[0]) + TotalAsked(rate, requests[1..])
  }

  method Answer(p: Permutation, rate: nat, q: Squeezer, r: Request) returns (t: Option<(Squeezer, seq<byte>)>)
    requires Placed(rate, q)
    ensures t == Serve(p, rate, q, r)
  {
    match (q, r)
    case (ShakeBlockSqueeze(_), SqueezeBlocks(n)) => t := TakeBlocks(p, rate, q, n);
    case (ShakeBlockSqueeze(state), Widen) => t := Some((ShakeSqueeze(state, 0), []));
    case (ShakeSqueeze(_, _), Squeeze(n)) => t := TakeBytes(p, rate, q, n);
    case _ => t := None;
  }

  // Any run of requests from byte k on concatenates to one stretch of the
  // output, as long as what was asked for, and leaves the squeezer behind it.
  method SqueezeRun(p: Permutation, rate: nat, ghost base: Lanes, ghost k: nat, start: Squeezer, requests: seq<Request>)
    returns (out: Option<seq<byte>>, q: Squeezer)
    requires Placed(rate, start) && Reads(p, rate, base, start, k)
    ensures out.Some? <==> Admissible(start.ShakeSqueeze?, requests)
    ensures out.Some? ==>
              (var n := |out.value|;
               n == TotalAsked(rate, requests) && out.value == Output(p, rate, base, k, n)
               && Placed(rate, q) && Reads(p, rate, base, q, k + n))
  {
    hide Serve, Reads, Output;
    q := start;
    var bytes: seq<byte> := [];
    for i := 0 to |requests|
      invariant Placed(rate, q) && Reads(p, rate, base, q, k + |bytes|) && bytes == Output(p, rate, base, k, |bytes|)
      invariant Admissible(start.ShakeSqueeze?, requests) == Admissible(q.ShakeSqueeze?, requests[i..])
      invariant |bytes| + TotalAsked(rate, requests[i..]) == TotalAsked(rate, requests)
    {
      ServeSize(p, rate, q, requests[i]);
      ServeReadsOn(p, rate, base, q, k + |bytes|, requests[i]);
      var t := Answer(p, rate, q, requests[i]);
      assert requests[i..][1..] == requests[i + 1..];
      if t.None? {
        return None, q;
      }
      OutputConcat(p, rate, base, k, |bytes|, |t.value.1|);
      q, bytes := t.value.0, bytes + t.value.1;
    }
    return Some(bytes), q;
  }

  // A request is served when the squeezer's type has it and its count is
  // positive, and gives as many bytes as it asks for.
  lemma ServeSize(p: Permutation, rate: nat, q: Squeezer, r: Request)
    requires Placed(rate, q)
    ensures var t := Serve(p, rate, q, r);
            && (t.Some? <==> (if q.ShakeSqueeze? then r.Squeeze? && r.nbytes >= 1
                              else r.Widen? || (r.SqueezeBlocks? && r.nblocks >= 1)))
            && (t.Some? ==> |t.value.1| == Asked(rate, r) && t.value.0.ShakeSqueeze? == (q.ShakeSqueeze? || r.Widen?))
  {
    hide Output, Iterate;
  }

  // Any split of the absorb, then any run of squeezes, is the one-shot
  // sponge's output over the whole message at the total length.
  method HashParts(p: Permutation, rate: nat, suffix: byte, parts: seq<seq<byte>>, requests: seq<Request>)
    returns (out: Option<seq<byte>>)
    requires ValidParams(rate, suffix)
    ensures out.Some? <==> Admissible(false, requests)
    ensures out.Some? ==>
              (var n := |out.value|;
               n == TotalAsked(rate, requests)
               && out.value == Fips202.Sponge(p, rate, suffix, Joined(parts), n))
  {
    hide Fips202.Sponge, PaddedState, Output, Absorbed, Joined, Advance, Init;
    var init := Init(rate, suffix).value;
    var a := init;
    for i := 0 to |parts|
      invariant Shaped(a) && a == AdvanceAll(p, init, parts[..i])
    {
      assert parts[..i + 1][..i] == parts[..i];
      a := AbsorbBytes(p, a, parts[i]);
    }
    assert parts[..|parts|] == parts;
    EverySplit(p, rate, suffix, parts);
    PaddedStateIs(p, rate, suffix, Joined(parts));
    ghost var base := Absorbed(p, rate, suffix, Joined(parts));
    var q;
    out, q := SqueezeRun(p, rate, base, 0, ShakeBlockSqueeze(PaddedState(p, a)), requests);
    if out.Some? {
      OutputIsSponge(p, rate, suffix, Joined(parts), |out.value|);
    }
  }
}

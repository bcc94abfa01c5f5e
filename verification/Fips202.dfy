// FIPS 202, section 4: the sponge construction on a 200-byte state, its message
// and its output as bytes. Nothing here is shared with the schedules that are
// proved to compute it but the lanes' packing.
module Fips202 {
  import opened Words
  import Word64

  // 25 lanes of 64 bits, each as two words, low half first.
  type Lanes = s: seq<u32> | |s| == 50 witness seq(50, _ => 0)
  type Permutation = Lanes -> Lanes

  // pad10*1 behind the suffix bits, on bytes: q of them complete the block. The
  // suffix and the closing bit share a byte when they meet.
  function PadByte(suffix: byte, q: nat, i: nat): (b: byte)
    requires i < q && suffix < 0x80
  {
    if i == 0 && i == q - 1 then suffix + 0x80
    else if i == 0 then suffix
    else if i == q - 1 then 0x80
    else 0
  }

  function Message(rate: nat, suffix: byte, msg: seq<byte>): (m: seq<byte>)
    requires rate > 0 && suffix < 0x80
    ensures |m| == |msg| + rate - |msg| % rate && |m| % rate == 0
  {
    var q := rate - |msg| % rate;
    WholeBlocks(|msg|, rate);
    msg + seq(q, i requires 0 <= i < q => PadByte(suffix, q, i))
  }

  lemma WholeBlocks(n: nat, rate: nat)
    requires rate > 0
    ensures (n + rate - n % rate) % rate == 0
    ensures (n + rate - n % rate) / rate == n / rate + 1
  {
    DivBounds(n, rate);
    assert n + rate - n % rate == (n / rate + 1) * rate + 0;
    DivModOf(n / rate + 1, 0, rate);
  }

  // Byte k of S xor (P_i || 0^c).
  function MixedByte(rate: nat, s: Lanes, m: seq<byte>, i: nat, k: nat): (b: byte)
    requires rate < 200 && (i + 1) * rate <= |m| && k < 200
  {
    Word64.Xor8(UnpackLe(s)[k], if k < rate then BlockByte(m, rate, i, k) else 0)
  }

  function BlockByte(m: seq<byte>, rate: nat, i: nat, k: nat): (b: byte)
    requires (i + 1) * rate <= |m| && k < rate
  {
    assert (i + 1) * rate == i * rate + rate;
    m[i * rate + k]
  }

  // S after the first n blocks of m.
  function StateAfter(p: Permutation, rate: nat, m: seq<byte>, n: nat): (s: Lanes)
    requires rate < 200 && n * rate <= |m|
  {
    if n == 0 then seq(50, _ => 0)
    else
      assert (n - 1) * rate + rate == n * rate;
      var before := StateAfter(p, rate, m, n - 1);
      p(PackLe(seq(200, k requires 0 <= k < 200 => MixedByte(rate, before, m, n - 1, k))))
  }

  // S, permuted n more times.
  function Permuted(p: Permutation, s: Lanes, n: nat): (r: Lanes)
  {
    if n == 0 then s else p(Permuted(p, s, n - 1))
  }

  // Byte i of the output: the rate bytes of the states that follow, in turn.
  function OutByte(p: Permutation, rate: nat, s: Lanes, i: nat): (b: byte)
    requires 0 < rate < 200
  {
    UnpackLe(Permuted(p, s, i / rate))[i % rate]
  }

  // SPONGE[p, pad10*1, rate](msg || suffix, 8n).
  function Sponge(p: Permutation, rate: nat, suffix: byte, msg: seq<byte>, n: nat): (z: seq<byte>)
    requires 0 < rate < 200 && suffix < 0x80
    ensures |z| == n
  {
    var m := Message(rate, suffix, msg);
    DivBounds(|m|, rate);
    var s := StateAfter(p, rate, m, |m| / rate);
    seq(n, i requires 0 <= i < n => OutByte(p, rate, s, i))
  }
}

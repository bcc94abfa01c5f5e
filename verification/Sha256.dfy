// SHA-256's compression (`sha256.py`): sixteen words shifting past the rounds,
// against the 64-word schedule of FIPS 180-4, section 6.2.2.
module Sha256 {
  import opened Words
  import opened Word64

  datatype Registers = Registers(a: u32, b: u32, c: u32, d: u32, e: u32, f: u32, g: u32, h: u32)

  // ------------------------------------------------------------------------
  // FIPS 180-4, sections 4.1.2 and 6.2.2

  function BigSigma0(x: u32): (r: u32)
  {
    Xor32(Xor32(RotateRight32(x, 2), RotateRight32(x, 13)), RotateRight32(x, 22))
  }

  function BigSigma1(x: u32): (r: u32)
  {
    Xor32(Xor32(RotateRight32(x, 6), RotateRight32(x, 11)), RotateRight32(x, 25))
  }

  function SmallSigma0(x: u32): (r: u32)
  {
    Xor32(Xor32(RotateRight32(x, 7), RotateRight32(x, 18)), Shr32(x, 3))
  }

  function SmallSigma1(x: u32): (r: u32)
  {
    Xor32(Xor32(RotateRight32(x, 17), RotateRight32(x, 19)), Shr32(x, 10))
  }

  function Ch(x: u32, y: u32, z: u32): (r: u32) { Xor32(And32(x, y), And32(Not32(x), z)) }

  function Maj(x: u32, y: u32, z: u32): (r: u32) { Xor32(Xor32(And32(x, y), And32(x, z)), And32(y, z)) }

  function Sum4(a: u32, b: u32, c: u32, d: u32): (r: u32)
  {
    (a + b + c + d) % 0x1_0000_0000
  }

  function Sum5(a: u32, b: u32, c: u32, d: u32, e: u32): (r: u32)
  {
    (a + b + c + d + e) % 0x1_0000_0000
  }

  // The schedule word W_t.
  function W(m: seq<u32>, t: nat): (w: u32)
    requires |m| == 16
  {
    if t < 16 then m[t]
    else Sum4(SmallSigma1(W(m, t - 2)), W(m, t - 7), SmallSigma0(W(m, t - 15)), W(m, t - 16))
  }

  function Round(r: Registers, k: u32, w: u32): (s: Registers)
  {
    var t1 := Sum5(r.h, BigSigma1(r.e), Ch(r.e, r.f, r.g), k, w);
    var t2 := Add32(BigSigma0(r.a), Maj(r.a, r.b, r.c));
    Registers(Add32(t1, t2), r.a, r.b, r.c, Add32(r.d, t1), r.e, r.f, r.g)
  }

  function Rounds(k: seq<u32>, m: seq<u32>, r: Registers, t: nat): (s: Registers)
    requires |m| == 16 && t <= |k|
  {
    if t == 0 then r else Round(Rounds(k, m, r, t - 1), k[t - 1], W(m, t - 1))
  }

  function FeedForward(h: Registers, r: Registers): (s: Registers)
  {
    Registers(Add32(r.a, h.a), Add32(r.b, h.b), Add32(r.c, h.c), Add32(r.d, h.d),
              Add32(r.e, h.e), Add32(r.f, h.f), Add32(r.g, h.g), Add32(r.h, h.h))
  }

  // ------------------------------------------------------------------------
  // `_compress`

  // The window of round t: W_t to W_{t+15}.
  function Window(m: seq<u32>, t: nat): (w: seq<u32>)
    requires |m| == 16
    ensures |w| == 16
  {
    seq(16, i requires 0 <= i < 16 => Slot(m, t, i))
  }

  function Slot(m: seq<u32>, t: nat, i: nat): (w: u32)
    requires |m| == 16
  {
    W(m, t + i)
  }

  // What the loop body computes from the window, in its own order.
  function Next(w: seq<u32>): (n: u32)
    requires |w| == 16
  {
    var s0 := Xor32(Xor32(Rotr32(w[1], 7), Rotr32(w[1], 18)), Shr32(w[1], 3));
    var s1 := Xor32(Xor32(Rotr32(w[14], 17), Rotr32(w[14], 19)), Shr32(w[14], 10));
    Add32(Add32(Add32(w[0], s0), w[9]), s1)
  }

  lemma NextIs(m: seq<u32>, t: nat)
    requires |m| == 16
    ensures Next(Window(m, t)) == W(m, t + 16)
  {
    hide Xor32, Rotr32, RotateRight32, Shr32, Add32, Sum4;
    var w := Window(m, t);
    Rotations32(w[1], 7);
    Rotations32(w[1], 18);
    Rotations32(w[14], 17);
    Rotations32(w[14], 19);
    Reordered(w[0], SmallSigma0(w[1]), w[9], SmallSigma1(w[14]));
  }

  lemma Reordered(a: u32, b: u32, c: u32, d: u32)
    ensures Add32(Add32(Add32(a, b), c), d) == Sum4(d, c, b, a)
  {
    hide Add32;
    AddOn32(a, b);
    AddOn32(a + b, c);
    AddOn32(a + b + c, d);
  }

  // One round in the loop body's own order.
  function LoopRound(r: Registers, kt: u32, word: u32): (s: Registers)
  {
    var s1 := Xor32(Xor32(Rotr32(r.e, 6), Rotr32(r.e, 11)), Rotr32(r.e, 25));
    var ch := Xor32(And32(r.e, r.f), And32(Not32(r.e), r.g));
    var t1 := Add32(Add32(Add32(Add32(r.h, s1), ch), kt), word);
    var s0 := Xor32(Xor32(Rotr32(r.a, 2), Rotr32(r.a, 13)), Rotr32(r.a, 22));
    var maj := Xor32(Xor32(And32(r.a, r.b), And32(r.a, r.c)), And32(r.b, r.c));
    var t2 := Add32(s0, maj);
    Registers(Add32(t1, t2), r.a, r.b, r.c, Add32(r.d, t1), r.e, r.f, r.g)
  }

  lemma LoopRoundIs(r: Registers, kt: u32, word: u32)
    ensures LoopRound(r, kt, word) == Round(r, kt, word)
  {
    hide Xor32, And32, Not32, Rotr32, RotateRight32, Add32, Sum5;
    Rotations32(r.e, 6);
    Rotations32(r.e, 11);
    Rotations32(r.e, 25);
    Rotations32(r.a, 2);
    Rotations32(r.a, 13);
    Rotations32(r.a, 22);
    FiveSum(r.h, BigSigma1(r.e), Ch(r.e, r.f, r.g), kt, word);
  }

  lemma FiveSum(a: u32, b: u32, c: u32, d: u32, e: u32)
    ensures Add32(Add32(Add32(Add32(a, b), c), d), e) == Sum5(a, b, c, d, e)
  {
    hide Add32;
    AddOn32(a, b);
    AddOn32(a + b, c);
    AddOn32(a + b + c, d);
    AddOn32(a + b + c + d, e);
  }

  // The fused loop is the standard's compression, for every block and state.
  method Compress(state: Registers, w16: seq<u32>, k: seq<u32>) returns (out: Registers)
    requires |w16| == 16 && |k| == 64
    ensures out == FeedForward(state, Rounds(k, w16, state, 64))
  {
    hide Next, LoopRound, Round, W;
    var r, w := state, w16;
    FirstWindow(w16);
    for t := 0 to 64
      invariant r == Rounds(k, w16, state, t)
      invariant w == Window(w16, t)
    {
      var word := w[0];
      var kt := k[t];
      LoopRoundIs(r, kt, word);
      NextIs(w16, t);
      r := LoopRound(r, kt, word);
      w := w[1..] + [Next(w)];
    }
    out := Registers(Add32(state.a, r.a), Add32(state.b, r.b), Add32(state.c, r.c), Add32(state.d, r.d),
                     Add32(state.e, r.e), Add32(state.f, r.f), Add32(state.g, r.g), Add32(state.h, r.h));
  }

  lemma FirstWindow(m: seq<u32>)
    requires |m| == 16
    ensures Window(m, 0) == m
  {
  }
}

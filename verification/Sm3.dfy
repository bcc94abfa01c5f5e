// SM3's compression (`sm3.py`): two window loops split at round 16 and a table
// of pre-rotated constants, against GB/T 32905's W and W' and its rotated T_j.
module Sm3 {
  import opened Words
  import opened Word64

  datatype Registers = Registers(a: u32, b: u32, c: u32, d: u32, e: u32, f: u32, g: u32, h: u32)

  // ------------------------------------------------------------------------
  // GB/T 32905, sections 4.2, 4.3, 5.3.2 and 5.3.3

  // T_j
  function T(j: nat): (t: u32) { if j < 16 then 0x79CC4519 else 0x7A879D8A }

  function FF(j: nat, x: u32, y: u32, z: u32): (r: u32)
  {
    if j < 16 then Xor32(Xor32(x, y), z) else Or32(Or32(And32(x, y), And32(x, z)), And32(y, z))
  }

  function GG(j: nat, x: u32, y: u32, z: u32): (r: u32)
  {
    if j < 16 then Xor32(Xor32(x, y), z) else Or32(And32(x, y), And32(Not32(x), z))
  }

  function P0(x: u32): (r: u32) { Xor32(Xor32(x, RotateLeft32(x, 9)), RotateLeft32(x, 17)) }
  function P1(x: u32): (r: u32) { Xor32(Xor32(x, RotateLeft32(x, 15)), RotateLeft32(x, 23)) }

  // W_j
  function W(m: seq<u32>, j: nat): (w: u32)
    requires |m| == 16
  {
    if j < 16 then m[j]
    else Xor32(Xor32(P1(Xor32(Xor32(W(m, j - 16), W(m, j - 9)), RotateLeft32(W(m, j - 3), 15))),
                 RotateLeft32(W(m, j - 13), 7)),
             W(m, j - 6))
  }

  // W'_j
  function WPrime(m: seq<u32>, j: nat): (w: u32)
    requires |m| == 16
  {
    Xor32(W(m, j), W(m, j + 4))
  }

  function Sum3(a: u32, b: u32, c: u32): (r: u32) { (a + b + c) % 0x1_0000_0000 }
  function Sum4(a: u32, b: u32, c: u32, d: u32): (r: u32) { (a + b + c + d) % 0x1_0000_0000 }

  function Round(j: nat, r: Registers, w: u32, wPrime: u32): (s: Registers)
  {
    var ss1 := RotateLeft32(Sum3(RotateLeft32(r.a, 12), r.e, RotateLeft32(T(j), j % 32)), 7);
    var ss2 := Xor32(ss1, RotateLeft32(r.a, 12));
    var tt1 := Sum4(FF(j, r.a, r.b, r.c), r.d, ss2, wPrime);
    var tt2 := Sum4(GG(j, r.e, r.f, r.g), r.h, ss1, w);
    Registers(tt1, r.a, RotateLeft32(r.b, 9), r.c, P0(tt2), r.e, RotateLeft32(r.f, 19), r.g)
  }

  function Rounds(m: seq<u32>, r: Registers, j: nat): (s: Registers)
    requires |m| == 16
  {
    if j == 0 then r else Round(j - 1, Rounds(m, r, j - 1), W(m, j - 1), WPrime(m, j - 1))
  }

  function FeedForward(v: Registers, r: Registers): (s: Registers)
  {
    Registers(Xor32(v.a, r.a), Xor32(v.b, r.b), Xor32(v.c, r.c), Xor32(v.d, r.d),
              Xor32(v.e, r.e), Xor32(v.f, r.f), Xor32(v.g, r.g), Xor32(v.h, r.h))
  }

  // ------------------------------------------------------------------------
  // The table

  // `_rotl_int`: the unmasked shift or-ed with the wrapped bits, then masked.
  function RotlInt(value: u32, n: nat): (r: u32)
  {
    var k := n % 32;
    if k == 0 then value
    else
      DivBounds(value, Pow2(32 - k));
      var high := value * Pow2(k);
      var low := value / Pow2(32 - k);
      Bitwise(OR, 64, high, low) % 0x1_0000_0000
  }

  // The table baked on the host holds the standard's rotations.
  lemma RotlIntIs(value: u32, n: nat)
    ensures RotlInt(value, n) == RotateLeft32(value, n % 32)
  {
    var k := n % 32;
    if k > 0 {
      hide Pow2, Bitwise, RotateLeft32;
      DivBounds(value, Pow2(32 - k));
      WrapsAround(value, k, Pow2(k), Pow2(32 - k), value / Pow2(32 - k));
    }
  }

  // Masking drops what the shift pushed past 32 bits; the rest and the wrapped
  // bits do not meet.
  lemma WrapsAround(value: u32, k: nat, p: nat, q: nat, wrapped: nat)
    requires 0 < k < 32 && p == Pow2(k) && q == Pow2(32 - k) && wrapped == value / q
    ensures Bitwise(OR, 64, value * p, wrapped) % 0x1_0000_0000 == RotateLeft32(value, k)
  {
    hide Pow2, Bitwise, RotateLeft32;
    Pow2Adds(k, 32 - k);
    Pow2OfHalves();
    RotatedParts(value, p, q);
    LeftIs(value, k);
    var kept := value % q * p;
    assert Bitwise(OR, 64, wrapped * 0x1_0000_0000 + kept, wrapped) % 0x1_0000_0000
        == Bitwise(OR, 32, kept, wrapped) by {
      MaskKeepsLow(wrapped, kept, wrapped);
    }
    assert Bitwise(OR, 32, kept, wrapped) == kept + wrapped by {
      OrOfParts(k, value % q, wrapped);
    }
  }

  lemma LeftIs(value: u32, k: nat)
    requires 0 < k < 32
    ensures RotateLeft32(value, k) == value % Pow2(32 - k) * Pow2(k) + value / Pow2(32 - k)
  {
    hide Pow2;
  }

  // Masking a 64-bit or keeps the or of the low halves.
  lemma RotatedParts(v: u32, p: nat, q: nat)
    requires p >= 1 && q >= 1 && p * q == 0x1_0000_0000
    ensures v * p == v / q * 0x1_0000_0000 + v % q * p
    ensures 0 <= v / q < p && 0 <= v % q < q
    ensures 0 <= v % q * p < 0x1_0000_0000
  {
    QuotientFits(v, q, p);
    var d, r := v / q, v % q;
    assert v == d * q + r;
    assert v * p == d * (q * p) + r * p;
    MulMono(r + 1, q, p);
    assert (r + 1) * p == r * p + p;
    MulMono(p, 0x1_0000_0000, 1);
    MulMono(1, q, p);
  }

  lemma MaskKeepsLow(over: nat, kept: nat, low: nat)
    requires kept < 0x1_0000_0000 && low < 0x1_0000_0000
    ensures Bitwise(OR, 64, over * 0x1_0000_0000 + kept, low) % 0x1_0000_0000 == Bitwise(OR, 32, kept, low)
  {
    hide Bitwise, Pow2;
    Pow2OfHalves();
    BitwiseSplits(OR, 32, 32, over, kept, 0, low);
  }

  lemma OrOfParts(k: nat, high: nat, low: nat)
    requires k < 32 && high < Pow2(32 - k) && low < Pow2(k)
    ensures Bitwise(OR, 32, high * Pow2(k), low) == high * Pow2(k) + low
  {
    hide Bitwise, Pow2;
    OrDisjoint(k, 32 - k, high, low);
    OrCommutes(32, high * Pow2(k), low);
  }

  function Entry(j: nat): (t: u32)
  {
    if j < 16 then RotlInt(0x79CC4519, j) else RotlInt(0x7A879D8A, j)
  }

  // `_T`
  function Table(): (t: seq<u32>)
    ensures |t| == 64
  {
    seq(64, j requires 0 <= j < 64 => Entry(j))
  }

  // ------------------------------------------------------------------------
  // `_compress`

  // The loop body, in the form of one side of round 16.
  function LoopRound(early: bool, r: Registers, tj: u32, word: u32, wprime: u32): (s: Registers)
  {
    var ff := if early then Xor32(Xor32(r.a, r.b), r.c)
              else Or32(Or32(And32(r.a, r.b), And32(r.a, r.c)), And32(r.b, r.c));
    var gg := if early then Xor32(Xor32(r.e, r.f), r.g) else Or32(And32(r.e, r.f), And32(Not32(r.e), r.g));
    var a12 := Rotl32(r.a, 12);
    var ss1 := Rotl32(Add32(Add32(a12, r.e), tj), 7);
    var ss2 := Xor32(ss1, a12);
    var tt1 := Add32(Add32(Add32(ff, r.d), ss2), wprime);
    var tt2 := Add32(Add32(Add32(gg, r.h), ss1), word);
    var e := Xor32(Xor32(tt2, Rotl32(tt2, 9)), Rotl32(tt2, 17));
    Registers(tt1, r.a, Rotl32(r.b, 9), r.c, e, r.e, Rotl32(r.f, 19), r.g)
  }

  lemma Sums(a: u32, b: u32, c: u32, d: u32)
    ensures Add32(Add32(a, b), c) == Sum3(a, b, c)
    ensures Add32(Add32(Add32(a, b), c), d) == Sum4(a, b, c, d)
  {
    hide Add32;
    AddOn32(a, b);
    AddOn32(a + b, c);
    AddOn32(a + b + c, d);
  }

  lemma LoopRoundIs(j: nat, r: Registers, word: u32, wprime: u32)
    ensures LoopRound(j < 16, r, RotlInt(T(j), j), word, wprime) == Round(j, r, word, wprime)
  {
    hide Xor32, And32, Or32, Not32, Rotl32, RotateLeft32, RotlInt, Add32, Sum3, Sum4;
    RotlIntIs(T(j), j);
    Rotations32(r.a, 12);
    Rotations32(r.b, 9);
    Rotations32(r.f, 19);
    var tj := RotateLeft32(T(j), j % 32);
    Sums(Rotl32(r.a, 12), r.e, tj, 0);
    var sum := Sum3(Rotl32(r.a, 12), r.e, tj);
    Rotations32(sum, 7);
    var ss1 := Rotl32(sum, 7);
    Sums(FF(j, r.a, r.b, r.c), r.d, Xor32(ss1, Rotl32(r.a, 12)), wprime);
    Sums(GG(j, r.e, r.f, r.g), r.h, ss1, word);
    var tt2 := Sum4(GG(j, r.e, r.f, r.g), r.h, ss1, word);
    Rotations32(tt2, 9);
    Rotations32(tt2, 17);
  }

  function Next(w: seq<u32>): (n: u32)
    requires |w| == 16
  {
    var x := Xor32(Xor32(w[0], w[7]), Rotl32(w[13], 15));
    var p := Xor32(Xor32(x, Rotl32(x, 15)), Rotl32(x, 23));
    Xor32(Xor32(p, Rotl32(w[3], 7)), w[10])
  }

  function Slot(m: seq<u32>, j: nat, i: nat): (w: u32)
    requires |m| == 16
  {
    W(m, j + i)
  }

  // The window of round j: W_j to W_{j+15}.
  function Window(m: seq<u32>, j: nat): (w: seq<u32>)
    requires |m| == 16
    ensures |w| == 16
  {
    seq(16, i requires 0 <= i < 16 => Slot(m, j, i))
  }

  lemma NextIs(m: seq<u32>, j: nat)
    requires |m| == 16
    ensures Next(Window(m, j)) == W(m, j + 16)
  {
    hide Xor32, Rotl32, RotateLeft32, W;
    var w := Window(m, j);
    Rotations32(w[13], 15);
    Rotations32(w[3], 7);
    var x := Xor32(Xor32(w[0], w[7]), Rotl32(w[13], 15));
    Rotations32(x, 15);
    Rotations32(x, 23);
    WordStep(m, j);
  }

  lemma WordStep(m: seq<u32>, j: nat)
    requires |m| == 16
    ensures W(m, j + 16)
         == Xor32(Xor32(P1(Xor32(Xor32(W(m, j), W(m, j + 7)), RotateLeft32(W(m, j + 13), 15))),
                    RotateLeft32(W(m, j + 3), 7)),
                W(m, j + 10))
  {
    hide Xor32, P1, RotateLeft32;
  }

  // One of the two loops: rounds `from` to `to`, all on one side of round 16.
  method RoundsFrom(m: seq<u32>, v: Registers, r0: Registers, w0: seq<u32>, from: nat, to: nat, t: seq<u32>)
    returns (r: Registers, w: seq<u32>)
    requires |m| == 16 && from <= to <= 64 && t == Table() && (to <= 16 || 16 <= from)
    requires r0 == Rounds(m, v, from) && w0 == Window(m, from)
    ensures r == Rounds(m, v, to) && w == Window(m, to)
  {
    hide Next, LoopRound, Round, W, RotlInt, Xor32;
    r, w := r0, w0;
    for j := from to to
      invariant r == Rounds(m, v, j) && w == Window(m, j)
    {
      var word, wprime := w[0], Xor32(w[0], w[4]);
      LoopRoundIs(j, r, word, wprime);
      NextIs(m, j);
      r := LoopRound(to <= 16, r, t[j], word, wprime);
      w := w[1..] + [Next(w)];
    }
  }

  // The two loops are the standard's 64 rounds.
  method Compress(state: Registers, w16: seq<u32>, t: seq<u32>) returns (out: Registers)
    requires |w16| == 16 && t == Table()
    ensures out == FeedForward(state, Rounds(w16, state, 64))
  {
    hide Window, Rounds, Xor32;
    Start(w16, state);
    var mid, w := RoundsFrom(w16, state, state, w16, 0, 16, t);
    var last, _ := RoundsFrom(w16, state, mid, w, 16, 64, t);
    out := Registers(Xor32(state.a, last.a), Xor32(state.b, last.b), Xor32(state.c, last.c), Xor32(state.d, last.d),
                     Xor32(state.e, last.e), Xor32(state.f, last.f), Xor32(state.g, last.g), Xor32(state.h, last.h));
  }

  lemma Start(m: seq<u32>, v: Registers)
    requires |m| == 16
    ensures Window(m, 0) == m && Rounds(m, v, 0) == v
  {
  }
}

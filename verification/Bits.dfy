// What the word operations do to each bit and each byte: the standards' own
// definitions of them, read one place at a time.
module Bits {
  import opened Words
  import opened Word64

  // Bit i of a number, bit 0 the least significant.
  function BitAt(w: nat, i: nat): (b: nat)
    ensures b < 2
  {
    if i == 0 then w % 2 else BitAt(w / 2, i - 1)
  }

  // A number below 2^n is its n bits.
  lemma {:induction false} BitsTell(n: nat, a: nat, b: nat)
    requires a < Pow2(n) && b < Pow2(n) && forall i :: 0 <= i < n ==> BitAt(a, i) == BitAt(b, i)
    ensures a == b
  {
    if n > 0 {
      forall i | 0 <= i < n - 1
        ensures BitAt(a / 2, i) == BitAt(b / 2, i)
      {
        assert BitAt(a, i + 1) == BitAt(b, i + 1);
      }
      BitsTell(n - 1, a / 2, b / 2);
      assert BitAt(a, 0) == BitAt(b, 0);
    }
  }

  // ------------------------------------------------------------------------
  // The bitwise operations

  lemma {:induction false} BitwiseBits(op: Op, n: nat, a: nat, b: nat, i: nat)
    requires i < n
    ensures var x, y, z := BitAt(a, i) == 1, BitAt(b, i) == 1, BitAt(Bitwise(op, n, a, b), i) == 1;
            && (op == XOR ==> z == (x != y))
            && (op == AND ==> z == (x && y))
            && (op == OR ==> z == (x || y))
  {
    var r := Bitwise(op, n, a, b);
    assert r % 2 == OpBit(op, a % 2, b % 2) && r / 2 == Bitwise(op, n - 1, a / 2, b / 2);
    if i > 0 {
      BitwiseBits(op, n - 1, a / 2, b / 2, i - 1);
    }
  }

  lemma {:induction false} NotBits(n: nat, a: nat, i: nat)
    requires a < Pow2(n) && i < n
    ensures BitAt(Pow2(n) - 1 - a, i) == 1 - BitAt(a, i)
  {
    var r := Pow2(n) - 1 - a;
    assert r % 2 == 1 - a % 2 && r / 2 == Pow2(n - 1) - 1 - a / 2;
    if i > 0 {
      NotBits(n - 1, a / 2, i - 1);
    }
  }

  lemma Word32Bits(a: u32, b: u32, i: nat)
    requires i < 32
    ensures BitAt(Xor32(a, b), i) == 1 <==> BitAt(a, i) != BitAt(b, i)
    ensures BitAt(And32(a, b), i) == 1 <==> BitAt(a, i) == 1 && BitAt(b, i) == 1
    ensures BitAt(Or32(a, b), i) == 1 <==> BitAt(a, i) == 1 || BitAt(b, i) == 1
    ensures BitAt(Not32(a), i) == 1 <==> BitAt(a, i) == 0
  {
    hide Bitwise, BitAt, Pow2;
    Pow2OfHalves();
    BitwiseBits(XOR, 32, a, b, i);
    BitwiseBits(AND, 32, a, b, i);
    BitwiseBits(OR, 32, a, b, i);
    NotBits(32, a, i);
  }

  lemma Word64Bits(a: u64, b: u64, i: nat)
    requires i < 64
    ensures BitAt(XorWord(a, b), i) == 1 <==> BitAt(a, i) != BitAt(b, i)
    ensures BitAt(AndWord(a, b), i) == 1 <==> BitAt(a, i) == 1 && BitAt(b, i) == 1
    ensures BitAt(Not64(a), i) == 1 <==> BitAt(a, i) == 0
  {
    hide Bitwise, BitAt, Pow2;
    Pow2OfHalves();
    BitwiseBits(XOR, 64, a, b, i);
    BitwiseBits(AND, 64, a, b, i);
    NotBits(64, a, i);
  }

  lemma ByteBits(a: byte, b: byte, i: nat)
    requires i < 8
    ensures BitAt(Xor8(a, b), i) == 1 <==> BitAt(a, i) != BitAt(b, i)
  {
    hide Bitwise, BitAt;
    BitwiseBits(XOR, 8, a, b, i);
  }

  // Xoring with zero changes nothing, and xoring twice undoes itself.
  lemma XorUndoes(a: u32, b: u32)
    ensures Xor32(a, 0) == a && Xor32(Xor32(a, b), b) == a
  {
    Pow2OfHalves();
    XorZero(32, a);
    hide BitAt, Xor32, Pow2;
    var back := Xor32(Xor32(a, b), b);
    forall i | 0 <= i < 32
      ensures BitAt(back, i) == BitAt(a, i)
    {
      Word32Bits(a, b, i);
      Word32Bits(Xor32(a, b), b, i);
    }
    BitsTell(32, back, a);
  }

  // ------------------------------------------------------------------------
  // Shifts and rotations

  // Bits of a number written as a high part above its k low bits.
  lemma {:induction false} OverBits(h: nat, k: nat, l: nat, i: nat)
    requires l < Pow2(k)
    ensures BitAt(h * Pow2(k) + l, i) == if i < k then BitAt(l, i) else BitAt(h, i - k)
  {
    if k > 0 {
      var w := h * Pow2(k) + l;
      assert h * Pow2(k) == 2 * (h * Pow2(k - 1));
      assert w % 2 == l % 2 && w / 2 == h * Pow2(k - 1) + l / 2;
      if i > 0 {
        OverBits(h, k - 1, l / 2, i - 1);
      }
    }
  }

  // Bits of a quotient and a remainder by 2^k.
  lemma CutBits(w: nat, k: nat, i: nat)
    ensures w / Pow2(k) >= 0 && w % Pow2(k) >= 0
    ensures BitAt(w / Pow2(k), i) == BitAt(w, k + i)
    ensures i < k ==> BitAt(w % Pow2(k), i) == BitAt(w, i)
  {
    hide Pow2, BitAt;
    var h, l := w / Pow2(k), w % Pow2(k);
    DivBounds(w, Pow2(k));
    OverBits(h, k, l, i);
    OverBits(h, k, l, k + i);
  }

  lemma ShiftBits(a: u32, w: u64, n: nat, i: nat)
    requires n < 32
    ensures BitAt(Shr32(a, n), i) == BitAt(a, n + i)
    ensures BitAt(ShiftRight(w, n), i) == BitAt(w, n + i)
  {
    hide Pow2, BitAt;
    CutBits(a, n, i);
    CutBits(w, n, i);
  }

  lemma {:induction false} NoHighBits(w: nat, n: nat, i: nat)
    requires w < Pow2(n) && i >= n
    ensures BitAt(w, i) == 0
  {
    if n > 0 {
      NoHighBits(w / 2, n - 1, i - 1);
    } else if i > 0 {
      NoHighBits(0, 0, i - 1);
    }
  }

  // The n low bits of a w-bit word above the others: bit i is bit i + n, round
  // the end.
  lemma TurnBits(x: nat, width: nat, n: nat, i: nat)
    requires n <= width && x < Pow2(width) && i < width
    ensures x / Pow2(n) >= 0 && x % Pow2(n) >= 0
    ensures BitAt(x % Pow2(n) * Pow2(width - n) + x / Pow2(n), i)
         == BitAt(x, if i + n < width then i + n else i + n - width)
  {
    hide Pow2, BitAt;
    var h, l := x % Pow2(n), x / Pow2(n);
    DivBounds(x, Pow2(n));
    Pow2Adds(n, width - n);
    QuotientFits(x, Pow2(n), Pow2(width - n));
    OverBits(h, width - n, l, i);
    if i < width - n {
      CutBits(x, n, i);
    } else {
      CutBits(x, n, i - (width - n));
    }
  }

  // ROTR^n and ROTL^n take bit i from n places up, or down, round the end.
  lemma Rotate32Bits(w: u32, n: nat, i: nat)
    requires n < 32 && i < 32
    ensures BitAt(RotateRight32(w, n), i) == BitAt(w, (i + n) % 32)
    ensures BitAt(RotateLeft32(w, n), i) == BitAt(w, (i - n) % 32)
  {
    hide Pow2, BitAt;
    Pow2OfHalves();
    TurnBits(w, 32, n, i);
    TurnBits(w, 32, 32 - n, i);
    RoundTheEnd(i, n, 32);
  }

  lemma Rotate64Bits(w: u64, n: nat, i: nat)
    requires n < 64 && i < 64
    ensures BitAt(RotateRight(w, n), i) == BitAt(w, (i + n) % 64)
    ensures BitAt(RotateLeft(w, n), i) == BitAt(w, (i - n) % 64)
  {
    hide Pow2, BitAt;
    Pow2OfHalves();
    TurnBits(w, 64, n, i);
    TurnBits(w, 64, 64 - n, i);
    RoundTheEnd(i, n, 64);
  }

  lemma RoundTheEnd(i: nat, n: nat, width: nat)
    requires n < width && i < width && (width == 32 || width == 64)
    ensures (i + n) % width == if i + n < width then i + n else i + n - width
    ensures (i - n) % width == if n <= i then i - n else i - n + width
  {
    if width == 32 {
      assert (i + n) % 32 == if i + n < 32 then i + n else i + n - 32;
      assert (i - n) % 32 == if n <= i then i - n else i - n + 32;
    } else {
      assert (i + n) % 64 == if i + n < 64 then i + n else i + n - 64;
      assert (i - n) % 64 == if n <= i then i - n else i - n + 64;
    }
  }

  // ------------------------------------------------------------------------
  // Bytes

  // The low byte and the rest combine separately.
  lemma LowByte(op: Op, m: nat, a: nat, b: nat)
    ensures Bitwise(op, 8 + m, a, b) % 0x100 == Bitwise(op, 8, a % 0x100, b % 0x100)
    ensures Bitwise(op, 8 + m, a, b) / 0x100 == Bitwise(op, m, a / 0x100, b / 0x100)
  {
    hide Bitwise;
    assert Pow2(8) == 0x100;
    hide Pow2;
    BitwiseSplits(op, 8, m, a / 0x100, a % 0x100, b / 0x100, b % 0x100);
  }

  // The bytes of a xor are the bytes' xors.
  lemma XorBytes(a: u32, b: u32, k: nat)
    requires k < 4
    ensures ByteOf(Xor32(a, b), k) == Xor8(ByteOf(a, k), ByteOf(b, k))
  {
    hide Bitwise, Pow2, ByteOf;
    LowByte(XOR, 24, a, b);
    LowByte(XOR, 16, a / 0x100, b / 0x100);
    LowByte(XOR, 8, a / 0x100 / 0x100, b / 0x100 / 0x100);
    BytesOf(a);
    BytesOf(b);
    BytesOf(Xor32(a, b));
    if k == 3 {
      SmallMod(a / 0x100 / 0x100 / 0x100);
      SmallMod(b / 0x100 / 0x100 / 0x100);
    }
  }

  lemma SmallMod(x: nat)
    ensures x < 0x100 ==> x % 0x100 == x
  {
  }

  lemma BytesOf(w: u32)
    ensures ByteOf(w, 0) == w % 0x100 && ByteOf(w, 1) == w / 0x100 % 0x100
    ensures ByteOf(w, 2) == w / 0x100 / 0x100 % 0x100 && ByteOf(w, 3) == w / 0x100 / 0x100 / 0x100 < 0x100
  {
  }
}

// 64-bit words as pairs of 32-bit halves (`word64.py`, `keccak/lane.py`): each
// half-pair operation computes the 64-bit one.
//
// A word is a bounded integer: shifting is by powers of two, adding wraps, and
// the bitwise operations are defined bit by bit.
module Word64 {
  import opened Words

  type u64 = w: int | 0 <= w < 0x1_0000_0000_0000_0000

  // ------------------------------------------------------------------------
  // Words of any width

  datatype Op = XOR | AND | OR

  function OpBit(op: Op, x: nat, y: nat): (z: nat)
    requires x < 2 && y < 2
    ensures z < 2
  {
    match op
    case XOR => if x == y then 0 else 1
    case AND => if x + y == 2 then 1 else 0
    case OR => if x + y == 0 then 0 else 1
  }

  // The low n bits, combined one by one.
  function Bitwise(op: Op, n: nat, a: nat, b: nat): (r: nat)
    ensures r < Pow2(n)
  {
    if n == 0 then 0 else OpBit(op, a % 2, b % 2) + 2 * Bitwise(op, n - 1, a / 2, b / 2)
  }

  // A value with h above its low part l, p the weight of h.
  function Over(h: nat, p: nat, l: nat): (v: nat)
  {
    h * p + l
  }

  // High and low parts combine separately.
  lemma {:induction false} BitwiseSplits(op: Op, k: nat, m: nat, h: nat, l: nat, h2: nat, l2: nat)
    requires l < Pow2(k) && l2 < Pow2(k)
    ensures Bitwise(op, k + m, Over(h, Pow2(k), l), Over(h2, Pow2(k), l2))
         == Over(Bitwise(op, m, h, h2), Pow2(k), Bitwise(op, k, l, l2))
  {
    hide Bitwise, Over;
    if k == 0 {
      NoLowBits(op, m, h, h2);
    } else {
      hide Pow2;
      BitwiseSplits(op, k - 1, m, h, l / 2, h2, l2 / 2);
      SplitStep(op, k - 1, Pow2(k - 1), m, h, l, h2, l2);
    }
  }

  lemma NoLowBits(op: Op, m: nat, h: nat, h2: nat)
    ensures Bitwise(op, m, Over(h, 1, 0), Over(h2, 1, 0)) == Over(Bitwise(op, m, h, h2), 1, Bitwise(op, 0, 0, 0))
  {
  }

  // One more low bit on each side of the cut.
  lemma SplitStep(op: Op, k: nat, q: nat, m: nat, h: nat, l: nat, h2: nat, l2: nat)
    requires Bitwise(op, k + m, Over(h, q, l / 2), Over(h2, q, l2 / 2))
          == Over(Bitwise(op, m, h, h2), q, Bitwise(op, k, l / 2, l2 / 2))
    ensures Bitwise(op, k + 1 + m, Over(h, 2 * q, l), Over(h2, 2 * q, l2))
         == Over(Bitwise(op, m, h, h2), 2 * q, Bitwise(op, k + 1, l, l2))
  {
    hide Bitwise, OpBit, Over;
    OverHalf(h, q, l);
    OverHalf(h2, q, l2);
    BitwiseStep(op, k + m, Over(h, 2 * q, l), Over(h2, 2 * q, l2));
    BitwiseStep(op, k, l, l2);
    OverDouble(Bitwise(op, m, h, h2), q, Bitwise(op, k, l / 2, l2 / 2), OpBit(op, l % 2, l2 % 2));
  }

  lemma OverHalf(h: nat, q: nat, l: nat)
    ensures Over(h, 2 * q, l) % 2 == l % 2 && Over(h, 2 * q, l) / 2 == Over(h, q, l / 2)
  {
    HalfOf(h, l, q);
  }

  lemma OverDouble(x: nat, q: nat, y: nat, bit: nat)
    ensures bit + 2 * Over(x, q, y) == Over(x, 2 * q, bit + 2 * y)
  {
  }

  lemma BitwiseStep(op: Op, n: nat, a: nat, b: nat)
    ensures Bitwise(op, n + 1, a, b) == OpBit(op, a % 2, b % 2) + 2 * Bitwise(op, n, a / 2, b / 2)
  {
  }

  lemma HalfOf(h: nat, l: nat, p: nat)
    ensures (h * (2 * p) + l) % 2 == l % 2 && (h * (2 * p) + l) / 2 == h * p + l / 2
  {
    assert h * (2 * p) == 2 * (h * p);
  }

  lemma {:induction false} OrZero(n: nat, a: nat)
    requires a < Pow2(n)
    ensures Bitwise(OR, n, a, 0) == a == Bitwise(OR, n, 0, a)
  {
    if n > 0 {
      OrZero(n - 1, a / 2);
    }
  }

  lemma {:induction false} XorZero(n: nat, a: nat)
    requires a < Pow2(n)
    ensures Bitwise(XOR, n, a, 0) == a
  {
    if n > 0 {
      XorZero(n - 1, a / 2);
    }
  }

  lemma {:induction false} OrCommutes(n: nat, a: nat, b: nat)
    ensures Bitwise(OR, n, a, b) == Bitwise(OR, n, b, a)
  {
    if n > 0 {
      OrCommutes(n - 1, a / 2, b / 2);
    }
  }

  // Or of disjoint parts is their sum.
  lemma OrDisjoint(k: nat, m: nat, h: nat, l: nat)
    requires l < Pow2(k) && h < Pow2(m)
    ensures Bitwise(OR, k + m, l, h * Pow2(k)) == h * Pow2(k) + l
  {
    hide Pow2, Bitwise;
    BitwiseSplits(OR, k, m, 0, l, h, 0);
    OrZero(m, h);
    OrZero(k, l);
  }

  lemma {:induction false} Pow2Adds(a: nat, b: nat)
    ensures Pow2(a + b) == Pow2(a) * Pow2(b)
  {
    if a > 0 {
      Pow2Adds(a - 1, b);
    }
  }

  lemma Pow2OfHalves()
    ensures Pow2(32) == 0x1_0000_0000 && Pow2(64) == 0x1_0000_0000_0000_0000
  {
    Pow2Of32();
    Pow2Adds(32, 32);
  }

  function Bitwise32(op: Op, a: u32, b: u32): (r: u32)
  {
    Pow2OfHalves();
    Bitwise(op, 32, a, b)
  }

  function Bitwise64(op: Op, a: u64, b: u64): (r: u64)
  {
    Pow2OfHalves();
    Bitwise(op, 64, a, b)
  }

  function Xor8(a: byte, b: byte): (r: byte)
  {
    assert Pow2(8) == 256;
    Bitwise(XOR, 8, a, b)
  }

  function Xor32(a: u32, b: u32): (r: u32) { Bitwise32(XOR, a, b) }
  function And32(a: u32, b: u32): (r: u32) { Bitwise32(AND, a, b) }
  function Or32(a: u32, b: u32): (r: u32) { Bitwise32(OR, a, b) }
  function XorWord(a: u64, b: u64): (r: u64) { Bitwise64(XOR, a, b) }
  function AndWord(a: u64, b: u64): (r: u64) { Bitwise64(AND, a, b) }

  function Not32(a: u32): (r: u32) { 0xffff_ffff - a }
  function Not64(a: u64): (r: u64) { 0xffff_ffff_ffff_ffff - a }

  // Sums of two words wrap at most once.
  function Add32(a: u32, b: u32): (r: u32)
  {
    if a + b < 0x1_0000_0000 then a + b else a + b - 0x1_0000_0000
  }

  // That is addition modulo 2^32, and a sum so reduced can go on being summed.
  lemma AddOn32(x: nat, y: u32)
    ensures Add32(x % 0x1_0000_0000, y) == (x + y) % 0x1_0000_0000
  {
  }

  function AddWord(a: u64, b: u64): (r: u64) { (a + b) % 0x1_0000_0000_0000_0000 }

  // ROTR^n of FIPS 180-4, section 3.2: the low n bits move to the top.
  function RotateRight(w: u64, n: nat): (r: u64)
    requires n < 64
  {
    Pow2OfHalves();
    RotationFits(w, n, 64);
    w % Pow2(n) * Pow2(64 - n) + w / Pow2(n)
  }

  function RotateRight32(w: u32, n: nat): (r: u32)
    requires n < 32
  {
    Pow2OfHalves();
    RotationFits(w, n, 32);
    w % Pow2(n) * Pow2(32 - n) + w / Pow2(n)
  }

  function RotateLeft32(w: u32, n: nat): (r: u32)
    requires n < 32
  {
    if n == 0 then w else RotateRight32(w, 32 - n)
  }

  // SHR^n
  function ShiftRight(w: u64, n: nat): (r: u64)
  {
    DivBounds(w, Pow2(n));
    w / Pow2(n)
  }

  lemma RotationFits(w: nat, n: nat, width: nat)
    requires n < width && w < Pow2(width)
    ensures 0 <= w / Pow2(n)
    ensures 0 <= w % Pow2(n) * Pow2(width - n) + w / Pow2(n) < Pow2(width)
  {
    hide Pow2;
    var p, q := Pow2(n), Pow2(width - n);
    Pow2Adds(n, width - n);
    QuotientFits(w, p, q);
    MulMono(w % p + 1, p, q);
    assert (w % p + 1) * q == w % p * q + q;
  }

  function RotateLeft(w: u64, n: nat): (r: nat)
    requires n < 64
  {
    if n == 0 then w else RotateRight(w, 64 - n)
  }

  // ------------------------------------------------------------------------
  // Pairs

  datatype Pair = Pair(lo: u32, hi: u32)

  function Join(p: Pair): (w: u64)
  {
    p.hi * 0x1_0000_0000 + p.lo
  }

  // `word.split` of a 64-bit value
  function Split(w: u64): (p: Pair)
  {
    Pair(w % 0x1_0000_0000, w / 0x1_0000_0000)
  }

  // Splitting and joining are inverse.
  lemma SplitJoin(w: u64, p: Pair)
    ensures Join(Split(w)) == w && Split(Join(p)) == p
  {
  }

  // Two packed words are their eight bytes, the first the least significant.
  lemma PairTells(data: seq<byte>, k: nat)
    requires |data| % 4 == 0 && 8 * k + 8 <= |data|
    ensures 2 * k + 1 < |PackLe(data)|
    ensures Join(Pair(PackLe(data)[2 * k], PackLe(data)[2 * k + 1])) == LeValue(data[8 * k..8 * k + 8])
  {
    hide PackLe, LeValue;
    PacksTell(data, 2 * k);
    PacksTell(data, 2 * k + 1);
    var b := data[8 * k..8 * k + 8];
    LeHalves(b);
    assert b[..4] == data[4 * (2 * k)..4 * (2 * k) + 4];
    assert b[4..] == data[4 * (2 * k + 1)..4 * (2 * k + 1) + 4];
  }

  // A uint32 shift either way, 0 < n < 32.
  function Shr32(a: u32, n: nat): (r: u32)
    requires n < 32
  {
    DivBounds(a, Pow2(n));
    a / Pow2(n)
  }

  function Shl32(a: u32, n: nat): (r: u32)
    requires n < 32
  {
    a * Pow2(n) % 0x1_0000_0000
  }

  // Half of a rotation by 0 < s < 32; neither shift is ever by 32.
  function FunnelRight(a: u32, b: u32, s: nat): (r: u32)
    requires 0 < s < 32
  {
    Bitwise32(OR, Shr32(a, s), Shl32(b, 32 - s))
  }

  function FunnelLeft(a: u32, b: u32, s: nat): (r: u32)
    requires 0 < s < 32
  {
    Bitwise32(OR, Shl32(a, s), Shr32(b, 32 - s))
  }

  // `word64.rotr64`
  function Rotr64(a: Pair, count: nat): (r: Pair)
  {
    var n := count % 64;
    if n == 0 then a
    else if n == 32 then Pair(a.hi, a.lo)
    else if n < 32 then Pair(FunnelRight(a.lo, a.hi, n), FunnelRight(a.hi, a.lo, n))
    else Pair(FunnelRight(a.hi, a.lo, n - 32), FunnelRight(a.lo, a.hi, n - 32))
  }

  // `lane.rotl`
  function Rotl64(a: Pair, count: nat): (r: Pair)
  {
    var n := count % 64;
    if n == 0 then a
    else if n == 32 then Pair(a.hi, a.lo)
    else if n < 32 then Pair(FunnelLeft(a.lo, a.hi, n), FunnelLeft(a.hi, a.lo, n))
    else Pair(FunnelLeft(a.hi, a.lo, n - 32), FunnelLeft(a.lo, a.hi, n - 32))
  }

  // `sha512._shr64`, for 0 < n < 32
  function Shr64(a: Pair, n: nat): (r: Pair)
    requires 0 < n < 32
  {
    Pair(FunnelRight(a.lo, a.hi, n), Shr32(a.hi, n))
  }

  // A funnel takes the low bits of one half above the high bits of the other.
  lemma FunnelIs(a: u32, b: u32, s: nat)
    requires 0 < s < 32
    ensures FunnelRight(a, b, s) == b % Pow2(s) * Pow2(32 - s) + a / Pow2(s)
  {
    hide Pow2, Bitwise;
    var p, q := Pow2(s), Pow2(32 - s);
    Pow2Adds(s, 32 - s);
    Pow2OfHalves();
    ShiftedOut(b, p, q);
    QuotientFits(a, p, q);
    OrDisjoint(32 - s, s, b % p, a / p);
  }

  // `word.rotr` and `word.rotl` of one 32-bit word, 0 < n < 32.
  function Rotr32(x: u32, n: nat): (r: u32)
    requires 0 < n < 32
  {
    FunnelRight(x, x, n)
  }

  function Rotl32(x: u32, n: nat): (r: u32)
    requires 0 < n < 32
  {
    FunnelLeft(x, x, n)
  }

  lemma Rotations32(x: u32, n: nat)
    requires 0 < n < 32
    ensures Rotr32(x, n) == RotateRight32(x, n) && Rotl32(x, n) == RotateLeft32(x, n)
  {
    hide FunnelRight, FunnelLeft, Pow2;
    FunnelIs(x, x, n);
    FunnelIs(x, x, 32 - n);
    FunnelLeftIsRight(x, x, n);
  }

  lemma ShiftedOut(b: nat, p: nat, q: nat)
    requires p >= 1 && q >= 1
    ensures b * q % (p * q) == b % p * q
  {
    var k, r := b / p, b % p;
    assert b == k * p + r;
    assert b * q == k * (p * q) + r * q;
    assert r * q < p * q by { MulMono(r + 1, p, q); }
    DivModOf(k, r * q, p * q);
  }

  lemma QuotientFits(a: nat, p: nat, q: nat)
    requires p >= 1 && a < p * q
    ensures 0 <= a / p < q && 0 <= a % p < p
  {
    DivBounds(a, p);
    if a / p >= q {
      MulMono(q, a / p, p);
    }
  }

  // The halves of w / p and w % p, when p divides the half.
  lemma HalvesShift(lo: nat, hi: nat, p: nat, q: nat)
    requires p >= 1 && q >= 1
    ensures (hi * (p * q) + lo) / p == hi * q + lo / p
    ensures (hi * (p * q) + lo) % p == lo % p
  {
    assert hi * (p * q) == (hi * q) * p;
    AddMultipleDiv(lo, hi * q, p);
  }

  lemma Right(lo: u32, hi: u32, s: nat)
    requires 0 < s < 32
    ensures Join(Pair(FunnelRight(lo, hi, s), FunnelRight(hi, lo, s))) == RotateRight(Join(Pair(lo, hi)), s)
  {
    hide FunnelRight, Pow2;
    var p, q := Pow2(s), Pow2(32 - s);
    Pow2Adds(s, 32 - s);
    Pow2Adds(32, 32 - s);
    Pow2OfHalves();
    FunnelIs(lo, hi, s);
    FunnelIs(hi, lo, s);
    HalvesShift(lo, hi, p, q);
    DivBounds(lo, p);
    RightSum(lo / p, lo % p, hi, p, q);
  }

  lemma RightSum(lh: nat, ll: nat, hi: nat, p: nat, q: nat)
    requires p >= 1 && p * q == 0x1_0000_0000
    ensures (ll * q + hi / p) * 0x1_0000_0000 + (hi % p * q + lh) == ll * (0x1_0000_0000 * q) + (hi * q + lh)
  {
    var k, r := hi / p, hi % p;
    assert hi == k * p + r;
    assert hi * q == k * (p * q) + r * q;
    assert ll * (0x1_0000_0000 * q) == ll * q * 0x1_0000_0000;
  }

  // Past half a word the exchanged pair goes the rest of the way.
  lemma HalfTurn(lo: u32, hi: u32, m: nat)
    requires 0 < m < 32
    ensures RotateRight(Join(Pair(hi, lo)), m) == RotateRight(Join(Pair(lo, hi)), m + 32)
  {
    hide Pow2;
    var p, q := Pow2(m), Pow2(32 - m);
    Pow2Adds(m, 32 - m);
    Pow2Adds(m, 32);
    Pow2Adds(32, 32 - m);
    Pow2OfHalves();
    HalvesShift(hi, lo, p, q);
    TurnedHalves(lo, hi, p);
    TurnSum(lo, hi % p, hi / p, q);
  }

  lemma TurnedHalves(lo: u32, hi: u32, p: nat)
    requires p >= 1
    ensures (hi * 0x1_0000_0000 + lo) / (p * 0x1_0000_0000) == hi / p
    ensures (hi * 0x1_0000_0000 + lo) % (p * 0x1_0000_0000) == hi % p * 0x1_0000_0000 + lo
  {
    var k, r := hi / p, hi % p;
    assert hi == k * p + r;
    assert hi * 0x1_0000_0000 + lo == k * (p * 0x1_0000_0000) + (r * 0x1_0000_0000 + lo);
    assert r * 0x1_0000_0000 + lo < p * 0x1_0000_0000;
    DivModOf(k, r * 0x1_0000_0000 + lo, p * 0x1_0000_0000);
  }

  lemma TurnSum(lo: nat, hl: nat, hh: nat, q: nat)
    ensures hl * (0x1_0000_0000 * q) + (lo * q + hh) == (hl * 0x1_0000_0000 + lo) * q + hh
  {
  }

  // `rotr64` is the rotation, for every count.
  lemma RotrJoins(a: Pair, n: nat)
    ensures Join(Rotr64(a, n)) == RotateRight(Join(a), n % 64)
  {
    hide FunnelRight, RotateRight, Join;
    var k := n % 64;
    assert Rotr64(a, n) == Rotr64(a, k);
    if k == 0 {
      NoTurn(Join(a));
    } else if k == 32 {
      HalfExchanges(a);
    } else if k < 32 {
      Right(a.lo, a.hi, k);
    } else {
      Right(a.hi, a.lo, k - 32);
      HalfTurn(a.lo, a.hi, k - 32);
    }
  }

  lemma NoTurn(w: u64)
    ensures RotateRight(w, 0) == w
  {
    assert Pow2(0) == 1;
  }

  lemma HalfExchanges(a: Pair)
    ensures RotateRight(Join(a), 32) == Join(Pair(a.hi, a.lo))
  {
    hide Pow2;
    Pow2OfHalves();
    DivModOf(a.hi, a.lo, 0x1_0000_0000);
  }

  lemma FunnelLeftIsRight(a: u32, b: u32, s: nat)
    requires 0 < s < 32
    ensures FunnelLeft(a, b, s) == FunnelRight(b, a, 32 - s)
  {
    OrCommutes(32, Shl32(a, s), Shr32(b, 32 - s));
  }

  lemma RotlJoins(a: Pair, n: nat)
    ensures Join(Rotl64(a, n)) == RotateLeft(Join(a), n % 64)
  {
    hide FunnelLeft, FunnelRight, Join, RotateRight;
    var k := n % 64;
    assert Rotl64(a, n) == Rotl64(a, k);
    if k > 0 {
      RotrJoins(a, 64 - k);
      if k < 32 {
        FunnelLeftIsRight(a.lo, a.hi, k);
        FunnelLeftIsRight(a.hi, a.lo, k);
      } else if k > 32 {
        FunnelLeftIsRight(a.lo, a.hi, k - 32);
        FunnelLeftIsRight(a.hi, a.lo, k - 32);
      }
    }
  }

  lemma ShrJoins(a: Pair, n: nat)
    requires 0 < n < 32
    ensures Join(Shr64(a, n)) == ShiftRight(Join(a), n)
  {
    hide FunnelRight, Pow2;
    var p, q := Pow2(n), Pow2(32 - n);
    Pow2Adds(n, 32 - n);
    Pow2OfHalves();
    FunnelIs(a.lo, a.hi, n);
    HalvesShift(a.lo, a.hi, p, q);
    DivBounds(a.lo, p);
    ShrSum(a.hi, a.lo / p, p, q);
  }

  lemma ShrSum(hi: nat, lh: nat, p: nat, q: nat)
    requires p >= 1 && p * q == 0x1_0000_0000
    ensures hi / p * 0x1_0000_0000 + (hi % p * q + lh) == hi * q + lh
  {
    var k, r := hi / p, hi % p;
    assert hi == k * p + r;
    assert hi * q == k * (p * q) + r * q;
  }

  // ------------------------------------------------------------------------
  // Addition and the bitwise operations

  // `word64.add64`: the low sum wrapped iff it came out below an addend.
  function Add64(a: Pair, b: Pair): (r: Pair)
  {
    var lo := Add32(a.lo, b.lo);
    Pair(lo, Add32(Add32(a.hi, b.hi), if lo < a.lo then 1 else 0))
  }

  lemma AddJoins(a: Pair, b: Pair)
    ensures Join(Add64(a, b)) == AddWord(Join(a), Join(b))
  {
    hide AddWord;
    var carry := if a.lo + b.lo >= 0x1_0000_0000 then 1 else 0;
    var over := if a.hi + b.hi + carry >= 0x1_0000_0000 then 1 else 0;
    WrapsOnce(Join(a), Join(b), over, Join(Add64(a, b)));
  }

  lemma WrapsOnce(a: u64, b: u64, over: nat, word: u64)
    requires a + b == word + over * 0x1_0000_0000_0000_0000
    ensures AddWord(a, b) == word
  {
    DivModOf(over, word, 0x1_0000_0000_0000_0000);
  }

  function BitwisePair(op: Op, a: Pair, b: Pair): (r: Pair)
  {
    Pair(Bitwise32(op, a.lo, b.lo), Bitwise32(op, a.hi, b.hi))
  }

  function NotPair(a: Pair): (r: Pair)
  {
    Pair(Not32(a.lo), Not32(a.hi))
  }

  lemma BitwiseJoins(op: Op, a: Pair, b: Pair)
    ensures Join(BitwisePair(op, a, b)) == Bitwise64(op, Join(a), Join(b))
  {
    hide Pow2, Bitwise;
    Pow2OfHalves();
    BitwiseSplits(op, 32, 32, a.hi, a.lo, b.hi, b.lo);
  }

  function XorPair(a: Pair, b: Pair): (r: Pair) { BitwisePair(XOR, a, b) }
  function AndPair(a: Pair, b: Pair): (r: Pair) { BitwisePair(AND, a, b) }

  lemma XorJoins(a: Pair, b: Pair)
    ensures Join(XorPair(a, b)) == XorWord(Join(a), Join(b))
  {
    BitwiseJoins(XOR, a, b);
  }

  lemma AndJoins(a: Pair, b: Pair)
    ensures Join(AndPair(a, b)) == AndWord(Join(a), Join(b))
  {
    BitwiseJoins(AND, a, b);
  }

  lemma NotJoins(a: Pair)
    ensures Join(NotPair(a)) == Not64(Join(a))
  {
  }

  function XorAll(ws: seq<u64>): (r: u64)
    requires |ws| > 0
  {
    if |ws| == 1 then ws[0] else XorWord(XorAll(ws[..|ws| - 1]), ws[|ws| - 1])
  }

  function JoinAll(ps: seq<Pair>): (ws: seq<u64>)
    ensures |ws| == |ps|
  {
    seq(|ps|, i requires 0 <= i < |ps| => Join(ps[i]))
  }

  // `word64.xor64`, two or more terms folded left.
  method Xor64(terms: seq<Pair>) returns (r: Pair)
    requires |terms| > 0
    ensures Join(r) == XorAll(JoinAll(terms))
  {
    hide Join, XorWord, XorPair;
    r := terms[0];
    ghost var ws := JoinAll(terms);
    assert ws[..1] == [ws[0]];
    for i := 1 to |terms|
      invariant Join(r) == XorAll(ws[..i])
    {
      XorJoins(r, terms[i]);
      r := XorPair(r, terms[i]);
      assert ws[..i + 1][..i] == ws[..i];
    }
    assert ws[..|ws|] == ws;
  }

  // A constant folded in half by half: a zero half emits nothing.
  function XorConstant(p: Pair, c: Pair): (r: Pair)
  {
    Pair(if c.lo == 0 then p.lo else Bitwise32(XOR, p.lo, c.lo), if c.hi == 0 then p.hi else Bitwise32(XOR, p.hi, c.hi))
  }

  lemma XorConstantIs(p: Pair, c: Pair)
    ensures XorConstant(p, c) == XorPair(p, c)
  {
    hide Bitwise, Pow2;
    Pow2OfHalves();
    XorZero(32, p.lo);
    XorZero(32, p.hi);
  }

  // ------------------------------------------------------------------------
  // `lane.rho_tables` and `lane.rotl_each`: the case analysis as masks

  // One lane's table entries. A count that is a multiple of 32 takes a dummy
  // shift of one, which `keep` then selects away.
  datatype RhoEntry = RhoEntry(swap: bool, shift: nat, counter: nat, keep: bool)

  function RhoTable(offset: nat): (t: RhoEntry)
    ensures 0 < t.shift < 32 && t.counter == 32 - t.shift
  {
    var n, m := offset % 64, offset % 32;
    var safe := if m == 0 then 1 else m;
    RhoEntry(n >= 32, safe, 32 - safe, m == 0)
  }

  function RotlEach(a: Pair, t: RhoEntry): (r: Pair)
    requires 0 < t.shift < 32 && t.counter == 32 - t.shift
  {
    var b := if t.swap then Pair(a.hi, a.lo) else a;
    var lo := Bitwise32(OR, Shl32(b.lo, t.shift), Shr32(b.hi, t.counter));
    var hi := Bitwise32(OR, Shl32(b.hi, t.shift), Shr32(b.lo, t.counter));
    if t.keep then b else Pair(lo, hi)
  }

  // The masked form is the three-case one, for every offset.
  lemma RotlEachIs(a: Pair, offset: nat)
    ensures RotlEach(a, RhoTable(offset)) == Rotl64(a, offset)
  {
    hide Bitwise32, Shl32, Shr32;
    HalfCount(offset);
  }

  lemma HalfCount(offset: nat)
    ensures offset % 32 == if offset % 64 < 32 then offset % 64 else offset % 64 - 32
  {
  }
}

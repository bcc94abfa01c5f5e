// SHA-512's compression (`sha512.py`) on (lo, hi) halves, a sixteen-word window
// per half, against FIPS 180-4, section 6.4.2 on 64-bit words.
module Sha512 {
  import opened Words
  import opened Word64

  // ------------------------------------------------------------------------
  // FIPS 180-4, sections 4.1.3 and 6.4.2

  datatype Registers = Registers(a: u64, b: u64, c: u64, d: u64, e: u64, f: u64, g: u64, h: u64)

  function BigSigma0(x: u64): (r: u64)
  {
    XorWord(XorWord(RotateRight(x, 28), RotateRight(x, 34)), RotateRight(x, 39))
  }

  function BigSigma1(x: u64): (r: u64)
  {
    XorWord(XorWord(RotateRight(x, 14), RotateRight(x, 18)), RotateRight(x, 41))
  }

  function SmallSigma0(x: u64): (r: u64)
  {
    XorWord(XorWord(RotateRight(x, 1), RotateRight(x, 8)), ShiftRight(x, 7))
  }

  function SmallSigma1(x: u64): (r: u64)
  {
    XorWord(XorWord(RotateRight(x, 19), RotateRight(x, 61)), ShiftRight(x, 6))
  }

  function Ch(x: u64, y: u64, z: u64): (r: u64) { XorWord(AndWord(x, y), AndWord(Not64(x), z)) }

  function Maj(x: u64, y: u64, z: u64): (r: u64) { XorWord(XorWord(AndWord(x, y), AndWord(x, z)), AndWord(y, z)) }

  function Sum4(a: u64, b: u64, c: u64, d: u64): (r: u64)
  {
    (a + b + c + d) % 0x1_0000_0000_0000_0000
  }

  function Sum5(a: u64, b: u64, c: u64, d: u64, e: u64): (r: u64)
  {
    (a + b + c + d + e) % 0x1_0000_0000_0000_0000
  }

  // The schedule word W_t.
  function W(m: seq<u64>, t: nat): (w: u64)
    requires |m| == 16
  {
    if t < 16 then m[t]
    else Sum4(SmallSigma1(W(m, t - 2)), W(m, t - 7), SmallSigma0(W(m, t - 15)), W(m, t - 16))
  }

  function Round(r: Registers, k: u64, w: u64): (s: Registers)
  {
    var t1 := Sum5(r.h, BigSigma1(r.e), Ch(r.e, r.f, r.g), k, w);
    var t2 := AddWord(BigSigma0(r.a), Maj(r.a, r.b, r.c));
    Registers(AddWord(t1, t2), r.a, r.b, r.c, AddWord(r.d, t1), r.e, r.f, r.g)
  }

  function Rounds(k: seq<u64>, m: seq<u64>, r: Registers, t: nat): (s: Registers)
    requires |m| == 16 && t <= |k|
  {
    if t == 0 then r else Round(Rounds(k, m, r, t - 1), k[t - 1], W(m, t - 1))
  }

  function FeedForward(h: Registers, r: Registers): (s: Registers)
  {
    Registers(AddWord(h.a, r.a), AddWord(h.b, r.b), AddWord(h.c, r.c), AddWord(h.d, r.d),
              AddWord(h.e, r.e), AddWord(h.f, r.f), AddWord(h.g, r.g), AddWord(h.h, r.h))
  }

  // ------------------------------------------------------------------------
  // The pair layout: the high half at the even index, the low at the odd one

  function PairAt(words: seq<u32>, i: nat): (p: Pair)
    requires 2 * i + 1 < |words|
  {
    Pair(words[2 * i + 1], words[2 * i])
  }

  function PairsOf(words: seq<u32>): (ps: seq<Pair>)
    requires |words| % 2 == 0
    ensures |ps| == |words| / 2
  {
    seq(|words| / 2, i requires 0 <= i < |words| / 2 => PairAt(words, i))
  }

  datatype PairRegisters = PairRegisters(a: Pair, b: Pair, c: Pair, d: Pair, e: Pair, f: Pair, g: Pair, h: Pair)

  function Load(state: seq<u32>): (r: PairRegisters)
    requires |state| == 16
  {
    var p := PairsOf(state);
    PairRegisters(p[0], p[1], p[2], p[3], p[4], p[5], p[6], p[7])
  }

  function Store(r: PairRegisters): (state: seq<u32>)
    ensures |state| == 16
  {
    [r.a.hi, r.a.lo, r.b.hi, r.b.lo, r.c.hi, r.c.lo, r.d.hi, r.d.lo,
     r.e.hi, r.e.lo, r.f.hi, r.f.lo, r.g.hi, r.g.lo, r.h.hi, r.h.lo]
  }

  lemma LoadStore(r: PairRegisters)
    ensures Load(Store(r)) == r
  {
  }

  function JoinRegisters(r: PairRegisters): (s: Registers)
  {
    Registers(Join(r.a), Join(r.b), Join(r.c), Join(r.d), Join(r.e), Join(r.f), Join(r.g), Join(r.h))
  }

  // ------------------------------------------------------------------------
  // `_compress`, on pairs

  function PairBigSigma0(a: Pair): (r: Pair) { XorPair(XorPair(Rotr64(a, 28), Rotr64(a, 34)), Rotr64(a, 39)) }
  function PairBigSigma1(e: Pair): (r: Pair) { XorPair(XorPair(Rotr64(e, 14), Rotr64(e, 18)), Rotr64(e, 41)) }
  function PairSmallSigma0(w: Pair): (r: Pair) { XorPair(XorPair(Rotr64(w, 1), Rotr64(w, 8)), Shr64(w, 7)) }
  function PairSmallSigma1(w: Pair): (r: Pair) { XorPair(XorPair(Rotr64(w, 19), Rotr64(w, 61)), Shr64(w, 6)) }
  function PairCh(e: Pair, f: Pair, g: Pair): (r: Pair) { XorPair(AndPair(e, f), AndPair(NotPair(e), g)) }
  function PairMaj(a: Pair, b: Pair, c: Pair): (r: Pair)
  {
    XorPair(XorPair(AndPair(a, b), AndPair(a, c)), AndPair(b, c))
  }

  lemma Xor3Joins(a: Pair, b: Pair, c: Pair)
    ensures Join(XorPair(XorPair(a, b), c)) == XorWord(XorWord(Join(a), Join(b)), Join(c))
  {
    hide Join, XorWord, XorPair;
    XorJoins(a, b);
    XorJoins(XorPair(a, b), c);
  }

  lemma BigSigmasJoin(x: Pair)
    ensures Join(PairBigSigma0(x)) == BigSigma0(Join(x))
    ensures Join(PairBigSigma1(x)) == BigSigma1(Join(x))
  {
    hide Join, XorWord, XorPair, Rotr64, RotateRight;
    RotrJoins(x, 28);
    RotrJoins(x, 34);
    RotrJoins(x, 39);
    Xor3Joins(Rotr64(x, 28), Rotr64(x, 34), Rotr64(x, 39));
    RotrJoins(x, 14);
    RotrJoins(x, 18);
    RotrJoins(x, 41);
    Xor3Joins(Rotr64(x, 14), Rotr64(x, 18), Rotr64(x, 41));
  }

  lemma SmallSigmasJoin(x: Pair)
    ensures Join(PairSmallSigma0(x)) == SmallSigma0(Join(x))
    ensures Join(PairSmallSigma1(x)) == SmallSigma1(Join(x))
  {
    hide Join, XorWord, XorPair, Rotr64, RotateRight, Shr64, ShiftRight;
    RotrJoins(x, 1);
    RotrJoins(x, 8);
    ShrJoins(x, 7);
    Xor3Joins(Rotr64(x, 1), Rotr64(x, 8), Shr64(x, 7));
    RotrJoins(x, 19);
    RotrJoins(x, 61);
    ShrJoins(x, 6);
    Xor3Joins(Rotr64(x, 19), Rotr64(x, 61), Shr64(x, 6));
  }

  lemma ChoicesJoin(x: Pair, y: Pair, z: Pair)
    ensures Join(PairCh(x, y, z)) == Ch(Join(x), Join(y), Join(z))
    ensures Join(PairMaj(x, y, z)) == Maj(Join(x), Join(y), Join(z))
  {
    hide Join, XorWord, XorPair, AndWord, AndPair, NotPair, Not64;
    NotJoins(x);
    AndJoins(x, y);
    AndJoins(NotPair(x), z);
    XorJoins(AndPair(x, y), AndPair(NotPair(x), z));
    AndJoins(x, z);
    AndJoins(y, z);
    Xor3Joins(AndPair(x, y), AndPair(x, z), AndPair(y, z));
  }

  function LoopRound(r: PairRegisters, kt: Pair, word: Pair): (s: PairRegisters)
  {
    var t1 := Add64(Add64(Add64(Add64(r.h, PairBigSigma1(r.e)), PairCh(r.e, r.f, r.g)), kt), word);
    var t2 := Add64(PairBigSigma0(r.a), PairMaj(r.a, r.b, r.c));
    PairRegisters(Add64(t1, t2), r.a, r.b, r.c, Add64(r.d, t1), r.e, r.f, r.g)
  }

  function Next(w: seq<Pair>): (n: Pair)
    requires |w| == 16
  {
    Add64(Add64(Add64(w[0], PairSmallSigma0(w[1])), w[9]), PairSmallSigma1(w[14]))
  }

  lemma AddOn(x: nat, y: nat)
    ensures (x % 0x1_0000_0000_0000_0000 + y) % 0x1_0000_0000_0000_0000 == (x + y) % 0x1_0000_0000_0000_0000
  {
  }

  lemma FourSum(a: u64, b: u64, c: u64, d: u64)
    ensures AddWord(AddWord(AddWord(a, b), c), d) == Sum4(d, c, b, a)
  {
    AddOn(a + b, c);
    AddOn(a + b + c, d);
  }

  lemma FiveSum(a: u64, b: u64, c: u64, d: u64, e: u64)
    ensures AddWord(AddWord(AddWord(AddWord(a, b), c), d), e) == Sum5(a, b, c, d, e)
  {
    AddOn(a + b, c);
    AddOn(a + b + c, d);
    AddOn(a + b + c + d, e);
  }

  lemma Sum5Joins(a: Pair, b: Pair, c: Pair, d: Pair, e: Pair)
    ensures Join(Add64(Add64(Add64(Add64(a, b), c), d), e)) == Sum5(Join(a), Join(b), Join(c), Join(d), Join(e))
  {
    hide Join, Add64, AddWord, Sum5;
    AddJoins(a, b);
    AddJoins(Add64(a, b), c);
    AddJoins(Add64(Add64(a, b), c), d);
    AddJoins(Add64(Add64(Add64(a, b), c), d), e);
    FiveSum(Join(a), Join(b), Join(c), Join(d), Join(e));
  }

  lemma Sum4Joins(a: Pair, b: Pair, c: Pair, d: Pair)
    ensures Join(Add64(Add64(Add64(a, b), c), d)) == Sum4(Join(d), Join(c), Join(b), Join(a))
  {
    hide Join, Add64, AddWord, Sum4;
    AddJoins(a, b);
    AddJoins(Add64(a, b), c);
    AddJoins(Add64(Add64(a, b), c), d);
    FourSum(Join(a), Join(b), Join(c), Join(d));
  }

  lemma LoopRoundJoins(r: PairRegisters, kt: Pair, word: Pair)
    ensures JoinRegisters(LoopRound(r, kt, word)) == Round(JoinRegisters(r), Join(kt), Join(word))
  {
    hide Join, Add64, AddWord, Sum5, PairBigSigma0, PairBigSigma1, PairCh, PairMaj, BigSigma0, BigSigma1, Ch, Maj;
    var t1 := Add64(Add64(Add64(Add64(r.h, PairBigSigma1(r.e)), PairCh(r.e, r.f, r.g)), kt), word);
    var t2 := Add64(PairBigSigma0(r.a), PairMaj(r.a, r.b, r.c));
    BigSigmasJoin(r.e);
    BigSigmasJoin(r.a);
    ChoicesJoin(r.e, r.f, r.g);
    ChoicesJoin(r.a, r.b, r.c);
    Sum5Joins(r.h, PairBigSigma1(r.e), PairCh(r.e, r.f, r.g), kt, word);
    AddJoins(PairBigSigma0(r.a), PairMaj(r.a, r.b, r.c));
    AddJoins(t1, t2);
    AddJoins(r.d, t1);
  }

  // ------------------------------------------------------------------------
  // The window

  function Slot(m: seq<u64>, t: nat, i: nat): (w: u64)
    requires |m| == 16
  {
    W(m, t + i)
  }

  // The window of round t: pairs that join to W_t to W_{t+15}.
  predicate Windows(w: seq<Pair>, m: seq<u64>, t: nat)
    requires |m| == 16
  {
    |w| == 16 && forall i :: 0 <= i < 16 ==> Join(w[i]) == Slot(m, t, i)
  }

  lemma NextJoins(w: seq<Pair>, m: seq<u64>, t: nat)
    requires |m| == 16 && Windows(w, m, t)
    ensures Join(Next(w)) == W(m, t + 16)
  {
    hide Join, Add64, W, Sum4, PairSmallSigma0, PairSmallSigma1, SmallSigma0, SmallSigma1;
    SmallSigmasJoin(w[1]);
    SmallSigmasJoin(w[14]);
    Sum4Joins(w[0], PairSmallSigma0(w[1]), w[9], PairSmallSigma1(w[14]));
    WordStep(m, t);
    assert Slot(m, t, 0) == W(m, t) && Slot(m, t, 1) == W(m, t + 1);
    assert Slot(m, t, 9) == W(m, t + 9) && Slot(m, t, 14) == W(m, t + 14);
  }

  lemma WordStep(m: seq<u64>, t: nat)
    requires |m| == 16
    ensures W(m, t + 16) == Sum4(SmallSigma1(W(m, t + 14)), W(m, t + 9), SmallSigma0(W(m, t + 1)), W(m, t))
  {
    hide Sum4, SmallSigma0, SmallSigma1;
  }

  lemma WindowShifts(w: seq<Pair>, m: seq<u64>, t: nat)
    requires |m| == 16 && Windows(w, m, t)
    ensures Windows(w[1..] + [Next(w)], m, t + 1)
  {
    hide Join, Next, W;
    NextJoins(w, m, t);
    var next := w[1..] + [Next(w)];
    forall i | 0 <= i < 16
      ensures Join(next[i]) == Slot(m, t + 1, i)
    {
      if i < 15 {
        assert Join(w[i + 1]) == Slot(m, t, i + 1);
      }
    }
  }

  // The fused loop over halves is the standard's compression of the joined
  // words, for every block, state and constant table.
  method Compress(state: seq<u32>, w32: seq<u32>, k: seq<u32>) returns (out: seq<u32>)
    requires |state| == 16 && |w32| == 32 && |k| == 160
    ensures |out| == 16
    ensures var h, m, kt := JoinRegisters(Load(state)), JoinAll(PairsOf(w32)), JoinAll(PairsOf(k));
            JoinRegisters(Load(out)) == FeedForward(h, Rounds(kt, m, h, 80))
  {
    hide Join, Next, LoopRound, Round, W, Load, Store;
    var kp := PairsOf(k);
    var r0 := Load(state);
    var r, w := r0, PairsOf(w32);
    ghost var m, kt := JoinAll(PairsOf(w32)), JoinAll(kp);
    FirstWindow(w32);
    for t := 0 to 80
      invariant JoinRegisters(r) == Rounds(kt, m, JoinRegisters(r0), t)
      invariant Windows(w, m, t)
    {
      assert Join(w[0]) == Slot(m, t, 0);
      LoopRoundJoins(r, kp[t], w[0]);
      WindowShifts(w, m, t);
      r := LoopRound(r, kp[t], w[0]);
      w := w[1..] + [Next(w)];
    }
    FeedForwardJoins(r0, r);
    var final := FeedPairs(r0, r);
    out := Store(final);
    LoadStore(final);
  }

  function FeedPairs(h: PairRegisters, r: PairRegisters): (s: PairRegisters)
  {
    PairRegisters(Add64(h.a, r.a), Add64(h.b, r.b), Add64(h.c, r.c), Add64(h.d, r.d),
                  Add64(h.e, r.e), Add64(h.f, r.f), Add64(h.g, r.g), Add64(h.h, r.h))
  }

  lemma FeedForwardJoins(h: PairRegisters, r: PairRegisters)
    ensures JoinRegisters(FeedPairs(h, r)) == FeedForward(JoinRegisters(h), JoinRegisters(r))
  {
    hide Join, Add64, AddWord;
    AddJoins(h.a, r.a);
    AddJoins(h.b, r.b);
    AddJoins(h.c, r.c);
    AddJoins(h.d, r.d);
    AddJoins(h.e, r.e);
    AddJoins(h.f, r.f);
    AddJoins(h.g, r.g);
    AddJoins(h.h, r.h);
  }

  lemma FirstWindow(w32: seq<u32>)
    requires |w32| == 32
    ensures Windows(PairsOf(w32), JoinAll(PairsOf(w32)), 0)
  {
    hide Join;
  }
}

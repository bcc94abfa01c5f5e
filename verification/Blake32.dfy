// The 32-bit BLAKE compressions: BLAKE3's (`blake3/compress.py`) and BLAKE2s's
// (`blake2s.py`), which share G.
module Blake32 {
  import opened Words
  import opened Word64
  import opened BlakeMix
  import opened Pad
  import Stream

  // Words enter as numbers and are read modulo 2^32.
  function Add(a: nat, b: nat): (r: u32) { (a + b) % 0x1_0000_0000 }

  function Xor(a: nat, b: nat): (r: u32)
  {
    Pow2OfHalves();
    Bitwise(XOR, 32, a, b)
  }

  // On words those are the word's own operations.
  lemma WordOperations(a: u32, b: u32)
    ensures Add(a, b) == Add32(a, b) == (a + b) % 0x1_0000_0000 && Xor(a, b) == Xor32(a, b)
  {
  }

  // RFC 7693, section 3.1, with BLAKE2s's rotations; the BLAKE3 paper's section
  // 2.2 has the same.
  function Mix(a: nat, b: nat, c: nat, d: nat, x: nat, y: nat): (q: Quad)
  {
    var a1 := Add(Add(a, b), x);
    var d1 := RotateRight32(Xor(d, a1), 16);
    var c1 := Add(c, d1);
    var b1 := RotateRight32(Xor(b, c1), 12);
    var a2 := Add(Add(a1, b1), y);
    var d2 := RotateRight32(Xor(d1, a2), 8);
    var c2 := Add(c1, d2);
    var b2 := RotateRight32(Xor(b1, c2), 7);
    Quad(a2, b2, c2, d2)
  }

  // ------------------------------------------------------------------------
  // `_g` and `_g_row`, on rows

  function AddRow(a: Row, b: Row): (r: Row)
  {
    [Add(a[0], b[0]), Add(a[1], b[1]), Add(a[2], b[2]), Add(a[3], b[3])]
  }

  function XorRow(a: Row, b: Row): (r: Row)
  {
    [Xor(a[0], b[0]), Xor(a[1], b[1]), Xor(a[2], b[2]), Xor(a[3], b[3])]
  }

  // `rotr(a ^ b, n)`
  function XorRotr(a: nat, b: nat, n: nat): (r: u32)
    requires 0 < n < 32
  {
    Rotr32(Xor(a, b), n)
  }

  function XorRotrRow(a: Row, b: Row, n: nat): (r: Row)
    requires 0 < n < 32
  {
    [XorRotr(a[0], b[0], n), XorRotr(a[1], b[1], n), XorRotr(a[2], b[2], n), XorRotr(a[3], b[3], n)]
  }

  function RowMix(r: Rows, x: Row, y: Row): (s: Rows)
  {
    var a1 := AddRow(AddRow(r.r0, r.r1), x);
    var d1 := XorRotrRow(r.r3, a1, 16);
    var c1 := AddRow(r.r2, d1);
    var b1 := XorRotrRow(r.r1, c1, 12);
    var a2 := AddRow(AddRow(a1, b1), y);
    var d2 := XorRotrRow(d1, a2, 8);
    var c2 := AddRow(c1, d2);
    var b2 := XorRotrRow(b1, c2, 7);
    Rows(a2, b2, c2, d2)
  }

  lemma AddRowAt(a: Row, b: Row, i: nat)
    requires i < 4
    ensures AddRow(a, b)[i] == Add(a[i], b[i])
  {
    hide Add;
  }

  lemma XorRotrRowAt(a: Row, b: Row, n: nat, i: nat)
    requires 0 < n < 32 && i < 4
    ensures XorRotrRow(a, b, n)[i] == RotateRight32(Xor(a[i], b[i]), n)
  {
    hide Xor, Rotr32, RotateRight32;
    Rotations32(Xor(a[i], b[i]), n);
  }

  lemma RowMixAt(r: Rows, x: Row, y: Row, i: nat)
    requires i < 4
    ensures var s := RowMix(r, x, y);
            Quad(s.r0[i], s.r1[i], s.r2[i], s.r3[i]) == Mix(r.r0[i], r.r1[i], r.r2[i], r.r3[i], x[i], y[i])
  {
    hide Add, AddRow, Xor, XorRotrRow, RotateRight32;
    var a1 := AddRow(AddRow(r.r0, r.r1), x);
    var d1 := XorRotrRow(r.r3, a1, 16);
    var c1 := AddRow(r.r2, d1);
    var b1 := XorRotrRow(r.r1, c1, 12);
    var a2 := AddRow(AddRow(a1, b1), y);
    var d2 := XorRotrRow(d1, a2, 8);
    var c2 := AddRow(c1, d2);
    AddRowAt(r.r0, r.r1, i);
    AddRowAt(AddRow(r.r0, r.r1), x, i);
    XorRotrRowAt(r.r3, a1, 16, i);
    AddRowAt(r.r2, d1, i);
    XorRotrRowAt(r.r1, c1, 12, i);
    AddRowAt(a1, b1, i);
    AddRowAt(AddRow(a1, b1), y, i);
    XorRotrRowAt(d1, a2, 8, i);
    AddRowAt(c1, d2, i);
    XorRotrRowAt(b1, c2, 7, i);
  }

  lemma RowMixes(r: Rows, x: Row, y: Row)
    ensures MixesLanes(Mix, r, x, y, RowMix(r, x, y))
  {
    hide Mix, RowMix;
    forall i | 0 <= i < 4
      ensures var s := RowMix(r, x, y);
              Quad(s.r0[i], s.r1[i], s.r2[i], s.r3[i]) == Mix(r.r0[i], r.r1[i], r.r2[i], r.r3[i], x[i], y[i])
    {
      RowMixAt(r, x, y, i);
    }
  }

  // `_round` over the words the round reads, in its reading order.
  function RolledRound(r: Rows, m: Words16): (s: Rows)
  {
    var columns := RowMix(r, Evens(m, 0), Odds(m, 0));
    Undiagonalized(RowMix(Diagonalized(columns), Evens(m, 8), Odds(m, 8)))
  }

  // A rolled round is the eight calls.
  lemma RolledRoundIs(r: Rows, m: Words16)
    ensures Flat(RolledRound(r, m)) == SequentialRound(Mix, Flat(r), m)
  {
    hide RowMix, Columns, Diagonals, Flat, Mix, Diagonalized, Undiagonalized, MixesLanes;
    var columns := RowMix(r, Evens(m, 0), Odds(m, 0));
    RowMixes(r, Evens(m, 0), Odds(m, 0));
    ColumnsAtOnce(Mix, r, m, columns);
    var out := RowMix(Diagonalized(columns), Evens(m, 8), Odds(m, 8));
    RowMixes(Diagonalized(columns), Evens(m, 8), Odds(m, 8));
    DiagonalsAtOnce(Mix, columns, m, out);
  }

  // ------------------------------------------------------------------------
  // Message schedules

  type Order = o: seq<nat> | |o| == 16 && forall i :: 0 <= i < 16 ==> o[i] < 16
    witness [0, 1, 2, 3, 4, 5, 6, 7, 8, 9, 10, 11, 12, 13, 14, 15]

  // The words at `order`, a static reorder.
  function Picked(m: Words16, order: Order): (r: Words16)
  {
    seq(16, i requires 0 <= i < 16 => Pick(m, order, i))
  }

  function Pick(m: Words16, order: Order, i: nat): (w: nat)
    requires i < 16
  {
    m[order[i]]
  }

  const IDENTITY: Order := [0, 1, 2, 3, 4, 5, 6, 7, 8, 9, 10, 11, 12, 13, 14, 15]
  const MSG_PERMUTATION: Order := [2, 6, 3, 10, 7, 0, 4, 13, 1, 11, 12, 5, 9, 14, 15, 8]

  // `_SCHEDULE[r]`, composed on the host.
  function Composed(o: Order, p: Order): (r: Order)
  {
    [o[p[0]], o[p[1]], o[p[2]], o[p[3]], o[p[4]], o[p[5]], o[p[6]], o[p[7]],
     o[p[8]], o[p[9]], o[p[10]], o[p[11]], o[p[12]], o[p[13]], o[p[14]], o[p[15]]]
  }

  function Schedule(r: nat): (o: Order)
  {
    if r == 0 then IDENTITY else Composed(Schedule(r - 1), MSG_PERMUTATION)
  }

  // The module loop that appends the seven rows.
  method Schedules() returns (s: seq<Order>)
    ensures |s| == 7 && forall r :: 0 <= r < 7 ==> s[r] == Schedule(r)
  {
    hide Composed;
    s := [IDENTITY];
    for r := 0 to 6
      invariant |s| == r + 1 && forall i :: 0 <= i <= r ==> s[i] == Schedule(i)
    {
      s := s + [Composed(s[|s| - 1], MSG_PERMUTATION)];
    }
  }

  // The paper permutes the message between rounds, by its table 2.
  function Permuted(m: Words16, r: nat): (p: Words16)
  {
    if r == 0 then m
    else
      var w := Permuted(m, r - 1);
      [w[2], w[6], w[3], w[10], w[7], w[0], w[4], w[13], w[1], w[11], w[12], w[5], w[9], w[14], w[15], w[8]]
  }

  // Slicing the original block by the composed order reads the same words.
  lemma {:induction false} ScheduleReads(m: Words16, r: nat)
    ensures Picked(m, Schedule(r)) == Permuted(m, r)
  {
    if r > 0 {
      hide Picked, Composed;
      ScheduleReads(m, r - 1);
      ComposedPicks(m, Schedule(r - 1), MSG_PERMUTATION);
      PermutesOnce(Permuted(m, r - 1));
    } else {
      assert Picked(m, IDENTITY) == m;
    }
  }

  lemma PermutesOnce(w: Words16)
    ensures Picked(w, MSG_PERMUTATION)
         == [w[2], w[6], w[3], w[10], w[7], w[0], w[4], w[13], w[1], w[11], w[12], w[5], w[9], w[14], w[15], w[8]]
  {
  }

  lemma ComposedPicks(m: Words16, o: Order, p: Order)
    ensures Picked(m, Composed(o, p)) == Picked(Picked(m, o), p)
  {
    var left, right := Picked(m, Composed(o, p)), Picked(Picked(m, o), p);
    forall i | 0 <= i < 16
      ensures left[i] == right[i]
    {
    }
  }

  // ------------------------------------------------------------------------
  // BLAKE3's compression

  type Half = h: seq<nat> | |h| == 8 witness [0, 0, 0, 0, 0, 0, 0, 0]

  function InitialVector(cv: Half, iv: Half, counterLo: nat, counterHi: nat, blockLen: nat, flags: nat): (v: Vector)
  {
    Vector(cv[0], cv[1], cv[2], cv[3], cv[4], cv[5], cv[6], cv[7],
           iv[0], iv[1], iv[2], iv[3], counterLo, counterHi, blockLen, flags)
  }

  // Rounds 1 to n of the paper: mix, then permute the message.
  function PaperRounds(v: Vector, m: Words16, n: nat): (r: Vector)
  {
    if n == 0 then v else SequentialRound(Mix, PaperRounds(v, m, n - 1), Permuted(m, n - 1))
  }

  function PaperOutput(v: Vector, cv: Half): (out: seq<nat>)
    ensures |out| == 16
  {
    [Xor(v.v0, v.v8), Xor(v.v1, v.v9), Xor(v.v2, v.v10), Xor(v.v3, v.v11),
     Xor(v.v4, v.v12), Xor(v.v5, v.v13), Xor(v.v6, v.v14), Xor(v.v7, v.v15),
     Xor(v.v8, cv[0]), Xor(v.v9, cv[1]), Xor(v.v10, cv[2]), Xor(v.v11, cv[3]),
     Xor(v.v12, cv[4]), Xor(v.v13, cv[5]), Xor(v.v14, cv[6]), Xor(v.v15, cv[7])]
  }

  // `compress`: seven rolled rounds over slices of the original block.
  method Compress(cv: Half, block: Words16, counterLo: nat, counterHi: nat, blockLen: nat, flags: nat, iv: Half)
    returns (out: seq<nat>)
    ensures out == PaperOutput(PaperRounds(InitialVector(cv, iv, counterLo, counterHi, blockLen, flags), block, 7), cv)
  {
    hide RolledRound, SequentialRound, Picked, Schedule, Xor, Flat, InitialVector;
    var rows := Rows(cv[..4], cv[4..], iv[..4], [counterLo, counterHi, blockLen, flags]);
    ghost var v0 := InitialVector(cv, iv, counterLo, counterHi, blockLen, flags);
    FirstRows(cv, iv, counterLo, counterHi, blockLen, flags);
    var schedules := Schedules();
    for rnd := 0 to 7
      invariant Flat(rows) == PaperRounds(v0, block, rnd)
    {
      var words := Picked(block, schedules[rnd]);
      ScheduleReads(block, rnd);
      RolledRoundIs(rows, words);
      rows := RolledRound(rows, words);
    }
    out := XorRow(rows.r0, rows.r2) + XorRow(rows.r1, rows.r3) + XorRow(rows.r2, cv[..4]) + XorRow(rows.r3, cv[4..]);
    LastRows(rows, cv);
  }

  lemma FirstRows(cv: Half, iv: Half, counterLo: nat, counterHi: nat, blockLen: nat, flags: nat)
    ensures Flat(Rows(cv[..4], cv[4..], iv[..4], [counterLo, counterHi, blockLen, flags]))
         == InitialVector(cv, iv, counterLo, counterHi, blockLen, flags)
  {
  }

  lemma LastRows(r: Rows, cv: Half)
    ensures XorRow(r.r0, r.r2) + XorRow(r.r1, r.r3) + XorRow(r.r2, cv[..4]) + XorRow(r.r3, cv[4..])
         == PaperOutput(Flat(r), cv)
  {
    hide Xor;
  }

  // ------------------------------------------------------------------------
  // BLAKE2s's compression (RFC 7693, section 3.2)

  type Sigma = s: seq<Order> | |s| == 10
    witness [IDENTITY, IDENTITY, IDENTITY, IDENTITY, IDENTITY, IDENTITY, IDENTITY, IDENTITY, IDENTITY, IDENTITY]

  predicate AreWords(h: Half)
  {
    forall i :: 0 <= i < 8 ==> h[i] < 0x1_0000_0000
  }

  // v[12] takes the offset's low word, v[13] its high word, and v[14] is
  // inverted on the last block.
  function WorkingVector(h: Half, iv: Half, t: nat, f: bool): (v: Vector)
  {
    Vector(h[0], h[1], h[2], h[3], h[4], h[5], h[6], h[7], iv[0], iv[1], iv[2], iv[3],
           Xor(iv[4], t % 0x1_0000_0000), Xor(iv[5], t / 0x1_0000_0000), Xor(iv[6], if f then 0xffff_ffff else 0),
           iv[7])
  }

  function SigmaRounds(sigma: Sigma, v: Vector, m: Words16, n: nat): (r: Vector)
  {
    if n == 0 then v
    else SequentialRound(Mix, SigmaRounds(sigma, v, m, n - 1), Picked(m, sigma[(n - 1) % 10]))
  }

  function Fold(h: Half, v: Vector): (r: Half)
  {
    [Xor(Xor(h[0], v.v0), v.v8), Xor(Xor(h[1], v.v1), v.v9), Xor(Xor(h[2], v.v2), v.v10), Xor(Xor(h[3], v.v3), v.v11),
     Xor(Xor(h[4], v.v4), v.v12), Xor(Xor(h[5], v.v5), v.v13), Xor(Xor(h[6], v.v6), v.v14), Xor(Xor(h[7], v.v7), v.v15)]
  }

  // F(h, m, t, f)
  function F(sigma: Sigma, iv: Half, h: Half, m: Words16, t: nat, f: bool): (r: Half)
  {
    Fold(h, SigmaRounds(sigma, WorkingVector(h, iv, t, f), m, 10))
  }

  // `_fold_counter`: a zero value emits nothing.
  function FoldLane(lane: nat, value: nat): (r: nat)
  {
    if value == 0 then lane else Xor(lane, value)
  }

  function FoldCounter(row: Row, tLo: nat, tHi: nat, ff: nat): (r: Row)
  {
    [FoldLane(row[0], tLo), FoldLane(row[1], tHi), FoldLane(row[2], ff), row[3]]
  }

  lemma FoldLaneIs(lane: nat, value: nat)
    requires lane < 0x1_0000_0000
    ensures FoldLane(lane, value) == Xor(lane, value)
  {
    hide Bitwise, Pow2;
    Pow2OfHalves();
    XorZero(32, lane);
  }

  lemma FoldedRows(h: Half, iv: Half, t: nat, f: bool)
    requires AreWords(iv)
    ensures Flat(Rows(h[..4], h[4..], iv[..4],
                      FoldCounter(iv[4..], t % 0x1_0000_0000, t / 0x1_0000_0000, if f then 0xffff_ffff else 0)))
         == WorkingVector(h, iv, t, f)
  {
    hide FoldLane, Xor;
    FoldLaneIs(iv[4], t % 0x1_0000_0000);
    FoldLaneIs(iv[5], t / 0x1_0000_0000);
    FoldLaneIs(iv[6], if f then 0xffff_ffff else 0);
  }

  // `_compress`
  method Compress2s(sigma: Sigma, iv: Half, state: Half, block: Words16, t: nat, f: bool) returns (out: Half)
    requires AreWords(iv)
    ensures out == F(sigma, iv, state, block, t, f)
  {
    hide RolledRound, SequentialRound, Picked, Xor, Flat, WorkingVector, FoldCounter, AreWords;
    var rows := Rows(state[..4], state[4..], iv[..4],
                     FoldCounter(iv[4..], t % 0x1_0000_0000, t / 0x1_0000_0000, if f then 0xffff_ffff else 0));
    ghost var v0 := WorkingVector(state, iv, t, f);
    FoldedRows(state, iv, t, f);
    for r := 0 to 10
      invariant Flat(rows) == SigmaRounds(sigma, v0, block, r)
    {
      var words := Picked(block, sigma[r]);
      RolledRoundIs(rows, words);
      rows := RolledRound(rows, words);
    }
    out := XorRow(XorRow(state[..4], rows.r0), rows.r2) + XorRow(XorRow(state[4..], rows.r1), rows.r3);
    FoldRows(state, rows);
  }

  lemma FoldRows(h: Half, r: Rows)
    ensures XorRow(XorRow(h[..4], r.r0), r.r2) + XorRow(XorRow(h[4..], r.r1), r.r3) == Fold(h, Flat(r))
  {
    hide Xor;
  }

  // ------------------------------------------------------------------------
  // RFC 7693, section 3.3: the chain over a message

  function WordsOf(block: seq<u32>): (m: Words16)
    requires |block| == 16
    ensures forall i :: 0 <= i < 16 ==> m[i] == block[i]
  {
    block
  }

  predicate AllBlocks(blocks: seq<seq<u32>>)
  {
    forall i :: 0 <= i < |blocks| ==> |blocks[i]| == 16
  }

  // The state after i of the blocks: the offset counts the bytes behind it, the
  // last block's the message's length.
  function Chain(sigma: Sigma, iv: Half, h0: Half, blocks: seq<seq<u32>>, length: nat, i: nat): (h: Half)
    requires i <= |blocks| && AllBlocks(blocks)
  {
    if i == 0 then h0
    else
      var last := i == |blocks|;
      F(sigma, iv, Chain(sigma, iv, h0, blocks, length, i - 1), WordsOf(blocks[i - 1]), if last then length else 64 * i,
        last)
  }

  lemma {:induction false} BlockSizes(data: seq<byte>)
    ensures AllBlocks(Stream.Blocks(false, 64, data))
    decreases |data|
  {
    if |data| >= 64 {
      BlockSizes(data[64..]);
    }
  }

  const PAD: PadRule := PadRule(64, NO_TRAILER, 8, false)

  // The block loop of `blake2s_bytes`.
  method Blake2sState(sigma: Sigma, iv: Half, h0: Half, msg: seq<byte>) returns (h: Half)
    requires AreWords(iv)
    ensures var blocks := Stream.Blocks(false, 64, Padded(PAD, msg));
            && |blocks| == PAD.NBlocks(|msg|) >= 1 && AllBlocks(blocks)
            && h == Chain(sigma, iv, h0, blocks, |msg|, |blocks|)
  {
    hide F, Stream.Blocks, Padded, AreWords, AllBlocks;
    var padded := Padded(PAD, msg);
    var words := Stream.Blocks(false, 64, padded);
    BlockSizes(padded);
    PadLenFits(PAD, |msg|);
    var nblocks := PAD.NBlocks(|msg|);
    Stream.BlocksSplit(false, 64, padded, nblocks);
    assert padded[..nblocks * 64] == padded;
    h := h0;
    for i := 0 to |words|
      invariant h == Chain(sigma, iv, h0, words, |msg|, i)
    {
      var counter := HaifaCounter(i, nblocks, |msg|, 64);
      h := Compress2s(sigma, iv, h, WordsOf(words[i]), counter.0, counter.1);
      ChainNext(sigma, iv, h0, words, |msg|, i);
    }
  }

  lemma ChainNext(sigma: Sigma, iv: Half, h0: Half, blocks: seq<seq<u32>>, length: nat, i: nat)
    requires AllBlocks(blocks) && i < |blocks|
    ensures Chain(sigma, iv, h0, blocks, length, i + 1)
         == F(sigma, iv, Chain(sigma, iv, h0, blocks, length, i), WordsOf(blocks[i]),
              HaifaCounter(i, |blocks|, length, 64).0, HaifaCounter(i, |blocks|, length, 64).1)
  {
    hide F;
  }
}

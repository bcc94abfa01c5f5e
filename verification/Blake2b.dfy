// BLAKE2b's compression (`blake2b.py`) on rows of half pairs, against RFC 7693,
// section 3.2, on 64-bit words.
module Blake2b {
  import opened Words
  import opened Word64
  import opened BlakeMix
  import opened Pad
  import Stream
  import Blake32

  // ------------------------------------------------------------------------
  // RFC 7693 on 64-bit words, read modulo 2^64

  function Add(a: nat, b: nat): (r: u64) { (a + b) % 0x1_0000_0000_0000_0000 }

  function Xor(a: nat, b: nat): (r: u64)
  {
    Pow2OfHalves();
    Bitwise(XOR, 64, a, b)
  }

  // On words those are the word's own operations.
  lemma WordOperations(a: u64, b: u64)
    ensures Add(a, b) == AddWord(a, b) == (a + b) % 0x1_0000_0000_0000_0000 && Xor(a, b) == XorWord(a, b)
  {
  }

  // Section 3.1, with BLAKE2b's rotations.
  function Mix(a: nat, b: nat, c: nat, d: nat, x: nat, y: nat): (q: Quad)
  {
    var a1 := Add(Add(a, b), x);
    var d1 := RotateRight(Xor(d, a1), 32);
    var c1 := Add(c, d1);
    var b1 := RotateRight(Xor(b, c1), 24);
    var a2 := Add(Add(a1, b1), y);
    var d2 := RotateRight(Xor(d1, a2), 16);
    var c2 := Add(c1, d2);
    var b2 := RotateRight(Xor(b1, c2), 63);
    Quad(a2, b2, c2, d2)
  }

  type Half = h: seq<nat> | |h| == 8 witness [0, 0, 0, 0, 0, 0, 0, 0]

  // v[12] takes the offset, below 2^64, so v[13] takes nothing; v[14] is
  // inverted on the last block.
  function WorkingVector(h: Half, iv: Half, t: nat, f: bool): (v: Vector)
  {
    Vector(h[0], h[1], h[2], h[3], h[4], h[5], h[6], h[7], iv[0], iv[1], iv[2], iv[3],
           Xor(iv[4], t % 0x1_0000_0000_0000_0000), Xor(iv[5], t / 0x1_0000_0000_0000_0000),
           Xor(iv[6], if f then 0xffff_ffff_ffff_ffff else 0), iv[7])
  }

  // Rounds 10 and 11 reuse the schedule's first two rows.
  function SigmaRounds(sigma: Blake32.Sigma, v: Vector, m: Words16, n: nat): (r: Vector)
  {
    if n == 0 then v
    else SequentialRound(Mix, SigmaRounds(sigma, v, m, n - 1), Blake32.Picked(m, sigma[(n - 1) % 10]))
  }

  function Fold(h: Half, v: Vector): (r: Half)
  {
    [Xor(Xor(h[0], v.v0), v.v8), Xor(Xor(h[1], v.v1), v.v9), Xor(Xor(h[2], v.v2), v.v10), Xor(Xor(h[3], v.v3), v.v11),
     Xor(Xor(h[4], v.v4), v.v12), Xor(Xor(h[5], v.v5), v.v13), Xor(Xor(h[6], v.v6), v.v14), Xor(Xor(h[7], v.v7), v.v15)]
  }

  // F(h, m, t, f)
  function F(sigma: Blake32.Sigma, iv: Half, h: Half, m: Words16, t: nat, f: bool): (r: Half)
  {
    Fold(h, SigmaRounds(sigma, WorkingVector(h, iv, t, f), m, 12))
  }

  // ------------------------------------------------------------------------
  // Rows of pairs

  type PairRow = r: seq<Pair> | |r| == 4 witness [Pair(0, 0), Pair(0, 0), Pair(0, 0), Pair(0, 0)]
  type Pairs8 = r: seq<Pair> | |r| == 8
    witness [Pair(0, 0), Pair(0, 0), Pair(0, 0), Pair(0, 0), Pair(0, 0), Pair(0, 0), Pair(0, 0), Pair(0, 0)]
  type Pairs16 = r: seq<Pair> | |r| == 16
    witness [Pair(0, 0), Pair(0, 0), Pair(0, 0), Pair(0, 0), Pair(0, 0), Pair(0, 0), Pair(0, 0), Pair(0, 0),
             Pair(0, 0), Pair(0, 0), Pair(0, 0), Pair(0, 0), Pair(0, 0), Pair(0, 0), Pair(0, 0), Pair(0, 0)]

  datatype PairRows = PairRows(va: PairRow, vb: PairRow, vc: PairRow, vd: PairRow)

  // The 64-bit value of a pair, as a lane.
  function Lane(p: Pair): (w: nat) { Join(p) }

  function JoinRow(r: PairRow): (j: Row) { [Lane(r[0]), Lane(r[1]), Lane(r[2]), Lane(r[3])] }

  function JoinRows(r: PairRows): (j: Rows)
  {
    Rows(JoinRow(r.va), JoinRow(r.vb), JoinRow(r.vc), JoinRow(r.vd))
  }

  function JoinHalf(h: Pairs8): (j: Half)
  {
    [Lane(h[0]), Lane(h[1]), Lane(h[2]), Lane(h[3]), Lane(h[4]), Lane(h[5]), Lane(h[6]), Lane(h[7])]
  }

  function JoinWords(m: Pairs16): (j: Words16)
  {
    [Lane(m[0]), Lane(m[1]), Lane(m[2]), Lane(m[3]), Lane(m[4]), Lane(m[5]), Lane(m[6]), Lane(m[7]),
     Lane(m[8]), Lane(m[9]), Lane(m[10]), Lane(m[11]), Lane(m[12]), Lane(m[13]), Lane(m[14]), Lane(m[15])]
  }

  lemma AddLanes(a: Pair, b: Pair)
    ensures Lane(Add64(a, b)) == Add(Lane(a), Lane(b))
  {
    hide Join, Add64;
    AddJoins(a, b);
  }

  lemma XorLanes(a: Pair, b: Pair)
    ensures Lane(XorPair(a, b)) == Xor(Lane(a), Lane(b))
  {
    hide Bitwise;
    BitwiseJoins(XOR, a, b);
  }

  function XorRotr(a: Pair, b: Pair, n: nat): (r: Pair)
  {
    Rotr64(XorPair(a, b), n)
  }

  lemma XorRotrLanes(a: Pair, b: Pair, n: nat)
    requires n < 64
    ensures Lane(XorRotr(a, b, n)) == RotateRight(Xor(Lane(a), Lane(b)), n)
  {
    hide XorPair, Xor, Rotr64, RotateRight;
    XorLanes(a, b);
    RotrJoins(XorPair(a, b), n);
  }

  function AddRow(a: PairRow, b: PairRow): (r: PairRow)
  {
    [Add64(a[0], b[0]), Add64(a[1], b[1]), Add64(a[2], b[2]), Add64(a[3], b[3])]
  }

  function XorRow(a: PairRow, b: PairRow): (r: PairRow)
  {
    [XorPair(a[0], b[0]), XorPair(a[1], b[1]), XorPair(a[2], b[2]), XorPair(a[3], b[3])]
  }

  function XorRotrRow(a: PairRow, b: PairRow, n: nat): (r: PairRow)
  {
    [XorRotr(a[0], b[0], n), XorRotr(a[1], b[1], n), XorRotr(a[2], b[2], n), XorRotr(a[3], b[3], n)]
  }

  // `_g_row`
  function RowMix(r: PairRows, x: PairRow, y: PairRow): (s: PairRows)
  {
    var a1 := AddRow(AddRow(r.va, r.vb), x);
    var d1 := XorRotrRow(r.vd, a1, 32);
    var c1 := AddRow(r.vc, d1);
    var b1 := XorRotrRow(r.vb, c1, 24);
    var a2 := AddRow(AddRow(a1, b1), y);
    var d2 := XorRotrRow(d1, a2, 16);
    var c2 := AddRow(c1, d2);
    var b2 := XorRotrRow(b1, c2, 63);
    PairRows(a2, b2, c2, d2)
  }

  lemma AddRowAt(a: PairRow, b: PairRow, i: nat)
    requires i < 4
    ensures Lane(AddRow(a, b)[i]) == Add(Lane(a[i]), Lane(b[i]))
  {
    hide Lane, Add, Add64;
    AddLanes(a[i], b[i]);
  }

  lemma XorRotrRowAt(a: PairRow, b: PairRow, n: nat, i: nat)
    requires n < 64 && i < 4
    ensures Lane(XorRotrRow(a, b, n)[i]) == RotateRight(Xor(Lane(a[i]), Lane(b[i])), n)
  {
    hide Lane, Xor, XorRotr, RotateRight;
    XorRotrLanes(a[i], b[i], n);
  }

  lemma RowMixAt(r: PairRows, x: PairRow, y: PairRow, i: nat)
    requires i < 4
    ensures var s := RowMix(r, x, y);
            Quad(Lane(s.va[i]), Lane(s.vb[i]), Lane(s.vc[i]), Lane(s.vd[i]))
            == Mix(Lane(r.va[i]), Lane(r.vb[i]), Lane(r.vc[i]), Lane(r.vd[i]), Lane(x[i]), Lane(y[i]))
  {
    hide Lane, Add, AddRow, Xor, XorRotrRow, RotateRight;
    var a1 := AddRow(AddRow(r.va, r.vb), x);
    var d1 := XorRotrRow(r.vd, a1, 32);
    var c1 := AddRow(r.vc, d1);
    var b1 := XorRotrRow(r.vb, c1, 24);
    var a2 := AddRow(AddRow(a1, b1), y);
    var d2 := XorRotrRow(d1, a2, 16);
    var c2 := AddRow(c1, d2);
    AddRowAt(r.va, r.vb, i);
    AddRowAt(AddRow(r.va, r.vb), x, i);
    XorRotrRowAt(r.vd, a1, 32, i);
    AddRowAt(r.vc, d1, i);
    XorRotrRowAt(r.vb, c1, 24, i);
    AddRowAt(a1, b1, i);
    AddRowAt(AddRow(a1, b1), y, i);
    XorRotrRowAt(d1, a2, 16, i);
    AddRowAt(c1, d2, i);
    XorRotrRowAt(b1, c2, 63, i);
  }

  lemma RowMixes(r: PairRows, x: PairRow, y: PairRow)
    ensures MixesLanes(Mix, JoinRows(r), JoinRow(x), JoinRow(y), JoinRows(RowMix(r, x, y)))
  {
    hide Mix, RowMix, Lane;
    var s := RowMix(r, x, y);
    var j, out, jx, jy := JoinRows(r), JoinRows(s), JoinRow(x), JoinRow(y);
    forall i | 0 <= i < 4
      ensures Quad(out.r0[i], out.r1[i], out.r2[i], out.r3[i]) == Mix(j.r0[i], j.r1[i], j.r2[i], j.r3[i], jx[i], jy[i])
    {
      RowMixAt(r, x, y, i);
    }
  }

  // `_roll_row`
  function RollPairs(r: PairRow, shift: int): (s: PairRow)
  {
    var cut := (-shift) % 4;
    r[cut..] + r[..cut]
  }

  lemma RollJoins(r: PairRow, shift: int)
    ensures JoinRow(RollPairs(r, shift)) == Roll(JoinRow(r), shift)
  {
    hide Lane;
    var cut := (-shift) % 4;
    var rolled, joined := RollPairs(r, shift), Roll(JoinRow(r), shift);
    forall i | 0 <= i < 4
      ensures Lane(rolled[i]) == joined[i]
    {
      assert rolled[i] == if i < 4 - cut then r[cut + i] else r[i - (4 - cut)];
    }
  }

  // `_sched`: the (x, y) rows one vectorized G reads.
  function Picks(cols: Pairs16, order: Blake32.Order, from: nat): (r: PairRow)
    requires from <= 9
  {
    [cols[order[from]], cols[order[from + 2]], cols[order[from + 4]], cols[order[from + 6]]]
  }

  lemma PicksJoin(cols: Pairs16, order: Blake32.Order, from: nat)
    requires from <= 8
    ensures JoinRow(Picks(cols, order, from)) == Evens(Blake32.Picked(JoinWords(cols), order), from)
    ensures JoinRow(Picks(cols, order, from + 1)) == Odds(Blake32.Picked(JoinWords(cols), order), from)
  {
    hide Lane, JoinWords;
    PickJoins(cols, order, from);
    PickJoins(cols, order, from + 1);
    PickJoins(cols, order, from + 2);
    PickJoins(cols, order, from + 3);
    PickJoins(cols, order, from + 4);
    PickJoins(cols, order, from + 5);
    PickJoins(cols, order, from + 6);
    PickJoins(cols, order, from + 7);
  }

  lemma PickJoins(cols: Pairs16, order: Blake32.Order, i: nat)
    requires i < 16
    ensures Blake32.Picked(JoinWords(cols), order)[i] == Lane(cols[order[i]])
  {
    hide Lane;
  }

  // One round of `_compress`.
  function RolledRound(r: PairRows, cols: Pairs16, order: Blake32.Order): (s: PairRows)
  {
    var c := RowMix(r, Picks(cols, order, 0), Picks(cols, order, 1));
    var rolled := PairRows(c.va, RollPairs(c.vb, -1), RollPairs(c.vc, -2), RollPairs(c.vd, -3));
    var d := RowMix(rolled, Picks(cols, order, 8), Picks(cols, order, 9));
    PairRows(d.va, RollPairs(d.vb, 1), RollPairs(d.vc, 2), RollPairs(d.vd, 3))
  }

  // A rolled round of pairs is the eight calls on 64-bit words.
  lemma RolledRoundJoins(r: PairRows, cols: Pairs16, order: Blake32.Order)
    ensures Flat(JoinRows(RolledRound(r, cols, order)))
         == SequentialRound(Mix, Flat(JoinRows(r)), Blake32.Picked(JoinWords(cols), order))
  {
    hide RowMix, Columns, Diagonals, Flat, Mix, MixesLanes, JoinRow, RollPairs, Roll, Picks, Blake32.Picked, JoinWords,
         Evens, Odds;
    var m := Blake32.Picked(JoinWords(cols), order);
    PicksJoin(cols, order, 0);
    PicksJoin(cols, order, 8);
    var c := RowMix(r, Picks(cols, order, 0), Picks(cols, order, 1));
    RowMixes(r, Picks(cols, order, 0), Picks(cols, order, 1));
    ColumnsAtOnce(Mix, JoinRows(r), m, JoinRows(c));
    var rolled := PairRows(c.va, RollPairs(c.vb, -1), RollPairs(c.vc, -2), RollPairs(c.vd, -3));
    RollJoins(c.vb, -1);
    RollJoins(c.vc, -2);
    RollJoins(c.vd, -3);
    assert JoinRows(rolled) == Diagonalized(JoinRows(c));
    var d := RowMix(rolled, Picks(cols, order, 8), Picks(cols, order, 9));
    RowMixes(rolled, Picks(cols, order, 8), Picks(cols, order, 9));
    DiagonalsAtOnce(Mix, JoinRows(c), m, JoinRows(d));
    RollJoins(d.vb, 1);
    RollJoins(d.vc, 2);
    RollJoins(d.vd, 3);
  }

  // ------------------------------------------------------------------------
  // `_compress`

  // `_fold_counter` on both halves of the second IV row.
  function FoldCounter(row: PairRow, t: u64, f: bool): (r: PairRow)
  {
    var mask: u32 := if f then 0xffff_ffff else 0;
    [XorConstant(row[0], Split(t)), row[1], XorConstant(row[2], Pair(mask, mask)), row[3]]
  }

  lemma FoldCounterJoins(row: PairRow, t: u64, f: bool)
    ensures JoinRow(FoldCounter(row, t, f))
         == [Xor(Lane(row[0]), t), Lane(row[1]), Xor(Lane(row[2]), if f then 0xffff_ffff_ffff_ffff else 0),
             Lane(row[3])]
  {
    hide Lane, XorConstant, XorPair, Xor, Split;
    var mask: u32 := if f then 0xffff_ffff else 0;
    XorConstantIs(row[0], Split(t));
    XorConstantIs(row[2], Pair(mask, mask));
    ConstantLane(row[0], t);
    XorLanes(row[2], Pair(mask, mask));
    MaskLane(f);
  }

  lemma MaskLane(f: bool)
    ensures var mask: u32 := if f then 0xffff_ffff else 0;
            Lane(Pair(mask, mask)) == if f then 0xffff_ffff_ffff_ffff else 0
  {
  }

  lemma ConstantLane(p: Pair, t: u64)
    ensures Lane(XorPair(p, Split(t))) == Xor(Lane(p), t)
  {
    hide Join, Xor, Split, XorPair;
    SplitJoin(t, p);
    XorLanes(p, Split(t));
  }

  lemma XorNothing(w: u64)
    ensures Xor(w, 0) == w
  {
    hide Bitwise, Pow2;
    Pow2OfHalves();
    XorZero(64, w);
  }

  lemma NothingFolded(p: Pair)
    ensures Xor(Lane(p), 0) == Lane(p)
  {
    XorNothing(Join(p));
  }

  lemma FirstRows(state: Pairs8, iv: Pairs8, t: u64, f: bool)
    ensures Flat(JoinRows(PairRows(state[..4], state[4..], iv[..4], FoldCounter(iv[4..], t, f))))
         == WorkingVector(JoinHalf(state), JoinHalf(iv), t, f)
  {
    hide Lane, Xor, FoldCounter;
    FoldCounterJoins(iv[4..], t, f);
    NothingFolded(iv[5]);
  }

  // One block: twelve rolled rounds of pairs, for every offset below 2^64.
  method Compress(sigma: Blake32.Sigma, iv: Pairs8, state: Pairs8, cols: Pairs16, t: u64, f: bool) returns (out: Pairs8)
    ensures JoinHalf(out) == F(sigma, JoinHalf(iv), JoinHalf(state), JoinWords(cols), t, f)
  {
    hide RolledRound, SequentialRound, Blake32.Picked, Flat, JoinRows, JoinHalf, JoinWords, WorkingVector, FoldCounter,
         Fold;
    var rows := PairRows(state[..4], state[4..], iv[..4], FoldCounter(iv[4..], t, f));
    ghost var v0, m := WorkingVector(JoinHalf(state), JoinHalf(iv), t, f), JoinWords(cols);
    FirstRows(state, iv, t, f);
    for r := 0 to 12
      invariant Flat(JoinRows(rows)) == SigmaRounds(sigma, v0, m, r)
    {
      RolledRoundJoins(rows, cols, sigma[r % 10]);
      rows := RolledRound(rows, cols, sigma[r % 10]);
    }
    out := XorRow(XorRow(state[..4], rows.va), rows.vc) + XorRow(XorRow(state[4..], rows.vb), rows.vd);
    FoldJoins(state, rows);
  }

  lemma Xor3Lanes(a: Pair, b: Pair, c: Pair)
    ensures Lane(XorPair(XorPair(a, b), c)) == Xor(Xor(Lane(a), Lane(b)), Lane(c))
  {
    hide Lane, Xor, XorPair;
    XorLanes(a, b);
    XorLanes(XorPair(a, b), c);
  }

  lemma FoldJoins(h: Pairs8, r: PairRows)
    ensures JoinHalf(XorRow(XorRow(h[..4], r.va), r.vc) + XorRow(XorRow(h[4..], r.vb), r.vd))
         == Fold(JoinHalf(h), Flat(JoinRows(r)))
  {
    hide Lane, Xor, XorPair;
    forall i | 0 <= i < 4
      ensures Lane(XorPair(XorPair(h[i], r.va[i]), r.vc[i])) == Xor(Xor(Lane(h[i]), Lane(r.va[i])), Lane(r.vc[i]))
      ensures Lane(XorPair(XorPair(h[4 + i], r.vb[i]), r.vd[i]))
           == Xor(Xor(Lane(h[4 + i]), Lane(r.vb[i])), Lane(r.vd[i]))
    {
      Xor3Lanes(h[i], r.va[i], r.vc[i]);
      Xor3Lanes(h[4 + i], r.vb[i], r.vd[i]);
    }
  }

  // ------------------------------------------------------------------------
  // RFC 7693, section 3.3: the chain over a message

  // `cols`: message word i is the block's words 2i (low) and 2i + 1 (high).
  function Columns32(w: seq<u32>): (cols: Pairs16)
    requires |w| == 32
  {
    [Pair(w[0], w[1]), Pair(w[2], w[3]), Pair(w[4], w[5]), Pair(w[6], w[7]),
     Pair(w[8], w[9]), Pair(w[10], w[11]), Pair(w[12], w[13]), Pair(w[14], w[15]),
     Pair(w[16], w[17]), Pair(w[18], w[19]), Pair(w[20], w[21]), Pair(w[22], w[23]),
     Pair(w[24], w[25]), Pair(w[26], w[27]), Pair(w[28], w[29]), Pair(w[30], w[31])]
  }

  // Word j of a block of bytes is its own eight, the first the least significant.
  lemma ColumnsTell(data: seq<byte>, j: nat)
    requires |data| == 128 && j < 16
    ensures JoinWords(Columns32(PackLe(data)))[j] == LeValue(data[8 * j..8 * j + 8])
  {
    hide PackLe, LeValue, Join, Columns32;
    PairTells(data, j);
    ColumnAt(PackLe(data), j);
    JoinedAt(Columns32(PackLe(data)), j);
  }

  lemma ColumnAt(w: seq<u32>, j: nat)
    requires |w| == 32 && j < 16
    ensures Columns32(w)[j] == Pair(w[2 * j], w[2 * j + 1])
  {
  }

  lemma JoinedAt(m: Pairs16, j: nat)
    requires j < 16
    ensures JoinWords(m)[j] == Join(m[j])
  {
    hide Join;
  }

  predicate AllBlocks(blocks: seq<seq<u32>>)
  {
    forall i :: 0 <= i < |blocks| ==> |blocks[i]| == 32
  }

  // The state after i of the blocks: the offset counts the bytes behind it, the
  // last block's the message's length.
  function Chain(sigma: Blake32.Sigma, iv: Half, h0: Half, blocks: seq<seq<u32>>, length: nat, i: nat): (h: Half)
    requires i <= |blocks| && AllBlocks(blocks)
  {
    if i == 0 then h0
    else
      var last := i == |blocks|;
      F(sigma, iv, Chain(sigma, iv, h0, blocks, length, i - 1), JoinWords(Columns32(blocks[i - 1])),
        if last then length else 128 * i, last)
  }

  lemma {:induction false} BlockSizes(data: seq<byte>)
    ensures AllBlocks(Stream.Blocks(false, 128, data))
    decreases |data|
  {
    if |data| >= 128 {
      BlockSizes(data[128..]);
    }
  }

  const PAD: PadRule := PadRule(128, NO_TRAILER, 8, false)

  // The block loop of `blake2b_bytes`, for every message below 2^64 bytes.
  method Blake2bState(sigma: Blake32.Sigma, iv: Pairs8, h0: Pairs8, msg: seq<byte>) returns (h: Pairs8)
    requires |msg| < 0x1_0000_0000_0000_0000
    ensures var blocks := Stream.Blocks(false, 128, Padded(PAD, msg));
            && |blocks| == PAD.NBlocks(|msg|) >= 1 && AllBlocks(blocks)
            && JoinHalf(h) == Chain(sigma, JoinHalf(iv), JoinHalf(h0), blocks, |msg|, |blocks|)
  {
    hide F, Chain, HaifaCounter, Stream.Blocks, Padded, AllBlocks, JoinHalf, JoinWords, Columns32;
    var padded := Padded(PAD, msg);
    var words := Stream.Blocks(false, 128, padded);
    BlockSizes(padded);
    PadLenFits(PAD, |msg|);
    var nblocks := PAD.NBlocks(|msg|);
    Stream.BlocksSplit(false, 128, padded, nblocks);
    assert padded[..nblocks * 128] == padded;
    h := h0;
    ChainStarts(sigma, JoinHalf(iv), JoinHalf(h0), words, |msg|);
    for i := 0 to |words|
      invariant JoinHalf(h) == Chain(sigma, JoinHalf(iv), JoinHalf(h0), words, |msg|, i)
    {
      var counter := HaifaCounter(i, nblocks, |msg|, 128);
      OffsetBelow(|msg|, i);
      h := Compress(sigma, iv, h, Columns32(words[i]), counter.0, counter.1);
      ChainNext(sigma, JoinHalf(iv), JoinHalf(h0), words, |msg|, i);
    }
  }

  // No offset passes the message's length.
  lemma OffsetBelow(length: nat, i: nat)
    requires i < PAD.NBlocks(length)
    ensures HaifaCounter(i, PAD.NBlocks(length), length, 128).0 <= length
  {
    HaifaCountsBytes(PAD, length, i);
  }

  lemma ChainStarts(sigma: Blake32.Sigma, iv: Half, h0: Half, blocks: seq<seq<u32>>, length: nat)
    requires AllBlocks(blocks)
    ensures Chain(sigma, iv, h0, blocks, length, 0) == h0
  {
  }

  lemma ChainNext(sigma: Blake32.Sigma, iv: Half, h0: Half, blocks: seq<seq<u32>>, length: nat, i: nat)
    requires AllBlocks(blocks) && i < |blocks|
    ensures Chain(sigma, iv, h0, blocks, length, i + 1)
         == F(sigma, iv, Chain(sigma, iv, h0, blocks, length, i), JoinWords(Columns32(blocks[i])),
              HaifaCounter(i, |blocks|, length, 128).0, HaifaCounter(i, |blocks|, length, 128).1)
  {
    hide F;
  }
}

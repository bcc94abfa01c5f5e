// Keccak-f[1600] (`permutation.py`) on 5x5 grids of half pairs, against the step
// mappings of FIPS 202, section 3.2, on 64-bit lanes.
//
// A grid is indexed [y][x]. Rho's offsets and iota's constants are parameters.
module KeccakF {
  import opened Words
  import opened Word64

  type Row = r: seq<u64> | |r| == 5 witness [0, 0, 0, 0, 0]
  type Grid = g: seq<Row> | |g| == 5 witness [ZeroRow(), ZeroRow(), ZeroRow(), ZeroRow(), ZeroRow()]
  type Offsets = g: seq<seq<nat>> | |g| == 5 && forall y :: 0 <= y < 5 ==> |g[y]| == 5
    witness [[0, 0, 0, 0, 0], [0, 0, 0, 0, 0], [0, 0, 0, 0, 0], [0, 0, 0, 0, 0], [0, 0, 0, 0, 0]]

  function ZeroRow(): (r: Row) { [0, 0, 0, 0, 0] }

  function Lanes5(l0: u64, l1: u64, l2: u64, l3: u64, l4: u64): (r: Row) { [l0, l1, l2, l3, l4] }
  function Rows5(r0: Row, r1: Row, r2: Row, r3: Row, r4: Row): (g: Grid) { [r0, r1, r2, r3, r4] }

  // ------------------------------------------------------------------------
  // FIPS 202, section 3.2: one lane of each step mapping's result

  function C(a: Grid, x: nat): (c: u64)
    requires x < 5
  {
    XorWord(XorWord(XorWord(XorWord(a[0][x], a[1][x]), a[2][x]), a[3][x]), a[4][x])
  }

  function ThetaLane(a: Grid, x: nat, y: nat): (r: u64)
    requires x < 5 && y < 5
  {
    var d := XorWord(C(a, (x + 4) % 5), RotateLeft(C(a, (x + 1) % 5), 1));
    XorWord(a[y][x], d)
  }

  function RhoLane(a: Grid, offsets: Offsets, x: nat, y: nat): (r: u64)
    requires x < 5 && y < 5
  {
    RotateLeft(a[y][x], offsets[y][x] % 64)
  }

  function PiLane(a: Grid, x: nat, y: nat): (r: u64)
    requires x < 5 && y < 5
  {
    a[x][(x + 3 * y) % 5]
  }

  function ChiLane(a: Grid, x: nat, y: nat): (r: u64)
    requires x < 5 && y < 5
  {
    XorWord(a[y][x], AndWord(Not64(a[y][(x + 1) % 5]), a[y][(x + 2) % 5]))
  }

  function IotaLane(a: Grid, rc: u64, x: nat, y: nat): (r: u64)
    requires x < 5 && y < 5
  {
    if x == 0 && y == 0 then XorWord(a[0][0], rc) else a[y][x]
  }

  function ThetaRow(a: Grid, y: nat): (r: Row)
    requires y < 5
  {
    Lanes5(ThetaLane(a, 0, y), ThetaLane(a, 1, y), ThetaLane(a, 2, y), ThetaLane(a, 3, y), ThetaLane(a, 4, y))
  }

  function Theta(a: Grid): (r: Grid)
  {
    Rows5(ThetaRow(a, 0), ThetaRow(a, 1), ThetaRow(a, 2), ThetaRow(a, 3), ThetaRow(a, 4))
  }

  function RhoRow(a: Grid, o: Offsets, y: nat): (r: Row)
    requires y < 5
  {
    Lanes5(RhoLane(a, o, 0, y), RhoLane(a, o, 1, y), RhoLane(a, o, 2, y), RhoLane(a, o, 3, y), RhoLane(a, o, 4, y))
  }

  function Rho(a: Grid, o: Offsets): (r: Grid)
  {
    Rows5(RhoRow(a, o, 0), RhoRow(a, o, 1), RhoRow(a, o, 2), RhoRow(a, o, 3), RhoRow(a, o, 4))
  }

  function PiRow(a: Grid, y: nat): (r: Row)
    requires y < 5
  {
    Lanes5(PiLane(a, 0, y), PiLane(a, 1, y), PiLane(a, 2, y), PiLane(a, 3, y), PiLane(a, 4, y))
  }

  function Pi(a: Grid): (r: Grid)
  {
    Rows5(PiRow(a, 0), PiRow(a, 1), PiRow(a, 2), PiRow(a, 3), PiRow(a, 4))
  }

  function ChiRow(a: Grid, y: nat): (r: Row)
    requires y < 5
  {
    Lanes5(ChiLane(a, 0, y), ChiLane(a, 1, y), ChiLane(a, 2, y), ChiLane(a, 3, y), ChiLane(a, 4, y))
  }

  function Chi(a: Grid): (r: Grid)
  {
    Rows5(ChiRow(a, 0), ChiRow(a, 1), ChiRow(a, 2), ChiRow(a, 3), ChiRow(a, 4))
  }

  function IotaRow(a: Grid, rc: u64, y: nat): (r: Row)
    requires y < 5
  {
    Lanes5(IotaLane(a, rc, 0, y), IotaLane(a, rc, 1, y), IotaLane(a, rc, 2, y), IotaLane(a, rc, 3, y),
           IotaLane(a, rc, 4, y))
  }

  function Iota(a: Grid, rc: u64): (r: Grid)
  {
    Rows5(IotaRow(a, rc, 0), IotaRow(a, rc, 1), IotaRow(a, rc, 2), IotaRow(a, rc, 3), IotaRow(a, rc, 4))
  }

  function Rnd(a: Grid, o: Offsets, rc: u64): (r: Grid)
  {
    Iota(Chi(Pi(Rho(Theta(a), o))), rc)
  }

  function RoundsOf(a: Grid, o: Offsets, rcs: seq<u64>, n: nat): (r: Grid)
    requires n <= |rcs|
  {
    if n == 0 then a else Rnd(RoundsOf(a, o, rcs, n - 1), o, rcs[n - 1])
  }

  // ------------------------------------------------------------------------
  // The grids of pairs

  type PairRow = r: seq<Pair> | |r| == 5 witness [Pair(0, 0), Pair(0, 0), Pair(0, 0), Pair(0, 0), Pair(0, 0)]
  type PairGrid = g: seq<PairRow> | |g| == 5
    witness [ZeroPairs(), ZeroPairs(), ZeroPairs(), ZeroPairs(), ZeroPairs()]

  function ZeroPairs(): (r: PairRow) { [Pair(0, 0), Pair(0, 0), Pair(0, 0), Pair(0, 0), Pair(0, 0)] }

  function Pairs5(p0: Pair, p1: Pair, p2: Pair, p3: Pair, p4: Pair): (r: PairRow) { [p0, p1, p2, p3, p4] }
  function PairRows5(r0: PairRow, r1: PairRow, r2: PairRow, r3: PairRow, r4: PairRow): (g: PairGrid)
  {
    [r0, r1, r2, r3, r4]
  }


  // The grid's lanes, joined, are the standard's state.
  predicate Joins(g: PairGrid, a: Grid)
  {
    forall y, x :: 0 <= y < 5 && 0 <= x < 5 ==> Join(g[y][x]) == a[y][x]
  }

  function XorRow(a: PairRow, b: PairRow): (r: PairRow)
  {
    Pairs5(XorPair(a[0], b[0]), XorPair(a[1], b[1]), XorPair(a[2], b[2]), XorPair(a[3], b[3]), XorPair(a[4], b[4]))
  }

  function AndRow(a: PairRow, b: PairRow): (r: PairRow)
  {
    Pairs5(AndPair(a[0], b[0]), AndPair(a[1], b[1]), AndPair(a[2], b[2]), AndPair(a[3], b[3]), AndPair(a[4], b[4]))
  }

  function NotRow(a: PairRow): (r: PairRow)
  {
    Pairs5(NotPair(a[0]), NotPair(a[1]), NotPair(a[2]), NotPair(a[3]), NotPair(a[4]))
  }

  function RotlRow(a: PairRow, n: nat): (r: PairRow)
  {
    Pairs5(Rotl64(a[0], n), Rotl64(a[1], n), Rotl64(a[2], n), Rotl64(a[3], n), Rotl64(a[4], n))
  }

  // `word.roll` of a row of five
  function Roll(row: PairRow, shift: int): (r: PairRow)
  {
    var cut := (-shift) % 5;
    row[cut..] + row[..cut]
  }

  lemma RollAt(row: PairRow, shift: int, x: nat)
    requires x < 5
    ensures Roll(row, shift)[x] == row[(x - shift) % 5]
  {
    var cut := (-shift) % 5;
    assert (x - shift) % 5 == (x + cut) % 5 == if x + cut < 5 then x + cut else x + cut - 5;
    assert Roll(row, shift)[x] == if x < 5 - cut then row[cut + x] else row[x - (5 - cut)];
  }

  // ------------------------------------------------------------------------
  // `_theta`

  function ParityRows(g: PairGrid, n: nat): (c: PairRow)
    requires 1 <= n <= 5
  {
    if n == 1 then g[0] else XorRow(ParityRows(g, n - 1), g[n - 1])
  }

  method ThetaStep(g: PairGrid, ghost a: Grid) returns (r: PairGrid)
    requires Joins(g, a)
    ensures Joins(r, Theta(a))
  {
    hide XorRow, Joins, Theta, Roll, RotlRow;
    var c := g[0];
    for y := 1 to 5
      invariant c == ParityRows(g, y)
    {
      c := XorRow(c, g[y]);
    }
    var d := XorRow(Roll(c, 1), Roll(RotlRow(c, 1), -1));
    r := PairRows5(XorRow(g[0], d), XorRow(g[1], d), XorRow(g[2], d), XorRow(g[3], d), XorRow(g[4], d));
    ThetaJoins(g, a, d, r);
  }

  lemma ParityJoins(g: PairGrid, a: Grid, x: nat)
    requires Joins(g, a) && x < 5
    ensures Join(ParityRows(g, 5)[x]) == C(a, x)
  {
    hide Join, XorPair, XorWord;
    var c1, c2, c3 := XorPair(g[0][x], g[1][x]), XorPair(XorPair(g[0][x], g[1][x]), g[2][x]), ParityRows(g, 4)[x];
    ParityAt(g, x);
    XorJoins(g[0][x], g[1][x]);
    XorJoins(c1, g[2][x]);
    XorJoins(c2, g[3][x]);
    XorJoins(c3, g[4][x]);
  }

  lemma ParityAt(g: PairGrid, x: nat)
    requires x < 5
    ensures ParityRows(g, 4)[x] == XorPair(XorPair(XorPair(g[0][x], g[1][x]), g[2][x]), g[3][x])
    ensures ParityRows(g, 5)[x] == XorPair(ParityRows(g, 4)[x], g[4][x])
  {
    hide XorPair;
    assert ParityRows(g, 2) == XorRow(g[0], g[1]);
    assert ParityRows(g, 3) == XorRow(ParityRows(g, 2), g[2]);
    assert ParityRows(g, 4) == XorRow(ParityRows(g, 3), g[3]);
    assert ParityRows(g, 5) == XorRow(ParityRows(g, 4), g[4]);
  }

  lemma ThetaJoins(g: PairGrid, a: Grid, d: PairRow, r: PairGrid)
    requires Joins(g, a)
    requires d == XorRow(Roll(ParityRows(g, 5), 1), Roll(RotlRow(ParityRows(g, 5), 1), -1))
    requires r == PairRows5(XorRow(g[0], d), XorRow(g[1], d), XorRow(g[2], d), XorRow(g[3], d), XorRow(g[4], d))
    ensures Joins(r, Theta(a))
  {
    hide ParityRows, Roll, RotlRow, Theta, ThetaLane, XorRow, Join;
    forall y, x | 0 <= y < 5 && 0 <= x < 5
      ensures Join(r[y][x]) == Theta(a)[y][x]
    {
      ThetaAt(a, x, y);
      ThetaLaneJoins(g, a, d, x, y);
    }
  }

  lemma ThetaLaneJoins(g: PairGrid, a: Grid, d: PairRow, x: nat, y: nat)
    requires Joins(g, a) && x < 5 && y < 5
    requires d == XorRow(Roll(ParityRows(g, 5), 1), Roll(RotlRow(ParityRows(g, 5), 1), -1))
    ensures Join(XorRow(g[y], d)[x]) == ThetaLane(a, x, y)
  {
    hide ParityRows, Roll, RotlRow, XorPair, Join;
    DifferenceJoins(g, a, x);
    XorJoins(g[y][x], d[x]);
  }

  lemma ThetaAt(a: Grid, x: nat, y: nat)
    requires x < 5 && y < 5
    ensures Theta(a)[y][x] == ThetaLane(a, x, y)
  {
    hide ThetaLane;
  }

  lemma DifferenceJoins(g: PairGrid, a: Grid, x: nat)
    requires Joins(g, a) && x < 5
    ensures var c := ParityRows(g, 5);
            Join(XorRow(Roll(c, 1), Roll(RotlRow(c, 1), -1))[x])
            == XorWord(C(a, (x + 4) % 5), RotateLeft(C(a, (x + 1) % 5), 1))
  {
    hide ParityRows, Roll, C, XorWord, XorPair, Join, Rotl64, RotateLeft;
    var c := ParityRows(g, 5);
    var before, after := (x + 4) % 5, (x + 1) % 5;
    RollAt(c, 1, x);
    RollAt(RotlRow(c, 1), -1, x);
    assert (x - 1) % 5 == before && (x - -1) % 5 == after;
    ParityJoins(g, a, before);
    ParityJoins(g, a, after);
    RotlJoins(c[after], 1);
    XorJoins(c[before], Rotl64(c[after], 1));
  }

  // ------------------------------------------------------------------------
  // `_rho_pi`: rotate every lane by its own table entry, then move it

  type RhoTables = t: seq<seq<RhoEntry>> | |t| == 5 && forall y :: 0 <= y < 5 ==> |t[y]| == 5
    witness [FiveEntries(), FiveEntries(), FiveEntries(), FiveEntries(), FiveEntries()]

  function FiveEntries(): (r: seq<RhoEntry>)
    ensures |r| == 5
  {
    [RhoTable(0), RhoTable(0), RhoTable(0), RhoTable(0), RhoTable(0)]
  }

  // `rho_tables` over the grid
  predicate Tabulates(t: RhoTables, o: Offsets)
  {
    forall y, x :: 0 <= y < 5 && 0 <= x < 5 ==> t[y][x] == RhoTable(o[y][x])
  }

  function RotlEachRow(row: PairRow, t: seq<RhoEntry>): (r: PairRow)
    requires |t| == 5 && forall x :: 0 <= x < 5 ==> 0 < t[x].shift < 32 && t[x].counter == 32 - t[x].shift
  {
    Pairs5(RotlEach(row[0], t[0]), RotlEach(row[1], t[1]), RotlEach(row[2], t[2]), RotlEach(row[3], t[3]),
           RotlEach(row[4], t[4]))
  }

  method RhoStep(g: PairGrid, t: RhoTables, ghost o: Offsets, ghost a: Grid) returns (r: PairGrid)
    requires Joins(g, a) && Tabulates(t, o)
    ensures Joins(r, Rho(a, o))
  {
    hide RotlEach, Rho, RhoTable, RhoLane, Join;
    r := PairRows5(RotlEachRow(g[0], t[0]), RotlEachRow(g[1], t[1]), RotlEachRow(g[2], t[2]), RotlEachRow(g[3], t[3]),
                   RotlEachRow(g[4], t[4]));
    forall y, x | 0 <= y < 5 && 0 <= x < 5
      ensures Join(r[y][x]) == Rho(a, o)[y][x]
    {
      RhoAt(a, o, x, y);
      RhoLaneJoins(g, o, a, x, y);
    }
  }

  lemma RhoAt(a: Grid, o: Offsets, x: nat, y: nat)
    requires x < 5 && y < 5
    ensures Rho(a, o)[y][x] == RhoLane(a, o, x, y)
  {
    hide RhoLane;
  }

  lemma RhoLaneJoins(g: PairGrid, o: Offsets, a: Grid, x: nat, y: nat)
    requires Joins(g, a) && x < 5 && y < 5
    ensures Join(RotlEach(g[y][x], RhoTable(o[y][x]))) == RhoLane(a, o, x, y)
  {
    hide RotlEach, RhoTable, Rotl64, RotateLeft, Join;
    RotlEachIs(g[y][x], o[y][x]);
    RotlJoins(g[y][x], o[y][x]);
  }

  // `_pi`: each row rolled by its index, the grid transposed, its rows
  // reordered.
  function Sheared(g: PairGrid): (r: PairGrid)
  {
    PairRows5(Roll(g[0], 0), Roll(g[1], -1), Roll(g[2], -2), Roll(g[3], -3), Roll(g[4], -4))
  }

  function Column(g: PairGrid, x: nat): (r: PairRow)
    requires x < 5
  {
    Pairs5(g[0][x], g[1][x], g[2][x], g[3][x], g[4][x])
  }

  function PiMove(g: PairGrid): (r: PairGrid)
  {
    var s := Sheared(g);
    var columns := PairRows5(Column(s, 0), Column(s, 1), Column(s, 2), Column(s, 3), Column(s, 4));
    PairRows5(columns[0], columns[3], columns[6 % 5], columns[9 % 5], columns[12 % 5])
  }

  // The shear, the transpose and the reorder are the standard's movement.
  lemma PiMoveAt(g: PairGrid, x: nat, y: nat)
    requires x < 5 && y < 5
    ensures PiMove(g)[y][x] == g[x][(x + 3 * y) % 5]
  {
    hide Roll;
    RollAt(g[x], -(x as int), (3 * y) % 5);
    assert ((3 * y) % 5 - -(x as int)) % 5 == (x + 3 * y) % 5;
  }

  lemma PiMoveJoins(g: PairGrid, a: Grid)
    requires Joins(g, a)
    ensures Joins(PiMove(g), Pi(a))
  {
    hide PiMove, Join, Pi, PiLane;
    forall y, x | 0 <= y < 5 && 0 <= x < 5
      ensures Join(PiMove(g)[y][x]) == Pi(a)[y][x]
    {
      PiMoveAt(g, x, y);
      PiAt(a, x, y);
      PiLaneIs(a, x, y);
    }
  }

  lemma PiAt(a: Grid, x: nat, y: nat)
    requires x < 5 && y < 5
    ensures Pi(a)[y][x] == PiLane(a, x, y)
  {
    hide PiLane;
  }

  lemma PiLaneIs(a: Grid, x: nat, y: nat)
    requires x < 5 && y < 5
    ensures PiLane(a, x, y) == a[x][(x + 3 * y) % 5]
  {
  }

  // ------------------------------------------------------------------------
  // `_chi` and `_iota`

  function ChiStepRow(row: PairRow): (r: PairRow)
  {
    XorRow(row, AndRow(NotRow(Roll(row, -1)), Roll(row, -2)))
  }

  function ChiStep(g: PairGrid): (r: PairGrid)
  {
    PairRows5(ChiStepRow(g[0]), ChiStepRow(g[1]), ChiStepRow(g[2]), ChiStepRow(g[3]), ChiStepRow(g[4]))
  }

  lemma ChiStepJoins(g: PairGrid, a: Grid)
    requires Joins(g, a)
    ensures Joins(ChiStep(g), Chi(a))
  {
    hide ChiStepRow, Join, Chi, ChiLane;
    forall y, x | 0 <= y < 5 && 0 <= x < 5
      ensures Join(ChiStep(g)[y][x]) == Chi(a)[y][x]
    {
      ChiRowAt(g[y], x);
      ChiAt(a, x, y);
      ChiLaneJoins(g, a, x, y);
    }
  }

  lemma ChiAt(a: Grid, x: nat, y: nat)
    requires x < 5 && y < 5
    ensures Chi(a)[y][x] == ChiLane(a, x, y)
  {
    hide ChiLane;
  }

  lemma ChiRowAt(row: PairRow, x: nat)
    requires x < 5
    ensures ChiStepRow(row)[x] == XorPair(row[x], AndPair(NotPair(row[(x + 1) % 5]), row[(x + 2) % 5]))
  {
    hide Roll, XorPair, AndPair, NotPair;
    RollAt(row, -1, x);
    RollAt(row, -2, x);
    assert (x - -1) % 5 == (x + 1) % 5 && (x - -2) % 5 == (x + 2) % 5;
  }

  lemma ChiLaneJoins(g: PairGrid, a: Grid, x: nat, y: nat)
    requires Joins(g, a) && x < 5 && y < 5
    ensures Join(XorPair(g[y][x], AndPair(NotPair(g[y][(x + 1) % 5]), g[y][(x + 2) % 5]))) == ChiLane(a, x, y)
  {
    hide Join, XorPair, XorWord, AndPair, AndWord, NotPair, Not64;
    var p, q, s := g[y][x], g[y][(x + 1) % 5], g[y][(x + 2) % 5];
    NotJoins(q);
    AndJoins(NotPair(q), s);
    XorJoins(p, AndPair(NotPair(q), s));
  }

  // `_patch_lane_zero` on both halves.
  function IotaStep(g: PairGrid, rc: Pair): (r: PairGrid)
  {
    PairRows5(Pairs5(XorConstant(g[0][0], rc), g[0][1], g[0][2], g[0][3], g[0][4]), g[1], g[2], g[3], g[4])
  }

  lemma IotaStepJoins(g: PairGrid, a: Grid, rc: u64)
    requires Joins(g, a)
    ensures Joins(IotaStep(g, Split(rc)), Iota(a, rc))
  {
    hide XorConstant, XorPair, Join, Split, XorWord, Iota;
    XorConstantIs(g[0][0], Split(rc));
    XorJoins(g[0][0], Split(rc));
    SplitJoin(rc, g[0][0]);
    forall y, x | 0 <= y < 5 && 0 <= x < 5
      ensures Join(IotaStep(g, Split(rc))[y][x]) == Iota(a, rc)[y][x]
    {
      IotaAt(a, rc, x, y);
    }
  }

  lemma IotaAt(a: Grid, rc: u64, x: nat, y: nat)
    requires x < 5 && y < 5
    ensures Iota(a, rc)[y][x] == IotaLane(a, rc, x, y)
  {
    hide IotaLane;
  }

  // ------------------------------------------------------------------------
  // `_rounds`

  // Lane x + 5y of the state is its words 2(x + 5y) and 2(x + 5y) + 1.
  function UnpackRow(state: seq<u32>, y: nat): (r: PairRow)
    requires |state| == 50 && y < 5
  {
    var w := state[10 * y..10 * y + 10];
    Pairs5(Pair(w[0], w[1]), Pair(w[2], w[3]), Pair(w[4], w[5]), Pair(w[6], w[7]), Pair(w[8], w[9]))
  }

  function Unpack(state: seq<u32>): (g: PairGrid)
    requires |state| == 50
  {
    PairRows5(UnpackRow(state, 0), UnpackRow(state, 1), UnpackRow(state, 2), UnpackRow(state, 3), UnpackRow(state, 4))
  }

  function PackRow(r: PairRow): (w: seq<u32>)
    ensures |w| == 10
  {
    [r[0].lo, r[0].hi, r[1].lo, r[1].hi, r[2].lo, r[2].hi, r[3].lo, r[3].hi, r[4].lo, r[4].hi]
  }

  function Pack(g: PairGrid): (w: seq<u32>)
    ensures |w| == 50
  {
    PackRow(g[0]) + PackRow(g[1]) + PackRow(g[2]) + PackRow(g[3]) + PackRow(g[4])
  }

  // Lane (x, y) of a state of bytes is its own eight, at 8 (5y + x).
  lemma UnpackTells(data: seq<byte>, x: nat, y: nat)
    requires |data| == 200 && x < 5 && y < 5
    ensures 8 * (5 * y + x) + 8 <= |data|
    ensures Join(Unpack(PackLe(data))[y][x]) == LeValue(data[8 * (5 * y + x)..8 * (5 * y + x) + 8])
  {
    hide PackLe, LeValue;
    var w, j := PackLe(data), 5 * y + x;
    assert Unpack(w)[y] == UnpackRow(w, y);
    assert UnpackRow(w, y)[x] == Pair(w[2 * j], w[2 * j + 1]);
    PairTells(data, j);
  }

  lemma UnpackPack(g: PairGrid)
    ensures Unpack(Pack(g)) == g
  {
    hide Unpack, Pack;
    forall y | 0 <= y < 5
      ensures Unpack(Pack(g))[y] == g[y]
    {
      UnpackPackRow(g, y);
    }
  }

  lemma UnpackPackRow(g: PairGrid, y: nat)
    requires y < 5
    ensures Unpack(Pack(g))[y] == g[y]
  {
    hide Pack;
    PackedRow(g, y);
    assert Unpack(Pack(g))[y] == UnpackRow(Pack(g), y);
  }

  lemma PackedRow(g: PairGrid, y: nat)
    requires y < 5
    ensures Pack(g)[10 * y..10 * y + 10] == PackRow(g[y])
  {
    hide PackRow;
  }

  function JoinRow(r: PairRow): (j: Row)
  {
    Lanes5(Join(r[0]), Join(r[1]), Join(r[2]), Join(r[3]), Join(r[4]))
  }

  function JoinGrid(g: PairGrid): (j: Grid)
  {
    Rows5(JoinRow(g[0]), JoinRow(g[1]), JoinRow(g[2]), JoinRow(g[3]), JoinRow(g[4]))
  }

  lemma JoinGridJoins(g: PairGrid, a: Grid)
    ensures Joins(g, a) <==> a == JoinGrid(g)
  {
    hide Join;
    if Joins(g, a) {
      forall y | 0 <= y < 5
        ensures a[y] == JoinGrid(g)[y]
      {
        assert a[y] == JoinRow(g[y]);
      }
    }
  }

  // Split round constants, as the host table holds them.
  function SplitAll(rcs: seq<u64>): (s: seq<Pair>)
    ensures |s| == |rcs|
  {
    seq(|rcs|, i requires 0 <= i < |rcs| => Split(rcs[i]))
  }

  function RhoTablesRow(o: seq<nat>): (t: seq<RhoEntry>)
    requires |o| == 5
    ensures |t| == 5
  {
    [RhoTable(o[0]), RhoTable(o[1]), RhoTable(o[2]), RhoTable(o[3]), RhoTable(o[4])]
  }

  function TablesOf(o: Offsets): (t: RhoTables)
  {
    [RhoTablesRow(o[0]), RhoTablesRow(o[1]), RhoTablesRow(o[2]), RhoTablesRow(o[3]), RhoTablesRow(o[4])]
  }

  lemma TablesTabulate(o: Offsets)
    ensures Tabulates(TablesOf(o), o)
  {
    hide RhoTable;
  }

  // Every round, for every state, is the standard's round on 25 lanes.
  method Rounds(state: seq<u32>, offsets: Offsets, ghost rcs: seq<u64>, constants: seq<Pair>) returns (out: seq<u32>)
    requires |state| == 50 && |rcs| == 24 && constants == SplitAll(rcs)
    ensures |out| == 50
    ensures JoinGrid(Unpack(out)) == RoundsOf(JoinGrid(Unpack(state)), offsets, rcs, 24)
  {
    hide Joins, JoinGrid, Unpack, Pack, PiMove, ChiStep, IotaStep, Theta, Rho, Pi, Chi, Iota, TablesOf, Tabulates,
         Split;
    var tables := TablesOf(offsets);
    TablesTabulate(offsets);
    var a := Unpack(state);
    ghost var lanes := JoinGrid(a);
    JoinGridJoins(a, lanes);
    for rnd := 0 to 24
      invariant Joins(a, RoundsOf(lanes, offsets, rcs, rnd))
    {
      ghost var before := RoundsOf(lanes, offsets, rcs, rnd);
      a := ThetaStep(a, before);
      a := RhoStep(a, tables, offsets, Theta(before));
      PiMoveJoins(a, Rho(Theta(before), offsets));
      a := PiMove(a);
      ChiStepJoins(a, Pi(Rho(Theta(before), offsets)));
      a := ChiStep(a);
      IotaStepJoins(a, Chi(Pi(Rho(Theta(before), offsets))), rcs[rnd]);
      a := IotaStep(a, constants[rnd]);
    }
    JoinGridJoins(a, RoundsOf(lanes, offsets, rcs, 24));
    out := Pack(a);
    UnpackPack(a);
  }
}

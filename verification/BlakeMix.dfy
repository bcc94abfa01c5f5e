// The mixing rounds of BLAKE2 and BLAKE3: a 4x4 grid whose rows are rolled into
// columns (`blake3/compress.py`, `blake2s.py`, `blake2b.py`), against eight G
// calls in sequence (RFC 7693, section 3.2; the BLAKE3 paper, section 2.2).
//
// A lane is a number and G any function of four lanes and two message words.
module BlakeMix {

  datatype Quad = Quad(a: nat, b: nat, c: nat, d: nat)

  type G = (nat, nat, nat, nat, nat, nat) -> Quad

  // The working vector, as the standards number it.
  datatype Vector = Vector(
    v0: nat, v1: nat, v2: nat, v3: nat, v4: nat, v5: nat, v6: nat, v7: nat,
    v8: nat, v9: nat, v10: nat, v11: nat, v12: nat, v13: nat, v14: nat, v15: nat)

  type Words16 = m: seq<nat> | |m| == 16 witness [0, 0, 0, 0, 0, 0, 0, 0, 0, 0, 0, 0, 0, 0, 0, 0]

  // ------------------------------------------------------------------------
  // Eight calls in sequence

  function Column0(g: G, v: Vector, x: nat, y: nat): (r: Vector)
  {
    var q := g(v.v0, v.v4, v.v8, v.v12, x, y);
    v.(v0 := q.a, v4 := q.b, v8 := q.c, v12 := q.d)
  }

  function Column1(g: G, v: Vector, x: nat, y: nat): (r: Vector)
  {
    var q := g(v.v1, v.v5, v.v9, v.v13, x, y);
    v.(v1 := q.a, v5 := q.b, v9 := q.c, v13 := q.d)
  }

  function Column2(g: G, v: Vector, x: nat, y: nat): (r: Vector)
  {
    var q := g(v.v2, v.v6, v.v10, v.v14, x, y);
    v.(v2 := q.a, v6 := q.b, v10 := q.c, v14 := q.d)
  }

  function Column3(g: G, v: Vector, x: nat, y: nat): (r: Vector)
  {
    var q := g(v.v3, v.v7, v.v11, v.v15, x, y);
    v.(v3 := q.a, v7 := q.b, v11 := q.c, v15 := q.d)
  }

  function Diagonal0(g: G, v: Vector, x: nat, y: nat): (r: Vector)
  {
    var q := g(v.v0, v.v5, v.v10, v.v15, x, y);
    v.(v0 := q.a, v5 := q.b, v10 := q.c, v15 := q.d)
  }

  function Diagonal1(g: G, v: Vector, x: nat, y: nat): (r: Vector)
  {
    var q := g(v.v1, v.v6, v.v11, v.v12, x, y);
    v.(v1 := q.a, v6 := q.b, v11 := q.c, v12 := q.d)
  }

  function Diagonal2(g: G, v: Vector, x: nat, y: nat): (r: Vector)
  {
    var q := g(v.v2, v.v7, v.v8, v.v13, x, y);
    v.(v2 := q.a, v7 := q.b, v8 := q.c, v13 := q.d)
  }

  function Diagonal3(g: G, v: Vector, x: nat, y: nat): (r: Vector)
  {
    var q := g(v.v3, v.v4, v.v9, v.v14, x, y);
    v.(v3 := q.a, v4 := q.b, v9 := q.c, v14 := q.d)
  }

  function Columns(g: G, v: Vector, m: Words16): (r: Vector)
  {
    Column3(g, Column2(g, Column1(g, Column0(g, v, m[0], m[1]), m[2], m[3]), m[4], m[5]), m[6], m[7])
  }

  function Diagonals(g: G, v: Vector, m: Words16): (r: Vector)
  {
    Diagonal3(g, Diagonal2(g, Diagonal1(g, Diagonal0(g, v, m[8], m[9]), m[10], m[11]), m[12], m[13]), m[14], m[15])
  }

  // One round over the message words in the order the round reads them.
  function SequentialRound(g: G, v: Vector, m: Words16): (r: Vector)
  {
    Diagonals(g, Columns(g, v, m), m)
  }

  // ------------------------------------------------------------------------
  // Four rows

  type Row = r: seq<nat> | |r| == 4 witness [0, 0, 0, 0]

  datatype Rows = Rows(r0: Row, r1: Row, r2: Row, r3: Row)

  function Flat(r: Rows): (v: Vector)
  {
    Vector(r.r0[0], r.r0[1], r.r0[2], r.r0[3], r.r1[0], r.r1[1], r.r1[2], r.r1[3],
           r.r2[0], r.r2[1], r.r2[2], r.r2[3], r.r3[0], r.r3[1], r.r3[2], r.r3[3])
  }

  // `word.roll` of a row of four
  function Roll(row: Row, shift: int): (r: Row)
  {
    var cut := (-shift) % 4;
    row[cut..] + row[..cut]
  }

  lemma Rolled(w: Row)
    ensures Roll(w, -1) == [w[1], w[2], w[3], w[0]] && Roll(w, 1) == [w[3], w[0], w[1], w[2]]
    ensures Roll(w, -2) == [w[2], w[3], w[0], w[1]] && Roll(w, 2) == [w[2], w[3], w[0], w[1]]
    ensures Roll(w, -3) == [w[3], w[0], w[1], w[2]] && Roll(w, 3) == [w[1], w[2], w[3], w[0]]
  {
  }

  // A vectorized G: lane i of its four results is G of lane i of its operands.
  ghost predicate MixesLanes(g: G, r: Rows, x: Row, y: Row, out: Rows)
  {
    forall i :: 0 <= i < 4 ==>
      Quad(out.r0[i], out.r1[i], out.r2[i], out.r3[i]) == g(r.r0[i], r.r1[i], r.r2[i], r.r3[i], x[i], y[i])
  }

  function Diagonalized(r: Rows): (s: Rows)
  {
    Rows(r.r0, Roll(r.r1, -1), Roll(r.r2, -2), Roll(r.r3, -3))
  }

  function Undiagonalized(r: Rows): (s: Rows)
  {
    Rows(r.r0, Roll(r.r1, 1), Roll(r.r2, 2), Roll(r.r3, 3))
  }

  // The even- and odd-numbered words of a half schedule.
  function Evens(m: Words16, from: nat): (r: Row)
    requires from <= 8
  {
    [m[from], m[from + 2], m[from + 4], m[from + 6]]
  }

  function Odds(m: Words16, from: nat): (r: Row)
    requires from <= 8
  {
    [m[from + 1], m[from + 3], m[from + 5], m[from + 7]]
  }

  // One vectorized G down the columns is the four column calls.
  lemma ColumnsAtOnce(g: G, r: Rows, m: Words16, out: Rows)
    requires MixesLanes(g, r, Evens(m, 0), Odds(m, 0), out)
    ensures Flat(out) == Columns(g, Flat(r), m)
  {
    var x, y := Evens(m, 0), Odds(m, 0);
    assert Quad(out.r0[0], out.r1[0], out.r2[0], out.r3[0]) == g(r.r0[0], r.r1[0], r.r2[0], r.r3[0], x[0], y[0]);
    assert Quad(out.r0[1], out.r1[1], out.r2[1], out.r3[1]) == g(r.r0[1], r.r1[1], r.r2[1], r.r3[1], x[1], y[1]);
    assert Quad(out.r0[2], out.r1[2], out.r2[2], out.r3[2]) == g(r.r0[2], r.r1[2], r.r2[2], r.r3[2], x[2], y[2]);
    assert Quad(out.r0[3], out.r1[3], out.r2[3], out.r3[3]) == g(r.r0[3], r.r1[3], r.r2[3], r.r3[3], x[3], y[3]);
  }

  // Rolled into columns and rolled back, one more is the four diagonal calls.
  lemma DiagonalsAtOnce(g: G, r: Rows, m: Words16, out: Rows)
    requires MixesLanes(g, Diagonalized(r), Evens(m, 8), Odds(m, 8), out)
    ensures Flat(Undiagonalized(out)) == Diagonals(g, Flat(r), m)
  {
    hide Roll;
    var s, x, y := Diagonalized(r), Evens(m, 8), Odds(m, 8);
    Rolled(r.r1);
    Rolled(r.r2);
    Rolled(r.r3);
    Rolled(out.r1);
    Rolled(out.r2);
    Rolled(out.r3);
    assert Quad(out.r0[0], out.r1[0], out.r2[0], out.r3[0]) == g(s.r0[0], s.r1[0], s.r2[0], s.r3[0], x[0], y[0]);
    assert Quad(out.r0[1], out.r1[1], out.r2[1], out.r3[1]) == g(s.r0[1], s.r1[1], s.r2[1], s.r3[1], x[1], y[1]);
    assert Quad(out.r0[2], out.r1[2], out.r2[2], out.r3[2]) == g(s.r0[2], s.r1[2], s.r2[2], s.r3[2], x[2], y[2]);
    assert Quad(out.r0[3], out.r1[3], out.r2[3], out.r3[3]) == g(s.r0[3], s.r1[3], s.r2[3], s.r3[3], x[3], y[3]);
  }
}

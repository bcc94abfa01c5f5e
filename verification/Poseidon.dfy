// The optimized-sparse Poseidon schedule (`poseidon/sparse.py`,
// `poseidon/linear.py`, `linear.py`) against the naive one it factors: a dense
// MDS every round, full-width constants, the S-box on lane 0 in partial rounds.
//
// The field is any commutative semiring and the S-box any function on it.
module Poseidon {

  type F(==, !new)

  type Vec = seq<F>
  type Mat = seq<seq<F>>

  datatype Ring = Ring(add: (F, F) -> F, mul: (F, F) -> F, zero: F, one: F)

  // The laws of a commutative semiring, the few the schedules lean on.
  ghost predicate Lawful(r: Ring)
  {
    forall a, b, c :: Laws(r, a, b, c)
  }

  // One instance of them.
  predicate Laws(r: Ring, a: F, b: F, c: F)
  {
    && r.add(a, b) == r.add(b, a)
    && r.add(r.add(a, b), c) == r.add(a, r.add(b, c))
    && r.mul(r.mul(a, b), c) == r.mul(a, r.mul(b, c))
    && r.mul(a, r.add(b, c)) == r.add(r.mul(a, b), r.mul(a, c))
    && r.mul(r.add(a, b), c) == r.add(r.mul(a, c), r.mul(b, c))
    && r.add(a, r.zero) == a && r.add(r.zero, a) == a
    && r.mul(a, b) == r.mul(b, a)
    && r.mul(r.one, a) == a && r.mul(r.zero, a) == r.zero
  }

  lemma Exchange(r: Ring, a: F, b: F, c: F, d: F)
    requires Lawful(r)
    ensures r.add(r.add(a, b), r.add(c, d)) == r.add(r.add(a, c), r.add(b, d))
  {
    assert Laws(r, a, b, r.add(c, d));
    assert Laws(r, b, c, d);
    assert Laws(r, c, b, d);
    assert Laws(r, a, c, r.add(b, d));
  }

  lemma Commute(r: Ring, a: F, b: F)
    requires Lawful(r)
    ensures r.add(a, b) == r.add(b, a)
  {
    assert Laws(r, a, b, a);
  }

  lemma MulCommute(r: Ring, a: F, b: F)
    requires Lawful(r)
    ensures r.mul(a, b) == r.mul(b, a)
  {
    assert Laws(r, a, b, a);
  }

  lemma Assoc(r: Ring, a: F, b: F, c: F)
    requires Lawful(r)
    ensures r.add(r.add(a, b), c) == r.add(a, r.add(b, c))
  {
    assert Laws(r, a, b, c);
  }

  lemma MulAssoc(r: Ring, a: F, b: F, c: F)
    requires Lawful(r)
    ensures r.mul(r.mul(a, b), c) == r.mul(a, r.mul(b, c))
  {
    assert Laws(r, a, b, c);
  }

  lemma Distribute(r: Ring, a: F, b: F, c: F)
    requires Lawful(r)
    ensures r.mul(a, r.add(b, c)) == r.add(r.mul(a, b), r.mul(a, c))
    ensures r.mul(r.add(a, b), c) == r.add(r.mul(a, c), r.mul(b, c))
  {
    assert Laws(r, a, b, c);
  }

  lemma Units(r: Ring, a: F)
    requires Lawful(r)
    ensures r.add(a, r.zero) == a && r.add(r.zero, a) == a
    ensures r.mul(r.one, a) == a && r.mul(r.zero, a) == r.zero
  {
    assert Laws(r, a, a, a);
  }

  // ------------------------------------------------------------------------
  // Linear layers

  // `unrolled_sum` of the products: a left fold.
  function Dot(r: Ring, a: Vec, v: Vec): (s: F)
    requires |a| == |v| > 0
  {
    var n := |a| - 1;
    if n == 0 then r.mul(a[0], v[0]) else r.add(Dot(r, a[..n], v[..n]), r.mul(a[n], v[n]))
  }

  function VAdd(r: Ring, u: Vec, v: Vec): (w: Vec)
    requires |u| == |v|
    ensures |w| == |u|
  {
    seq(|u|, i requires 0 <= i < |u| => r.add(u[i], v[i]))
  }

  function Scale(r: Ring, c: F, v: Vec): (w: Vec)
    ensures |w| == |v|
  {
    seq(|v|, i requires 0 <= i < |v| => r.mul(c, v[i]))
  }

  predicate Square(m: Mat, w: nat)
  {
    w > 0 && |m| == w && forall i :: 0 <= i < w ==> |m[i]| == w
  }

  // `apply_matrix`
  function Apply(r: Ring, m: Mat, v: Vec): (out: Vec)
    requires |v| > 0 && Square(m, |v|)
    ensures |out| == |v|
  {
    seq(|v|, i requires 0 <= i < |v| => Dot(r, m[i], v))
  }

  lemma {:induction false} DotAdds(r: Ring, a: Vec, u: Vec, v: Vec)
    requires Lawful(r) && |a| == |u| == |v| > 0
    ensures Dot(r, a, VAdd(r, u, v)) == r.add(Dot(r, a, u), Dot(r, a, v))
  {
    hide Lawful;
    var n := |a| - 1;
    var w := VAdd(r, u, v);
    Distribute(r, a[n], u[n], v[n]);
    if n > 0 {
      assert w[..n] == VAdd(r, u[..n], v[..n]);
      DotAdds(r, a[..n], u[..n], v[..n]);
      Exchange(r, Dot(r, a[..n], u[..n]), Dot(r, a[..n], v[..n]), r.mul(a[n], u[n]), r.mul(a[n], v[n]));
    }
  }

  lemma {:induction false} DotAddsLeft(r: Ring, a: Vec, b: Vec, v: Vec)
    requires Lawful(r) && |a| == |b| == |v| > 0
    ensures Dot(r, VAdd(r, a, b), v) == r.add(Dot(r, a, v), Dot(r, b, v))
  {
    hide Lawful;
    var n := |a| - 1;
    var w := VAdd(r, a, b);
    Distribute(r, a[n], b[n], v[n]);
    if n > 0 {
      assert w[..n] == VAdd(r, a[..n], b[..n]);
      DotAddsLeft(r, a[..n], b[..n], v[..n]);
      Exchange(r, Dot(r, a[..n], v[..n]), Dot(r, b[..n], v[..n]), r.mul(a[n], v[n]), r.mul(b[n], v[n]));
    }
  }

  lemma {:induction false} DotScales(r: Ring, c: F, a: Vec, v: Vec)
    requires Lawful(r) && |a| == |v| > 0
    ensures Dot(r, Scale(r, c, a), v) == r.mul(c, Dot(r, a, v))
  {
    hide Lawful;
    var n := |a| - 1;
    var w := Scale(r, c, a);
    MulAssoc(r, c, a[n], v[n]);
    if n > 0 {
      assert w[..n] == Scale(r, c, a[..n]);
      DotScales(r, c, a[..n], v[..n]);
      Distribute(r, c, Dot(r, a[..n], v[..n]), r.mul(a[n], v[n]));
    }
  }

  // A linear layer distributes over the constants it follows.
  lemma ApplyAdds(r: Ring, m: Mat, u: Vec, v: Vec)
    requires Lawful(r) && |u| == |v| > 0 && Square(m, |u|)
    ensures Apply(r, m, VAdd(r, u, v)) == VAdd(r, Apply(r, m, u), Apply(r, m, v))
  {
    hide Lawful, Dot;
    var left, right := Apply(r, m, VAdd(r, u, v)), VAdd(r, Apply(r, m, u), Apply(r, m, v));
    forall i | 0 <= i < |u|
      ensures left[i] == right[i]
    {
      DotAdds(r, m[i], u, v);
    }
  }

  // A row vector times a matrix: its rows, scaled and summed.
  function RowTimes(r: Ring, a: Vec, b: Mat, w: nat): (c: Vec)
    requires |a| == |b| > 0 && forall i :: 0 <= i < |b| ==> |b[i]| == w
    ensures |c| == w
  {
    var n := |a| - 1;
    if n == 0 then Scale(r, a[0], b[0]) else VAdd(r, RowTimes(r, a[..n], b[..n], w), Scale(r, a[n], b[n]))
  }

  function MatMul(r: Ring, a: Mat, b: Mat, w: nat): (c: Mat)
    requires Square(a, w) && Square(b, w)
    ensures Square(c, w)
  {
    seq(w, i requires 0 <= i < w => RowTimes(r, a[i], b, w))
  }

  // The dots of a block of rows.
  function Dots(r: Ring, b: Mat, v: Vec): (out: Vec)
    requires |v| > 0 && forall i :: 0 <= i < |b| ==> |b[i]| == |v|
    ensures |out| == |b|
  {
    seq(|b|, i requires 0 <= i < |b| => Dot(r, b[i], v))
  }

  lemma {:induction false} RowTimesDots(r: Ring, a: Vec, b: Mat, v: Vec)
    requires Lawful(r) && |a| == |b| > 0 && |v| > 0 && forall i :: 0 <= i < |b| ==> |b[i]| == |v|
    ensures Dot(r, RowTimes(r, a, b, |v|), v) == Dot(r, a, Dots(r, b, v))
  {
    hide Lawful;
    var n := |a| - 1;
    DotScales(r, a[n], b[n], v);
    if n > 0 {
      RowTimesDots(r, a[..n], b[..n], v);
      DotAddsLeft(r, RowTimes(r, a[..n], b[..n], |v|), Scale(r, a[n], b[n]), v);
      assert Dots(r, b, v)[..n] == Dots(r, b[..n], v);
    }
  }

  // Applying a product is applying its factors in turn.
  lemma ApplyProduct(r: Ring, a: Mat, b: Mat, v: Vec)
    requires Lawful(r) && |v| > 0 && Square(a, |v|) && Square(b, |v|)
    ensures Apply(r, MatMul(r, a, b, |v|), v) == Apply(r, a, Apply(r, b, v))
  {
    hide Lawful, Dot, RowTimes;
    var left, right := Apply(r, MatMul(r, a, b, |v|), v), Apply(r, a, Apply(r, b, v));
    assert Dots(r, b, v) == Apply(r, b, v);
    forall i | 0 <= i < |v|
      ensures left[i] == right[i]
    {
      RowTimesDots(r, a[i], b, v);
    }
  }

  // ------------------------------------------------------------------------
  // The sparse layer and the block-diagonal changes of basis

  // `apply_sparse_partial`: lane 0 takes the whole dot, each other lane its
  // column entry's share of the active value.
  function ApplySparse(r: Ring, dotRow: Vec, col: Vec, active: F, tail: Vec): (out: Vec)
    requires |dotRow| == |col| + 1 && |tail| == |col|
    ensures |out| == |dotRow|
  {
    [Dot(r, dotRow, [active] + tail)] + seq(|tail|, t requires 0 <= t < |tail| => r.add(tail[t], r.mul(col[t], active)))
  }

  // The unit row with its one at lane t.
  function UnitRow(r: Ring, w: nat, t: nat): (e: Vec)
    ensures |e| == w
    ensures forall j :: 0 <= j < w ==> e[j] == if j == t then r.one else r.zero
  {
    seq(w, j requires 0 <= j < w => if j == t then r.one else r.zero)
  }

  // The matrix that layer is.
  function SparseMatrix(r: Ring, dotRow: Vec, col: Vec): (m: Mat)
    requires |dotRow| == |col| + 1
    ensures |m| == |dotRow| && m[0] == dotRow
    ensures forall t :: 0 < t < |m| ==> m[t] == [col[t - 1]] + UnitRow(r, |col|, t - 1)
  {
    [dotRow] + seq(|col|, t requires 0 <= t < |col| => [col[t]] + UnitRow(r, |col|, t))
  }

  lemma {:induction false} DotHead(r: Ring, x: F, xs: Vec, y: F, ys: Vec)
    requires Lawful(r) && |xs| == |ys| > 0
    ensures Dot(r, [x] + xs, [y] + ys) == r.add(r.mul(x, y), Dot(r, xs, ys))
  {
    hide Lawful;
    var n := |xs| - 1;
    var a, v := [x] + xs, [y] + ys;
    assert a[..n + 1] == [x] + xs[..n] && v[..n + 1] == [y] + ys[..n];
    if n > 0 {
      DotHead(r, x, xs[..n], y, ys[..n]);
      Assoc(r, r.mul(x, y), Dot(r, xs[..n], ys[..n]), r.mul(xs[n], ys[n]));
    }
  }

  lemma {:induction false} DotZero(r: Ring, e: Vec, v: Vec)
    requires Lawful(r) && |e| == |v| > 0 && forall j :: 0 <= j < |e| ==> e[j] == r.zero
    ensures Dot(r, e, v) == r.zero
  {
    hide Lawful;
    var n := |e| - 1;
    Units(r, v[n]);
    Units(r, r.zero);
    if n > 0 {
      DotZero(r, e[..n], v[..n]);
    }
  }

  lemma {:induction false} DotUnit(r: Ring, w: nat, t: nat, v: Vec)
    requires Lawful(r) && |v| == w && t < w
    ensures Dot(r, UnitRow(r, w, t), v) == v[t]
  {
    hide Lawful;
    var n := w - 1;
    var e := UnitRow(r, w, t);
    Units(r, v[n]);
    Units(r, v[t]);
    if n > 0 {
      assert e[..n] == UnitRow(r, n, t);
      if t < n {
        DotUnit(r, n, t, v[..n]);
      } else {
        DotZero(r, e[..n], v[..n]);
      }
    }
  }

  // The normal form is the matrix's product, at every width from two.
  lemma SparseIsMatrix(r: Ring, dotRow: Vec, col: Vec, active: F, tail: Vec)
    requires Lawful(r) && |col| == |tail| > 0 && |dotRow| == |col| + 1
    ensures Square(SparseMatrix(r, dotRow, col), |dotRow|)
    ensures Apply(r, SparseMatrix(r, dotRow, col), [active] + tail) == ApplySparse(r, dotRow, col, active, tail)
  {
    hide Lawful, Dot, UnitRow;
    var m, v := SparseMatrix(r, dotRow, col), [active] + tail;
    var left, right := Apply(r, m, v), ApplySparse(r, dotRow, col, active, tail);
    forall t | 0 <= t < |v|
      ensures left[t] == right[t]
    {
      if t > 0 {
        DotHead(r, col[t - 1], UnitRow(r, |col|, t - 1), active, tail);
        DotUnit(r, |col|, t - 1, tail);
        Commute(r, r.mul(col[t - 1], active), tail[t - 1]);
      }
    }
  }

  // diag(1, *): lane 0 is kept, and reaches no other lane.
  predicate BlockDiagonal(r: Ring, n: Mat, w: nat)
  {
    Square(n, w) && n[0] == UnitRow(r, w, 0) && forall t :: 0 < t < w ==> n[t][0] == r.zero
  }

  lemma DotIgnoresHead(r: Ring, a: Vec, v: Vec, x: F)
    requires Lawful(r) && |a| == |v| >= 2 && a[0] == r.zero
    ensures Dot(r, a, v[0 := x]) == Dot(r, a, v)
  {
    hide Lawful, Dot;
    DotHead(r, r.zero, a[1..], v[0], v[1..]);
    DotHead(r, r.zero, a[1..], x, v[1..]);
    Units(r, v[0]);
    Units(r, x);
    assert [r.zero] + a[1..] == a && [v[0]] + v[1..] == v && [x] + v[1..] == v[0 := x];
  }

  lemma BlockApplies(r: Ring, n: Mat, v: Vec, x: F)
    requires Lawful(r) && |v| >= 2 && BlockDiagonal(r, n, |v|)
    ensures Apply(r, n, v)[0] == v[0]
    ensures Apply(r, n, v[0 := x]) == Apply(r, n, v)[0 := x]
  {
    hide Lawful, Dot, UnitRow;
    DotUnit(r, |v|, 0, v);
    DotUnit(r, |v|, 0, v[0 := x]);
    var left, right := Apply(r, n, v[0 := x]), Apply(r, n, v)[0 := x];
    forall t | 0 <= t < |v|
      ensures left[t] == right[t]
    {
      if t > 0 {
        DotIgnoresHead(r, n[t], v, x);
      }
    }
  }

  // ------------------------------------------------------------------------
  // The two schedules

  datatype Params = Params(
    width: nat, halfFullRounds: nat, nPartialRounds: nat,
    initialArc: Vec, fullRcPre: seq<Vec>, transitionRc: Vec, partialRc: seq<F>, fullRcPost: seq<Vec>,
    mds: Mat, transitionMatrix: Mat, partialDot: seq<Vec>, partialCol: seq<Vec>)

  predicate Rows(vs: seq<Vec>, n: nat, w: nat)
  {
    |vs| == n && forall i :: 0 <= i < n ==> |vs[i]| == w
  }

  // `SparsePoseidonParams.__post_init__`
  predicate ValidParams(p: Params)
  {
    && p.halfFullRounds >= 1 && p.width >= 2
    && |p.initialArc| == p.width && |p.transitionRc| == p.width && |p.partialRc| == p.nPartialRounds
    && Rows(p.fullRcPre, p.halfFullRounds - 1, p.width) && Rows(p.fullRcPost, p.halfFullRounds - 1, p.width)
    && Square(p.mds, p.width) && Square(p.transitionMatrix, p.width)
    && Rows(p.partialDot, p.nPartialRounds, p.width) && Rows(p.partialCol, p.nPartialRounds, p.width - 1)
  }

  // The instance it is optimized from: one dense matrix, a full-width constant
  // every round.
  datatype Naive = Naive(
    width: nat, halfFullRounds: nat, nPartialRounds: nat,
    initialArc: Vec, fullRcPre: seq<Vec>, transitionRc: Vec, partialRcs: seq<Vec>, fullRcPost: seq<Vec>, mds: Mat)

  predicate ValidNaive(n: Naive)
  {
    && n.halfFullRounds >= 1 && n.width >= 2
    && |n.initialArc| == n.width && |n.transitionRc| == n.width
    && Rows(n.partialRcs, n.nPartialRounds, n.width)
    && Rows(n.fullRcPre, n.halfFullRounds - 1, n.width) && Rows(n.fullRcPost, n.halfFullRounds - 1, n.width)
    && Square(n.mds, n.width)
  }

  // The sum over the first k lanes of row[j] (x_j + c_j), where x_j is the
  // S-box of lane j below `boxes` and lane j itself past it.
  function LaneSum(r: Ring, sbox: F -> F, boxes: nat, row: Vec, c: Vec, s: Vec, k: nat): (x: F)
    requires |row| == |c| == |s| && 0 < k <= |s|
  {
    var j := k - 1;
    var term := r.mul(row[j], r.add(if j < boxes then sbox(s[j]) else s[j], c[j]));
    if j == 0 then term else r.add(LaneSum(r, sbox, boxes, row, c, s, j), term)
  }

  function NaiveRound(r: Ring, sbox: F -> F, boxes: nat, m: Mat, c: Vec, s: Vec): (out: Vec)
    requires |c| == |s| > 0 && Square(m, |s|)
    ensures |out| == |s|
  {
    seq(|s|, i requires 0 <= i < |s| => LaneSum(r, sbox, boxes, m[i], c, s, |s|))
  }

  function NaiveRounds(r: Ring, sbox: F -> F, boxes: nat, m: Mat, cs: seq<Vec>, s: Vec, k: nat): (out: Vec)
    requires |s| > 0 && Square(m, |s|) && Rows(cs, |cs|, |s|) && k <= |cs|
    ensures |out| == |s|
  {
    if k == 0 then s else NaiveRound(r, sbox, boxes, m, cs[k - 1], NaiveRounds(r, sbox, boxes, m, cs, s, k - 1))
  }

  // The naive schedule: every lane's S-box in the full rounds, lane 0's in the
  // partial ones, no constant after the last.
  function NaivePermute(r: Ring, sbox: F -> F, n: Naive, s: Vec): (out: Vec)
    requires ValidNaive(n) && |s| == n.width
    ensures |out| == |s|
  {
    var w, full := n.width, n.halfFullRounds - 1;
    var start := seq(w, i requires 0 <= i < w => r.add(s[i], n.initialArc[i]));
    var before := NaiveRounds(r, sbox, w, n.mds, n.fullRcPre, start, full);
    var middle := NaiveRound(r, sbox, w, n.mds, n.transitionRc, before);
    var mixed := NaiveRounds(r, sbox, 1, n.mds, n.partialRcs, middle, n.nPartialRounds);
    var after := NaiveRounds(r, sbox, w, n.mds, n.fullRcPost, mixed, full);
    NaiveRound(r, sbox, w, n.mds, seq(w, _ => r.zero), after)
  }

  function SBoxAll(sbox: F -> F, s: Vec): (v: Vec)
    ensures |v| == |s|
  {
    seq(|s|, i requires 0 <= i < |s| => sbox(s[i]))
  }

  // S-box, then the constant, then the linear layer.
  function FullRound(r: Ring, sbox: F -> F, m: Mat, rc: Vec, s: Vec): (out: Vec)
    requires |rc| == |s| > 0 && Square(m, |s|)
    ensures |out| == |s|
  {
    Apply(r, m, VAdd(r, SBoxAll(sbox, s), rc))
  }

  function FullRounds(r: Ring, sbox: F -> F, m: Mat, rcs: seq<Vec>, s: Vec, n: nat): (out: Vec)
    requires |s| > 0 && Square(m, |s|) && Rows(rcs, |rcs|, |s|) && n <= |rcs|
    ensures |out| == |s|
  {
    if n == 0 then s else FullRound(r, sbox, m, rcs[n - 1], FullRounds(r, sbox, m, rcs, s, n - 1))
  }

  function DensePartial(r: Ring, sbox: F -> F, m: Mat, c: Vec, s: Vec): (out: Vec)
    requires |c| == |s| > 0 && Square(m, |s|)
    ensures |out| == |s|
  {
    Apply(r, m, VAdd(r, s[0 := sbox(s[0])], c))
  }

  function DensePartials(r: Ring, sbox: F -> F, m: Mat, cs: seq<Vec>, s: Vec, n: nat): (out: Vec)
    requires |s| > 0 && Square(m, |s|) && Rows(cs, |cs|, |s|) && n <= |cs|
    ensures |out| == |s|
  {
    if n == 0 then s else DensePartial(r, sbox, m, cs[n - 1], DensePartials(r, sbox, m, cs, s, n - 1))
  }

  function SparsePartial(r: Ring, sbox: F -> F, p: Params, i: nat, s: Vec): (out: Vec)
    requires ValidParams(p) && |s| == p.width && i < p.nPartialRounds
    ensures |out| == |s|
  {
    ApplySparse(r, p.partialDot[i], p.partialCol[i], r.add(sbox(s[0]), p.partialRc[i]), s[1..])
  }

  function SparsePartials(r: Ring, sbox: F -> F, p: Params, s: Vec, n: nat): (out: Vec)
    requires ValidParams(p) && |s| == p.width && n <= p.nPartialRounds
    ensures |out| == |s|
  {
    if n == 0 then s else SparsePartial(r, sbox, p, n - 1, SparsePartials(r, sbox, p, s, n - 1))
  }

  // `_permute_from_params`
  method Permute(r: Ring, sbox: F -> F, p: Params, state: Vec) returns (s: Vec)
    requires ValidParams(p) && |state| == p.width
    ensures s == SparsePermute(r, sbox, p, state)
  {
    hide FullRound, SparsePartial, VAdd, Apply, SBoxAll;
    s := VAdd(r, state, p.initialArc);
    ghost var s0 := s;
    for k := 0 to p.halfFullRounds - 1
      invariant |s| == p.width && s == FullRounds(r, sbox, p.mds, p.fullRcPre, s0, k)
    {
      s := FullRound(r, sbox, p.mds, p.fullRcPre[k], s);
    }
    s := FullRound(r, sbox, p.transitionMatrix, p.transitionRc, s);
    ghost var s1 := s;
    for k := 0 to p.nPartialRounds
      invariant |s| == p.width && s == SparsePartials(r, sbox, p, s1, k)
    {
      s := SparsePartial(r, sbox, p, k, s);
    }
    ghost var s2 := s;
    for k := 0 to p.halfFullRounds - 1
      invariant |s| == p.width && s == FullRounds(r, sbox, p.mds, p.fullRcPost, s2, k)
    {
      s := FullRound(r, sbox, p.mds, p.fullRcPost[k], s);
    }
    s := Apply(r, p.mds, SBoxAll(sbox, s));
  }

  function SparsePermute(r: Ring, sbox: F -> F, p: Params, s: Vec): (out: Vec)
    requires ValidParams(p) && |s| == p.width
    ensures |out| == |s|
  {
    var before := FullRounds(r, sbox, p.mds, p.fullRcPre, VAdd(r, s, p.initialArc), p.halfFullRounds - 1);
    var middle := FullRound(r, sbox, p.transitionMatrix, p.transitionRc, before);
    var mixed := SparsePartials(r, sbox, p, middle, p.nPartialRounds);
    Apply(r, p.mds, SBoxAll(sbox, FullRounds(r, sbox, p.mds, p.fullRcPost, mixed, p.halfFullRounds - 1)))
  }

  // ------------------------------------------------------------------------
  // The factorization

  // Round i's sparse layer is the dense one seen through block-diagonal changes
  // of basis, and its lane-0 constant the full-width one up to an offset that
  // leaves lane 0 alone.
  predicate FactorsRound(r: Ring, p: Params, c: Vec, i: nat, n: Mat, next: Mat, e: Vec, nextE: Vec)
    requires ValidParams(p) && i < p.nPartialRounds && |c| == |e| == |nextE| == p.width
    requires Square(n, p.width) && Square(next, p.width)
    requires Square(SparseMatrix(r, p.partialDot[i], p.partialCol[i]), p.width)
  {
    && MatMul(r, p.mds, n, p.width) == MatMul(r, next, SparseMatrix(r, p.partialDot[i], p.partialCol[i]), p.width)
    && Apply(r, p.mds, e[0 := p.partialRc[i]]) == VAdd(r, Apply(r, p.mds, c), nextE)
  }

  // The naive state x and the sparse state y, n y = x + e.
  predicate Related(r: Ring, w: nat, n: Mat, e: Vec, x: Vec, y: Vec)
  {
    w >= 2 && |x| == |y| == |e| == w && BlockDiagonal(r, n, w) && e[0] == r.zero && Apply(r, n, y) == VAdd(r, x, e)
  }

  // The S-boxes agree, and one round keeps the relation.
  lemma RoundKeepsRelation(r: Ring, sbox: F -> F, p: Params, c: Vec, i: nat, n: Mat, next: Mat, e: Vec, nextE: Vec,
                           x: Vec, y: Vec)
    requires Lawful(r) && ValidParams(p) && i < p.nPartialRounds && |c| == p.width
    requires Related(r, p.width, n, e, x, y)
    requires |nextE| == p.width && nextE[0] == r.zero && BlockDiagonal(r, next, p.width)
    requires Square(SparseMatrix(r, p.partialDot[i], p.partialCol[i]), p.width)
    requires FactorsRound(r, p, c, i, n, next, e, nextE)
    ensures Related(r, p.width, next, nextE, DensePartial(r, sbox, p.mds, c, x), SparsePartial(r, sbox, p, i, y))
  {
    hide Lawful, Apply, MatMul, SparseMatrix, ApplySparse, BlockDiagonal, UnitRow, ValidParams;
    ShapesOf(r, p, i, n, next);
    var w, m, sp := p.width, p.mds, SparseMatrix(r, p.partialDot[i], p.partialCol[i]);
    BlockApplies(r, n, y, r.zero);
    Units(r, x[0]);
    assert y[0] == x[0];
    var active := r.add(sbox(y[0]), p.partialRc[i]);
    var u := y[0 := active];
    assert [active] + y[1..] == u;
    SparseIsMatrix(r, p.partialDot[i], p.partialCol[i], active, y[1..]);
    ApplyProduct(r, next, sp, u);
    ApplyProduct(r, m, n, u);
    BlockApplies(r, n, y, active);
    var z, offset := x[0 := sbox(x[0])], e[0 := p.partialRc[i]];
    assert Apply(r, n, u) == VAdd(r, z, offset);
    ApplyAdds(r, m, z, offset);
    ApplyAdds(r, m, z, c);
    VAddAssoc(r, Apply(r, m, z), Apply(r, m, c), nextE);
  }

  lemma ShapesOf(r: Ring, p: Params, i: nat, n: Mat, next: Mat)
    requires ValidParams(p) && i < p.nPartialRounds && BlockDiagonal(r, n, p.width) && BlockDiagonal(r, next, p.width)
    ensures p.width >= 2 && Square(p.mds, p.width) && Square(n, p.width) && Square(next, p.width)
    ensures i < |p.partialDot| && i < |p.partialCol| && i < |p.partialRc|
    ensures |p.partialDot[i]| == p.width && |p.partialCol[i]| == p.width - 1
  {
  }

  lemma VAddAssoc(r: Ring, u: Vec, v: Vec, w: Vec)
    requires Lawful(r) && |u| == |v| == |w|
    ensures VAdd(r, VAdd(r, u, v), w) == VAdd(r, u, VAdd(r, v, w))
  {
    hide Lawful;
    var left, right := VAdd(r, VAdd(r, u, v), w), VAdd(r, u, VAdd(r, v, w));
    forall i | 0 <= i < |u|
      ensures left[i] == right[i]
    {
      Assoc(r, u[i], v[i], w[i]);
    }
  }

  // A whole factorization: a basis and an offset per partial round, tied to the
  // transition matrix at one end and trivial at the other.
  predicate Factors(r: Ring, p: Params, transitionRc: Vec, cs: seq<Vec>, basis: seq<Mat>, offsets: seq<Vec>)
    requires ValidParams(p) && |transitionRc| == p.width && Rows(cs, p.nPartialRounds, p.width)
  {
    var w, np := p.width, p.nPartialRounds;
    && |basis| == |offsets| == np + 1
    && (forall i :: 0 <= i <= np ==> BlockDiagonal(r, basis[i], w))
    && (forall i :: 0 <= i <= np ==> |offsets[i]| == w && offsets[i][0] == r.zero)
    && (forall i :: 0 <= i < np ==> FactorsAt(r, p, cs, basis, offsets, i))
    && MatMul(r, basis[0], p.transitionMatrix, w) == p.mds
    && Apply(r, p.mds, p.transitionRc) == VAdd(r, Apply(r, p.mds, transitionRc), offsets[0])
    && (forall t :: 0 <= t < w ==> basis[np][t] == UnitRow(r, w, t))
    && (forall t :: 0 <= t < w ==> offsets[np][t] == r.zero)
  }

  predicate FactorsAt(r: Ring, p: Params, cs: seq<Vec>, basis: seq<Mat>, offsets: seq<Vec>, i: nat)
    requires ValidParams(p) && Rows(cs, p.nPartialRounds, p.width)
    requires |basis| == |offsets| == p.nPartialRounds + 1 && i < p.nPartialRounds
    requires BlockDiagonal(r, basis[i], p.width) && BlockDiagonal(r, basis[i + 1], p.width)
    requires |offsets[i]| == p.width && |offsets[i + 1]| == p.width
  {
    FactorsRound(r, p, cs[i], i, basis[i], basis[i + 1], offsets[i], offsets[i + 1])
  }

  lemma {:induction false} PartialsRelated(r: Ring, sbox: F -> F, p: Params, transitionRc: Vec, cs: seq<Vec>,
                                           basis: seq<Mat>, offsets: seq<Vec>, x: Vec, y: Vec, k: nat)
    requires Lawful(r) && ValidParams(p) && |transitionRc| == p.width && Rows(cs, p.nPartialRounds, p.width)
    requires Factors(r, p, transitionRc, cs, basis, offsets) && k <= p.nPartialRounds
    requires |x| == |y| == p.width && Related(r, p.width, basis[0], offsets[0], x, y)
    ensures Related(r, p.width, basis[k], offsets[k],
                    DensePartials(r, sbox, p.mds, cs, x, k), SparsePartials(r, sbox, p, y, k))
  {
    hide Lawful, Related, DensePartial, SparsePartial, FactorsRound, BlockDiagonal, MatMul, Apply, VAdd, UnitRow;
    if k > 0 {
      PartialsRelated(r, sbox, p, transitionRc, cs, basis, offsets, x, y, k - 1);
      assert FactorsAt(r, p, cs, basis, offsets, k - 1);
      RoundKeepsRelation(r, sbox, p, cs[k - 1], k - 1, basis[k - 1], basis[k], offsets[k - 1], offsets[k],
                         DensePartials(r, sbox, p.mds, cs, x, k - 1), SparsePartials(r, sbox, p, y, k - 1));
    }
  }

  // Into the partial rounds: P leaves the first basis behind.
  lemma TransitionRelates(r: Ring, sbox: F -> F, p: Params, rc: Vec, n: Mat, e: Vec, s: Vec)
    requires Lawful(r) && ValidParams(p) && |rc| == |e| == |s| == p.width
    requires BlockDiagonal(r, n, p.width) && e[0] == r.zero
    requires MatMul(r, n, p.transitionMatrix, p.width) == p.mds
    requires Apply(r, p.mds, p.transitionRc) == VAdd(r, Apply(r, p.mds, rc), e)
    ensures Related(r, p.width, n, e, FullRound(r, sbox, p.mds, rc, s),
                    FullRound(r, sbox, p.transitionMatrix, p.transitionRc, s))
  {
    hide Lawful, Apply, MatMul, UnitRow, VAdd, SBoxAll;
    var z := SBoxAll(sbox, s);
    ApplyProduct(r, n, p.transitionMatrix, VAdd(r, z, p.transitionRc));
    ApplyAdds(r, p.mds, z, p.transitionRc);
    ApplyAdds(r, p.mds, z, rc);
    VAddAssoc(r, Apply(r, p.mds, z), Apply(r, p.mds, rc), e);
  }

  // Out of them: the last basis is the identity, the last offset nothing.
  lemma RelationEnds(r: Ring, w: nat, n: Mat, e: Vec, x: Vec, y: Vec)
    requires Lawful(r) && Related(r, w, n, e, x, y)
    requires forall t :: 0 <= t < w ==> n[t] == UnitRow(r, w, t)
    requires forall t :: 0 <= t < w ==> e[t] == r.zero
    ensures x == y
  {
    hide Lawful, Dot, UnitRow;
    forall t | 0 <= t < w
      ensures x[t] == y[t]
    {
      DotUnit(r, w, t, y);
      Units(r, x[t]);
      assert Apply(r, n, y)[t] == VAdd(r, x, e)[t];
    }
  }

  // ------------------------------------------------------------------------
  // The vector forms are the lanes'

  lemma {:induction false} LaneSumIsDot(r: Ring, sbox: F -> F, boxes: nat, row: Vec, c: Vec, s: Vec, v: Vec, k: nat)
    requires |row| == |c| == |s| == |v| && 0 < k <= |s|
    requires forall j :: 0 <= j < |s| ==> v[j] == r.add(if j < boxes then sbox(s[j]) else s[j], c[j])
    ensures LaneSum(r, sbox, boxes, row, c, s, k) == Dot(r, row[..k], v[..k])
  {
    var j := k - 1;
    assert row[..k][..j] == row[..j] && v[..k][..j] == v[..j];
    if j > 0 {
      LaneSumIsDot(r, sbox, boxes, row, c, s, v, j);
    }
  }

  lemma NaiveRoundIs(r: Ring, sbox: F -> F, boxes: nat, m: Mat, c: Vec, s: Vec, v: Vec)
    requires |c| == |s| == |v| > 0 && Square(m, |s|)
    requires forall j :: 0 <= j < |s| ==> v[j] == r.add(if j < boxes then sbox(s[j]) else s[j], c[j])
    ensures NaiveRound(r, sbox, boxes, m, c, s) == Apply(r, m, v)
  {
    hide Dot, LaneSum;
    var left, right := NaiveRound(r, sbox, boxes, m, c, s), Apply(r, m, v);
    forall i | 0 <= i < |s|
      ensures left[i] == right[i]
    {
      LaneSumIsDot(r, sbox, boxes, m[i], c, s, v, |s|);
      assert m[i][..|s|] == m[i] && v[..|s|] == v;
    }
  }

  lemma {:induction false} FullRoundsAre(r: Ring, sbox: F -> F, m: Mat, rcs: seq<Vec>, s: Vec, k: nat)
    requires |s| > 0 && Square(m, |s|) && Rows(rcs, |rcs|, |s|) && k <= |rcs|
    ensures FullRounds(r, sbox, m, rcs, s, k) == NaiveRounds(r, sbox, |s|, m, rcs, s, k)
  {
    hide Apply, NaiveRound;
    if k > 0 {
      FullRoundsAre(r, sbox, m, rcs, s, k - 1);
      var t := FullRounds(r, sbox, m, rcs, s, k - 1);
      NaiveRoundIs(r, sbox, |s|, m, rcs[k - 1], t, VAdd(r, SBoxAll(sbox, t), rcs[k - 1]));
    }
  }

  lemma {:induction false} DensePartialsAre(r: Ring, sbox: F -> F, m: Mat, cs: seq<Vec>, s: Vec, k: nat)
    requires |s| > 0 && Square(m, |s|) && Rows(cs, |cs|, |s|) && k <= |cs|
    ensures DensePartials(r, sbox, m, cs, s, k) == NaiveRounds(r, sbox, 1, m, cs, s, k)
  {
    hide Apply, NaiveRound;
    if k > 0 {
      DensePartialsAre(r, sbox, m, cs, s, k - 1);
      var t := DensePartials(r, sbox, m, cs, s, k - 1);
      NaiveRoundIs(r, sbox, 1, m, cs[k - 1], t, VAdd(r, t[0 := sbox(t[0])], cs[k - 1]));
    }
  }

  lemma LastRoundIs(r: Ring, sbox: F -> F, m: Mat, s: Vec)
    requires Lawful(r) && |s| > 0 && Square(m, |s|)
    ensures NaiveRound(r, sbox, |s|, m, seq(|s|, _ => r.zero), s) == Apply(r, m, SBoxAll(sbox, s))
  {
    hide Lawful, Apply, NaiveRound;
    forall j | 0 <= j < |s|
      ensures r.add(sbox(s[j]), r.zero) == sbox(s[j])
    {
      Units(r, sbox(s[j]));
    }
    NaiveRoundIs(r, sbox, |s|, m, seq(|s|, _ => r.zero), s, SBoxAll(sbox, s));
  }

  // What the two schedules have in common.
  predicate SameRounds(p: Params, n: Naive)
  {
    && p.width == n.width && p.halfFullRounds == n.halfFullRounds && p.nPartialRounds == n.nPartialRounds
    && p.initialArc == n.initialArc && p.fullRcPre == n.fullRcPre && p.fullRcPost == n.fullRcPost && p.mds == n.mds
  }

  // The optimized schedule is the naive one, for every state, width, round
  // count and S-box, whenever its constants factor the naive ones.
  lemma SparseIsNaive(r: Ring, sbox: F -> F, p: Params, n: Naive, basis: seq<Mat>, offsets: seq<Vec>, s: Vec)
    requires Lawful(r) && ValidParams(p) && ValidNaive(n) && SameRounds(p, n) && |s| == p.width
    requires Factors(r, p, n.transitionRc, n.partialRcs, basis, offsets)
    ensures SparsePermute(r, sbox, p, s) == NaivePermute(r, sbox, n, s)
  {
    hide Lawful, Related, DensePartials, SparsePartials, FullRound, FullRounds, BlockDiagonal, MatMul, Apply,
         NaiveRound, NaiveRounds, VAdd, SBoxAll, UnitRow, FactorsAt;
    var np, full, start := p.nPartialRounds, p.halfFullRounds - 1, VAdd(r, s, p.initialArc);
    StartIs(r, s, p.initialArc);
    FullRoundsAre(r, sbox, p.mds, p.fullRcPre, start, full);
    var before := FullRounds(r, sbox, p.mds, p.fullRcPre, start, full);
    var x := FullRound(r, sbox, p.mds, n.transitionRc, before);
    var y := FullRound(r, sbox, p.transitionMatrix, p.transitionRc, before);
    FullRoundIs(r, sbox, p.mds, n.transitionRc, before);
    TransitionRelates(r, sbox, p, n.transitionRc, basis[0], offsets[0], before);
    PartialsRelated(r, sbox, p, n.transitionRc, n.partialRcs, basis, offsets, x, y, np);
    var mixed := DensePartials(r, sbox, p.mds, n.partialRcs, x, np);
    RelationEnds(r, p.width, basis[np], offsets[np], mixed, SparsePartials(r, sbox, p, y, np));
    DensePartialsAre(r, sbox, p.mds, n.partialRcs, x, np);
    FullRoundsAre(r, sbox, p.mds, p.fullRcPost, mixed, full);
    LastRoundIs(r, sbox, p.mds, FullRounds(r, sbox, p.mds, p.fullRcPost, mixed, full));
  }

  lemma StartIs(r: Ring, s: Vec, arc: Vec)
    requires |s| == |arc|
    ensures VAdd(r, s, arc) == seq(|s|, i requires 0 <= i < |s| => r.add(s[i], arc[i]))
  {
  }

  lemma FullRoundIs(r: Ring, sbox: F -> F, m: Mat, rc: Vec, s: Vec)
    requires |rc| == |s| > 0 && Square(m, |s|)
    ensures FullRound(r, sbox, m, rc, s) == NaiveRound(r, sbox, |s|, m, rc, s)
  {
    hide Apply, NaiveRound;
    NaiveRoundIs(r, sbox, |s|, m, rc, s, VAdd(r, SBoxAll(sbox, s), rc));
  }
}

// Where the optimized constants come from (`poseidon/testing/sparse_test.py`):
// every naive Poseidon whose dense matrix, and that matrix without lane 0, can
// be inverted has a sparse factorization.
module PoseidonFactors {
  import opened Poseidon

  // ------------------------------------------------------------------------
  // Products entry by entry

  predicate Wide(m: Mat, w: nat)
  {
    forall i :: 0 <= i < |m| ==> |m[i]| == w
  }

  function Column(m: Mat, w: nat, j: nat): (c: Vec)
    requires Wide(m, w) && j < w
    ensures |c| == |m|
  {
    seq(|m|, i requires 0 <= i < |m| => m[i][j])
  }

  lemma {:induction false} RowTimesAt(r: Ring, a: Vec, b: Mat, w: nat, j: nat)
    requires |a| == |b| > 0 && Wide(b, w) && j < w
    ensures RowTimes(r, a, b, w)[j] == Dot(r, a, Column(b, w, j))
  {
    var n := |a| - 1;
    if n > 0 {
      RowTimesAt(r, a[..n], b[..n], w, j);
      assert Column(b, w, j)[..n] == Column(b[..n], w, j);
    }
  }

  lemma {:induction false} DotCommutes(r: Ring, a: Vec, v: Vec)
    requires Lawful(r) && |a| == |v| > 0
    ensures Dot(r, a, v) == Dot(r, v, a)
  {
    hide Lawful;
    var n := |a| - 1;
    MulCommute(r, a[n], v[n]);
    if n > 0 {
      DotCommutes(r, a[..n], v[..n]);
    }
  }

  // [0] + a against anything is a against the rest of it.
  lemma DotTail(r: Ring, a: Vec, v: Vec)
    requires Lawful(r) && |a| + 1 == |v| && |a| > 0
    ensures Dot(r, [r.zero] + a, v) == Dot(r, a, v[1..])
  {
    hide Lawful, Dot;
    assert v == [v[0]] + v[1..];
    DotHead(r, r.zero, a, v[0], v[1..]);
    Units(r, v[0]);
    Units(r, Dot(r, a, v[1..]));
  }

  function Identity(r: Ring, w: nat): (m: Mat)
    ensures |m| == w && forall t :: 0 <= t < w ==> m[t] == UnitRow(r, w, t)
  {
    seq(w, t requires 0 <= t < w => UnitRow(r, w, t))
  }

  predicate Inverse(r: Ring, a: Mat, b: Mat, w: nat)
  {
    Square(a, w) && Square(b, w) && MatMul(r, a, b, w) == Identity(r, w)
  }

  lemma ApplyIdentity(r: Ring, v: Vec)
    requires Lawful(r) && |v| > 0
    ensures Apply(r, Identity(r, |v|), v) == v
  {
    hide Lawful, Dot, UnitRow;
    var out := Apply(r, Identity(r, |v|), v);
    forall t | 0 <= t < |v|
      ensures out[t] == v[t]
    {
      DotUnit(r, |v|, t, v);
    }
  }

  // Applying an inverse and then the matrix changes nothing.
  lemma InverseApplies(r: Ring, a: Mat, b: Mat, v: Vec)
    requires Lawful(r) && |v| > 0 && Inverse(r, a, b, |v|)
    ensures Apply(r, a, Apply(r, b, v)) == v
  {
    hide Lawful, Apply, MatMul, Identity;
    ApplyProduct(r, a, b, v);
    ApplyIdentity(r, v);
  }

  // ------------------------------------------------------------------------
  // Powers

  // m applied k times.
  function Times(r: Ring, m: Mat, k: nat, v: Vec): (out: Vec)
    requires |v| > 0 && Square(m, |v|)
    ensures |out| == |v|
  {
    if k == 0 then v else Apply(r, m, Times(r, m, k - 1, v))
  }

  lemma {:induction false} TimesShift(r: Ring, m: Mat, k: nat, v: Vec)
    requires |v| > 0 && Square(m, |v|)
    ensures Times(r, m, k, Apply(r, m, v)) == Times(r, m, k + 1, v)
  {
    if k > 0 {
      hide Apply;
      TimesShift(r, m, k - 1, v);
    }
  }

  // The k-th power.
  function Power(r: Ring, m: Mat, w: nat, k: nat): (p: Mat)
    requires Square(m, w)
    ensures Square(p, w)
  {
    if k == 0 then Identity(r, w) else MatMul(r, m, Power(r, m, w, k - 1), w)
  }

  lemma {:induction false} PowerApplies(r: Ring, m: Mat, k: nat, v: Vec)
    requires Lawful(r) && |v| > 0 && Square(m, |v|)
    ensures Apply(r, Power(r, m, |v|, k), v) == Times(r, m, k, v)
  {
    if k == 0 {
      ApplyIdentity(r, v);
    } else {
      hide Lawful, Apply, MatMul, Identity;
      PowerApplies(r, m, k - 1, v);
      ApplyProduct(r, m, Power(r, m, |v|, k - 1), v);
    }
  }

  // H^k undoes m^k.
  lemma {:induction false} PowerUndoes(r: Ring, h: Mat, m: Mat, k: nat, v: Vec)
    requires Lawful(r) && |v| > 0 && Inverse(r, h, m, |v|)
    ensures Apply(r, Power(r, h, |v|, k), Times(r, m, k, v)) == v
  {
    hide Lawful, Apply, MatMul, Power;
    PowerApplies(r, h, k, Times(r, m, k, v));
    if k > 0 {
      PowerApplies(r, h, k - 1, Times(r, m, k - 1, v));
      PowerUndoes(r, h, m, k - 1, v);
      TimesShift(r, h, k - 1, Times(r, m, k, v));
      InverseApplies(r, h, m, Times(r, m, k - 1, v));
    }
  }

  // m times the next power of its inverse is that inverse's power.
  lemma PowerDrops(r: Ring, m: Mat, h: Mat, w: nat, k: nat, t: nat, j: nat)
    requires Lawful(r) && w > 0 && Inverse(r, m, h, w) && k > 0 && t < w && j < w
    ensures Dot(r, m[t], Column(Power(r, h, w, k), w, j)) == Power(r, h, w, k - 1)[t][j]
  {
    hide Lawful, Dot, Apply;
    var p := Power(r, h, w, k - 1);
    var c, d := Column(p, w, j), Column(Power(r, h, w, k), w, j);
    var image := Apply(r, h, c);
    forall i | 0 <= i < w
      ensures d[i] == image[i]
    {
      RowTimesAt(r, h[i], p, w, j);
      ApplyAt(r, h, c, i);
    }
    assert d == image;
    InverseApplies(r, m, h, c);
    ApplyAt(r, m, image, t);
  }

  lemma ApplyAt(r: Ring, m: Mat, v: Vec, t: nat)
    requires |v| > 0 && Square(m, |v|) && t < |v|
    ensures Apply(r, m, v)[t] == Dot(r, m[t], v)
  {
  }

  // ------------------------------------------------------------------------
  // The factorization

  // The matrix without lane 0: its row, its column and the rest.
  function RowRest(m: Mat, w: nat): (v: Vec)
    requires Square(m, w)
    ensures |v| == w - 1
  {
    m[0][1..]
  }

  function ColumnRest(m: Mat, w: nat): (v: Vec)
    requires Square(m, w)
    ensures |v| == w - 1
  {
    seq(w - 1, t requires 0 <= t < w - 1 => m[t + 1][0])
  }

  function Minor(m: Mat, w: nat): (a: Mat)
    requires Square(m, w) && w >= 2
    ensures Square(a, w - 1)
  {
    seq(w - 1, t requires 0 <= t < w - 1 => m[t + 1][1..])
  }

  // diag(1, b)
  function Diagonal(r: Ring, b: Mat, w: nat): (m: Mat)
    requires w >= 2 && Square(b, w - 1)
    ensures Square(m, w) && BlockDiagonal(r, m, w)
    ensures forall t :: 0 < t < w ==> m[t] == [r.zero] + b[t - 1]
  {
    [UnitRow(r, w, 0)] + seq(w - 1, t requires 0 <= t < w - 1 => [r.zero] + b[t])
  }

  predicate Invertible(r: Ring, n: Naive, mi: Mat, h: Mat)
    requires ValidNaive(n)
  {
    && Inverse(r, n.mds, mi, n.width)
    && Inverse(r, Minor(n.mds, n.width), h, n.width - 1) && Inverse(r, h, Minor(n.mds, n.width), n.width - 1)
  }

  // Round i's basis: h once for each partial round from i on.
  function Basis(r: Ring, n: Naive, h: Mat, i: nat): (m: Mat)
    requires ValidNaive(n) && Square(h, n.width - 1) && i <= n.nPartialRounds
    ensures BlockDiagonal(r, m, n.width)
  {
    Diagonal(r, Power(r, h, n.width - 1, n.nPartialRounds - i), n.width)
  }

  // Round i's full-width constant, the later offset drawn back through the
  // dense layer: its lane 0 is the sparse constant, the rest the offset.
  function Drawn(r: Ring, n: Naive, mi: Mat, i: nat): (u: Vec)
    requires ValidNaive(n) && Square(mi, n.width) && i < n.nPartialRounds
    ensures |u| == n.width
    decreases n.nPartialRounds - i, 0
  {
    VAdd(r, n.partialRcs[i], Apply(r, mi, Offset(r, n, mi, i + 1)))
  }

  function Offset(r: Ring, n: Naive, mi: Mat, i: nat): (e: Vec)
    requires ValidNaive(n) && Square(mi, n.width) && i <= n.nPartialRounds
    ensures |e| == n.width && e[0] == r.zero
    decreases n.nPartialRounds - i, 1
  {
    if i == n.nPartialRounds then seq(n.width, _ => r.zero) else Drawn(r, n, mi, i)[0 := r.zero]
  }

  function DotRow(r: Ring, n: Naive, h: Mat, i: nat): (d: Vec)
    requires ValidNaive(n) && Square(h, n.width - 1) && i < n.nPartialRounds
    ensures |d| == n.width
  {
    [n.mds[0][0]]
    + RowTimes(r, RowRest(n.mds, n.width), Power(r, h, n.width - 1, n.nPartialRounds - i), n.width - 1)
  }

  function ColumnOf(r: Ring, n: Naive, i: nat): (c: Vec)
    requires ValidNaive(n) && i < n.nPartialRounds
    ensures |c| == n.width - 1
  {
    Times(r, Minor(n.mds, n.width), n.nPartialRounds - i - 1, ColumnRest(n.mds, n.width))
  }

  // P: the dense matrix, the minor applied np times below lane 0.
  function Transition(r: Ring, n: Naive): (p: Mat)
    requires ValidNaive(n)
    ensures Square(p, n.width)
  {
    seq(n.width, t requires 0 <= t < n.width => seq(n.width, j requires 0 <= j < n.width => TransitionAt(r, n, t, j)))
  }

  function TransitionAt(r: Ring, n: Naive, t: nat, j: nat): (x: F)
    requires ValidNaive(n) && t < n.width && j < n.width
  {
    if t == 0 then n.mds[0][j]
    else Times(r, Minor(n.mds, n.width), n.nPartialRounds, Column(n.mds, n.width, j)[1..])[t - 1]
  }

  function Optimized(r: Ring, n: Naive, mi: Mat, h: Mat): (p: Params)
    requires ValidNaive(n) && Square(mi, n.width) && Square(h, n.width - 1)
    ensures ValidParams(p) && SameRounds(p, n)
  {
    var np := n.nPartialRounds;
    Params(n.width, n.halfFullRounds, np, n.initialArc, n.fullRcPre,
           VAdd(r, n.transitionRc, Apply(r, mi, Offset(r, n, mi, 0))),
           seq(np, i requires 0 <= i < np => Drawn(r, n, mi, i)[0]), n.fullRcPost, n.mds, Transition(r, n),
           seq(np, i requires 0 <= i < np => DotRow(r, n, h, i)), seq(np, i requires 0 <= i < np => ColumnOf(r, n, i)))
  }

  // ------------------------------------------------------------------------
  // It factors

  // A dense matrix over diag(1, b).
  lemma DenseEntry(r: Ring, m: Mat, b: Mat, w: nat, t: nat, j: nat)
    requires Lawful(r) && w >= 2 && Square(m, w) && Square(b, w - 1) && t < w && j < w
    ensures MatMul(r, m, Diagonal(r, b, w), w)[t][j]
         == if j == 0 then m[t][0] else Dot(r, m[t][1..], Column(b, w - 1, j - 1))
  {
    hide Lawful, Dot;
    var d := Diagonal(r, b, w);
    var c := Column(d, w, j);
    RowTimesAt(r, m[t], d, w, j);
    DotCommutes(r, m[t], c);
    if j == 0 {
      assert c == UnitRow(r, w, 0);
      DotUnit(r, w, 0, m[t]);
    } else {
      var rest := Column(b, w - 1, j - 1);
      assert c == [r.zero] + rest;
      DotTail(r, rest, m[t]);
      DotCommutes(r, rest, m[t][1..]);
    }
  }

  // diag(1, b) over any matrix.
  lemma LowerEntry(r: Ring, b: Mat, q: Mat, w: nat, t: nat, j: nat)
    requires Lawful(r) && w >= 2 && Square(b, w - 1) && Square(q, w) && t < w && j < w
    ensures MatMul(r, Diagonal(r, b, w), q, w)[t][j]
         == if t == 0 then q[0][j] else Dot(r, b[t - 1], Column(q, w, j)[1..])
  {
    hide Lawful, Dot;
    var d, c := Diagonal(r, b, w), Column(q, w, j);
    RowTimesAt(r, d[t], q, w, j);
    if t == 0 {
      DotUnit(r, w, 0, c);
    } else {
      DotTail(r, b[t - 1], c);
    }
  }

  // A sparse factor: b2 is the minor times b, and takes the column to the
  // matrix's own.
  lemma SparseFactor(r: Ring, m: Mat, b: Mat, b2: Mat, dot: Vec, col: Vec, w: nat, t: nat, j: nat)
    requires Lawful(r) && w >= 2 && Square(m, w) && Square(b, w - 1) && Square(b2, w - 1)
    requires |col| == w - 1 && |dot| == w && Square(SparseMatrix(r, dot, col), w)
    requires dot == [m[0][0]] + RowTimes(r, RowRest(m, w), b, w - 1)
    requires Apply(r, b2, col) == ColumnRest(m, w)
    requires forall y, x :: 0 <= y < w - 1 && 0 <= x < w - 1 ==> Dot(r, m[y + 1][1..], Column(b, w - 1, x)) == b2[y][x]
    requires t < w && j < w
    ensures MatMul(r, m, Diagonal(r, b, w), w)[t][j]
         == MatMul(r, Diagonal(r, b2, w), SparseMatrix(r, dot, col), w)[t][j]
  {
    hide Lawful, Dot, MatMul, Diagonal;
    var q := SparseMatrix(r, dot, col);
    var c := Column(q, w, j)[1..];
    DenseEntry(r, m, b, w, t, j);
    LowerEntry(r, b2, q, w, t, j);
    if t == 0 {
      if j > 0 {
        RowTimesAt(r, RowRest(m, w), b, w - 1, j - 1);
      }
    } else if j == 0 {
      assert c == col;
      ApplyAt(r, b2, col, t - 1);
    } else {
      assert c == UnitRow(r, w - 1, j - 1);
      DotCommutes(r, b2[t - 1], c);
      DotUnit(r, w - 1, j - 1, b2[t - 1]);
      assert m[(t - 1) + 1] == m[t];
    }
  }

  // The dense layer takes a constant drawn back through its inverse to that
  // constant's image, offset.
  lemma DrawnApplies(r: Ring, m: Mat, mi: Mat, c: Vec, e: Vec)
    requires Lawful(r) && |c| == |e| > 0 && Inverse(r, m, mi, |c|)
    ensures Apply(r, m, VAdd(r, c, Apply(r, mi, e))) == VAdd(r, Apply(r, m, c), e)
  {
    hide Lawful, Apply, VAdd, MatMul, Identity;
    ApplyAdds(r, m, c, Apply(r, mi, e));
    InverseApplies(r, m, mi, e);
  }

  lemma RoundFactors(r: Ring, n: Naive, mi: Mat, h: Mat, i: nat)
    requires Lawful(r) && ValidNaive(n) && Invertible(r, n, mi, h) && i < n.nPartialRounds
    ensures var p := Optimized(r, n, mi, h);
            && Square(SparseMatrix(r, p.partialDot[i], p.partialCol[i]), p.width)
            && FactorsRound(r, p, n.partialRcs[i], i, Basis(r, n, h, i), Basis(r, n, h, i + 1),
                            Offset(r, n, mi, i), Offset(r, n, mi, i + 1))
  {
    hide Lawful, Dot, Apply, MatMul, VAdd, RowTimes, Times, Power;
    var p, w, k := Optimized(r, n, mi, h), n.width, n.nPartialRounds - i;
    var dot, col := DotRow(r, n, h, i), ColumnOf(r, n, i);
    var b, b2, minor := Power(r, h, w - 1, k), Power(r, h, w - 1, k - 1), Minor(n.mds, w);
    PowerUndoes(r, h, minor, k - 1, ColumnRest(n.mds, w));
    forall y, x | 0 <= y < w - 1 && 0 <= x < w - 1
      ensures Dot(r, n.mds[y + 1][1..], Column(b, w - 1, x)) == b2[y][x]
    {
      PowerDrops(r, minor, h, w - 1, k, y, x);
    }
    var left := MatMul(r, n.mds, Basis(r, n, h, i), w);
    var right := MatMul(r, Basis(r, n, h, i + 1), SparseMatrix(r, dot, col), w);
    forall t | 0 <= t < w
      ensures left[t] == right[t]
    {
      forall j | 0 <= j < w
        ensures left[t][j] == right[t][j]
      {
        SparseFactor(r, n.mds, b, b2, dot, col, w, t, j);
      }
    }
    DrawnApplies(r, n.mds, mi, n.partialRcs[i], Offset(r, n, mi, i + 1));
    assert Offset(r, n, mi, i)[0 := Drawn(r, n, mi, i)[0]] == Drawn(r, n, mi, i);
  }

  lemma TransitionFactors(r: Ring, n: Naive, mi: Mat, h: Mat)
    requires Lawful(r) && ValidNaive(n) && Invertible(r, n, mi, h)
    ensures MatMul(r, Basis(r, n, h, 0), Transition(r, n), n.width) == n.mds
  {
    hide Lawful, Dot, Apply, MatMul, Times, Power;
    var w, np, q := n.width, n.nPartialRounds, Transition(r, n);
    var b, minor := Power(r, h, w - 1, np), Minor(n.mds, w);
    var left := MatMul(r, Basis(r, n, h, 0), q, w);
    forall t | 0 <= t < w
      ensures left[t] == n.mds[t]
    {
      forall j | 0 <= j < w
        ensures left[t][j] == n.mds[t][j]
      {
        var below := Column(n.mds, w, j)[1..];
        LowerEntry(r, b, q, w, t, j);
        if t > 0 {
          assert Column(q, w, j)[1..] == Times(r, minor, np, below);
          PowerUndoes(r, h, minor, np, below);
          ApplyAt(r, b, Times(r, minor, np, below), t - 1);
        }
      }
    }
  }

  function Bases(r: Ring, n: Naive, h: Mat): (bs: seq<Mat>)
    requires ValidNaive(n) && Square(h, n.width - 1)
  {
    seq(n.nPartialRounds + 1, i requires 0 <= i <= n.nPartialRounds => Basis(r, n, h, i))
  }

  function Offsets(r: Ring, n: Naive, mi: Mat): (es: seq<Vec>)
    requires ValidNaive(n) && Square(mi, n.width)
  {
    seq(n.nPartialRounds + 1, i requires 0 <= i <= n.nPartialRounds => Offset(r, n, mi, i))
  }

  // Every invertible naive instance has a factorization.
  lemma OptimizedFactors(r: Ring, n: Naive, mi: Mat, h: Mat)
    requires Lawful(r) && ValidNaive(n) && Invertible(r, n, mi, h)
    ensures Factors(r, Optimized(r, n, mi, h), n.transitionRc, n.partialRcs, Bases(r, n, h), Offsets(r, n, mi))
  {
    hide Lawful, Dot, Apply, MatMul, VAdd, FactorsRound, BlockDiagonal, SparseMatrix, Drawn, DotRow, ColumnOf,
         Transition;
    var p, np := Optimized(r, n, mi, h), n.nPartialRounds;
    forall i | 0 <= i < np
      ensures FactorsAt(r, p, n.partialRcs, Bases(r, n, h), Offsets(r, n, mi), i)
    {
      RoundFactors(r, n, mi, h, i);
    }
    TransitionFactors(r, n, mi, h);
    DrawnApplies(r, n.mds, mi, n.transitionRc, Offset(r, n, mi, 0));
    LastBasis(r, n, h);
  }

  lemma LastBasis(r: Ring, n: Naive, h: Mat)
    requires ValidNaive(n) && Square(h, n.width - 1)
    ensures forall t :: 0 <= t < n.width ==> Basis(r, n, h, n.nPartialRounds)[t] == UnitRow(r, n.width, t)
  {
    forall t | 0 <= t < n.width
      ensures Basis(r, n, h, n.nPartialRounds)[t] == UnitRow(r, n.width, t)
    {
      if t > 0 {
        assert [r.zero] + UnitRow(r, n.width - 1, t - 1) == UnitRow(r, n.width, t);
      }
    }
  }

  // And the schedule it gives is the naive one, on every state.
  lemma OptimizedIsNaive(r: Ring, sbox: F -> F, n: Naive, mi: Mat, h: Mat, s: Vec)
    requires Lawful(r) && ValidNaive(n) && Invertible(r, n, mi, h) && |s| == n.width
    ensures SparsePermute(r, sbox, Optimized(r, n, mi, h), s) == NaivePermute(r, sbox, n, s)
  {
    hide Lawful, Factors, SparsePermute, NaivePermute;
    OptimizedFactors(r, n, mi, h);
    SparseIsNaive(r, sbox, Optimized(r, n, mi, h), n, Bases(r, n, h), Offsets(r, n, mi), s);
  }
}

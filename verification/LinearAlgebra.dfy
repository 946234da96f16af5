/**
 Real vectors and matrices of any dimension, with the handful of facts the
 bandit scheduler needs: bilinearity of the dot product, linearity of the
 matrix-vector product, and the effect of a rank-one update on it.
 */
module LinearAlgebra {

  type Vec = seq<real>
  type Mat = seq<seq<real>>

  ghost predicate IsMat(m: Mat, d: nat) {
    |m| == d && forall i :: 0 <= i < d ==> |m[i]| == d
  }

  /** Sum of x[i] * y[i] over the first n coordinates. */
  function DotTo(x: Vec, y: Vec, n: nat): real
    requires n <= |x| && n <= |y|
  {
    if n == 0 then 0.0 else DotTo(x, y, n - 1) + x[n - 1] * y[n - 1]
  }

  function Dot(x: Vec, y: Vec): real
    requires |x| == |y|
  {
    DotTo(x, y, |x|)
  }

  /** x + c * y */
  function Axpy(x: Vec, c: real, y: Vec): (r: Vec)
    requires |x| == |y|
    ensures |r| == |x|
  {
    seq(|x|, i requires 0 <= i < |x| => x[i] + c * y[i])
  }

  function Zeros(d: nat): (r: Vec)
    ensures |r| == d
  {
    seq(d, i => 0.0)
  }

  /** The i-th row of the identity matrix. */
  function Unit(d: nat, i: nat): (r: Vec)
    ensures |r| == d
  {
    seq(d, j => if i == j then 1.0 else 0.0)
  }

  function Identity(d: nat): (r: Mat)
    ensures IsMat(r, d)
  {
    seq(d, i requires 0 <= i < d => Unit(d, i))
  }

  function MatVec(m: Mat, v: Vec): (r: Vec)
    requires IsMat(m, |v|)
    ensures |r| == |v|
  {
    seq(|v|, i requires 0 <= i < |v| => Dot(m[i], v))
  }

  function RankOneRow(m: Mat, c: real, u: Vec, w: Vec, i: nat): (r: Vec)
    requires |u| == |w| && IsMat(m, |u|) && i < |u|
    ensures |r| == |u|
  {
    Axpy(m[i], c * u[i], w)
  }

  /** m + c * u * w^T */
  function RankOne(m: Mat, c: real, u: Vec, w: Vec): (r: Mat)
    requires |u| == |w| && IsMat(m, |u|)
    ensures IsMat(r, |u|)
  {
    seq(|u|, i requires 0 <= i < |u| => RankOneRow(m, c, u, w, i))
  }

  lemma {:induction false} DotToAxpy(x: Vec, c: real, y: Vec, z: Vec, n: nat)
    requires |x| == |y| == |z| && n <= |x|
    ensures DotTo(Axpy(x, c, y), z, n) == DotTo(x, z, n) + c * DotTo(y, z, n)
  {
    if n > 0 {
      DotToAxpy(x, c, y, z, n - 1);
      assert Axpy(x, c, y)[n - 1] * z[n - 1] == x[n - 1] * z[n - 1] + c * (y[n - 1] * z[n - 1]);
    }
  }

  /** The dot product is linear in its left argument. */
  lemma DotAxpy(x: Vec, c: real, y: Vec, z: Vec)
    requires |x| == |y| == |z|
    ensures Dot(Axpy(x, c, y), z) == Dot(x, z) + c * Dot(y, z)
  {
    DotToAxpy(x, c, y, z, |x|);
  }

  lemma {:induction false} DotToComm(x: Vec, y: Vec, n: nat)
    requires n <= |x| && n <= |y|
    ensures DotTo(x, y, n) == DotTo(y, x, n)
  {
    if n > 0 {
      DotToComm(x, y, n - 1);
    }
  }

  lemma DotComm(x: Vec, y: Vec)
    requires |x| == |y|
    ensures Dot(x, y) == Dot(y, x)
  {
    DotToComm(x, y, |x|);
  }

  lemma ProductSign(a: real, b: real, p: real)
    requires p == a * b && a <= b <= a
    ensures p >= 0.0 && (p == 0.0 ==> a == 0.0)
  {
    if a > 0.0 {
      assert p > 0.0;
    } else if a < 0.0 {
      var m, n := -a, -b;
      assert m * n > 0.0;
      assert m * n == a * b;
    }
  }

  /** Squares are non-negative and vanish only at zero. */
  lemma SquareSign(a: real, square: real)
    requires square == a * a
    ensures square >= 0.0 && (square == 0.0 ==> a == 0.0)
  {
    ProductSign(a, a, square);
  }

  lemma DotToSquareStep(x: Vec, n: nat, square: real)
    requires 0 < n <= |x| && DotTo(x, x, n - 1) >= 0.0
    requires square == x[n - 1] * x[n - 1] && square >= 0.0
    ensures DotTo(x, x, n) == DotTo(x, x, n - 1) + square
    ensures DotTo(x, x, n) == 0.0 ==> DotTo(x, x, n - 1) == 0.0 && square == 0.0
  {
  }

  lemma {:induction false} DotToSquare(x: Vec, n: nat)
    requires n <= |x|
    ensures DotTo(x, x, n) >= 0.0
    ensures DotTo(x, x, n) == 0.0 ==> forall i :: 0 <= i < n ==> x[i] == 0.0
  {
    if n > 0 {
      DotToSquare(x, n - 1);
      SquareSign(x[n - 1], x[n - 1] * x[n - 1]);
      DotToSquareStep(x, n, x[n - 1] * x[n - 1]);
    }
  }

  /** The squared norm is positive definite. */
  lemma DotSquare(x: Vec)
    ensures Dot(x, x) >= 0.0
    ensures Dot(x, x) == 0.0 ==> x == Zeros(|x|)
  {
    DotToSquare(x, |x|);
  }

  lemma {:induction false} DotToUnit(d: nat, i: nat, v: Vec, n: nat)
    requires |v| == d && i < d && n <= d
    ensures DotTo(Unit(d, i), v, n) == if i < n then v[i] else 0.0
  {
    if n > 0 {
      DotToUnit(d, i, v, n - 1);
    }
  }

  lemma MatVecIdentity(v: Vec)
    ensures MatVec(Identity(|v|), v) == v
  {
    forall i | 0 <= i < |v|
      ensures MatVec(Identity(|v|), v)[i] == v[i]
    {
      DotToUnit(|v|, i, v, |v|);
    }
  }

  /** The i-th column of a symmetric matrix is its i-th row. */
  lemma MatVecUnit(m: Mat, d: nat, j: nat)
    requires IsMat(m, d) && j < d
    ensures forall i :: 0 <= i < d ==> MatVec(m, Unit(d, j))[i] == m[i][j]
  {
    forall i | 0 <= i < d
      ensures MatVec(m, Unit(d, j))[i] == m[i][j]
    {
      DotComm(m[i], Unit(d, j));
      DotToUnit(d, j, m[i], d);
    }
  }

  /** The matrix-vector product is linear. */
  lemma MatVecAxpy(m: Mat, x: Vec, c: real, y: Vec)
    requires |x| == |y| && IsMat(m, |x|)
    ensures MatVec(m, Axpy(x, c, y)) == Axpy(MatVec(m, x), c, MatVec(m, y))
  {
    var z := Axpy(x, c, y);
    forall i | 0 <= i < |x|
      ensures MatVec(m, z)[i] == Axpy(MatVec(m, x), c, MatVec(m, y))[i]
    {
      DotComm(m[i], z);
      DotAxpy(x, c, y, m[i]);
      DotComm(m[i], x);
      DotComm(m[i], y);
    }
  }

  /** (m + c u w^T) v == m v + c (w . v) u */
  lemma MatVecRankOne(m: Mat, c: real, u: Vec, w: Vec, v: Vec)
    requires |u| == |w| == |v| && IsMat(m, |u|)
    ensures MatVec(RankOne(m, c, u, w), v) == Axpy(MatVec(m, v), c * Dot(w, v), u)
  {
    forall i | 0 <= i < |u|
      ensures MatVec(RankOne(m, c, u, w), v)[i] == Axpy(MatVec(m, v), c * Dot(w, v), u)[i]
    {
      assert RankOne(m, c, u, w)[i] == RankOneRow(m, c, u, w, i);
      DotAxpy(m[i], c * u[i], w, v);
      assert (c * u[i]) * Dot(w, v) == (c * Dot(w, v)) * u[i];
    }
  }

  /** A matrix is determined by its action on vectors. */
  lemma MatExtensional(m: Mat, n: Mat, d: nat)
    requires IsMat(m, d) && IsMat(n, d)
    requires forall j :: 0 <= j < d ==> MatVec(m, Unit(d, j)) == MatVec(n, Unit(d, j))
    ensures m == n
  {
    forall i, j | 0 <= i < d && 0 <= j < d
      ensures m[i][j] == n[i][j]
    {
      MatVecUnit(m, d, j);
      MatVecUnit(n, d, j);
      assert MatVec(m, Unit(d, j))[i] == MatVec(n, Unit(d, j))[i];
    }
    forall i | 0 <= i < d
      ensures m[i] == n[i]
    {
    }
  }
}

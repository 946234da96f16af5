/**
 One arm of the disjoint linear bandit (internal/coordinator/scheduler/linucb.go),
 as a function of the outcomes recorded for it. The incremental state kept by the
 scheduler -- A, its Sherman-Morrison inverse and b -- is related to the batch
 definition: A = I + sum x x^T, Ainv = A^-1, b = sum r x, and theta = Ainv b is
 the ridge-regression solution.
 */
module LinUcbModel {
  import opened LinearAlgebra

  /** A feature vector together with the reward observed for it. */
  datatype Outcome = Outcome(x: Vec, r: real)

  datatype Arm = Arm(A: Mat, Ainv: Mat, b: Vec)

  type History = seq<Outcome>

  ghost predicate Fits(d: nat, h: History) {
    forall k :: 0 <= k < |h| ==> |h[k].x| == d
  }

  ghost predicate IsArm(d: nat, arm: Arm) {
    IsMat(arm.A, d) && IsMat(arm.Ainv, d) && |arm.b| == d
  }

  function FreshArm(d: nat): (arm: Arm)
    ensures IsArm(d, arm)
  {
    Arm(Identity(d), Identity(d), Zeros(d))
  }

  /** The quantity the code calls denom: 1 + x . (Ainv x). */
  function Denominator(arm: Arm, x: Vec): real
    requires IsMat(arm.Ainv, |x|)
  {
    1.0 + Dot(x, MatVec(arm.Ainv, x))
  }

  /** One recorded outcome, including the branch that keeps only the change to b. */
  function Record(d: nat, arm: Arm, o: Outcome): (res: Arm)
    requires IsArm(d, arm) && |o.x| == d
    ensures IsArm(d, res)
  {
    var u := MatVec(arm.Ainv, o.x);
    var denom := Denominator(arm, o.x);
    var b := Axpy(arm.b, o.r, o.x);
    if denom <= 0.0 then Arm(arm.A, arm.Ainv, b)
    else Arm(RankOne(arm.A, 1.0, o.x, o.x), RankOne(arm.Ainv, -1.0 / denom, u, u), b)
  }

  function ArmAfter(d: nat, h: History): (arm: Arm)
    requires Fits(d, h)
    ensures IsArm(d, arm)
  {
    if h == [] then FreshArm(d)
    else Record(d, ArmAfter(d, h[..|h| - 1]), h[|h| - 1])
  }

  /** theta as `score` computes it. */
  function Theta(d: nat, h: History): (t: Vec)
    requires Fits(d, h)
    ensures |t| == d
  {
    MatVec(ArmAfter(d, h).Ainv, ArmAfter(d, h).b)
  }

  /** The squared exploration width y . (Ainv y). */
  function Width(d: nat, h: History, y: Vec): real
    requires Fits(d, h) && |y| == d
  {
    Dot(y, MatVec(ArmAfter(d, h).Ainv, y))
  }

  // ---------------------------------------------------------------------
  // The batch definitions
  // ---------------------------------------------------------------------

  /** Entry (i, j) of I + sum x x^T. */
  function GramEntry(h: History, i: nat, j: nat): real
    requires forall k :: 0 <= k < |h| ==> i < |h[k].x| && j < |h[k].x|
  {
    if h == [] then if i == j then 1.0 else 0.0
    else var x := h[|h| - 1].x; GramEntry(h[..|h| - 1], i, j) + x[i] * x[j]
  }

  /** v . w + sum (x . v)(x . w), the bilinear form of the Gram matrix. */
  function GramForm(d: nat, h: History, v: Vec, w: Vec): real
    requires Fits(d, h) && |v| == |w| == d
  {
    if h == [] then Dot(v, w)
    else var x := h[|h| - 1].x; GramForm(d, h[..|h| - 1], v, w) + Dot(x, v) * Dot(x, w)
  }

  /** Entry i of sum r x. */
  function RewardEntry(h: History, i: nat): real
    requires forall k :: 0 <= k < |h| ==> i < |h[k].x|
  {
    if h == [] then 0.0
    else var o := h[|h| - 1]; RewardEntry(h[..|h| - 1], i) + o.r * o.x[i]
  }

  /** sum r (x . v) */
  function RewardForm(d: nat, h: History, v: Vec): real
    requires Fits(d, h) && |v| == d
  {
    if h == [] then 0.0
    else var o := h[|h| - 1]; RewardForm(d, h[..|h| - 1], v) + o.r * Dot(o.x, v)
  }

  /** Squared error of one outcome under the parameter t. */
  function Residual(o: Outcome, t: Vec): real
    requires |o.x| == |t|
  {
    (o.r - Dot(o.x, t)) * (o.r - Dot(o.x, t))
  }

  /** The ridge objective |t|^2 + sum (r - x . t)^2. */
  function Ridge(d: nat, h: History, t: Vec): real
    requires Fits(d, h) && |t| == d
  {
    if h == [] then Dot(t, t)
    else Ridge(d, h[..|h| - 1], t) + Residual(h[|h| - 1], t)
  }

  /** How often the vector x occurs in the history. */
  function Occurrences(h: History, x: Vec): nat {
    if h == [] then 0
    else Occurrences(h[..|h| - 1], x) + if h[|h| - 1].x == x then 1 else 0
  }

  // ---------------------------------------------------------------------
  // The inverse is symmetric, an inverse, and positive semidefinite
  // ---------------------------------------------------------------------

  /** Ainv is self-adjoint: (Ainv v) . w == v . (Ainv w). */
  lemma {:induction false} InverseSelfAdjoint(d: nat, h: History, v: Vec, w: Vec)
    requires Fits(d, h) && |v| == |w| == d
    ensures Dot(MatVec(ArmAfter(d, h).Ainv, v), w) == Dot(v, MatVec(ArmAfter(d, h).Ainv, w))
    decreases |h|, 0
  {
    if h == [] {
      MatVecIdentity(v);
      MatVecIdentity(w);
    } else {
      var h', o := h[..|h| - 1], h[|h| - 1];
      var arm := ArmAfter(d, h');
      InverseSelfAdjoint(d, h', v, w);
      if Denominator(arm, o.x) > 0.0 {
        var c, u := -1.0 / Denominator(arm, o.x), MatVec(arm.Ainv, o.x);
        RankOneSelfAdjoint(arm.Ainv, c, u, v, w);
      }
    }
  }

  lemma RankOneSelfAdjoint(m: Mat, c: real, u: Vec, v: Vec, w: Vec)
    requires |u| == |v| == |w| && IsMat(m, |u|)
    requires Dot(MatVec(m, v), w) == Dot(v, MatVec(m, w))
    ensures Dot(MatVec(RankOne(m, c, u, u), v), w) == Dot(v, MatVec(RankOne(m, c, u, u), w))
  {
    MatVecRankOne(m, c, u, u, v);
    MatVecRankOne(m, c, u, u, w);
    DotAxpy(MatVec(m, v), c * Dot(u, v), u, w);
    DotComm(v, MatVec(RankOne(m, c, u, u), w));
    DotAxpy(MatVec(m, w), c * Dot(u, w), u, v);
    DotComm(MatVec(m, w), v);
    assert (c * Dot(u, v)) * Dot(u, w) == (c * Dot(u, w)) * Dot(u, v);
  }

  /** Entrywise symmetry of both stored matrices. */
  lemma {:induction false} Symmetric(d: nat, h: History, i: nat, j: nat)
    requires Fits(d, h) && i < d && j < d
    ensures ArmAfter(d, h).A[i][j] == ArmAfter(d, h).A[j][i]
    ensures ArmAfter(d, h).Ainv[i][j] == ArmAfter(d, h).Ainv[j][i]
  {
    if h != [] {
      var h', o := h[..|h| - 1], h[|h| - 1];
      var arm := ArmAfter(d, h');
      Symmetric(d, h', i, j);
      if Denominator(arm, o.x) > 0.0 {
        RankOneSymmetric(arm.A, 1.0, o.x, i, j);
        RankOneSymmetric(arm.Ainv, -1.0 / Denominator(arm, o.x), MatVec(arm.Ainv, o.x), i, j);
      }
    }
  }

  lemma RankOneSymmetric(m: Mat, c: real, u: Vec, i: nat, j: nat)
    requires IsMat(m, |u|) && i < |u| && j < |u| && m[i][j] == m[j][i]
    ensures RankOne(m, c, u, u)[i][j] == RankOne(m, c, u, u)[j][i]
  {
    assert RankOne(m, c, u, u)[i] == RankOneRow(m, c, u, u, i);
    assert RankOne(m, c, u, u)[j] == RankOneRow(m, c, u, u, j);
    assert (c * u[i]) * u[j] == (c * u[j]) * u[i];
  }

  /** The Gram form is the form of the batch matrix, so it is bounded below by |v|^2. */
  lemma {:induction false} GramFormPositive(d: nat, h: History, v: Vec)
    requires Fits(d, h) && |v| == d
    ensures GramForm(d, h, v, v) >= Dot(v, v) >= 0.0
  {
    DotSquare(v);
    if h != [] {
      GramFormPositive(d, h[..|h| - 1], v);
      var p := Dot(h[|h| - 1].x, v);
      SquareSign(p, p * p);
    }
  }

  /** Sherman-Morrison, at one vector: if Ainv inverts A then the updated pair are inverse too. */
  lemma ShermanMorrison(A: Mat, Ainv: Mat, x: Vec, v: Vec, u: Vec, denom: real, c: real)
    requires |x| == |v| && IsMat(A, |x|) && IsMat(Ainv, |x|)
    requires u == MatVec(Ainv, x) && denom == 1.0 + Dot(x, u) && denom > 0.0 && c * denom == -1.0
    requires MatVec(A, u) == x && MatVec(A, MatVec(Ainv, v)) == v
    requires Dot(u, v) == Dot(x, MatVec(Ainv, v))
    ensures MatVec(RankOne(A, 1.0, x, x), MatVec(RankOne(Ainv, c, u, u), v)) == v
  {
    hide DotTo, MatVec, RankOne;
    var z := MatVec(Ainv, v);
    var w := MatVec(RankOne(Ainv, c, u, u), v);
    var k := c * Dot(u, v);
    MatVecRankOne(Ainv, c, u, u, v);
    assert w == Axpy(z, k, u);
    MatVecRankOne(A, 1.0, x, x, w);
    MatVecAxpy(A, z, k, u);
    DotComm(x, w);
    DotAxpy(z, k, u, x);
    DotComm(z, x);
    DotComm(u, x);
    var t := Dot(x, w);
    assert t == -k by {
      Cancel(denom, Dot(u, v), c, k, t);
    }
    forall i | 0 <= i < |x|
      ensures Axpy(Axpy(v, k, x), 1.0 * t, x)[i] == v[i]
    {
      assert k * x[i] + t * x[i] == (k + t) * x[i];
    }
    assert Axpy(Axpy(v, k, x), 1.0 * t, x) == v;
  }

  lemma Cancel(denom: real, s: real, c: real, k: real, t: real)
    requires c * denom == -1.0 && k == c * s && t == s + k * (denom - 1.0)
    ensures t == -k
  {
    assert k * denom == (c * denom) * s;
    assert k * (denom - 1.0) == k * denom - k;
  }

  /** Ainv really is a right inverse of A, whatever was recorded. */
  lemma {:induction false} RightInverse(d: nat, h: History, v: Vec)
    requires Fits(d, h) && |v| == d
    ensures MatVec(ArmAfter(d, h).A, MatVec(ArmAfter(d, h).Ainv, v)) == v
    decreases |h|, 0
  {
    if h == [] {
      MatVecIdentity(v);
    } else {
      var h', o := h[..|h| - 1], h[|h| - 1];
      var arm := ArmAfter(d, h');
      var u := MatVec(arm.Ainv, o.x);
      DenominatorAtLeastOne(d, h', o.x);
      RightInverse(d, h', v);
      RightInverse(d, h', o.x);
      InverseSelfAdjoint(d, h', o.x, v);
      var denom := Denominator(arm, o.x);
      ShermanMorrison(arm.A, arm.Ainv, o.x, v, u, denom, -1.0 / denom);
    }
  }

  /** How the last outcome of a history entered b ... */
  lemma RewardStep(d: nat, h: History)
    requires Fits(d, h) && h != []
    ensures var h', o := h[..|h| - 1], h[|h| - 1]; ArmAfter(d, h).b == Axpy(ArmAfter(d, h').b, o.r, o.x)
  {
    hide DotTo, MatVec, RankOne, Denominator, Axpy;
  }

  /** ... and, unless it was refused, A. */
  lemma MatrixStep(d: nat, h: History)
    requires Fits(d, h) && h != [] && Denominator(ArmAfter(d, h[..|h| - 1]), h[|h| - 1].x) > 0.0
    ensures var h', o := h[..|h| - 1], h[|h| - 1]; ArmAfter(d, h).A == RankOne(ArmAfter(d, h').A, 1.0, o.x, o.x)
  {
    hide DotTo, MatVec, RankOne, Denominator, Axpy;
  }

  /** One more outcome in the bilinear form of a matrix. */
  lemma FormStep(m: Mat, x: Vec, v: Vec, w: Vec)
    requires |x| == |v| == |w| && IsMat(m, |x|)
    ensures Dot(MatVec(RankOne(m, 1.0, x, x), v), w) == Dot(MatVec(m, v), w) + Dot(x, v) * Dot(x, w)
  {
    hide DotTo, MatVec, RankOne;
    MatVecRankOne(m, 1.0, x, x, v);
    var k := Dot(x, v);
    assert 1.0 * k == k;
    assert MatVec(RankOne(m, 1.0, x, x), v) == Axpy(MatVec(m, v), k, x);
    DotAxpy(MatVec(m, v), k, x, w);
  }

  /** The form of a new arm. */
  lemma FreshForm(d: nat, v: Vec, w: Vec)
    requires |v| == |w| == d
    ensures Dot(MatVec(ArmAfter(d, []).A, v), w) == GramForm(d, [], v, w)
  {
    MatVecIdentity(v);
  }

  /** A acts as the batch Gram matrix. */
  lemma {:induction false} GramAction(d: nat, h: History, v: Vec, w: Vec)
    requires Fits(d, h) && |v| == |w| == d
    ensures Dot(MatVec(ArmAfter(d, h).A, v), w) == GramForm(d, h, v, w)
    decreases |h|, 0
  {
    hide Dot, DotTo, MatVec, RankOne, ArmAfter, Denominator;
    if h == [] {
      FreshForm(d, v, w);
    } else {
      var h', o := h[..|h| - 1], h[|h| - 1];
      DenominatorAtLeastOne(d, h', o.x);
      MatrixStep(d, h);
      GramAction(d, h', v, w);
      FormStep(ArmAfter(d, h').A, o.x, v, w);
    }
  }

  /** y . (Ainv y) is the Gram form of w = Ainv y, so it is never negative. */
  lemma WidthIsGram(d: nat, h: History, y: Vec)
    requires Fits(d, h) && |y| == d
    ensures Width(d, h, y) == GramForm(d, h, MatVec(ArmAfter(d, h).Ainv, y), MatVec(ArmAfter(d, h).Ainv, y))
    ensures Width(d, h, y) >= 0.0
    decreases |h|, 1
  {
    var w := MatVec(ArmAfter(d, h).Ainv, y);
    RightInverse(d, h, y);
    GramAction(d, h, w, w);
    GramFormPositive(d, h, w);
  }

  /** The denominator never falls below one: the refuse-update branch is unreachable. */
  lemma DenominatorAtLeastOne(d: nat, h: History, x: Vec)
    requires Fits(d, h) && |x| == d
    ensures Denominator(ArmAfter(d, h), x) == 1.0 + Width(d, h, x) >= 1.0
    decreases |h|, 2
  {
    WidthIsGram(d, h, x);
  }

  lemma {:induction false} GramFormSymmetric(d: nat, h: History, v: Vec, w: Vec)
    requires Fits(d, h) && |v| == |w| == d
    ensures GramForm(d, h, v, w) == GramForm(d, h, w, v)
  {
    if h == [] {
      DotComm(v, w);
    } else {
      GramFormSymmetric(d, h[..|h| - 1], v, w);
    }
  }

  /** Both stored matrices are self-adjoint. */
  lemma SelfAdjoint(d: nat, h: History, v: Vec, w: Vec)
    requires Fits(d, h) && |v| == |w| == d
    ensures Dot(MatVec(ArmAfter(d, h).A, v), w) == Dot(v, MatVec(ArmAfter(d, h).A, w))
    ensures Dot(MatVec(ArmAfter(d, h).Ainv, v), w) == Dot(v, MatVec(ArmAfter(d, h).Ainv, w))
  {
    hide DotTo, MatVec, ArmAfter, GramForm;
    InverseSelfAdjoint(d, h, v, w);
    GramAction(d, h, v, w);
    GramAction(d, h, w, v);
    GramFormSymmetric(d, h, v, w);
    DotComm(v, MatVec(ArmAfter(d, h).A, w));
  }

  /** Ainv is a left inverse as well. */
  lemma LeftInverse(d: nat, h: History, v: Vec)
    requires Fits(d, h) && |v| == d
    ensures MatVec(ArmAfter(d, h).Ainv, MatVec(ArmAfter(d, h).A, v)) == v
  {
    var arm := ArmAfter(d, h);
    var av := MatVec(arm.A, v);
    forall i | 0 <= i < d
      ensures MatVec(arm.Ainv, av)[i] == v[i]
    {
      var e := Unit(d, i);
      var ie := MatVec(arm.Ainv, e);
      InverseSelfAdjoint(d, h, av, e);
      GramAction(d, h, v, ie);
      GramFormSymmetric(d, h, v, ie);
      GramAction(d, h, ie, v);
      RightInverse(d, h, e);
      DotComm(MatVec(arm.Ainv, av), e);
      DotToUnit(d, i, MatVec(arm.Ainv, av), d);
      DotToUnit(d, i, v, d);
    }
  }

  // ---------------------------------------------------------------------
  // The stored state equals the batch definition
  // ---------------------------------------------------------------------

  /** Every entry of A is the entry of I + sum x x^T. */
  lemma {:induction false} GramMatrix(d: nat, h: History, i: nat, j: nat)
    requires Fits(d, h) && i < d && j < d
    ensures ArmAfter(d, h).A[i][j] == GramEntry(h, i, j)
  {
    if h != [] {
      var h', o := h[..|h| - 1], h[|h| - 1];
      hide Dot, DotTo, MatVec, RankOne, ArmAfter, Denominator;
      GramMatrix(d, h', i, j);
      DenominatorAtLeastOne(d, h', o.x);
      MatrixStep(d, h);
      OuterEntry(ArmAfter(d, h').A, o.x, i, j);
    }
  }

  lemma OuterEntry(m: Mat, x: Vec, i: nat, j: nat)
    requires IsMat(m, |x|) && i < |x| && j < |x|
    ensures RankOne(m, 1.0, x, x)[i][j] == m[i][j] + x[i] * x[j]
  {
    assert RankOne(m, 1.0, x, x)[i] == RankOneRow(m, 1.0, x, x, i);
  }

  /** b is sum r x, entry by entry. */
  lemma {:induction false} RewardVector(d: nat, h: History, i: nat)
    requires Fits(d, h) && i < d
    ensures ArmAfter(d, h).b[i] == RewardEntry(h, i)
  {
    hide Dot, DotTo, MatVec, RankOne, Denominator;
    if h != [] {
      hide ArmAfter;
      RewardStep(d, h);
      RewardVector(d, h[..|h| - 1], i);
    }
  }

  /** The same through the dot product with any v. */
  lemma {:induction false} RewardAction(d: nat, h: History, v: Vec)
    requires Fits(d, h) && |v| == d
    ensures Dot(ArmAfter(d, h).b, v) == RewardForm(d, h, v)
  {
    hide DotTo, MatVec, RankOne, Denominator, Axpy;
    if h == [] {
      DotZeros(d, v, d);
    } else {
      var h', o := h[..|h| - 1], h[|h| - 1];
      hide Dot, ArmAfter;
      RewardStep(d, h);
      RewardAction(d, h', v);
      DotAxpy(ArmAfter(d, h').b, o.r, o.x, v);
    }
  }

  lemma {:induction false} DotZeros(d: nat, v: Vec, n: nat)
    requires |v| == d && n <= d
    ensures DotTo(Zeros(d), v, n) == 0.0
  {
    if n > 0 {
      DotZeros(d, v, n - 1);
    }
  }

  /** A Ainv == I entry by entry (row j of Ainv is its column j, by Symmetric). */
  lemma ProductIsIdentity(d: nat, h: History, i: nat, j: nat)
    requires Fits(d, h) && i < d && j < d
    ensures Dot(ArmAfter(d, h).A[i], ArmAfter(d, h).Ainv[j]) == if i == j then 1.0 else 0.0
  {
    var arm := ArmAfter(d, h);
    var e := Unit(d, j);
    MatVecUnit(arm.Ainv, d, j);
    forall k | 0 <= k < d
      ensures MatVec(arm.Ainv, e)[k] == arm.Ainv[j][k]
    {
      Symmetric(d, h, k, j);
    }
    assert MatVec(arm.Ainv, e) == arm.Ainv[j];
    RightInverse(d, h, e);
    assert MatVec(arm.A, arm.Ainv[j])[i] == e[i];
  }

  // ---------------------------------------------------------------------
  // theta is the ridge-regression solution
  // ---------------------------------------------------------------------

  lemma ResidualShift(o: Outcome, t: Vec, delta: Vec)
    requires |o.x| == |t| == |delta|
    ensures Residual(o, Axpy(t, 1.0, delta))
         == Residual(o, t) + 2.0 * (Dot(o.x, t) * Dot(o.x, delta) - o.r * Dot(o.x, delta))
            + Dot(o.x, delta) * Dot(o.x, delta)
  {
    DotComm(o.x, Axpy(t, 1.0, delta));
    DotAxpy(t, 1.0, delta, o.x);
    DotComm(t, o.x);
    DotComm(delta, o.x);
    SquareOfDifference(o.r, Dot(o.x, t), Dot(o.x, delta), Dot(o.x, Axpy(t, 1.0, delta)));
  }

  lemma SquareOfDifference(r: real, p: real, q: real, s: real)
    requires s == p + q
    ensures (r - s) * (r - s) == (r - p) * (r - p) + 2.0 * (p * q - r * q) + q * q
  {
  }

  /** Second-order expansion of the ridge objective around t. */
  lemma {:induction false} RidgeShift(d: nat, h: History, t: Vec, delta: Vec)
    requires Fits(d, h) && |t| == |delta| == d
    ensures Ridge(d, h, Axpy(t, 1.0, delta))
         == Ridge(d, h, t) + 2.0 * (GramForm(d, h, t, delta) - RewardForm(d, h, delta))
            + GramForm(d, h, delta, delta)
  {
    hide DotTo, MatVec;
    var s := Axpy(t, 1.0, delta);
    if h == [] {
      DotAxpy(t, 1.0, delta, s);
      DotComm(t, s);
      DotComm(delta, s);
      DotAxpy(t, 1.0, delta, t);
      DotAxpy(t, 1.0, delta, delta);
      DotComm(delta, t);
    } else {
      RidgeShift(d, h[..|h| - 1], t, delta);
      ResidualShift(h[|h| - 1], t, delta);
    }
  }

  /** The normal equations: A theta == b. */
  lemma NormalEquations(d: nat, h: History, v: Vec)
    requires Fits(d, h) && |v| == d
    ensures GramForm(d, h, Theta(d, h), v) == RewardForm(d, h, v)
  {
    RightInverse(d, h, ArmAfter(d, h).b);
    GramAction(d, h, Theta(d, h), v);
    RewardAction(d, h, v);
  }

  /** theta minimises |t|^2 + sum (r - x . t)^2, and nothing else attains the minimum. */
  lemma ThetaIsRidgeMinimiser(d: nat, h: History, t: Vec)
    requires Fits(d, h) && |t| == d
    ensures Ridge(d, h, Theta(d, h)) <= Ridge(d, h, t)
    ensures Ridge(d, h, Theta(d, h)) == Ridge(d, h, t) <==> t == Theta(d, h)
  {
    var best := Theta(d, h);
    var delta := Axpy(t, -1.0, best);
    assert Axpy(best, 1.0, delta) == t;
    RidgeShift(d, h, best, delta);
    NormalEquations(d, h, delta);
    GramFormPositive(d, h, delta);
    DotSquare(delta);
    if t != best {
      var i :| 0 <= i < d && t[i] != best[i];
      assert delta[i] != Zeros(d)[i];
    }
  }

  // ---------------------------------------------------------------------
  // The exploration width only shrinks
  // ---------------------------------------------------------------------

  /** (c p) p, the change a rank-one term c u u^T makes to y . (m y) when u . y == p. */
  function ScaledSquare(c: real, p: real): real {
    (c * p) * p
  }

  /** What one outcome o adds to the squared width at y: -(u . y)^2 / denom with u = Ainv x. */
  function Shrinkage(d: nat, h: History, o: Outcome, y: Vec): real
    requires Fits(d, h) && |o.x| == d && |y| == d && Denominator(ArmAfter(d, h), o.x) != 0.0
  {
    ScaledSquare(-1.0 / Denominator(ArmAfter(d, h), o.x), Dot(MatVec(ArmAfter(d, h).Ainv, o.x), y))
  }

  lemma RankOneQuadratic(m: Mat, c: real, u: Vec, y: Vec)
    requires |u| == |y| && IsMat(m, |u|)
    ensures Dot(y, MatVec(RankOne(m, c, u, u), y)) == Dot(y, MatVec(m, y)) + ScaledSquare(c, Dot(u, y))
  {
    MatVecRankOne(m, c, u, u, y);
    DotComm(y, MatVec(RankOne(m, c, u, u), y));
    DotAxpy(MatVec(m, y), c * Dot(u, y), u, y);
    DotComm(MatVec(m, y), y);
  }

  /** The Sherman-Morrison branch is the one taken. */
  lemma RecordedInverse(d: nat, h: History, o: Outcome)
    requires Fits(d, h) && |o.x| == d
    ensures Fits(d, h + [o]) && Denominator(ArmAfter(d, h), o.x) >= 1.0
    ensures ArmAfter(d, h + [o]).Ainv
         == RankOne(ArmAfter(d, h).Ainv, -1.0 / Denominator(ArmAfter(d, h), o.x),
                    MatVec(ArmAfter(d, h).Ainv, o.x), MatVec(ArmAfter(d, h).Ainv, o.x))
  {
    DenominatorAtLeastOne(d, h, o.x);
    assert (h + [o])[..|h|] == h;
  }

  lemma ShrinkageNonPositive(d: nat, h: History, o: Outcome, y: Vec)
    requires Fits(d, h) && |o.x| == d && |y| == d
    ensures Denominator(ArmAfter(d, h), o.x) >= 1.0 && Shrinkage(d, h, o, y) <= 0.0
  {
    DenominatorAtLeastOne(d, h, o.x);
    NonPositiveScale(-1.0 / Denominator(ArmAfter(d, h), o.x), Dot(MatVec(ArmAfter(d, h).Ainv, o.x), y));
  }

  /** Exactly how much one outcome shrinks the width at y. */
  lemma WidthStep(d: nat, h: History, o: Outcome, y: Vec)
    requires Fits(d, h) && |o.x| == d && |y| == d
    ensures Fits(d, h + [o]) && Denominator(ArmAfter(d, h), o.x) >= 1.0
    ensures Width(d, h + [o], y) == Width(d, h, y) + Shrinkage(d, h, o, y)
  {
    RecordedInverse(d, h, o);
    var arm := ArmAfter(d, h);
    RankOneQuadratic(arm.Ainv, -1.0 / Denominator(arm, o.x), MatVec(arm.Ainv, o.x), y);
  }

  lemma NonPositiveScale(c: real, a: real)
    requires c <= 0.0
    ensures ScaledSquare(c, a) <= 0.0
  {
    var p := a * a;
    SquareSign(a, p);
    assert (c * a) * a == c * p;
  }

  /** Recording anything never widens the bonus of any context. */
  lemma {:induction false} WidthNeverGrows(d: nat, h: History, more: History, y: Vec)
    requires Fits(d, h) && Fits(d, more) && |y| == d
    ensures Fits(d, h + more)
    ensures 0.0 <= Width(d, h + more, y) <= Width(d, h, y)
    decreases |more|
  {
    if more == [] {
      assert h + more == h;
      WidthIsGram(d, h, y);
    } else {
      var init, o := more[..|more| - 1], more[|more| - 1];
      assert more == init + [o] && h + more == (h + init) + [o];
      WidthNeverGrows(d, h, init, y);
      WidthIsGram(d, h + more, y);
      WidthStep(d, h + init, o, y);
      ShrinkageNonPositive(d, h + init, o, y);
    }
  }

  /** n copies of s added up. */
  function Repeated(n: nat, s: real): real {
    if n == 0 then 0.0 else Repeated(n - 1, s) + s
  }

  lemma {:induction false} GramFormCounts(d: nat, h: History, x: Vec, w: Vec, s: real)
    requires Fits(d, h) && |x| == |w| == d && s == Dot(x, w) * Dot(x, w)
    ensures GramForm(d, h, w, w) >= Repeated(Occurrences(h, x), s)
  {
    if h == [] {
      DotSquare(w);
    } else {
      var o := h[|h| - 1];
      GramFormCounts(d, h[..|h| - 1], x, w, s);
      var p := Dot(o.x, w);
      SquareSign(p, p * p);
    }
  }

  lemma {:induction false} RepeatedIsProduct(n: nat, s: real)
    ensures Repeated(n, s) == (n as real) * s
  {
    if n > 0 {
      RepeatedIsProduct(n - 1, s);
      assert ((n - 1) as real) * s + s == (n as real) * s;
    }
  }

  lemma ReciprocalBound(n: nat, q: real, s: real)
    requires n > 0 && s == q * q && q >= Repeated(n, s)
    ensures q <= 1.0 / (n as real)
  {
    RepeatedIsProduct(n, s);
    if q > 0.0 {
      DivideBy(n as real, q, s, q);
    }
  }

  lemma DivideBy(n: real, q: real, s: real, q': real)
    requires n > 0.0 && q > 0.0 && q <= q' <= q && s == q * q' && q >= n * s
    ensures q <= 1.0 / n
  {
    var a := n * q;
    assert n * s == a * q';
    assert a <= 1.0;
    assert q == a * (1.0 / n);
  }

  lemma RepeatsBound(d: nat, h: History, x: Vec, w: Vec, s: real)
    requires Fits(d, h) && |x| == |w| == d && Occurrences(h, x) > 0
    requires Dot(x, w) == GramForm(d, h, w, w) && s == Dot(x, w) * Dot(x, w)
    ensures Dot(x, w) <= 1.0 / (Occurrences(h, x) as real)
  {
    hide *;
    GramFormCounts(d, h, x, w, s);
    ReciprocalBound(Occurrences(h, x), Dot(x, w), s);
  }

  /** After n outcomes with the same x, in any order among others, the squared width at x is at most 1/n. */
  lemma WidthAfterRepeats(d: nat, h: History, x: Vec)
    requires Fits(d, h) && |x| == d && Occurrences(h, x) > 0
    ensures Width(d, h, x) <= 1.0 / (Occurrences(h, x) as real)
  {
    WidthIsGram(d, h, x);
    var w := MatVec(ArmAfter(d, h).Ainv, x);
    var s := Dot(x, w) * Dot(x, w);
    RepeatsBound(d, h, x, w, s);
  }

  // ---------------------------------------------------------------------
  // Only the collection of outcomes matters, not their order
  // ---------------------------------------------------------------------

  function Without(h: History, k: nat): (r: History)
    requires k < |h|
    ensures |r| == |h| - 1
  {
    h[..k] + h[k + 1..]
  }

  function SumOf(h: History, f: Outcome -> real): real {
    if h == [] then 0.0 else SumOf(h[..|h| - 1], f) + f(h[|h| - 1])
  }

  lemma {:induction false} SumWithout(h: History, k: nat, f: Outcome -> real)
    requires k < |h|
    ensures SumOf(h, f) == SumOf(Without(h, k), f) + f(h[k])
  {
    var h', last := h[..|h| - 1], h[|h| - 1];
    if k == |h| - 1 {
      assert Without(h, k) == h';
    } else {
      var w := Without(h, k);
      assert w[..|w| - 1] == Without(h', k) && w[|w| - 1] == last;
      SumWithout(h', k, f);
    }
  }

  lemma MultisetWithout(h: History, k: nat)
    requires k < |h|
    ensures multiset(Without(h, k)) == multiset(h) - multiset{h[k]}
  {
    var left, right := h[..k], h[k + 1..];
    assert h == left + [h[k]] + right;
  }

  lemma InitMultiset(g: History)
    requires g != []
    ensures multiset(g[..|g| - 1]) == multiset(g) - multiset{g[|g| - 1]}
  {
    assert g == g[..|g| - 1] + [g[|g| - 1]];
  }

  lemma FindLast(g: History, h: History) returns (k: nat)
    requires g != [] && multiset(g) == multiset(h)
    ensures k < |h| && h[k] == g[|g| - 1]
    ensures multiset(g[..|g| - 1]) == multiset(Without(h, k))
  {
    hide Without;
    var last := g[|g| - 1];
    InitMultiset(g);
    assert last in multiset(g);
    assert last in h;
    k :| 0 <= k < |h| && h[k] == last;
    MultisetWithout(h, k);
  }

  /** A sum over outcomes does not depend on their order. */
  lemma {:induction false} SumOrder(g: History, h: History, f: Outcome -> real)
    requires multiset(g) == multiset(h)
    ensures SumOf(g, f) == SumOf(h, f)
    decreases |g|
  {
    if g == [] {
      assert |multiset(h)| == |h|;
    } else {
      var k := FindLast(g, h);
      SumWithout(h, k, f);
      SumOrder(g[..|g| - 1], Without(h, k), f);
    }
  }

  lemma {:induction false} GramEntryIsSum(h: History, i: nat, j: nat, f: Outcome -> real)
    requires forall k :: 0 <= k < |h| ==> i < |h[k].x| && j < |h[k].x|
    requires forall k :: 0 <= k < |h| ==> f(h[k]) == h[k].x[i] * h[k].x[j]
    ensures GramEntry(h, i, j) == (if i == j then 1.0 else 0.0) + SumOf(h, f)
  {
    if h != [] {
      GramEntryIsSum(h[..|h| - 1], i, j, f);
    }
  }

  lemma {:induction false} RewardEntryIsSum(h: History, i: nat, f: Outcome -> real)
    requires forall k :: 0 <= k < |h| ==> i < |h[k].x| && f(h[k]) == h[k].r * h[k].x[i]
    ensures RewardEntry(h, i) == SumOf(h, f)
  {
    if h != [] {
      RewardEntryIsSum(h[..|h| - 1], i, f);
    }
  }

  lemma BatchOrder(d: nat, g: History, h: History, i: nat, j: nat)
    requires Fits(d, g) && Fits(d, h) && multiset(g) == multiset(h) && i < d && j < d
    ensures GramEntry(g, i, j) == GramEntry(h, i, j)
    ensures RewardEntry(g, i) == RewardEntry(h, i)
  {
    var gram := (o: Outcome) => if |o.x| == d then o.x[i] * o.x[j] else 0.0;
    var reward := (o: Outcome) => if |o.x| == d then o.r * o.x[i] else 0.0;
    GramEntryIsSum(g, i, j, gram);
    GramEntryIsSum(h, i, j, gram);
    RewardEntryIsSum(g, i, reward);
    RewardEntryIsSum(h, i, reward);
    SumOrder(g, h, gram);
    SumOrder(g, h, reward);
  }

  lemma InverseUnique(d: nat, g: History, h: History, v: Vec)
    requires Fits(d, g) && Fits(d, h) && |v| == d && ArmAfter(d, g).A == ArmAfter(d, h).A
    ensures MatVec(ArmAfter(d, g).Ainv, v) == MatVec(ArmAfter(d, h).Ainv, v)
  {
    RightInverse(d, h, v);
    LeftInverse(d, g, MatVec(ArmAfter(d, h).Ainv, v));
  }

  /** Two histories with the same outcomes in any order leave exactly the same arm, hence the same theta and widths. */
  lemma OrderIrrelevant(d: nat, g: History, h: History)
    requires Fits(d, g) && Fits(d, h) && multiset(g) == multiset(h)
    ensures ArmAfter(d, g) == ArmAfter(d, h)
  {
    var a, b := ArmAfter(d, g), ArmAfter(d, h);
    forall i | 0 <= i < d
      ensures a.A[i] == b.A[i] && a.b[i] == b.b[i]
    {
      forall j | 0 <= j < d
        ensures a.A[i][j] == b.A[i][j]
      {
        GramMatrix(d, g, i, j);
        GramMatrix(d, h, i, j);
        BatchOrder(d, g, h, i, j);
      }
      BatchOrder(d, g, h, i, i);
      RewardVector(d, g, i);
      RewardVector(d, h, i);
    }
    assert a.A == b.A && a.b == b.b;
    forall j | 0 <= j < d
      ensures MatVec(a.Ainv, Unit(d, j)) == MatVec(b.Ainv, Unit(d, j))
    {
      InverseUnique(d, g, h, Unit(d, j));
    }
    MatExtensional(a.Ainv, b.Ainv, d);
  }
}

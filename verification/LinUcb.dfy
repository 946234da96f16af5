/**
 The LinUCB scheduler itself (internal/coordinator/scheduler/linucb.go): arms
 whose matrices are updated in place by nested index loops, the lazily
 recomputed theta, the map of arms and the map of feature vectors awaiting an
 outcome. Each method is proved to keep the arm equal to the state that
 LinUcbModel assigns to the outcomes recorded so far.
 */
module LinUcb {
  import opened LinearAlgebra
  import opened LinUcbModel
  import opened Common
  import opened Registry
  import opened Feedback
  import opened Selection

  /** The two-dimensional array a holds the matrix m. */
  ghost predicate Holds(a: array2<real>, m: Mat)
    reads a
  {
    && a.Length0 == a.Length1 == |m| && IsMat(m, |m|)
    && forall i, j :: 0 <= i < |m| && 0 <= j < |m| ==> a[i, j] == m[i][j]
  }

  method DotProduct(x: Vec, y: Vec) returns (s: real)
    requires |x| == |y|
    ensures s == Dot(x, y)
  {
    s := 0.0;
    for i := 0 to |x|
      invariant s == DotTo(x, y, i)
    {
      s := s + x[i] * y[i];
    }
  }

  method MulMatVec(a: array2<real>, v: Vec, ghost m: Mat) returns (out: Vec)
    requires Holds(a, m) && |v| == |m|
    ensures out == MatVec(m, v)
  {
    out := [];
    for i := 0 to a.Length0
      invariant |out| == i
      invariant forall k :: 0 <= k < i ==> out[k] == Dot(m[k], v)
    {
      var s := 0.0;
      for j := 0 to a.Length1
        invariant s == DotTo(m[i], v, j)
      {
        s := s + a[i, j] * v[j];
      }
      out := out + [s];
    }
  }

  ghost function OuterQuotient(u: Vec, i: nat, j: nat, denom: real): real
    requires i < |u| && j < |u| && denom > 0.0
  {
    u[i] * u[j] / denom
  }

  lemma QuotientForm(a: real, b: real, denom: real)
    requires denom > 0.0
    ensures -(a * b / denom) == (-1.0 / denom * a) * b
  {
    var inv := 1.0 / denom;
    assert a * b / denom == (a * b) * inv;
    assert -1.0 / denom == -inv;
  }

  class LinUcbArm {
    const d: nat
    const A: array2<real>
    const Ainv: array2<real>
    const b: array<real>
    var theta: Vec
    var dirty: bool
    var count: nat
    ghost var history: History

    ghost const Repr: set<object>

    ghost predicate Valid()
      reads this, Repr
      ensures Valid() ==> this in Repr && Fits(d, history)
    {
      && this in Repr && A in Repr && Ainv in Repr && b in Repr && A != Ainv
      && Fits(d, history)
      && Holds(A, ArmAfter(d, history).A)
      && Holds(Ainv, ArmAfter(d, history).Ainv)
      && b[..] == ArmAfter(d, history).b
      && |theta| == d
      && (!dirty ==> theta == Theta(d, history))
      && count == |history|
    }

    constructor (d: nat)
      ensures Valid() && fresh(Repr)
      ensures this.d == d && history == [] && !dirty
    {
      this.d := d;
      A := new real[d, d]((i, j) => 0.0);
      Ainv := new real[d, d]((i, j) => 0.0);
      b := new real[d](i => 0.0);
      theta := seq(d, i => 0.0);
      dirty, count := false, 0;
      history := [];
      Repr := {this, A, Ainv, b};
      new;
      for i := 0 to d
        modifies A, Ainv
        invariant forall k, j :: 0 <= k < d && 0 <= j < d ==>
          A[k, j] == Ainv[k, j] == if k == j && k < i then 1.0 else 0.0
      {
        A[i, i] := 1.0;
        Ainv[i, i] := 1.0;
      }
      MatVecIdentity(Zeros(d));
      assert b[..] == Zeros(d);
    }

    /** The mean estimate theta . x and the squared width x . Ainv x; the clamp at zero never acts. */
    method Score(x: Vec) returns (mean: real, q: real)
      requires Valid() && |x| == d
      modifies this`theta, this`dirty
      ensures Valid() && mean == Dot(Theta(d, history), x) && q == Width(d, history, x) >= 0.0
    {
      if dirty {
        theta := MulMatVec(Ainv, b[..], ArmAfter(d, history).Ainv);
        dirty := false;
      }
      mean := DotProduct(theta, x);
      var tmp := MulMatVec(Ainv, x, ArmAfter(d, history).Ainv);
      q := DotProduct(x, tmp);
      WidthIsGram(d, history, x);
      if q < 0.0 {
        q := 0.0;
      }
    }

    /** The part of RecordOutcome that runs on the arm once the feature vector has been found. */
    method Record(x: Vec, reward: real)
      requires Valid() && |x| == d
      modifies Repr
      ensures Valid() && history == old(history) + [Outcome(x, reward)]
    {
      ghost var arm := ArmAfter(d, history);
      ghost var o := Outcome(x, reward);
      ghost var next := ArmAfter(d, history + [o]);
      assert (history + [o])[..|history|] == history;
      DenominatorAtLeastOne(d, history, x);

      AddToB(x, reward, arm.b);
      var u := MulMatVec(Ainv, x, arm.Ainv);
      var xu := DotProduct(x, u);
      var denom := 1.0 + xu;
      if denom <= 0.0 {
        // the code refuses the update here; DenominatorAtLeastOne rules the branch out
        assert false;
      }

      var outer := OuterOver(u, denom);
      SubtractOuter(outer, u, denom, arm.Ainv);
      assert next.Ainv == RankOne(arm.Ainv, -1.0 / denom, u, u);
      AddOuter(x, arm.A);
      assert next.A == RankOne(arm.A, 1.0, x, x);

      count := count + 1;
      dirty := true;
      history := history + [o];
      assert b[..] == next.b;
    }

    /** b <- b + reward x */
    method AddToB(x: Vec, reward: real, ghost was: Vec)
      requires |x| == d && b[..] == was && |was| == d
      modifies b
      ensures b[..] == Axpy(was, reward, x)
    {
      ghost var goal := Axpy(was, reward, x);
      for i := 0 to d
        invariant forall k :: 0 <= k < d ==> b[k] == if k < i then goal[k] else was[k]
      {
        assert goal[i] == was[i] + reward * x[i];
        b[i] := b[i] + reward * x[i];
      }
    }

    /** u u^T / denom as a new array */
    method OuterOver(u: Vec, denom: real) returns (outer: array2<real>)
      requires |u| == d && denom > 0.0
      ensures fresh(outer) && outer.Length0 == outer.Length1 == d
      ensures forall i, j :: 0 <= i < d && 0 <= j < d ==> outer[i, j] == OuterQuotient(u, i, j, denom)
    {
      outer := new real[d, d];
      for i := 0 to d
        invariant forall k, j :: 0 <= k < i && 0 <= j < d ==> outer[k, j] == OuterQuotient(u, k, j, denom)
      {
        var ui := u[i];
        for j := 0 to d
          invariant forall k, l :: 0 <= k < i && 0 <= l < d ==> outer[k, l] == OuterQuotient(u, k, l, denom)
          invariant forall l :: 0 <= l < j ==> outer[i, l] == OuterQuotient(u, i, l, denom)
        {
          outer[i, j] := ui * u[j] / denom;
        }
      }
    }

    /** Ainv <- Ainv - outer */
    method SubtractOuter(outer: array2<real>, u: Vec, denom: real, ghost m: Mat)
      requires |u| == d && denom > 0.0 && Holds(Ainv, m) && |m| == d
      requires outer != Ainv && outer.Length0 == outer.Length1 == d
      requires forall i, j :: 0 <= i < d && 0 <= j < d ==> outer[i, j] == OuterQuotient(u, i, j, denom)
      modifies Ainv
      ensures Holds(Ainv, RankOne(m, -1.0 / denom, u, u))
    {
      ghost var goal := RankOne(m, -1.0 / denom, u, u);
      for i := 0 to d
        invariant forall k, j :: 0 <= k < d && 0 <= j < d ==>
          Ainv[k, j] == if k < i then goal[k][j] else m[k][j]
      {
        for j := 0 to d
          invariant forall k, l :: 0 <= k < d && 0 <= l < d ==>
            Ainv[k, l] == if k < i || (k == i && l < j) then goal[k][l] else m[k][l]
        {
          assert goal[i] == RankOneRow(m, -1.0 / denom, u, u, i);
          QuotientForm(u[i], u[j], denom);
          Ainv[i, j] := Ainv[i, j] - outer[i, j];
        }
      }
    }

    /** A <- A + x x^T */
    method AddOuter(x: Vec, ghost m: Mat)
      requires |x| == d && Holds(A, m) && |m| == d
      modifies A
      ensures Holds(A, RankOne(m, 1.0, x, x))
    {
      ghost var goal := RankOne(m, 1.0, x, x);
      for i := 0 to d
        invariant forall k, j :: 0 <= k < d && 0 <= j < d ==>
          A[k, j] == if k < i then goal[k][j] else m[k][j]
      {
        var xi := x[i];
        for j := 0 to d
          invariant forall k, l :: 0 <= k < d && 0 <= l < d ==>
            A[k, l] == if k < i || (k == i && l < j) then goal[k][l] else m[k][l]
        {
          OuterEntry(m, x, i, j);
          A[i, j] := A[i, j] + xi * x[j];
        }
      }
    }
  }

  /** The history of a worker; empty for one never seen. */
  ghost function Recorded(hs: map<string, History>, id: string): History {
    if id in hs then hs[id] else []
  }

  ghost function Touched(hs: map<string, History>, id: string): map<string, History> {
    hs[id := Recorded(hs, id)]
  }

  /** Every recorded vector of every worker has dimension d. */
  ghost predicate AllFit(d: nat, hs: map<string, History>) {
    forall id :: id in hs ==> Fits(d, hs[id])
  }

  /** theta . x for a worker under the recorded outcomes. */
  ghost function MeanScore(d: nat, hs: map<string, History>, id: string, x: Vec): real
    requires AllFit(d, hs) && |x| == d
  {
    Dot(Theta(d, Recorded(hs, id)), x)
  }

  /** theta . x + alpha * sqrt(x . Ainv x), the score of Algorithm 1. */
  ghost function UcbScore(d: nat, alpha: real, root: real -> real, hs: map<string, History>, id: string, x: Vec): real
    requires AllFit(d, hs) && |x| == d
  {
    MeanScore(d, hs, id, x) + alpha * root(Width(d, Recorded(hs, id), x))
  }

  /** Equal up to arms without outcomes. */
  ghost predicate SameRecords(g: map<string, History>, h: map<string, History>) {
    forall id :: Recorded(g, id) == Recorded(h, id)
  }

  // ---------------------------------------------------------------------
  // What is known when
  // ---------------------------------------------------------------------

  /** The vectors awaiting an outcome, and the outcomes recorded for each worker. */
  datatype Knowledge = Knowledge(pending: map<string, Vec>, histories: map<string, History>)

  ghost predicate Known(d: nat, l: Knowledge) {
    AllFit(d, l.histories) && forall t :: t in l.pending ==> |l.pending[t]| == d
  }

  /** What RecordOutcome does: the task's vector moves from the pending map to the worker's record, or nothing happens. */
  ghost function Taught(l: Knowledge, id: string, reward: Reward, task: string): Knowledge {
    if id == "" || reward.NotFinite? || task !in l.pending then l
    else Knowledge(l.pending - {task},
                   l.histories[id := Recorded(l.histories, id) + [Outcome(l.pending[task], reward.value)]])
  }

  /** What another call may do while a selection is between two candidates, for the lock is taken once for each. */
  datatype Interruption = Learns(id: string, reward: Reward, task: string) | Caches(task: string, x: Vec)

  ghost predicate Sized(d: nat, es: seq<Interruption>) {
    forall i :: 0 <= i < |es| && es[i].Caches? ==> |es[i].x| == d
  }

  ghost function Interrupted(l: Knowledge, e: Interruption): Knowledge {
    match e
    case Learns(id, reward, task) => Taught(l, id, reward, task)
    case Caches(task, x) => l.(pending := l.pending[task := x])
  }

  ghost function InterruptedAll(l: Knowledge, es: seq<Interruption>): Knowledge {
    if es == [] then l else Interrupted(InterruptedAll(l, es[..|es| - 1]), es[|es| - 1])
  }

  /** What is known after the first n batches of interruptions. */
  ghost function Moment(l: Knowledge, between: nat -> seq<Interruption>, n: nat): Knowledge {
    if n == 0 then l else InterruptedAll(Moment(l, between, n - 1), between(n - 1))
  }

  lemma {:induction false} StaysKnown(d: nat, l: Knowledge, es: seq<Interruption>)
    requires Known(d, l) && Sized(d, es)
    ensures Known(d, InterruptedAll(l, es))
  {
    if es != [] {
      StaysKnown(d, l, es[..|es| - 1]);
    }
  }

  lemma {:induction false} MomentsKnown(d: nat, l: Knowledge, between: nat -> seq<Interruption>, n: nat)
    requires Known(d, l) && forall i: nat :: Sized(d, between(i))
    ensures Known(d, Moment(l, between, n))
  {
    hide Known, Sized;
    if n > 0 {
      MomentsKnown(d, l, between, n - 1);
      StaysKnown(d, Moment(l, between, n - 1), between(n - 1));
    }
  }

  /** The scheduler's fields stand for this knowledge. */
  ghost predicate Mirrors(pending: map<string, Vec>, hs: map<string, History>, l: Knowledge) {
    pending == l.pending && SameRecords(hs, l.histories)
  }

  lemma MirrorsItself(pending: map<string, Vec>, hs: map<string, History>)
    ensures Mirrors(pending, hs, Knowledge(pending, hs))
  {
  }

  lemma AtTheStart(l: Knowledge, between: nat -> seq<Interruption>)
    ensures Mirrors(l.pending, l.histories, Moment(l, between, 0))
  {
  }

  /** A worker is judged by what the fields stand for, and looking at it does not change that. */
  lemma JudgedAs(d: nat, alpha: real, root: real -> real, fields: Knowledge, l: Knowledge, id: string, x: Vec)
    requires |x| == d && AllFit(d, fields.histories) && AllFit(d, l.histories) && Mirrors(fields.pending, fields.histories, l)
    ensures MeanScore(d, fields.histories, id, x) == MeanScore(d, l.histories, id, x)
    ensures MeanScore(d, l.histories, id, x) + alpha * root(Width(d, Recorded(fields.histories, id), x))
         == UcbScore(d, alpha, root, l.histories, id, x)
    ensures Mirrors(fields.pending, Touched(fields.histories, id), l)
  {
    hide Width, Theta, Dot, AllFit;
    assert Recorded(fields.histories, id) == Recorded(l.histories, id);
  }

  lemma MirrorsOne(l: Knowledge, l': Knowledge, e: Interruption)
    requires Mirrors(l.pending, l.histories, l')
    ensures var m, m' := Interrupted(l, e), Interrupted(l', e); Mirrors(m.pending, m.histories, m')
  {
    var m, m' := Interrupted(l, e), Interrupted(l', e);
    assert forall id :: Recorded(l.histories, id) == Recorded(l'.histories, id);
    forall id
      ensures Recorded(m.histories, id) == Recorded(m'.histories, id)
    {
      assert Recorded(l.histories, id) == Recorded(l'.histories, id);
      if e.Learns? {
        assert Recorded(l.histories, e.id) == Recorded(l'.histories, e.id);
      }
    }
  }

  lemma {:induction false} MirrorsOn(l: Knowledge, l': Knowledge, es: seq<Interruption>)
    requires Mirrors(l.pending, l.histories, l')
    ensures var m, m' := InterruptedAll(l, es), InterruptedAll(l', es); Mirrors(m.pending, m.histories, m')
  {
    hide Mirrors, Interrupted;
    if es != [] {
      var init := es[..|es| - 1];
      MirrorsOn(l, l', init);
      MirrorsOne(InterruptedAll(l, init), InterruptedAll(l', init), es[|es| - 1]);
    }
  }

  /** The records that each of n candidates is judged by: those there when its turn comes. */
  ghost function Moments(d: nat, l: Knowledge, between: nat -> seq<Interruption>, n: nat): (r: seq<map<string, History>>)
    requires Known(d, l) && forall i: nat :: Sized(d, between(i))
    ensures |r| == n && forall j :: 0 <= j < n ==> r[j] == Moment(l, between, j + 1).histories && AllFit(d, r[j])
  {
    if n == 0 then []
    else
      MomentsKnown(d, l, between, n);
      Moments(d, l, between, n - 1) + [Moment(l, between, n).histories]
  }

  /** theta . x of each candidate under the records it was scored by. */
  ghost function MeanScores(d: nat, hss: seq<map<string, History>>, ws: seq<WorkerInfo>, feature: WorkerInfo -> Vec): (r: seq<real>)
    requires |hss| == |ws| && (forall j :: 0 <= j < |hss| ==> AllFit(d, hss[j])) && forall w :: |feature(w)| == d
    ensures |r| == |ws| && forall j :: 0 <= j < |ws| ==> r[j] == MeanScore(d, hss[j], ws[j].id, feature(ws[j]))
  {
    seq(|ws|, j requires 0 <= j < |ws| => MeanScore(d, hss[j], ws[j].id, feature(ws[j])))
  }

  ghost function UcbScores(d: nat, alpha: real, root: real -> real, hss: seq<map<string, History>>,
                           ws: seq<WorkerInfo>, feature: WorkerInfo -> Vec): (r: seq<real>)
    requires |hss| == |ws| && (forall j :: 0 <= j < |hss| ==> AllFit(d, hss[j])) && forall w :: |feature(w)| == d
    ensures |r| == |ws| && forall j :: 0 <= j < |ws| ==> r[j] == UcbScore(d, alpha, root, hss[j], ws[j].id, feature(ws[j]))
  {
    seq(|ws|, j requires 0 <= j < |ws| => UcbScore(d, alpha, root, hss[j], ws[j].id, feature(ws[j])))
  }

  /** The arms and their matrices are among the given objects. */
  ghost predicate Within(arms: map<string, LinUcbArm>, repr: set<object>) {
    forall id :: id in arms ==> arms[id] in repr && arms[id].Repr <= repr
  }

  /** No two workers share storage. */
  ghost predicate Apart(arms: map<string, LinUcbArm>) {
    forall id, id' :: id in arms && id' in arms && id != id' ==> arms[id].Repr !! arms[id'].Repr
  }

  lemma OneMoreArm(arms: map<string, LinUcbArm>, repr: set<object>, id: string, arm: LinUcbArm)
    requires Within(arms, repr) && Apart(arms) && id !in arms && arm in arm.Repr && arm.Repr !! repr
    ensures Within(arms[id := arm], repr + arm.Repr) && Apart(arms[id := arm])
  {
    assert forall k :: k in arms ==> arms[k].Repr <= repr;
    assert forall k :: k in arms ==> arms[k].Repr !! arm.Repr;
  }

  /** What choosing position k among ws means: alone it is taken without scoring; otherwise it is the first with the largest
      upper confidence bound, each candidate judged by what was recorded when its turn came, and counts as exploration
      exactly when it is not m, the first with the largest mean. */
  ghost predicate UcbChoice(d: nat, alpha: real, root: real -> real, hss: seq<map<string, History>>,
                            ws: seq<WorkerInfo>, feature: WorkerInfo -> Vec, k: nat, m: nat, info: DispatchInfo)
    requires |hss| == |ws| && (forall j :: 0 <= j < |hss| ==> AllFit(d, hss[j])) && (forall w :: |feature(w)| == d) && k < |ws|
  {
    if |ws| == 1 then info == DispatchInfo(0.0, false)
    else
      var ps := UcbScores(d, alpha, root, hss, ws, feature);
      && FirstMax(ps, k) && info.qValueAtDispatch == ps[k]
      && FirstMax(MeanScores(d, hss, ws, feature), m)
      && (info.wasExploration <==> ws[m].id != "" && ws[m].id != ws[k].id)
  }

  /** What is known after choosing position k: the interruptions have happened, and the chosen worker's vector is cached
      under the task; a single candidate is returned without any of that. */
  ghost function AfterChoice(l: Knowledge, between: nat -> seq<Interruption>, ws: seq<WorkerInfo>, feature: WorkerInfo -> Vec,
                             task: string, k: nat): Knowledge
    requires k < |ws|
  {
    if |ws| == 1 then l
    else
      var end := Moment(l, between, |ws| + 1);
      if task == "" then end else end.(pending := end.pending[task := feature(ws[k])])
  }

  /** With nothing in between, all candidates are judged by what was known at the start. */
  lemma {:induction false} Uninterrupted(l: Knowledge, between: nat -> seq<Interruption>, n: nat)
    requires forall i: nat :: between(i) == []
    ensures Moment(l, between, n) == l
  {
    if n > 0 {
      Uninterrupted(l, between, n - 1);
    }
  }

  lemma OnlyOne(d: nat, alpha: real, root: real -> real, hss: seq<map<string, History>>, ws: seq<WorkerInfo>, feature: WorkerInfo -> Vec)
    requires |hss| == |ws| == 1 && (forall j :: 0 <= j < |hss| ==> AllFit(d, hss[j])) && (forall w :: |feature(w)| == d)
    ensures UcbChoice(d, alpha, root, hss, ws, feature, 0, 0, DispatchInfo(0.0, false))
  {
  }

  lemma AloneUnchanged(l: Knowledge, between: nat -> seq<Interruption>, ws: seq<WorkerInfo>, feature: WorkerInfo -> Vec, task: string)
    requires |ws| == 1
    ensures AfterChoice(l, between, ws, feature, task, 0) == l
  {
  }

  lemma SeveralOf(d: nat, alpha: real, root: real -> real, hss: seq<map<string, History>>, ws: seq<WorkerInfo>,
                  feature: WorkerInfo -> Vec, k: nat, m: nat, info: DispatchInfo)
    requires |hss| == |ws| && (forall j :: 0 <= j < |hss| ==> AllFit(d, hss[j])) && (forall w :: |feature(w)| == d)
    requires |ws| > 1 && k < |ws| && m < |ws|
    requires FirstMax(UcbScores(d, alpha, root, hss, ws, feature), k) && FirstMax(MeanScores(d, hss, ws, feature), m)
    requires info == DispatchInfo(UcbScores(d, alpha, root, hss, ws, feature)[k], ws[m].id != "" && ws[m].id != ws[k].id)
    ensures UcbChoice(d, alpha, root, hss, ws, feature, k, m, info)
  {
    hide UcbScore, MeanScore, FirstMax;
  }

  /** Caching the chosen vector completes the choice. */
  lemma ChoiceCached(l: Knowledge, between: nat -> seq<Interruption>, ws: seq<WorkerInfo>, feature: WorkerInfo -> Vec, task: string, k: nat,
                     pending: map<string, Vec>, hs: map<string, History>)
    requires |ws| > 1 && k < |ws| && Mirrors(pending, hs, Moment(l, between, |ws| + 1))
    ensures Mirrors(if task == "" then pending else pending[task := feature(ws[k])], hs, AfterChoice(l, between, ws, feature, task, k))
  {
    hide Moment;
  }

  /** The exploration flag is not "the bonus exceeds the mean": between two workers nothing is known of, that look alike,
      the first is chosen for its bonus alone, and the choice does not count as exploration. */
  lemma BonusIsNotExploration(d: nat, alpha: real, root: real -> real, x: Vec, v: WorkerInfo, w: WorkerInfo, k: nat, m: nat, info: DispatchInfo)
    requires |x| == d && alpha > 0.0 && root(Dot(x, x)) > 0.0 && k < 2
    requires UcbChoice(d, alpha, root, [map[], map[]], [v, w], _ => x, k, m, info)
    ensures !info.wasExploration
    ensures alpha * root(Width(d, [], x)) > MeanScore(d, map[], [v, w][k].id, x)
  {
    FreshScores(d, x);
    var ps := UcbScores(d, alpha, root, [map[], map[]], [v, w], _ => x);
    var ms := MeanScores(d, [map[], map[]], [v, w], _ => x);
    assert ps[0] == ps[1] && ms[0] == ms[1];
    assert k == 0 && m == 0;
    Positive(alpha, root(Dot(x, x)));
  }

  lemma FreshScores(d: nat, x: Vec)
    requires |x| == d
    ensures Width(d, [], x) == Dot(x, x) && forall id :: MeanScore(d, map[], id, x) == 0.0
  {
    MatVecIdentity(x);
    MatVecIdentity(Zeros(d));
    DotZeros(d, x, d);
  }

  lemma Positive(a: real, b: real)
    requires a > 0.0 && b > 0.0
    ensures a * b > 0.0
  {
  }

  // ---------------------------------------------------------------------
  // What the choice is worth
  // ---------------------------------------------------------------------

  /** theta . x of candidate j, with theta the ridge solution of the outcomes recorded for it at its turn. */
  ghost function MeanOf(d: nat, hss: seq<map<string, History>>, ws: seq<WorkerInfo>, feature: WorkerInfo -> Vec, j: nat): real
    requires j < |hss| == |ws| && AllFit(d, hss[j]) && |feature(ws[j])| == d
  {
    Dot(Theta(d, Recorded(hss[j], ws[j].id)), feature(ws[j]))
  }

  /** x . Ainv x of candidate j, under the same outcomes. */
  ghost function WidthOf(d: nat, hss: seq<map<string, History>>, ws: seq<WorkerInfo>, feature: WorkerInfo -> Vec, j: nat): real
    requires j < |hss| == |ws| && AllFit(d, hss[j]) && |feature(ws[j])| == d
  {
    Width(d, Recorded(hss[j], ws[j].id), feature(ws[j]))
  }

  lemma ScoreOf(d: nat, alpha: real, root: real -> real, hss: seq<map<string, History>>, ws: seq<WorkerInfo>, feature: WorkerInfo -> Vec, j: nat)
    requires |hss| == |ws| && (forall i :: 0 <= i < |hss| ==> AllFit(d, hss[i])) && (forall w :: |feature(w)| == d) && j < |ws|
    ensures UcbScores(d, alpha, root, hss, ws, feature)[j]
         == MeanOf(d, hss, ws, feature, j) + alpha * root(WidthOf(d, hss, ws, feature, j))
    ensures MeanScores(d, hss, ws, feature)[j] == MeanOf(d, hss, ws, feature, j)
  {
    hide Dot, Theta, Width;
  }

  /** Choosing leaves all pending vectors but the task's own as the interruptions left them. */
  lemma OthersStayPending(l: Knowledge, between: nat -> seq<Interruption>, ws: seq<WorkerInfo>, feature: WorkerInfo -> Vec,
                          task: string, k: nat)
    requires |ws| > 1 && k < |ws|
    ensures var after, end := AfterChoice(l, between, ws, feature, task, k), Moment(l, between, |ws| + 1);
            && after.histories == end.histories && after.pending - {task} == end.pending - {task}
            && (task != "" ==> task in after.pending && after.pending[task] == feature(ws[k]))
            && (task == "" ==> after == end)
  {
    hide Moment;
  }

  /** Algorithm 1: no candidate's mean plus alpha times the root of its width exceeds that of the winner, and none before it
      reaches it; the flag tells whether the first candidate with the largest mean has another id. */
  lemma WinnerHasLargestBound(d: nat, alpha: real, root: real -> real, hss: seq<map<string, History>>, ws: seq<WorkerInfo>,
                              feature: WorkerInfo -> Vec, k: nat, m: nat, info: DispatchInfo, j: nat)
    requires |hss| == |ws| > 1 && (forall i :: 0 <= i < |hss| ==> AllFit(d, hss[i])) && (forall w :: |feature(w)| == d)
    requires k < |ws| && j < |ws| && UcbChoice(d, alpha, root, hss, ws, feature, k, m, info)
    ensures MeanOf(d, hss, ws, feature, j) + alpha * root(WidthOf(d, hss, ws, feature, j))
         <= MeanOf(d, hss, ws, feature, k) + alpha * root(WidthOf(d, hss, ws, feature, k))
         == info.qValueAtDispatch
    ensures j < k ==> MeanOf(d, hss, ws, feature, j) + alpha * root(WidthOf(d, hss, ws, feature, j)) < info.qValueAtDispatch
    ensures m < |ws| && MeanOf(d, hss, ws, feature, j) <= MeanOf(d, hss, ws, feature, m)
    ensures j < m ==> MeanOf(d, hss, ws, feature, j) < MeanOf(d, hss, ws, feature, m)
    ensures info.wasExploration <==> ws[m].id != "" && ws[m].id != ws[k].id
  {
    hide Dot, Theta, Width;
    var ps, ms := UcbScores(d, alpha, root, hss, ws, feature), MeanScores(d, hss, ws, feature);
    assert m < |ws| && ps[j] <= ps[k] && ms[j] <= ms[m] && (j < k ==> ps[j] < ps[k]) && (j < m ==> ms[j] < ms[m]);
    hide FirstMax, UcbChoice;
    ScoreOf(d, alpha, root, hss, ws, feature, j);
    ScoreOf(d, alpha, root, hss, ws, feature, k);
    ScoreOf(d, alpha, root, hss, ws, feature, m);
  }

  /** Larger roots for larger numbers. */
  ghost predicate Increasing(root: real -> real) {
    forall x, y :: 0.0 <= x < y ==> root(x) < root(y)
  }

  /** The winner is dominated by nobody: a candidate with at least its mean is not known less well. */
  lemma WinnerNotDominated(d: nat, alpha: real, root: real -> real, hss: seq<map<string, History>>, ws: seq<WorkerInfo>,
                           feature: WorkerInfo -> Vec, k: nat, m: nat, info: DispatchInfo, j: nat)
    requires |hss| == |ws| > 1 && (forall i :: 0 <= i < |hss| ==> AllFit(d, hss[i])) && (forall w :: |feature(w)| == d)
    requires k < |ws| && j < |ws| && UcbChoice(d, alpha, root, hss, ws, feature, k, m, info)
    requires alpha > 0.0 && Increasing(root) && MeanOf(d, hss, ws, feature, j) >= MeanOf(d, hss, ws, feature, k)
    ensures WidthOf(d, hss, ws, feature, j) <= WidthOf(d, hss, ws, feature, k)
  {
    hide Dot, Theta, Width, UcbChoice;
    WinnerHasLargestBound(d, alpha, root, hss, ws, feature, k, m, info, j);
    WidthIsGram(d, Recorded(hss[k], ws[k].id), feature(ws[k]));
    var wj, wk := WidthOf(d, hss, ws, feature, j), WidthOf(d, hss, ws, feature, k);
    NoLargerRoot(alpha, MeanOf(d, hss, ws, feature, j), MeanOf(d, hss, ws, feature, k), root(wj), root(wk));
  }

  lemma NoLargerRoot(alpha: real, mj: real, mk: real, rj: real, rk: real)
    requires alpha > 0.0 && mj >= mk && mj + alpha * rj <= mk + alpha * rk
    ensures rj <= rk
  {
    if rj > rk {
      Positive(alpha, rj - rk);
    }
  }

  /** Optimism: the score reported for the winner is at least its mean, and at least everyone's mean. */
  lemma WinnerIsOptimistic(d: nat, alpha: real, root: real -> real, hss: seq<map<string, History>>, ws: seq<WorkerInfo>,
                           feature: WorkerInfo -> Vec, k: nat, m: nat, info: DispatchInfo, j: nat)
    requires |hss| == |ws| > 1 && (forall i :: 0 <= i < |hss| ==> AllFit(d, hss[i])) && (forall w :: |feature(w)| == d)
    requires k < |ws| && j < |ws| && UcbChoice(d, alpha, root, hss, ws, feature, k, m, info)
    requires alpha >= 0.0 && forall x :: x >= 0.0 ==> root(x) >= 0.0
    ensures info.qValueAtDispatch >= MeanOf(d, hss, ws, feature, j)
  {
    hide Dot, Theta, Width, UcbChoice;
    WinnerHasLargestBound(d, alpha, root, hss, ws, feature, k, m, info, j);
    WidthIsGram(d, Recorded(hss[j], ws[j].id), feature(ws[j]));
    var bonus := root(WidthOf(d, hss, ws, feature, j));
    assert bonus >= 0.0;
    NonNegative(alpha, bonus);
  }

  lemma NonNegative(a: real, b: real)
    requires a >= 0.0 && b >= 0.0
    ensures a * b >= 0.0
  {
  }

  class LinUcbScheduler {
    const dim: nat
    const alpha: real
    var arms: map<string, LinUcbArm>
    var pendingX: map<string, Vec>

    ghost var Repr: set<object>

    /** The outcomes recorded for each worker that has an arm, in order. */
    ghost var histories: map<string, History>

    ghost predicate Valid()
      reads this, Repr
      ensures Valid() ==> Known(dim, Knowledge(pendingX, histories))
    {
      && this !in Repr
      && arms.Keys == histories.Keys
      && Within(arms, Repr) && Apart(arms)
      && (forall id :: id in arms ==> arms[id].d == dim && arms[id].Valid() && arms[id].history == histories[id])
      && (forall t :: t in pendingX ==> |pendingX[t]| == dim)
    }

    constructor (dim: nat, alpha: real)
      ensures Valid() && this.dim == dim && arms == map[] && pendingX == map[]
      ensures this.alpha == if alpha == 0.0 then 0.5 else if alpha < 0.0 then 0.0 else alpha
    {
      this.dim := dim;
      this.alpha := if alpha == 0.0 then 0.5 else if alpha < 0.0 then 0.0 else alpha;
      arms, pendingX, Repr, histories := map[], map[], {}, map[];
    }

    method ArmFor(id: string) returns (arm: LinUcbArm)
      requires Valid()
      modifies this`arms, this`Repr, this`histories
      ensures Valid() && id in arms && arm == arms[id]
      ensures histories == Touched(old(histories), id)
      ensures fresh(Repr - old(Repr)) && Repr >= old(Repr)
    {
      if id in arms {
        return arms[id];
      }
      arm := new LinUcbArm(dim);
      Adopt(id, arm);
    }

    /** Puts a new arm under the worker's name. */
    method Adopt(id: string, arm: LinUcbArm)
      requires Valid() && id !in arms && arm.Valid() && arm.d == dim && arm.history == []
      requires this !in arm.Repr && arm.Repr !! Repr
      modifies this`arms, this`Repr, this`histories
      ensures Valid() && arms == old(arms)[id := arm] && histories == old(histories)[id := []]
      ensures Repr == old(Repr) + arm.Repr
    {
      hide LinUcbArm.Valid;
      OneMoreArm(arms, Repr, id, arm);
      hide Apart;
      arms := arms[id := arm];
      Repr := Repr + arm.Repr;
      histories := histories[id := []];
    }

    method Score(id: string, x: Vec) returns (mean: real, q: real)
      requires Valid() && |x| == dim
      modifies this`arms, this`Repr, this`histories, Repr
      ensures Valid() && fresh(Repr - old(Repr)) && pendingX == old(pendingX)
      ensures histories == Touched(old(histories), id)
      ensures mean == MeanScore(dim, old(histories), id, x)
      ensures q == Width(dim, Recorded(old(histories), id), x) >= 0.0
    {
      hide LinUcbArm.Valid, Width, Theta, Dot;
      var arm := ArmFor(id);
      mean, q := arm.Score(x);
    }

    /** Mean and score of one candidate, in terms of what the fields stand for. */
    method Estimate(id: string, x: Vec, root: real -> real, ghost l: Knowledge) returns (mean: real, p: real)
      requires Valid() && |x| == dim && AllFit(dim, l.histories) && Mirrors(pendingX, histories, l)
      modifies this`arms, this`Repr, this`histories, Repr
      ensures Valid() && fresh(Repr - old(Repr)) && Mirrors(pendingX, histories, l)
      ensures mean == MeanScore(dim, l.histories, id, x) && p == UcbScore(dim, alpha, root, l.histories, id, x)
    {
      hide LinUcbArm.Valid, LinUcbScheduler.Valid, Width, Theta, Dot, Mirrors, MeanScore, UcbScore, AllFit;
      ghost var before := Knowledge(pendingX, histories);
      var q: real;
      mean, q := Score(id, x);
      JudgedAs(dim, alpha, root, before, l, id, x);
      p := mean + alpha * root(q);
    }

    /** The whole selection: the admission rule, then the choice below. */
    method SelectWithDispatchInfo(listed: seq<WorkerInfo>, count: nat, clientOS: string, open: string -> bool,
                                  feature: WorkerInfo -> Vec, task: string, root: real -> real, between: nat -> seq<Interruption>)
        returns (r: Choice, ghost k: nat, ghost m: nat)
      requires Valid() && (forall w :: |feature(w)| == dim) && forall i: nat :: Sized(dim, between(i))
      modifies this, Repr
      ensures Valid() && fresh(Repr - old(Repr))
      ensures var e, l := Eligible(listed, count, clientOS, open), Knowledge(old(pendingX), old(histories));
              if !e.Candidates? then r == Unavailable(e) && Mirrors(pendingX, histories, l)
              else && r.Chosen? && Offered(r.worker, listed, clientOS, open)
                   && k < |e.workers| && r.worker == e.workers[k]
                   && Mirrors(pendingX, histories, AfterChoice(l, between, e.workers, feature, task, k))
                   && UcbChoice(dim, alpha, root, Moments(dim, l, between, |e.workers|), e.workers, feature, k, m, r.info)
                   && (|e.workers| > 1 && task != "" ==> task in pendingX && pendingX[task] == feature(r.worker))
    {
      hide *;
      k, m := 0, 0;
      var e := EligibleWorkers(listed, count, clientOS, open);
      if !e.Candidates? {
        MirrorsItself(pendingX, histories);
        return Unavailable(e), 0, 0;
      }
      OfferedAll(listed, count, clientOS, open);
      var best, info;
      best, info, k, m := Choose(e.workers, feature, task, root, between);
      assert best in e.workers;
      return Chosen(best, info), k, m;
    }

    /**
     The UCB winner among the eligible workers: the first one with the largest score, each computed from
     everything recorded when its turn came. Its feature vector, and no other, is cached under the task.
     between(i) is what other calls do before candidate i is scored, and finally before the caching.
     */
    method Choose(candidates: seq<WorkerInfo>, feature: WorkerInfo -> Vec, task: string, root: real -> real, between: nat -> seq<Interruption>)
        returns (best: WorkerInfo, info: DispatchInfo, ghost k: nat, ghost m: nat)
      requires Valid() && candidates != [] && (forall w :: |feature(w)| == dim) && forall i: nat :: Sized(dim, between(i))
      modifies this, Repr
      ensures Valid() && fresh(Repr - old(Repr))
      ensures k < |candidates| && best == candidates[k]
      ensures var l := Knowledge(old(pendingX), old(histories));
              && Mirrors(pendingX, histories, AfterChoice(l, between, candidates, feature, task, k))
              && UcbChoice(dim, alpha, root, Moments(dim, l, between, |candidates|), candidates, feature, k, m, info)
      ensures |candidates| > 1 && task != "" ==> task in pendingX && pendingX[task] == feature(best)
      ensures |candidates| == 1 ==> pendingX == old(pendingX)
    {
      hide *;
      ghost var l := Knowledge(pendingX, histories);
      ghost var hss := Moments(dim, l, between, |candidates|);
      if |candidates| == 1 {
        MirrorsItself(pendingX, histories);
        OnlyOne(dim, alpha, root, hss, candidates, feature);
        AloneUnchanged(l, between, candidates, feature, task);
        return candidates[0], DispatchInfo(0.0, false), 0, 0;
      }
      var bestP, bestMeanId;
      best, bestP, bestMeanId, k, m := BestCandidate(candidates, feature, root, between);
      info := DispatchInfo(bestP, bestMeanId != "" && bestMeanId != best.id);
      SeveralOf(dim, alpha, root, hss, candidates, feature, k, m, info);
      GiveWay(l, between, |candidates|);
      ChoiceCached(l, between, candidates, feature, task, k, pendingX, histories);
      if task != "" {
        CacheVector(task, feature(best));
      }
    }

    /** Other calls have the lock: their outcomes are recorded and their vectors cached. */
    method GiveWay(ghost l: Knowledge, between: nat -> seq<Interruption>, n: nat)
      requires Valid() && Mirrors(pendingX, histories, Moment(l, between, n)) && Sized(dim, between(n))
      modifies this, Repr
      ensures Valid() && fresh(Repr - old(Repr))
      ensures Mirrors(pendingX, histories, Moment(l, between, n + 1))
    {
      hide LinUcbArm.Valid, LinUcbScheduler.Valid, Mirrors, Taught, Known;
      ghost var start := Knowledge(pendingX, histories);
      var es := between(n);
      assert es[..0] == [];
      for i := 0 to |es|
        invariant Valid() && fresh(Repr - old(Repr))
        invariant Knowledge(pendingX, histories) == InterruptedAll(start, es[..i])
      {
        assert es[..i + 1][..i] == es[..i];
        match es[i] {
          case Learns(id, reward, task) => RecordOutcome(id, reward, task);
          case Caches(task, x) => CacheVector(task, x);
        }
      }
      assert es[..|es|] == es;
      MirrorsOn(start, Moment(l, between, n), es);
    }

    /** One pass over the candidates: the first with the largest score, and the first with the largest mean. */
    method BestCandidate(candidates: seq<WorkerInfo>, feature: WorkerInfo -> Vec, root: real -> real, between: nat -> seq<Interruption>)
        returns (best: WorkerInfo, bestP: real, bestMeanId: string, ghost k: nat, ghost m: nat)
      requires Valid() && candidates != [] && (forall w :: |feature(w)| == dim) && forall i: nat :: Sized(dim, between(i))
      modifies this, Repr
      ensures Valid() && fresh(Repr - old(Repr))
      ensures k < |candidates| && best == candidates[k] && m < |candidates| && bestMeanId == candidates[m].id
      ensures var l := Knowledge(old(pendingX), old(histories));
              var hss := Moments(dim, l, between, |candidates|);
              && Mirrors(pendingX, histories, Moment(l, between, |candidates|))
              && FirstMax(UcbScores(dim, alpha, root, hss, candidates, feature), k)
              && bestP == UcbScores(dim, alpha, root, hss, candidates, feature)[k]
              && FirstMax(MeanScores(dim, hss, candidates, feature), m)
    {
      hide *;
      ghost var l := Knowledge(pendingX, histories);
      ghost var hss := Moments(dim, l, between, |candidates|);
      ghost var ps := UcbScores(dim, alpha, root, hss, candidates, feature);
      ghost var ms := MeanScores(dim, hss, candidates, feature);
      k, m := 0, 0;
      best, bestMeanId := candidates[0], "";
      bestP := 0.0;
      var bestMean := 0.0;
      AtTheStart(l, between);
      for i := 0 to |candidates|
        invariant Valid() && fresh(Repr - old(Repr))
        invariant Mirrors(pendingX, histories, Moment(l, between, i))
        invariant i > 0 ==> k < i && FirstMax(ps[..i], k) && best == candidates[k] && bestP == ps[k]
        invariant i > 0 ==> m < i && FirstMax(ms[..i], m) && bestMeanId == candidates[m].id && bestMean == ms[m]
      {
        var w := candidates[i];
        GiveWay(l, between, i);
        var mean, p := Estimate(w.id, feature(w), root, Moment(l, between, i + 1));
        FirstMaxStep(ps, i, k);
        FirstMaxStep(ms, i, m);
        if i == 0 || p > bestP {
          bestP, best, k := p, w, i;
        }
        if i == 0 || mean > bestMean {
          bestMean, bestMeanId, m := mean, w.id, i;
        }
      }
      assert ps[..|candidates|] == ps && ms[..|candidates|] == ms;
    }

    method CacheVector(task: string, x: Vec)
      requires Valid() && |x| == dim
      modifies this`pendingX
      ensures Valid() && pendingX == old(pendingX)[task := x]
    {
      pendingX := pendingX[task := x];
    }

    /** Consumes the vector cached for the task and records the outcome, or changes nothing that matters. */
    method RecordOutcome(id: string, reward: Reward, task: string)
      requires Valid()
      modifies this, Repr
      ensures Valid() && fresh(Repr - old(Repr))
      ensures Knowledge(pendingX, histories) == Taught(Knowledge(old(pendingX), old(histories)), id, reward, task)
    {
      hide LinUcbArm.Valid, LinUcbScheduler.Valid, Known;
      if id == "" || reward.NotFinite? {
        return;
      }
      if task !in pendingX {
        return;
      }
      var x := TakeVector(task);
      var arm := ArmFor(id);
      RecordOn(id, arm, x, reward.value);
    }

    method TakeVector(task: string) returns (x: Vec)
      requires Valid() && task in pendingX
      modifies this`pendingX
      ensures Valid() && x == old(pendingX)[task] && |x| == dim && pendingX == old(pendingX) - {task}
    {
      x := pendingX[task];
      pendingX := pendingX - {task};
    }

    method RecordOn(id: string, arm: LinUcbArm, x: Vec, reward: real)
      requires Valid() && id in arms && arm == arms[id] && |x| == dim
      modifies this`histories, Repr
      ensures Valid() && histories == old(histories)[id := old(histories)[id] + [Outcome(x, reward)]]
    {
      hide LinUcbArm.Valid;
      arm.Record(x, reward);
      histories := histories[id := arm.history];
    }
  }
}

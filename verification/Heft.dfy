/** Exponentially weighted averages (internal/coordinator/metrics/ewma.go). */
module Ewma {

  /** The average as a value; value means nothing before the first update. */
  datatype Average = Average(alpha: real, value: real, init: bool)

  /** A smoothing factor outside (0, 1] is replaced by one half. */
  function NewAverage(alpha: real): Average {
    Average(if alpha <= 0.0 || alpha > 1.0 then 0.5 else alpha, 0.0, false)
  }

  function Blend(t: real, x: real, y: real): real {
    t * x + (1.0 - t) * y
  }

  function Updated(a: Average, v: real): Average {
    if a.init then a.(value := Blend(a.alpha, v, a.value)) else a.(value := v, init := true)
  }

  function UpdatedAll(a: Average, vs: seq<real>): Average {
    if vs == [] then a else Updated(UpdatedAll(a, vs[..|vs| - 1]), vs[|vs| - 1])
  }

  class EWMA {
    const alpha: real
    var value: real
    var init: bool

    function Abstract(): Average
      reads this
    {
      Average(alpha, value, init)
    }

    constructor (alpha: real)
      ensures Abstract() == NewAverage(alpha)
      ensures !init && this.alpha == if 0.0 < alpha <= 1.0 then alpha else 0.5
    {
      this.alpha := if alpha <= 0.0 || alpha > 1.0 then 0.5 else alpha;
      value, init := 0.0, false;
    }

    method Update(v: real)
      modifies this
      ensures Abstract() == Updated(old(Abstract()), v)
    {
      if !init {
        value, init := v, true;
        return;
      }
      value := alpha * v + (1.0 - alpha) * value;
    }

    method Reset()
      modifies this
      ensures Abstract() == Average(alpha, 0.0, false)
    {
      value, init := 0.0, false;
    }
  }

  function Power(b: real, n: nat): real {
    if n == 0 then 1.0 else b * Power(b, n - 1)
  }

  /** The sum of alpha * (1 - alpha)^(n - 1 - i) * vs[i]. */
  function Weighted(alpha: real, vs: seq<real>): real {
    if vs == [] then 0.0 else (1.0 - alpha) * Weighted(alpha, vs[..|vs| - 1]) + alpha * vs[|vs| - 1]
  }

  /** An initialised average keeps a share (1 - alpha)^n of its value through n updates. */
  lemma {:induction false} ClosedForm(a: Average, vs: seq<real>)
    requires a.init
    ensures UpdatedAll(a, vs) == a.(value := Power(1.0 - a.alpha, |vs|) * a.value + Weighted(a.alpha, vs))
  {
    if vs != [] {
      var init := vs[..|vs| - 1];
      ClosedForm(a, init);
      Distribute(1.0 - a.alpha, Power(1.0 - a.alpha, |init|), a.value, Weighted(a.alpha, init));
    }
  }

  lemma Distribute(b: real, p: real, v: real, w: real)
    ensures b * (p * v + w) == (b * p) * v + b * w
  {
  }

  /** The average stays between any bounds on what it was fed. */
  lemma {:induction false} StaysBetween(a: Average, vs: seq<real>, lo: real, hi: real)
    requires 0.0 < a.alpha <= 1.0 && !a.init && vs != [] && forall i :: 0 <= i < |vs| ==> lo <= vs[i] <= hi
    ensures lo <= UpdatedAll(a, vs).value <= hi
  {
    var init, v := vs[..|vs| - 1], vs[|vs| - 1];
    if init != [] {
      StaysBetween(a, init, lo, hi);
      KeepsAlpha(a, init);
      Convex(a.alpha, v, UpdatedAll(a, init).value, lo, hi);
    }
  }

  lemma {:induction false} KeepsAlpha(a: Average, vs: seq<real>)
    ensures UpdatedAll(a, vs).alpha == a.alpha && (UpdatedAll(a, vs).init <==> a.init || vs != [])
  {
    if vs != [] {
      KeepsAlpha(a, vs[..|vs| - 1]);
    }
  }

  lemma Convex(t: real, x: real, y: real, lo: real, hi: real)
    requires 0.0 < t <= 1.0 && lo <= x <= hi && lo <= y <= hi
    ensures lo <= Blend(t, x, y) <= hi
  {
    hide Blend;
    var d := if x >= y then x - y else y - x;
    var td := t * d;
    Rearranged(t, x, y, d, td);
    Share(t, d, td);
  }

  lemma Rearranged(t: real, x: real, y: real, d: real, td: real)
    requires td == t * d
    ensures d == x - y ==> Blend(t, x, y) == y + td
    ensures d == y - x ==> Blend(t, x, y) == y - td
  {
  }

  lemma Share(t: real, d: real, td: real)
    requires 0.0 < t <= 1.0 && d >= 0.0 && td == t * d
    ensures 0.0 <= td <= d
  {
    NonNegative(t, d);
    NonNegative(1.0 - t, d);
  }

  lemma NonNegative(a: real, b: real)
    requires a >= 0.0 && b >= 0.0
    ensures a * b >= 0.0
  {
  }

  lemma {:induction false} PowerPositive(b: real, n: nat)
    requires b > 0.0
    ensures Power(b, n) > 0.0
  {
    if n > 0 {
      PowerPositive(b, n - 1);
    }
  }
}

/**
 The earliest-finish-time scheduler (internal/coordinator/scheduler/heft.go).
 The square root of the hardware prior is a parameter, positive on positive
 numbers.
 */
module Heft {
  import opened Common
  import opened Registry
  import opened Feedback
  import opened Selection
  import opened Ewma

  type Averages = map<string, Average>

  function Cores(w: WorkerInfo): real {
    if w.capabilities.Some? && w.capabilities.value.cpuCores > 0 then w.capabilities.value.cpuCores as real else 4.0
  }

  /** The estimate for a worker without observations: 800 ms, scaled by its cores. */
  function Prior(w: WorkerInfo, root: real -> real): real
    requires forall x :: x > 0.0 ==> root(x) > 0.0
  {
    800.0 / root(Cores(w) / 4.0)
  }

  predicate Cold(wbar: Averages, id: string) {
    id !in wbar || !wbar[id].init
  }

  /** What looking at a worker does: a cold one is given its prior. */
  function Seeded(wbar: Averages, alpha: real, w: WorkerInfo, root: real -> real): Averages
    requires forall x :: x > 0.0 ==> root(x) > 0.0
  {
    if !Cold(wbar, w.id) then wbar
    else wbar[w.id := Updated(if w.id in wbar then wbar[w.id] else NewAverage(alpha), Prior(w, root))]
  }

  function SeededAll(wbar: Averages, alpha: real, ws: seq<WorkerInfo>, root: real -> real): Averages
    requires forall x :: x > 0.0 ==> root(x) > 0.0
  {
    if ws == [] then wbar else Seeded(SeededAll(wbar, alpha, ws[..|ws| - 1], root), alpha, ws[|ws| - 1], root)
  }

  /** The time until the worker has cleared its queue and this task: (active + 1) times its average. */
  function FinishTime(wbar: Averages, w: WorkerInfo): real {
    w.activeTasks as real * Value(wbar, w.id) + Value(wbar, w.id)
  }

  function Value(wbar: Averages, id: string): real {
    if id in wbar then wbar[id].value else 0.0
  }

  /** Finish times with the sign reversed, so that the best is the largest. */
  ghost function Urgency(wbar: Averages, ws: seq<WorkerInfo>): (r: seq<real>)
    ensures |r| == |ws| && forall j :: 0 <= j < |ws| ==> r[j] == -FinishTime(wbar, ws[j])
  {
    seq(|ws|, j requires 0 <= j < |ws| => -FinishTime(wbar, ws[j]))
  }

  /** Seeding warms the workers looked at and leaves everyone who was warm as they were. */
  lemma {:induction false} SeedingWarms(wbar: Averages, alpha: real, ws: seq<WorkerInfo>, root: real -> real)
    requires forall x :: x > 0.0 ==> root(x) > 0.0
    ensures var after := SeededAll(wbar, alpha, ws, root);
            && (forall j :: 0 <= j < |ws| ==> !Cold(after, ws[j].id))
            && (forall id :: !Cold(wbar, id) ==> id in after && after[id] == wbar[id])
            && (forall id :: Cold(after, id) ==> Cold(wbar, id))
  {
    hide Prior;
    if ws != [] {
      SeedingWarms(wbar, alpha, ws[..|ws| - 1], root);
    }
  }

  /** Later seeding does not change what an earlier worker was judged by. */
  lemma {:induction false} SeedingSettles(wbar: Averages, alpha: real, ws: seq<WorkerInfo>, root: real -> real, i: nat)
    requires (forall x :: x > 0.0 ==> root(x) > 0.0) && i <= |ws|
    ensures var early, late := SeededAll(wbar, alpha, ws[..i], root), SeededAll(wbar, alpha, ws, root);
            forall id :: !Cold(early, id) ==> id in late && late[id] == early[id]
  {
    hide Prior;
    if i < |ws| {
      SeedingSettles(wbar, alpha, ws[..|ws| - 1], root, i);
      assert ws[..|ws| - 1][..i] == ws[..i];
    } else {
      assert ws[..i] == ws;
    }
  }

  /** With different ids a worker is cold when its turn comes exactly when it was cold at the start. */
  lemma {:induction false} ColdAtItsTurn(wbar: Averages, alpha: real, ws: seq<WorkerInfo>, root: real -> real, id: string)
    requires (forall x :: x > 0.0 ==> root(x) > 0.0) && forall j :: 0 <= j < |ws| ==> ws[j].id != id
    ensures Cold(SeededAll(wbar, alpha, ws, root), id) <==> Cold(wbar, id)
  {
    hide Prior;
    if ws != [] {
      ColdAtItsTurn(wbar, alpha, ws[..|ws| - 1], root, id);
    }
  }

  ghost predicate DistinctIds(ws: seq<WorkerInfo>) {
    forall i, j :: 0 <= i < j < |ws| ==> ws[i].id != ws[j].id
  }

  ghost predicate AllCold(wbar: Averages, ws: seq<WorkerInfo>) {
    forall j :: 0 <= j < |ws| ==> Cold(wbar, ws[j].id)
  }

  /** What choosing among ws does: a single candidate is taken as it is; of several every cold one is given its prior, and
      k is the first with the earliest finish time. The choice counts as exploration exactly when all of them were cold. */
  ghost predicate EarliestFinish(before: Averages, after: Averages, alpha: real, ws: seq<WorkerInfo>, root: real -> real,
                                 k: nat, info: DispatchInfo)
    requires forall x :: x > 0.0 ==> root(x) > 0.0
  {
    if |ws| <= 1 then after == before && info == DispatchInfo(0.0, false)
    else
      && after == SeededAll(before, alpha, ws, root)
      && FirstMax(Urgency(after, ws), k)
      && info.qValueAtDispatch == Urgency(after, ws)[k]
      && (DistinctIds(ws) ==> (info.wasExploration <==> AllCold(before, ws)))
  }

  /** The winner finishes first: with its queue ahead of it, no candidate would be done earlier, and none before it as early. */
  lemma WinnerFinishesFirst(before: Averages, after: Averages, alpha: real, ws: seq<WorkerInfo>, root: real -> real,
                            k: nat, info: DispatchInfo, j: nat)
    requires (forall x :: x > 0.0 ==> root(x) > 0.0) && |ws| > 1 && k < |ws| && j < |ws|
    requires EarliestFinish(before, after, alpha, ws, root, k, info)
    ensures ws[k].id in after && ws[j].id in after
    ensures (ws[k].activeTasks as real + 1.0) * after[ws[k].id].value <= (ws[j].activeTasks as real + 1.0) * after[ws[j].id].value
    ensures j < k ==>
      (ws[k].activeTasks as real + 1.0) * after[ws[k].id].value < (ws[j].activeTasks as real + 1.0) * after[ws[j].id].value
    ensures info.qValueAtDispatch == -((ws[k].activeTasks as real + 1.0) * after[ws[k].id].value)
  {
    SeedingWarms(before, alpha, ws, root);
    hide SeededAll, Prior;
    var qs := Urgency(after, ws);
    assert qs[j] <= qs[k] && (j < k ==> qs[j] < qs[k]);
    assert !Cold(after, ws[k].id) && !Cold(after, ws[j].id);
    OneMore(ws[k].activeTasks as real, after[ws[k].id].value);
    OneMore(ws[j].activeTasks as real, after[ws[j].id].value);
  }

  lemma OneMore(n: real, v: real)
    ensures (n + 1.0) * v == n * v + v
  {
  }

  /** Among candidates of the same positive average the winner has the fewest tasks, and among equally loaded ones the
      smallest average. */
  lemma WinnerIsLeastLoaded(before: Averages, after: Averages, alpha: real, ws: seq<WorkerInfo>, root: real -> real,
                            k: nat, info: DispatchInfo, j: nat)
    requires (forall x :: x > 0.0 ==> root(x) > 0.0) && |ws| > 1 && k < |ws| && j < |ws|
    requires EarliestFinish(before, after, alpha, ws, root, k, info)
    requires ws[k].activeTasks >= 0 && ws[j].activeTasks >= 0
    ensures ws[k].id in after && ws[j].id in after
    ensures after[ws[k].id].value == after[ws[j].id].value > 0.0 ==> ws[k].activeTasks <= ws[j].activeTasks
    ensures ws[k].activeTasks == ws[j].activeTasks ==> after[ws[k].id].value <= after[ws[j].id].value
  {
    hide EarliestFinish;
    WinnerFinishesFirst(before, after, alpha, ws, root, k, info, j);
    var nk, nj := ws[k].activeTasks as real + 1.0, ws[j].activeTasks as real + 1.0;
    var vk, vj := after[ws[k].id].value, after[ws[j].id].value;
    if vk == vj > 0.0 && nk > nj {
      Strictly(vk, nj, nk);
    }
    if nk == nj && vk > vj {
      Strictly(nk, vj, vk);
    }
  }

  lemma Strictly(t: real, small: real, big: real)
    requires t > 0.0 && small < big
    ensures t * small < t * big && small * t < big * t
  {
    assert t * (big - small) > 0.0;
  }

  /** A cold candidate is judged by, and left with, 800 ms over the root of its cores in units of four. */
  lemma SeedIsPrior(wbar: Averages, alpha: real, ws: seq<WorkerInfo>, root: real -> real, j: nat)
    requires (forall x :: x > 0.0 ==> root(x) > 0.0) && DistinctIds(ws) && j < |ws| && Cold(wbar, ws[j].id)
    ensures var after, caps := SeededAll(wbar, alpha, ws, root), ws[j].capabilities;
            var cores := if caps.Some? && caps.value.cpuCores > 0 then caps.value.cpuCores as real else 4.0;
            ws[j].id in after && after[ws[j].id].init && after[ws[j].id].value == 800.0 / root(cores / 4.0)
  {
    var w, now := ws[j], SeededAll(wbar, alpha, ws[..j], root);
    ColdWhenDistinct(wbar, alpha, ws, root, j);
    assert ws[..j + 1][..j] == ws[..j] && ws[..j + 1][j] == w;
    SeedingSettles(wbar, alpha, ws, root, j + 1);
    assert SeededAll(wbar, alpha, ws[..j + 1], root) == Seeded(now, alpha, w, root);
    assert Seeded(now, alpha, w, root)[w.id].value == Prior(w, root);
  }

  lemma NothingSeeded(wbar: Averages, alpha: real, root: real -> real)
    requires forall x :: x > 0.0 ==> root(x) > 0.0
    ensures SeededAll(wbar, alpha, [], root) == wbar
  {
  }

  /** One round of the selection loop. */
  lemma SeedOneMore(start: Averages, alpha: real, ws: seq<WorkerInfo>, root: real -> real, i: nat)
    requires (forall x :: x > 0.0 ==> root(x) > 0.0) && i < |ws|
    ensures var now, next := SeededAll(start, alpha, ws[..i], root), SeededAll(start, alpha, ws[..i + 1], root);
            && next == Seeded(now, alpha, ws[i], root)
            && FinishTime(next, ws[i]) == FinishTime(SeededAll(start, alpha, ws, root), ws[i])
            && (DistinctIds(ws) ==> (AllCold(start, ws[..i + 1]) <==> AllCold(start, ws[..i]) && Cold(now, ws[i].id)))
  {
    hide Prior, Updated, FinishTime;
    assert ws[..i + 1][..i] == ws[..i] && ws[..i + 1][i] == ws[i];
    JudgedAtEnd(start, alpha, ws, root, i);
    ColdWhenDistinct(start, alpha, ws, root, i);
  }

  class HeftScheduler {
    const alpha: real
    var wbar: Averages
    var count: map<string, nat>

    constructor (alpha: real)
      ensures this.alpha == if 0.0 < alpha <= 1.0 then alpha else 0.3
      ensures wbar == map[] && count == map[]
    {
      this.alpha := if alpha <= 0.0 || alpha > 1.0 then 0.3 else alpha;
      wbar, count := map[], map[];
    }

    /** The whole selection: the admission rule, then the choice below. */
    method SelectWithDispatchInfo(listed: seq<WorkerInfo>, count: nat, clientOS: string, open: string -> bool, root: real -> real)
        returns (r: Choice, ghost k: nat)
      requires forall x :: x > 0.0 ==> root(x) > 0.0
      modifies this`wbar
      ensures var e := Eligible(listed, count, clientOS, open);
              if !e.Candidates? then r == Unavailable(e) && wbar == old(wbar)
              else && r.Chosen? && Offered(r.worker, listed, clientOS, open)
                   && k < |e.workers| && r.worker == e.workers[k]
                   && EarliestFinish(old(wbar), wbar, alpha, e.workers, root, k, r.info)
    {
      hide Eligible, Offered, EarliestFinish;
      k := 0;
      var e := EligibleWorkers(listed, count, clientOS, open);
      if !e.Candidates? {
        return Unavailable(e), 0;
      }
      OfferedAll(listed, count, clientOS, open);
      var best, info;
      best, info, k := Choose(e.workers, root);
      assert best in e.workers;
      return Chosen(best, info), k;
    }

    /** The candidate that would finish first, the first such; cold candidates are judged by, and keep, their prior. */
    method Choose(candidates: seq<WorkerInfo>, root: real -> real)
        returns (best: WorkerInfo, info: DispatchInfo, ghost k: nat)
      requires candidates != [] && forall x :: x > 0.0 ==> root(x) > 0.0
      modifies this`wbar
      ensures k < |candidates| && best == candidates[k]
      ensures EarliestFinish(old(wbar), wbar, alpha, candidates, root, k, info)
    {
      if |candidates| == 1 {
        return candidates[0], DispatchInfo(0.0, false), 0;
      }
      hide Prior, Updated, FinishTime, SeededAll, FirstMax, DistinctIds;
      ghost var start := wbar;
      ghost var after := SeededAll(start, alpha, candidates, root);
      ghost var qs := Urgency(after, candidates);
      best, k := candidates[0], 0;
      var bestEFT, allCold := -1.0, true;
      NothingSeeded(start, alpha, root);
      assert candidates[..0] == [];
      for i := 0 to |candidates|
        invariant wbar == SeededAll(start, alpha, candidates[..i], root)
        invariant i > 0 ==> k < i && FirstMax(qs[..i], k) && best == candidates[k] && -bestEFT == qs[k]
        invariant DistinctIds(candidates) ==> (allCold <==> AllCold(start, candidates[..i]))
      {
        var w := candidates[i];
        SeedOneMore(start, alpha, candidates, root, i);
        var eft, cold := Look(w, root);
        allCold := allCold && cold;
        FirstMaxStep(qs, i, k);
        if i == 0 || eft < bestEFT {
          best, bestEFT, k := w, eft, i;
        }
      }
      assert candidates[..|candidates|] == candidates && qs[..|candidates|] == qs;
      info := DispatchInfo(-bestEFT, allCold);
    }

    /** Looks at one candidate: seeds it if it is cold and computes its finish time. */
    method Look(w: WorkerInfo, root: real -> real) returns (eft: real, cold: bool)
      requires forall x :: x > 0.0 ==> root(x) > 0.0
      modifies this`wbar
      ensures wbar == Seeded(old(wbar), alpha, w, root)
      ensures cold == Cold(old(wbar), w.id) && eft == FinishTime(wbar, w)
    {
      var average := if w.id in wbar then wbar[w.id] else NewAverage(alpha);
      cold := !average.init;
      if cold {
        var cores := 4.0;
        if w.capabilities.Some? && w.capabilities.value.cpuCores > 0 {
          cores := w.capabilities.value.cpuCores as real;
        }
        wbar := wbar[w.id := Updated(average, 800.0 / root(cores / 4.0))];
      }
      var wij := wbar[w.id].value;
      var avail := w.activeTasks as real * wij;
      eft := avail + wij;
    }

    /** Feeds the registry's running average, in whole milliseconds, to the worker's estimate. */
    method RecordOutcome(id: string, registered: Option<WorkerInfo>)
      modifies this
      ensures wbar == if id != "" && registered.Some? && registered.value.avgCompileTime > 0
                      then old(wbar)[id := Updated(if id in old(wbar) then old(wbar)[id] else NewAverage(alpha),
                                                   GoDiv(registered.value.avgCompileTime, MILLISECOND) as real)]
                      else old(wbar)
      ensures count == if id != "" && registered.Some? && registered.value.avgCompileTime > 0
                       then old(count)[id := (if id in old(count) then old(count)[id] else 0) + 1]
                       else old(count)
    {
      if id == "" {
        return;
      }
      if registered.Some? && registered.value.avgCompileTime > 0 {
        var ms := GoDiv(registered.value.avgCompileTime, MILLISECOND) as real;
        var average := if id in wbar then wbar[id] else NewAverage(alpha);
        wbar := wbar[id := Updated(average, ms)];
        count := count[id := (if id in count then count[id] else 0) + 1];
      }
    }
  }

  lemma ColdWhenDistinct(start: Averages, alpha: real, ws: seq<WorkerInfo>, root: real -> real, i: nat)
    requires (forall x :: x > 0.0 ==> root(x) > 0.0) && i < |ws|
    ensures DistinctIds(ws) ==> (Cold(SeededAll(start, alpha, ws[..i], root), ws[i].id) <==> Cold(start, ws[i].id))
  {
    if DistinctIds(ws) {
      assert forall j :: 0 <= j < i ==> ws[..i][j].id != ws[i].id;
      ColdAtItsTurn(start, alpha, ws[..i], root, ws[i].id);
    }
  }

  lemma JudgedAtEnd(start: Averages, alpha: real, ws: seq<WorkerInfo>, root: real -> real, i: nat)
    requires (forall x :: x > 0.0 ==> root(x) > 0.0) && i < |ws|
    ensures FinishTime(SeededAll(start, alpha, ws[..i + 1], root), ws[i]) == FinishTime(SeededAll(start, alpha, ws, root), ws[i])
  {
    SeedingSettles(start, alpha, ws, root, i + 1);
    SeedingWarms(start, alpha, ws[..i + 1], root);
    assert ws[..i + 1][i] == ws[i];
  }

  // ---------------------------------------------------------------------
  // The prior is blended, not replaced
  // ---------------------------------------------------------------------

  /** What is left of a gap after n updates. */
  ghost function Left(alpha: real, n: nat, gap: real): real {
    Power(1.0 - alpha, n) * gap
  }

  /** After n observations the estimate still differs by (1 - alpha)^n (p - first observation) from one without the prior p. */
  lemma {:induction false} PriorFades(alpha: real, p: real, vs: seq<real>)
    requires 0.0 < alpha <= 1.0 && vs != []
    ensures UpdatedAll(Updated(NewAverage(alpha), p), vs).value - UpdatedAll(NewAverage(alpha), vs).value
         == Left(alpha, |vs|, p - vs[0])
  {
    hide Updated, NewAverage, Left;
    var a, b := Updated(NewAverage(alpha), p), NewAverage(alpha);
    var init, v := vs[..|vs| - 1], vs[|vs| - 1];
    if init == [] {
      FirstGap(alpha, p, v);
    } else {
      KeepsAlpha(a, init);
      KeepsAlpha(b, init);
      BothAlpha(alpha, p);
      PriorFades(alpha, p, init);
      Gap(UpdatedAll(a, init), UpdatedAll(b, init), v, |init|, p - vs[0]);
    }
  }

  lemma BothAlpha(alpha: real, p: real)
    requires 0.0 < alpha <= 1.0
    ensures NewAverage(alpha).alpha == Updated(NewAverage(alpha), p).alpha == alpha && Updated(NewAverage(alpha), p).init
  {
  }

  lemma FirstGap(alpha: real, p: real, v: real)
    requires 0.0 < alpha <= 1.0
    ensures Updated(Updated(NewAverage(alpha), p), v).value - Updated(NewAverage(alpha), v).value == Left(alpha, 1, p - v)
  {
    assert Power(1.0 - alpha, 1) == 1.0 - alpha;
  }

  /** One update of two averages shrinks the gap between them. */
  lemma Gap(a: Average, b: Average, v: real, n: nat, gap: real)
    requires a.init && b.init && a.alpha == b.alpha && a.value - b.value == Left(a.alpha, n, gap)
    ensures Updated(a, v).value - Updated(b, v).value == Left(a.alpha, n + 1, gap)
  {
    Shrinks(1.0 - a.alpha, a.value, b.value, Power(1.0 - a.alpha, n), gap);
  }

  lemma Shrinks(b: real, x: real, y: real, power: real, gap: real)
    requires x - y == power * gap
    ensures b * x - b * y == (b * power) * gap
  {
    assert b * x - b * y == b * (x - y);
  }

  /** Observations replace the prior exactly when the average has no memory, or the prior happened to equal the first one. */
  lemma PriorReplacedIff(alpha: real, p: real, vs: seq<real>)
    requires 0.0 < alpha <= 1.0 && vs != []
    ensures UpdatedAll(Updated(NewAverage(alpha), p), vs).value == UpdatedAll(NewAverage(alpha), vs).value
       <==> alpha == 1.0 || p == vs[0]
  {
    hide *;
    PriorFades(alpha, p, vs);
    NothingLeftIff(alpha, |vs|, p - vs[0]);
  }

  lemma NothingLeftIff(alpha: real, n: nat, gap: real)
    requires 0.0 < alpha <= 1.0 && n > 0
    ensures Left(alpha, n, gap) == 0.0 <==> alpha == 1.0 || gap == 0.0
  {
    if alpha < 1.0 {
      PowerPositive(1.0 - alpha, n);
      if gap != 0.0 {
        NonZeroProduct(Power(1.0 - alpha, n), gap);
      }
    } else {
      assert Power(0.0, n) == 0.0;
    }
  }

  lemma NonZeroProduct(x: real, y: real)
    requires x > 0.0 && y != 0.0
    ensures x * y != 0.0
  {
  }
}

/**
 The in-memory worker registry (internal/coordinator/registry/registry.go).
 Every operation holds the registry's lock for its whole body, so each one is a
 function from the worker table to the worker table; the class methods are
 proved to compute these functions. The accounting facts needed by the dispatch
 protocol and the error bound of the running average of compile times are
 proved about the functions.
 */
module Registry {
  import opened Common

  datatype WorkerState = Idle | Busy | Unhealthy

  /** The capability fields that selection looks at. */
  datatype Capabilities = Capabilities(os: string, dockerAvailable: bool, cpuCores: int)

  datatype WorkerInfo = WorkerInfo(
    id: string,
    address: string,
    capabilities: Option<Capabilities>,
    state: WorkerState,
    lastHeartbeat: int,
    registeredAt: int,
    maxParallel: int,
    activeTasks: int,
    totalTasks: int,
    successfulTasks: int,
    failedTasks: int,
    avgCompileTime: int)

  type Workers = map<string, WorkerInfo>

  function Revived(s: WorkerState): WorkerState {
    if s == Unhealthy then Idle else s
  }

  function Added(ws: Workers, w: WorkerInfo, now: int): Workers {
    if w.id in ws then
      var e := ws[w.id];
      ws[w.id := e.(capabilities := w.capabilities, address := w.address, maxParallel := w.maxParallel,
                    lastHeartbeat := now, state := Revived(e.state))]
    else
      ws[w.id := w.(registeredAt := now, lastHeartbeat := now, state := Idle)]
  }

  function HeartbeatSeen(ws: Workers, id: string, now: int): Workers {
    if id !in ws then ws
    else ws[id := ws[id].(lastHeartbeat := now, state := Revived(ws[id].state))]
  }

  function TaskStarted(w: WorkerInfo): WorkerInfo {
    w.(activeTasks := w.activeTasks + 1, totalTasks := w.totalTasks + 1,
       state := if w.state == Idle then Busy else w.state)
  }

  function Incremented(ws: Workers, id: string): Workers {
    if id !in ws then ws else ws[id := TaskStarted(ws[id])]
  }

  /** The new average after a report, given the number of successes including this one. */
  function NextAverage(avg: int, successes: int, compileTime: int): int
    requires successes > 0
  {
    GoDiv(avg * (successes - 1) + compileTime, successes)
  }

  function TaskEnded(w: WorkerInfo, success: bool, compileTime: int): WorkerInfo {
    var active := if w.activeTasks > 0 then w.activeTasks - 1 else w.activeTasks;
    var successes := if success then w.successfulTasks + 1 else w.successfulTasks;
    w.(activeTasks := active,
       successfulTasks := successes,
       failedTasks := if success then w.failedTasks else w.failedTasks + 1,
       avgCompileTime := if successes > 0 then NextAverage(w.avgCompileTime, successes, compileTime) else w.avgCompileTime,
       state := if active == 0 && w.state == Busy then Idle else w.state)
  }

  function Decremented(ws: Workers, id: string, success: bool, compileTime: int): Workers {
    if id !in ws then ws else ws[id := TaskEnded(ws[id], success, compileTime)]
  }

  function Swept(ws: Workers, now: int, ttl: int): Workers {
    map id | id in ws :: if now - ws[id].lastHeartbeat > ttl then ws[id].(state := Unhealthy) else ws[id]
  }

  predicate Healthy(w: WorkerInfo, now: int, ttl: int) {
    w.state != Unhealthy && now - w.lastHeartbeat <= ttl
  }

  class InMemoryRegistry {
    var workers: Workers
    const ttl: int

    constructor (ttl: int)
      ensures workers == map[] && this.ttl == ttl
    {
      workers := map[];
      this.ttl := ttl;
    }

    method Add(worker: WorkerInfo, now: int)
      modifies this
      ensures workers == Added(old(workers), worker, now)
    {
      if worker.id in workers {
        var existing := workers[worker.id];
        existing := existing.(capabilities := worker.capabilities);
        existing := existing.(address := worker.address);
        existing := existing.(maxParallel := worker.maxParallel);
        existing := existing.(lastHeartbeat := now);
        if existing.state == Unhealthy {
          existing := existing.(state := Idle);
        }
        workers := workers[worker.id := existing];
        return;
      }
      workers := workers[worker.id := worker.(registeredAt := now, lastHeartbeat := now, state := Idle)];
    }

    method UpdateHeartbeat(id: string, now: int) returns (found: bool)
      modifies this
      ensures workers == HeartbeatSeen(old(workers), id, now)
      ensures found <==> id in old(workers)
    {
      if id !in workers {
        return false;
      }
      var worker := workers[id].(lastHeartbeat := now);
      if worker.state == Unhealthy {
        worker := worker.(state := Idle);
      }
      workers := workers[id := worker];
      return true;
    }

    method IncrementTasks(id: string) returns (found: bool)
      modifies this
      ensures workers == Incremented(old(workers), id)
      ensures found <==> id in old(workers)
    {
      if id !in workers {
        return false;
      }
      var worker := workers[id];
      worker := worker.(activeTasks := worker.activeTasks + 1);
      worker := worker.(totalTasks := worker.totalTasks + 1);
      if worker.state == Idle {
        worker := worker.(state := Busy);
      }
      workers := workers[id := worker];
      return true;
    }

    method DecrementTasks(id: string, success: bool, compileTime: int) returns (found: bool)
      modifies this
      ensures workers == Decremented(old(workers), id, success, compileTime)
      ensures found <==> id in old(workers)
    {
      if id !in workers {
        return false;
      }
      var worker := workers[id];
      if worker.activeTasks > 0 {
        worker := worker.(activeTasks := worker.activeTasks - 1);
      }
      if success {
        worker := worker.(successfulTasks := worker.successfulTasks + 1);
      } else {
        worker := worker.(failedTasks := worker.failedTasks + 1);
      }
      if worker.successfulTasks > 0 {
        var total := worker.avgCompileTime * (worker.successfulTasks - 1);
        worker := worker.(avgCompileTime := GoDiv(total + compileTime, worker.successfulTasks));
      }
      if worker.activeTasks == 0 && worker.state == Busy {
        worker := worker.(state := Idle);
      }
      workers := workers[id := worker];
      return true;
    }

    method CleanupStaleWorkers(now: int)
      modifies this
      ensures workers == Swept(old(workers), now, ttl)
    {
      var todo := workers.Keys;
      while todo != {}
        invariant todo <= workers.Keys == old(workers).Keys
        invariant forall id :: id in workers ==>
          workers[id] == if id in todo then old(workers)[id] else Swept(old(workers), now, ttl)[id]
        decreases |todo|
      {
        var id :| id in todo;
        if now - workers[id].lastHeartbeat > ttl {
          workers := workers[id := workers[id].(state := Unhealthy)];
        }
        todo := todo - {id};
      }
    }

    /** Healthy matching workers, each exactly once, in whatever order the map yields them. */
    method ListByCapability(matches: WorkerInfo -> bool, now: int) returns (result: seq<WorkerInfo>, ghost ids: seq<string>)
      ensures |ids| == |result|
      ensures forall i :: 0 <= i < |ids| ==> ids[i] in workers && result[i] == workers[ids[i]]
      ensures forall i, j :: 0 <= i < j < |ids| ==> ids[i] != ids[j]
      ensures forall id :: id in ids <==> id in workers && Healthy(workers[id], now, ttl) && matches(workers[id])
      ensures forall w :: w in result ==> w in workers.Values && Healthy(w, now, ttl) && matches(w)
      ensures forall id :: id in workers && Healthy(workers[id], now, ttl) && matches(workers[id]) ==> workers[id] in result
    {
      var todo := workers.Keys;
      result, ids := [], [];
      while todo != {}
        invariant todo <= workers.Keys
        invariant |ids| == |result|
        invariant forall i :: 0 <= i < |ids| ==> ids[i] in workers && ids[i] !in todo && result[i] == workers[ids[i]]
        invariant forall i, j :: 0 <= i < j < |ids| ==> ids[i] != ids[j]
        invariant forall id :: id in ids <==>
          id in workers && id !in todo && Healthy(workers[id], now, ttl) && matches(workers[id])
        decreases |todo|
      {
        var id :| id in todo;
        var w := workers[id];
        if Healthy(w, now, ttl) && matches(w) {
          result, ids := result + [w], ids + [id];
        }
        todo := todo - {id};
      }
      assert forall i :: 0 <= i < |ids| ==> ids[i] in ids;
    }
  }

  // ---------------------------------------------------------------------
  // Accounting of a single worker
  // ---------------------------------------------------------------------

  /** What every operation except Remove and UpdateState keeps true of a worker. */
  predicate Balanced(w: WorkerInfo) {
    && w.activeTasks >= 0 && w.successfulTasks >= 0 && w.failedTasks >= 0
    && w.totalTasks == w.successfulTasks + w.failedTasks + w.activeTasks
    && (w.state == Busy ==> w.activeTasks > 0)
  }

  // ---------------------------------------------------------------------
  // The running average of compile times
  // ---------------------------------------------------------------------

  datatype Report = Report(success: bool, compileTime: int)

  /** (successes, average) after a sequence of reports, starting from a fresh worker. */
  function AverageAfter(reports: seq<Report>): (int, int) {
    if reports == [] then (0, 0)
    else
      var (n, avg) := AverageAfter(reports[..|reports| - 1]);
      var last := reports[|reports| - 1];
      var n' := if last.success then n + 1 else n;
      (n', if n' > 0 then NextAverage(avg, n', last.compileTime) else avg)
  }

  function TotalTime(reports: seq<Report>): int {
    if reports == [] then 0 else TotalTime(reports[..|reports| - 1]) + reports[|reports| - 1].compileTime
  }

  /** The pair above is what repeated DecrementTasks leaves in the worker record. */
  function EndAll(w: WorkerInfo, reports: seq<Report>): WorkerInfo {
    if reports == [] then w
    else
      var last := reports[|reports| - 1];
      TaskEnded(EndAll(w, reports[..|reports| - 1]), last.success, last.compileTime)
  }

  lemma {:induction false} AverageIsRecorded(w: WorkerInfo, reports: seq<Report>)
    requires w.successfulTasks == 0 && w.avgCompileTime == 0
    ensures AverageAfter(reports) == (EndAll(w, reports).successfulTasks, EndAll(w, reports).avgCompileTime)
    ensures AverageAfter(reports).0 >= 0
  {
    if reports != [] {
      AverageIsRecorded(w, reports[..|reports| - 1]);
    }
  }

  /** 0 + 1 + ... + (n - 1) */
  function Triangle(n: nat): nat {
    if n == 0 then 0 else Triangle(n - 1) + (n - 1)
  }

  lemma {:induction false} TriangleClosedForm(n: nat)
    ensures 2 * Triangle(n) == n * (n - 1)
  {
    if n > 0 {
      TriangleClosedForm(n - 1);
      assert (n - 1) * (n - 2) + 2 * (n - 1) == n * (n - 1);
    }
  }

  /** What truncation has lost so far: the sum of the times minus n times the stored average. */
  function Lost(reports: seq<Report>): int {
    TotalTime(reports) - AverageAfter(reports).0 * AverageAfter(reports).1
  }

  lemma {:induction false} LostBound(reports: seq<Report>)
    requires forall i :: 0 <= i < |reports| ==> reports[i].success && reports[i].compileTime >= 0
    ensures AverageAfter(reports).0 == |reports| && AverageAfter(reports).1 >= 0
    ensures 0 <= Lost(reports) <= Triangle(|reports|)
  {
    if reports != [] {
      var init, n := reports[..|reports| - 1], |reports|;
      LostBound(init);
      var avg, t := AverageAfter(init).1, reports[n - 1].compileTime;
      AverageStep(avg, n, t);
      assert AverageAfter(reports) == (n, NextAverage(avg, n, t));
      assert Lost(reports) == Lost(init) + (avg * (n - 1) + t - n * NextAverage(avg, n, t));
    }
  }

  /** With successes only, truncation loses at most n(n-1)/2 in total, never gains. */
  lemma AverageErrorBound(reports: seq<Report>)
    requires forall i :: 0 <= i < |reports| ==> reports[i].success && reports[i].compileTime >= 0
    ensures AverageAfter(reports).0 == |reports|
    ensures 0 <= TotalTime(reports) - |reports| * AverageAfter(reports).1 <= |reports| * (|reports| - 1) / 2
  {
    LostBound(reports);
    TriangleClosedForm(|reports|);
  }

  lemma NonNegativeProduct(a: int, b: int)
    requires a >= 0 && b >= 0
    ensures a * b >= 0
  {
  }

  /** One truncated division keeps all but a remainder below n. */
  lemma AverageStep(avg: int, n: int, t: int)
    requires avg >= 0 && n > 0 && t >= 0
    ensures NextAverage(avg, n, t) >= 0
    ensures 0 <= avg * (n - 1) + t - n * NextAverage(avg, n, t) <= n - 1
  {
    NonNegativeProduct(avg, n - 1);
    Quotient(avg * (n - 1) + t, n);
  }

  lemma Quotient(a: int, n: int)
    requires a >= 0 && n > 0
    ensures GoDiv(a, n) >= 0 && 0 <= a - n * GoDiv(a, n) <= n - 1
  {
  }

  /** With any mixture of successes and failures the average stays within the reported range. */
  lemma {:induction false} AverageStaysInRange(reports: seq<Report>, top: int)
    requires top >= 0
    requires forall i :: 0 <= i < |reports| ==> 0 <= reports[i].compileTime <= top
    ensures AverageAfter(reports).0 >= 0
    ensures 0 <= AverageAfter(reports).1 <= top
  {
    if reports != [] {
      AverageStaysInRange(reports[..|reports| - 1], top);
      var (n, avg) := AverageAfter(reports[..|reports| - 1]);
      var last := reports[|reports| - 1];
      var n' := if last.success then n + 1 else n;
      if n' > 0 {
        WeightedMeanInRange(avg, n', last.compileTime, top);
      }
    }
  }

  lemma WeightedMeanInRange(avg: int, n: int, t: int, top: int)
    requires n > 0 && 0 <= avg <= top && 0 <= t <= top
    ensures 0 <= NextAverage(avg, n, t) <= top
  {
    AverageStep(avg, n, t);
    hide NextAverage;
    NonNegativeProduct(top - avg, n - 1);
    WithinTop(n, avg, top, avg * (n - 1), top * (n - 1), n * NextAverage(avg, n, t), t);
    NoLarger(n, NextAverage(avg, n, t), top);
  }

  lemma WithinTop(n: int, avg: int, top: int, sum: int, most: int, product: int, t: int)
    requires sum == avg * (n - 1) && most == top * (n - 1) && (top - avg) * (n - 1) >= 0
    requires t <= top && product <= sum + t
    ensures product <= n * top
  {
    assert (top - avg) * (n - 1) == most - sum;
    assert n * top == most + top;
  }

  lemma NoLarger(n: int, a: int, b: int)
    requires n > 0 && n * a <= n * b
    ensures a <= b
  {
    if a > b {
      NonNegativeProduct(n, a - b - 1);
    }
  }

  /** time lies from avg on, outwards from zero, by less than n -- and to either side of an average of zero. */
  predicate Near(avg: int, n: int, time: int) {
    if avg > 0 then avg <= time < avg + n
    else if avg < 0 then avg - n < time <= avg
    else -n < time < n
  }

  /** Exactly when a failure leaves the average of the successes alone: nothing has succeeded yet, or the failed task
      reported a time so near to it that the truncated division swallows the difference. */
  lemma FailureKeepsAverageIff(w: WorkerInfo, time: int)
    requires w.successfulTasks >= 0
    ensures TaskEnded(w, false, time).avgCompileTime == w.avgCompileTime
       <==> w.successfulTasks == 0 || Near(w.avgCompileTime, w.successfulTasks, time)
  {
    var avg, n := w.avgCompileTime, w.successfulTasks;
    if n > 0 {
      var product, excess := n * avg, time - avg;
      assert avg * (n - 1) + time == product + excess;
      hide GoDiv;
      QuotientIs(product + excess, n, avg, product);
      ProductSign(n, avg, product);
    }
  }

  /** The quotient of a multiple and a remainder, on either side of zero. */
  lemma QuotientIs(a: int, n: int, q: int, product: int)
    requires n > 0 && product == n * q
    ensures GoDiv(a, n) == q <==> if a >= 0 then product <= a < product + n else product - n < a <= product
  {
    var p := GoDiv(a, n);
    var other := n * p;
    if p < q {
      FarApart(n, p, q, other, product);
    } else if p > q {
      FarApart(n, q, p, product, other);
    }
  }

  lemma FarApart(n: int, p: int, q: int, np: int, nq: int)
    requires n > 0 && p < q && np == n * p && nq == n * q
    ensures np + n <= nq
  {
    NonNegativeProduct(n, q - p - 1);
  }

  lemma ProductSign(n: int, avg: int, product: int)
    requires n > 0 && product == n * avg
    ensures avg > 0 ==> product >= n
    ensures avg < 0 ==> product <= -n
    ensures avg == 0 ==> product == 0
  {
    if avg > 0 {
      NonNegativeProduct(n, avg - 1);
    } else if avg < 0 {
      NonNegativeProduct(n, -avg - 1);
    }
  }

  /** A failure moves the average although it is not counted: the stored value is then not the mean of the successes. */
  lemma FailureSkewsAverage()
    ensures AverageAfter([Report(true, 10), Report(true, 10), Report(false, 0)]) == (2, 5)
  {
    var r := [Report(true, 10), Report(true, 10), Report(false, 0)];
    assert r[..2] == [Report(true, 10), Report(true, 10)];
    assert r[..2][..1] == [Report(true, 10)];
    assert r[..2][..1][..0] == [];
    assert AverageAfter(r[..2][..1]) == (1, 10);
    assert AverageAfter(r[..2]) == (2, 10);
  }
}

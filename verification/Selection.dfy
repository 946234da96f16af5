/**
 Which workers a scheduler may choose from, and the power-of-two-choices pick.
 The admission rule is written out four times in the schedulers
 (internal/coordinator/scheduler: scheduler.go, epsilon_greedy.go, linucb.go,
 heft.go), statement for statement the same; EligibleWorkers is that code. The
 circuit breaker is an arbitrary predicate on worker ids, false everywhere when
 no checker is configured.
 */
module Selection {
  import opened Common
  import opened Registry
  import opened Feedback

  datatype Eligibility = Candidates(workers: seq<WorkerInfo>) | NoWorkers | NoMatchingWorkers

  /** What a scheduler answers: a worker, or why there is none. */
  datatype Choice = Chosen(worker: WorkerInfo, info: DispatchInfo) | Unavailable(why: Eligibility)

  /** The elements that satisfy p, in order. */
  function Filter(ws: seq<WorkerInfo>, p: WorkerInfo -> bool): seq<WorkerInfo> {
    if ws == [] then []
    else
      var w := ws[|ws| - 1];
      Filter(ws[..|ws| - 1], p) + if p(w) then [w] else []
  }

  /** A worker serves a client's system natively, or any system through Docker. */
  predicate FitsOS(w: WorkerInfo, clientOS: string) {
    clientOS == "" || (w.capabilities.Some? && (w.capabilities.value.os == clientOS || w.capabilities.value.dockerAvailable))
  }

  function Limit(w: WorkerInfo): int {
    if w.maxParallel <= 0 then 4 else w.maxParallel
  }

  /** Healthy and with room for one more task. */
  predicate Available(w: WorkerInfo) {
    w.state != Unhealthy && w.activeTasks < Limit(w)
  }

  /** May be chosen at all for this client. */
  predicate Usable(w: WorkerInfo, clientOS: string) {
    FitsOS(w, clientOS) && Available(w)
  }

  function Fitting(clientOS: string): WorkerInfo -> bool {
    w => FitsOS(w, clientOS)
  }

  /** What one pass over the workers admits. */
  function Admissible(open: string -> bool, relaxed: bool): WorkerInfo -> bool {
    w => Available(w) && (relaxed || !open(w.id))
  }

  /** What may be offered, with and without regard to circuits. */
  function Offerable(clientOS: string, open: string -> bool, relaxed: bool): WorkerInfo -> bool {
    w => Usable(w, clientOS) && (relaxed || !open(w.id))
  }

  lemma Meanings(clientOS: string, open: string -> bool, relaxed: bool, w: WorkerInfo)
    ensures Fitting(clientOS)(w) <==> FitsOS(w, clientOS)
    ensures Admissible(open, relaxed)(w) <==> Available(w) && (relaxed || !open(w.id))
    ensures Offerable(clientOS, open, relaxed)(w) <==> Usable(w, clientOS) && (relaxed || !open(w.id))
  {
  }

  // ---------------------------------------------------------------------
  // The admission rule
  // ---------------------------------------------------------------------

  function Eligible(listed: seq<WorkerInfo>, count: nat, clientOS: string, open: string -> bool): Eligibility {
    if listed == [] then if count == 0 then NoWorkers else NoMatchingWorkers
    else
      var closed := Filter(listed, Offerable(clientOS, open, false));
      var all := Filter(listed, Offerable(clientOS, open, true));
      if closed != [] then Candidates(closed) else if all != [] then Candidates(all) else NoMatchingWorkers
  }

  lemma {:induction false} FilterMember(ws: seq<WorkerInfo>, p: WorkerInfo -> bool, w: WorkerInfo)
    ensures w in Filter(ws, p) <==> w in ws && p(w)
  {
    if ws != [] {
      FilterMember(ws[..|ws| - 1], p, w);
      assert ws == ws[..|ws| - 1] + [ws[|ws| - 1]];
    }
  }

  lemma {:induction false} FilterCount(ws: seq<WorkerInfo>, p: WorkerInfo -> bool, w: WorkerInfo)
    ensures multiset(Filter(ws, p))[w] == if p(w) then multiset(ws)[w] else 0
  {
    if ws != [] {
      var init, last := ws[..|ws| - 1], ws[|ws| - 1];
      FilterCount(init, p, w);
      assert ws == init + [last];
    }
  }

  /** Filtering twice is filtering once by both. */
  lemma {:induction false} FilterTwice(ws: seq<WorkerInfo>, p: WorkerInfo -> bool, q: WorkerInfo -> bool, r: WorkerInfo -> bool)
    requires forall w :: r(w) <==> p(w) && q(w)
    ensures Filter(Filter(ws, p), q) == Filter(ws, r)
  {
    if ws != [] {
      var init, last := ws[..|ws| - 1], ws[|ws| - 1];
      FilterTwice(init, p, q, r);
      if p(last) {
        var kept := Filter(init, p) + [last];
        assert kept[..|kept| - 1] == Filter(init, p);
      } else {
        assert Filter(ws, p) == Filter(init, p);
      }
    }
  }

  /** A listed worker that is usable, and has an open circuit only if every usable one has. */
  ghost predicate Offered(w: WorkerInfo, listed: seq<WorkerInfo>, clientOS: string, open: string -> bool) {
    && w in listed && Usable(w, clientOS)
    && (open(w.id) ==> forall v :: v in listed && Usable(v, clientOS) ==> open(v.id))
  }

  /** Exactly which workers are offered: the usable ones whose circuit is closed, or all usable ones when every one is open. */
  lemma EligibleExactly(listed: seq<WorkerInfo>, count: nat, clientOS: string, open: string -> bool, w: WorkerInfo)
    requires Eligible(listed, count, clientOS, open).Candidates?
    ensures var offered := Eligible(listed, count, clientOS, open).workers;
            && offered != []
            && (w in offered <==> Offered(w, listed, clientOS, open))
  {
    hide Filter, Usable;
    var closed, all := Filter(listed, Offerable(clientOS, open, false)), Filter(listed, Offerable(clientOS, open, true));
    forall v
      ensures v in closed <==> v in listed && Usable(v, clientOS) && !open(v.id)
      ensures v in all <==> v in listed && Usable(v, clientOS)
    {
      FilterMember(listed, Offerable(clientOS, open, false), v);
      FilterMember(listed, Offerable(clientOS, open, true), v);
    }
    if closed != [] {
      assert closed[0] in closed;
    }
  }

  lemma NeverNone(listed: seq<WorkerInfo>, count: nat, clientOS: string, open: string -> bool)
    requires Eligible(listed, count, clientOS, open).Candidates?
    ensures Eligible(listed, count, clientOS, open).workers != []
  {
  }

  /** Every offered worker deserves to be, and there is one. */
  lemma OfferedAll(listed: seq<WorkerInfo>, count: nat, clientOS: string, open: string -> bool)
    requires Eligible(listed, count, clientOS, open).Candidates?
    ensures var offered := Eligible(listed, count, clientOS, open).workers;
            offered != [] && forall w :: w in offered ==> Offered(w, listed, clientOS, open)
  {
    hide Eligible, Offered;
    var offered := Eligible(listed, count, clientOS, open).workers;
    forall w | w in offered
      ensures Offered(w, listed, clientOS, open)
    {
      EligibleExactly(listed, count, clientOS, open, w);
    }
    NeverNone(listed, count, clientOS, open);
  }

  /** An error is reported exactly when no listed worker is usable, and tells an empty registry from a busy or unsuitable one. */
  lemma ErrorExactly(listed: seq<WorkerInfo>, count: nat, clientOS: string, open: string -> bool)
    ensures var r := Eligible(listed, count, clientOS, open);
            && (r.Candidates? <==> exists w :: w in listed && Usable(w, clientOS))
            && (r.NoWorkers? <==> listed == [] && count == 0)
  {
    hide Filter, Usable;
    var all := Filter(listed, Offerable(clientOS, open, true));
    var closed := Filter(listed, Offerable(clientOS, open, false));
    forall v
      ensures v in all <==> v in listed && Usable(v, clientOS)
      ensures v in closed ==> v in all
    {
      FilterMember(listed, Offerable(clientOS, open, true), v);
      FilterMember(listed, Offerable(clientOS, open, false), v);
    }
    if all != [] {
      assert all[0] in all;
    }
    if closed != [] {
      assert closed[0] in closed;
    }
  }

  /** The registry lists workers in no particular order: another order offers the same workers, or the same error. */
  lemma OrderIndependent(listed: seq<WorkerInfo>, listed': seq<WorkerInfo>, count: nat, clientOS: string, open: string -> bool)
    requires multiset(listed) == multiset(listed')
    ensures var r, r' := Eligible(listed, count, clientOS, open), Eligible(listed', count, clientOS, open);
            if r.Candidates? then r'.Candidates? && multiset(r.workers) == multiset(r'.workers) else r' == r
  {
    hide Filter, Usable;
    SameFiltered(listed, listed', Offerable(clientOS, open, false));
    SameFiltered(listed, listed', Offerable(clientOS, open, true));
    assert |listed| == |multiset(listed)| == |listed'|;
  }

  lemma SameFiltered(ws: seq<WorkerInfo>, ws': seq<WorkerInfo>, p: WorkerInfo -> bool)
    requires multiset(ws) == multiset(ws')
    ensures multiset(Filter(ws, p)) == multiset(Filter(ws', p)) && |Filter(ws, p)| == |Filter(ws', p)|
  {
    forall w: WorkerInfo
      ensures multiset(Filter(ws, p))[w] == multiset(Filter(ws', p))[w]
    {
      FilterCount(ws, p, w);
      FilterCount(ws', p, w);
    }
    assert multiset(Filter(ws, p)) == multiset(Filter(ws', p));
    assert |Filter(ws, p)| == |multiset(Filter(ws, p))| == |Filter(ws', p)|;
  }

  method FilterByOS(workers: seq<WorkerInfo>, clientOS: string) returns (result: seq<WorkerInfo>)
    ensures result == Filter(workers, Fitting(clientOS))
  {
    if clientOS == "" {
      KeepAll(workers, Fitting(clientOS));
      return workers;
    }
    result := [];
    for i := 0 to |workers|
      invariant result == Filter(workers[..i], Fitting(clientOS))
    {
      var w := workers[i];
      assert workers[..i + 1][..i] == workers[..i];
      if w.capabilities.None? {
        continue;
      }
      if w.capabilities.value.os == clientOS {
        result := result + [w];
        continue;
      }
      if w.capabilities.value.dockerAvailable {
        result := result + [w];
      }
    }
    assert workers[..|workers|] == workers;
  }

  lemma {:induction false} KeepAll(ws: seq<WorkerInfo>, p: WorkerInfo -> bool)
    requires forall w :: p(w)
    ensures Filter(ws, p) == ws
  {
    if ws != [] {
      KeepAll(ws[..|ws| - 1], p);
    }
  }

  /** The first pass over the workers skips open circuits, the second, if nothing was left, does not. */
  method Admit(workers: seq<WorkerInfo>, open: string -> bool, relaxed: bool) returns (candidates: seq<WorkerInfo>)
    ensures candidates == Filter(workers, Admissible(open, relaxed))
  {
    candidates := [];
    for i := 0 to |workers|
      invariant candidates == Filter(workers[..i], Admissible(open, relaxed))
    {
      var w := workers[i];
      assert workers[..i + 1][..i] == workers[..i];
      Meanings("", open, relaxed, w);
      if w.state == Unhealthy {
        continue;
      }
      if !relaxed && open(w.id) {
        continue;
      }
      var maxParallel := w.maxParallel;
      if maxParallel <= 0 {
        maxParallel := 4;
      }
      if w.activeTasks < maxParallel {
        candidates := candidates + [w];
      }
    }
    assert workers[..|workers|] == workers;
  }

  /** Booking one more task would exceed what the worker allows: its own limit, or four where it has set none. */
  predicate Overbooked(w: WorkerInfo) {
    TaskStarted(w).activeTasks > (if w.maxParallel > 0 then w.maxParallel else 4)
  }

  /** It can serve neither natively nor, having no Docker, through a container. */
  predicate WrongSystem(w: WorkerInfo, clientOS: string) {
    clientOS != "" && (w.capabilities.None? || (w.capabilities.value.os != clientOS && !w.capabilities.value.dockerAvailable))
  }

  /** What usable comes to: healthy, of the right system, and not overbooked by one more task. */
  lemma UsableMeans(w: WorkerInfo, clientOS: string)
    ensures Usable(w, clientOS) <==> w.state != Unhealthy && !WrongSystem(w, clientOS) && !Overbooked(w)
  {
  }

  /** Every offered worker is healthy, serves the client's system and stays within its limit when the task is booked. */
  lemma OfferedHasRoom(w: WorkerInfo, listed: seq<WorkerInfo>, clientOS: string, open: string -> bool)
    requires Offered(w, listed, clientOS, open)
    ensures w in listed && w.state != Unhealthy && !WrongSystem(w, clientOS) && !Overbooked(w)
  {
    UsableMeans(w, clientOS);
  }

  /** An error means that every listed worker is unhealthy, of the wrong system, or overbooked by one more task. */
  lemma ErrorMeansNoRoom(listed: seq<WorkerInfo>, count: nat, clientOS: string, open: string -> bool, w: WorkerInfo)
    requires !Eligible(listed, count, clientOS, open).Candidates? && w in listed
    ensures w.state == Unhealthy || WrongSystem(w, clientOS) || Overbooked(w)
  {
    hide Eligible;
    ErrorExactly(listed, count, clientOS, open);
    UsableMeans(w, clientOS);
  }

  method EligibleWorkers(listed: seq<WorkerInfo>, count: nat, clientOS: string, open: string -> bool) returns (r: Eligibility)
    ensures r == Eligible(listed, count, clientOS, open)
    ensures r.Candidates? ==> r.workers != [] && forall w :: w in r.workers ==>
              w in listed && w.state != Unhealthy && !WrongSystem(w, clientOS) && !Overbooked(w)
    ensures !r.Candidates? ==> forall w :: w in listed ==> w.state == Unhealthy || WrongSystem(w, clientOS) || Overbooked(w)
  {
    EligibleMeans(listed, count, clientOS, open);
    hide Eligible, Usable, Available, FitsOS, WrongSystem, Overbooked;
    r := FindEligible(listed, count, clientOS, open);
  }

  lemma EligibleMeans(listed: seq<WorkerInfo>, count: nat, clientOS: string, open: string -> bool)
    ensures var r := Eligible(listed, count, clientOS, open);
            && (r.Candidates? ==> r.workers != [] && forall w :: w in r.workers ==>
                  w in listed && w.state != Unhealthy && !WrongSystem(w, clientOS) && !Overbooked(w))
            && (!r.Candidates? ==> forall w :: w in listed ==> w.state == Unhealthy || WrongSystem(w, clientOS) || Overbooked(w))
  {
    hide Eligible, Offered, WrongSystem, Overbooked;
    var r := Eligible(listed, count, clientOS, open);
    if r.Candidates? {
      OfferedAll(listed, count, clientOS, open);
      forall w | w in r.workers
        ensures w in listed && w.state != Unhealthy && !WrongSystem(w, clientOS) && !Overbooked(w)
      {
        OfferedHasRoom(w, listed, clientOS, open);
      }
    } else {
      forall w | w in listed
        ensures w.state == Unhealthy || WrongSystem(w, clientOS) || Overbooked(w)
      {
        ErrorMeansNoRoom(listed, count, clientOS, open, w);
      }
    }
  }

  /** The two passes. */
  method FindEligible(listed: seq<WorkerInfo>, count: nat, clientOS: string, open: string -> bool) returns (r: Eligibility)
    ensures r == Eligible(listed, count, clientOS, open)
  {
    if |listed| == 0 {
      return if count == 0 then NoWorkers else NoMatchingWorkers;
    }
    var workers := FilterByOS(listed, clientOS);
    AdmitTwice(listed, clientOS, open, false);
    AdmitTwice(listed, clientOS, open, true);
    if |workers| == 0 {
      return NoMatchingWorkers;
    }
    var candidates := Admit(workers, open, false);
    if |candidates| == 0 {
      candidates := Admit(workers, open, true);
    }
    if |candidates| == 0 {
      return NoMatchingWorkers;
    }
    return Candidates(candidates);
  }

  lemma AdmitTwice(listed: seq<WorkerInfo>, clientOS: string, open: string -> bool, relaxed: bool)
    ensures Filter(Filter(listed, Fitting(clientOS)), Admissible(open, relaxed)) == Filter(listed, Offerable(clientOS, open, relaxed))
  {
    forall w
      ensures Offerable(clientOS, open, relaxed)(w) <==> Fitting(clientOS)(w) && Admissible(open, relaxed)(w)
    {
      Meanings(clientOS, open, relaxed, w);
    }
    FilterTwice(listed, Fitting(clientOS), Admissible(open, relaxed), Offerable(clientOS, open, relaxed));
  }

  // ---------------------------------------------------------------------
  // Power of two choices
  // ---------------------------------------------------------------------

  /** Two positions from two independent draws. */
  function PickTwo(n: nat, draw1: nat, draw2: nat): (r: (nat, nat))
    requires n >= 2 ==> draw1 < n && draw2 < n - 1
    ensures n >= 2 ==> r.0 < n && r.1 < n && r.0 != r.1
  {
    if n < 2 then (0, 0) else (draw1, if draw2 >= draw1 then draw2 + 1 else draw2)
  }

  /** Every ordered pair of different positions comes from exactly one pair of draws. */
  lemma PickTwoIsFair(n: nat, i: nat, j: nat)
    requires i < n && j < n && i != j
    ensures exists a: nat, b: nat :: a < n && b < n - 1 && PickTwo(n, a, b) == (i, j)
    ensures forall a: nat, b: nat, c: nat, d: nat | a < n && b < n - 1 && c < n && d < n - 1 ::
              PickTwo(n, a, b) == PickTwo(n, c, d) ==> a == c && b == d
  {
    assert PickTwo(n, i, if j > i then j - 1 else j) == (i, j);
  }

  /** The better of two different candidates; with two or more, one that scores strictly below all others is never returned. */
  method ChooseP2C(candidates: seq<WorkerInfo>, score: WorkerInfo -> real, draw1: nat, draw2: nat) returns (w: WorkerInfo)
    requires candidates != [] && (|candidates| >= 2 ==> draw1 < |candidates| && draw2 < |candidates| - 1)
    ensures w in candidates
    ensures |candidates| >= 2 ==>
              var (i, j) := PickTwo(|candidates|, draw1, draw2);
              && (w == candidates[i] || w == candidates[j])
              && score(candidates[i]) <= score(w) && score(candidates[j]) <= score(w)
    ensures |candidates| >= 2 ==>
              exists k, j :: 0 <= k < |candidates| && 0 <= j < |candidates| && j != k
                             && candidates[k] == w && score(candidates[j]) <= score(w)
  {
    if |candidates| == 1 {
      return candidates[0];
    }
    var (idx1, idx2) := PickTwo(|candidates|, draw1, draw2);
    var w1, w2 := candidates[idx1], candidates[idx2];
    var score1, score2 := score(w1), score(w2);
    if score1 >= score2 {
      return w1;
    }
    return w2;
  }

  /** The whole selection: the admission rule, then the better of two drawn; draw1 and draw2 answer for every bound. */
  method SelectP2C(listed: seq<WorkerInfo>, count: nat, clientOS: string, open: string -> bool,
                   score: WorkerInfo -> real, draw1: nat -> nat, draw2: nat -> nat) returns (r: Choice)
    requires forall n: nat :: n > 0 ==> draw1(n) < n && draw2(n) < n
    ensures var e := Eligible(listed, count, clientOS, open);
            if !e.Candidates? then r == Unavailable(e)
            else && r.Chosen? && Offered(r.worker, listed, clientOS, open)
                 && (|e.workers| >= 2 ==>
                       exists k, j :: 0 <= k < |e.workers| && 0 <= j < |e.workers| && j != k
                                      && e.workers[k] == r.worker && score(e.workers[j]) <= score(r.worker))
  {
    hide Eligible, Offered;
    var e := EligibleWorkers(listed, count, clientOS, open);
    if !e.Candidates? {
      return Unavailable(e);
    }
    var n := |e.workers|;
    OfferedAll(listed, count, clientOS, open);
    var w := ChooseP2C(e.workers, score, draw1(n), if n >= 2 then draw2(n - 1) else 0);
    return Chosen(w, DispatchInfo(0.0, false));
  }
}

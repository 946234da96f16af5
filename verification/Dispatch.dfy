/**
 The coordinator's Compile and Build handlers as a step system
 (internal/coordinator/server/grpc.go). Every atomic add, every lock-protected
 registry operation, every access to the learner's pending vectors is one step;
 any number of calls may be at any point of their handler, and handshakes,
 heartbeats and staleness sweeps happen in between. Deferred statements run in
 reverse order of their registration, as separate steps.
 */
module Dispatch {
  import opened Counting
  import opened Common
  import opened Registry
  import opened Feedback

  type Vec = seq<real>

  /** Build stands for the Flutter and the Unity handler, which have the same steps. */
  datatype Kind = Compile | Build

  /** The next statement with a shared effect that a call will execute. */
  datatype Pc =
    | Lookup                          // Build: look in the result cache
    | HitTotal | HitSuccess           // Build: cached result, count it and tally it
    | Enqueue                         // queuedTasks + 1
    | Select                          // choose a worker
    | NoWorkerTotal | NoWorkerFailed  // Build without a worker: count it and tally it
    | Connect                         // Build: connection to the worker
    | Register                        // registry.IncrementTasks
    | Activate                        // activeTasks + 1
    | CountTotal                      // totalTasks + 1
    | CountWorker                     // the worker's gauge + 1
    | Forward                         // remote call
    | Release                         // registry.DecrementTasks
    | Learn                           // Compile: RecordOutcome
    | Tally                           // successTasks or failedTasks + 1
    | Deactivate                      // deferred: activeTasks - 1
    | UncountWorker                   // deferred: the worker's gauge - 1
    | Dequeue                         // deferred: queuedTasks - 1
    | Returned

  /** Which of the coordinator's counters a call has been counted in; the code does not keep it. */
  datatype Mark = Uncounted | Counted | Succeeded | Failed

  datatype Call = Call(
    kind: Kind,
    task: string,
    pc: Pc,
    mark: Mark,
    worker: string,
    x: Option<Vec>,       // the feature vector of the chosen worker, when the learner cached one
    success: bool,
    compileTime: int,     // as reported, in milliseconds
    reward: Reward)

  /** One update of an arm: which call caused it, for which worker, with which vector and reward. */
  datatype Update = Update(call: nat, worker: string, x: Vec, reward: real)

  datatype State = State(
    workers: Workers,
    active: int,
    queued: int,
    total: int,
    success: int,
    failed: int,
    gauges: map<string, int>,
    pending: map<string, Vec>,
    updates: seq<Update>,
    released: seq<nat>,   // calls in the order of their DecrementTasks; the code does not keep it
    calls: seq<Call>)

  datatype Step =
    | Handshake(info: WorkerInfo, now: int)
    | Heartbeat(id: string, now: int)
    | Sweep(now: int, ttl: int)
    | Begin(kind: Kind, task: string)
    | Look(i: nat, hit: bool)
    | Pick(i: nat, choice: Option<string>, x: Option<Vec>)
    | Dial(i: nat, ok: bool)
    | Reply(i: nat, ok: bool, compileTime: int, reward: Reward)
    | Advance(i: nat)

  const INIT := State(map[], 0, 0, 0, 0, 0, map[], map[], [], [], [])

  predicate At(s: State, i: nat, pc: Pc) {
    i < |s.calls| && s.calls[i].pc == pc
  }

  /** A worker record as Handshake builds it: named, and with all counters at zero. */
  predicate NewWorker(w: WorkerInfo) {
    w.id != "" && w.activeTasks == w.totalTasks == w.successfulTasks == w.failedTasks == w.avgCompileTime == 0
  }

  predicate Choosing(pc: Pc) {
    pc == Lookup || pc == Select || pc == Connect || pc == Forward || pc == Returned
  }

  /** The reward as Compile computes it from the reported milliseconds: -1 for a failure, otherwise -log1p(time) over a
      positive number, which is not finite exactly for times below zero, and zero exactly for time zero. */
  predicate RewardFits(ok: bool, time: int, reward: Reward) {
    if !ok then reward == Finite(-1.0)
    else if time < 0 then reward == NotFinite
    else reward.Finite? && reward.value <= 0.0 && (reward.value == 0.0 <==> time == 0)
  }

  predicate Enabled(s: State, step: Step) {
    match step
    case Handshake(w, _) => NewWorker(w)
    case Heartbeat(_, _) => true
    case Sweep(_, _) => true
    case Begin(_, task) => task != ""
    case Look(i, _) => At(s, i, Lookup)
    case Pick(i, choice, x) =>
      && At(s, i, Select)
      && (choice.Some? ==> choice.value in s.workers)
      && (x.Some? ==> choice.Some? && s.calls[i].kind == Compile)
    case Dial(i, _) => At(s, i, Connect)
    case Reply(i, ok, time, reward) => At(s, i, Forward) && (s.calls[i].kind == Compile ==> RewardFits(ok, time, reward))
    case Advance(i) => i < |s.calls| && !Choosing(s.calls[i].pc)
  }

  function Gauge(gauges: map<string, int>, w: string): int {
    if w in gauges then gauges[w] else 0
  }

  /** RecordOutcome of the LinUCB learner, for call i. */
  function Learned(s: State, i: nat): State
    requires i < |s.calls|
  {
    var c := s.calls[i];
    if c.worker == "" || c.reward.NotFinite? || c.task !in s.pending then s
    else s.(pending := s.pending - {c.task},
            updates := s.updates + [Update(i, c.worker, s.pending[c.task], c.reward.value)])
  }

  /** The shared effect of the deterministic statement call i is at. */
  function Effect(s: State, i: nat): State
    requires i < |s.calls|
  {
    var c := s.calls[i];
    match c.pc
    case HitTotal => s.(total := s.total + 1)
    case HitSuccess => s.(success := s.success + 1)
    case Enqueue => s.(queued := s.queued + 1)
    case NoWorkerTotal => s.(total := s.total + 1)
    case NoWorkerFailed => s.(failed := s.failed + 1)
    case Register => s.(workers := Incremented(s.workers, c.worker))
    case Activate => s.(active := s.active + 1)
    case CountTotal => s.(total := s.total + 1)
    case CountWorker => s.(gauges := s.gauges[c.worker := Gauge(s.gauges, c.worker) + 1])
    case Release =>
      s.(workers := Decremented(s.workers, c.worker, c.success, if c.kind == Build then 0 else c.compileTime * MILLISECOND),
         released := s.released + [i])
    case Learn => Learned(s, i)
    case Tally => if c.success then s.(success := s.success + 1) else s.(failed := s.failed + 1)
    case Deactivate => s.(active := s.active - 1)
    case UncountWorker => s.(gauges := s.gauges[c.worker := Gauge(s.gauges, c.worker) - 1])
    case Dequeue => s.(queued := s.queued - 1)
    case _ => s
  }

  function Next(c: Call): Pc {
    match c.pc
    case HitTotal => HitSuccess
    case Enqueue => Select
    case NoWorkerTotal => NoWorkerFailed
    case NoWorkerFailed => Dequeue
    case Register => Activate
    case Activate => CountTotal
    case CountTotal => CountWorker
    case CountWorker => Forward
    case Release => if c.kind == Compile then Learn else Tally
    case Learn => Tally
    case Tally => Deactivate
    case Deactivate => UncountWorker
    case UncountWorker => Dequeue
    case _ => Returned
  }

  function NextMark(c: Call): Mark {
    match c.pc
    case HitTotal => Counted
    case HitSuccess => Succeeded
    case NoWorkerTotal => Counted
    case NoWorkerFailed => Failed
    case CountTotal => Counted
    case Tally => if c.success then Succeeded else Failed
    case _ => c.mark
  }

  function NewCall(kind: Kind, task: string): Call {
    Call(kind, task, if kind == Compile then Enqueue else Lookup, Uncounted, "", None, false, 0, NotFinite)
  }

  /** What the step makes of the call it concerns. */
  function Moved(s: State, step: Step): Call
    requires Enabled(s, step) && Concerns(step)
  {
    var c := s.calls[step.i];
    match step
    case Look(_, hit) => c.(pc := if hit then HitTotal else Enqueue)
    case Pick(_, choice, x) =>
      if choice.None? then c.(pc := if c.kind == Compile then Dequeue else NoWorkerTotal)
      else c.(pc := if c.kind == Compile then Register else Connect, worker := choice.value, x := x)
    case Dial(_, ok) => c.(pc := if ok then Register else Dequeue)
    case Reply(_, ok, t, r) => c.(pc := Release, success := ok, compileTime := t, reward := r)
    case Advance(_) => c.(pc := Next(c), mark := NextMark(c))
  }

  function Apply(s: State, step: Step): State
    requires Enabled(s, step)
  {
    match step
    case Handshake(w, now) => s.(workers := Added(s.workers, w, now))
    case Heartbeat(id, now) => s.(workers := HeartbeatSeen(s.workers, id, now))
    case Sweep(now, ttl) => s.(workers := Swept(s.workers, now, ttl))
    case Begin(kind, task) => s.(calls := s.calls + [NewCall(kind, task)])
    case Pick(i, _, x) =>
      s.(calls := s.calls[i := Moved(s, step)],
         pending := if x.Some? then s.pending[s.calls[i].task := x.value] else s.pending)
    case Advance(i) => Effect(s, i).(calls := s.calls[i := Moved(s, step)])
    case _ => s.(calls := s.calls[step.i := Moved(s, step)])
  }

  predicate Possible(run: seq<Step>)
    decreases |run|, 0
  {
    run == [] ||
    (var init := run[..|run| - 1]; Possible(init) && Enabled(After(init), run[|run| - 1]))
  }

  function After(run: seq<Step>): State
    requires Possible(run)
    decreases |run|, 1
  {
    if run == [] then INIT else Apply(After(run[..|run| - 1]), run[|run| - 1])
  }

  // ---------------------------------------------------------------------
  // Where a call is counted
  // ---------------------------------------------------------------------

  predicate HoldsActive(c: Call) {
    c.pc.CountTotal? || c.pc.CountWorker? || c.pc.Forward? || c.pc.Release? || c.pc.Learn?
    || c.pc.Tally? || c.pc.Deactivate?
  }

  predicate HoldsQueued(c: Call) {
    c.pc.Select? || c.pc.NoWorkerTotal? || c.pc.NoWorkerFailed? || c.pc.Connect? || c.pc.Register?
    || c.pc.Activate? || c.pc.CountTotal? || c.pc.CountWorker? || c.pc.Forward? || c.pc.Release?
    || c.pc.Learn? || c.pc.Tally? || c.pc.Deactivate? || c.pc.UncountWorker? || c.pc.Dequeue?
  }

  /** Counted in totalTasks, not yet in successTasks or failedTasks. */
  predicate Untallied(c: Call) {
    c.pc.HitSuccess? || c.pc.NoWorkerFailed? || c.pc.CountWorker? || c.pc.Forward? || c.pc.Release?
    || c.pc.Learn? || c.pc.Tally?
  }

  /** Between IncrementTasks and DecrementTasks. */
  predicate HoldsRegistry(c: Call) {
    c.pc.Activate? || c.pc.CountTotal? || c.pc.CountWorker? || c.pc.Forward? || c.pc.Release?
  }

  predicate HoldsGauge(c: Call) {
    c.pc.Forward? || c.pc.Release? || c.pc.Learn? || c.pc.Tally? || c.pc.Deactivate?
    || c.pc.UncountWorker?
  }

  predicate HasWorker(c: Call) {
    c.pc.Connect? || c.pc.Register? || c.pc.Activate? || c.pc.CountTotal? || c.pc.CountWorker?
    || c.pc.Forward? || c.pc.Release? || c.pc.Learn? || c.pc.Tally? || c.pc.Deactivate?
    || c.pc.UncountWorker?
  }

  function RegisteredOn(w: string): Call -> bool {
    (c: Call) => c.worker == w && HoldsRegistry(c)
  }

  function GaugedOn(w: string): Call -> bool {
    (c: Call) => c.worker == w && HoldsGauge(c)
  }

  // ---------------------------------------------------------------------
  // The coordinator's counters
  // ---------------------------------------------------------------------

  predicate InTotal(c: Call) {
    c.mark != Uncounted
  }

  predicate InSuccess(c: Call) {
    c.mark == Succeeded
  }

  predicate InFailed(c: Call) {
    c.mark == Failed
  }

  /** Not counted before its statement, counted until its tally, tallied or never counted at the end. */
  predicate Proper(c: Call) {
    if Untallied(c) then c.mark == Counted
    else if c.pc.Deactivate? || c.pc.UncountWorker? then c.mark == (if c.success then Succeeded else Failed)
    else if c.pc.Dequeue? || c.pc.Returned? then c.mark != Counted
    else c.mark == Uncounted
  }

  ghost predicate CountersInv(s: State) {
    && (forall i :: 0 <= i < |s.calls| ==> Proper(s.calls[i]))
    && s.active == Count(s.calls, HoldsActive)
    && s.queued == Count(s.calls, HoldsQueued)
    && s.total == Count(s.calls, InTotal)
    && s.success == Count(s.calls, InSuccess)
    && s.failed == Count(s.calls, InFailed)
  }

  /** Steps that concern one existing call. */
  predicate Concerns(step: Step) {
    step.Look? || step.Pick? || step.Dial? || step.Reply? || step.Advance?
  }

  /** How a step changes the number of calls in a given region of the handler. */
  lemma CountShift(s: State, step: Step, p: Call -> bool)
    requires Enabled(s, step)
    ensures Count(Apply(s, step).calls, p)
         == Count(s.calls, p)
            + (if step.Begin? then Bit(p(NewCall(step.kind, step.task)))
               else if Concerns(step) then Bit(p(Moved(s, step))) - Bit(p(s.calls[step.i]))
               else 0)
  {
    hide CountTo, Incremented, Decremented, Added, HeartbeatSeen, Swept, Moved, NewCall;
    if step.Begin? {
      CountAppend(s.calls, p, NewCall(step.kind, step.task));
    } else if Concerns(step) {
      CountReplace(s.calls, p, step.i, Moved(s, step));
    }
  }

  /** How Apply treats the list of calls. */
  lemma CallsAfter(s: State, step: Step)
    requires Enabled(s, step)
    ensures Apply(s, step).calls
         == if step.Begin? then s.calls + [NewCall(step.kind, step.task)]
            else if Concerns(step) then s.calls[step.i := Moved(s, step)]
            else s.calls
    ensures Concerns(step) ==> Moved(s, step).kind == s.calls[step.i].kind && Moved(s, step).task == s.calls[step.i].task
  {
  }

  predicate Executes(s: State, step: Step, pc: Pc)
    requires Enabled(s, step)
  {
    step.Advance? && s.calls[step.i].pc == pc
  }

  lemma LearnedTouches(s: State, i: nat)
    requires i < |s.calls|
    ensures Learned(s, i) == s.(pending := Learned(s, i).pending, updates := Learned(s, i).updates)
  {
  }

  /** Which statements change the coordinator's counters. */
  lemma EffectOnCounters(s: State, i: nat)
    requires i < |s.calls|
    ensures var t, c := Effect(s, i), s.calls[i];
            && t.active == s.active + Bit(c.pc.Activate?) - Bit(c.pc.Deactivate?)
            && t.queued == s.queued + Bit(c.pc.Enqueue?) - Bit(c.pc.Dequeue?)
            && t.total == s.total + Bit(c.pc.HitTotal? || c.pc.NoWorkerTotal? || c.pc.CountTotal?)
            && t.success == s.success + Bit(c.pc.HitSuccess? || (c.pc.Tally? && c.success))
            && t.failed == s.failed + Bit(c.pc.NoWorkerFailed? || (c.pc.Tally? && !c.success))
  {
    hide Incremented, Decremented, Learned, Gauge;
    LearnedTouches(s, i);
  }

  /** What a step does to the coordinator's counters. */
  lemma CountersAfter(s: State, step: Step)
    requires Enabled(s, step)
    ensures var t := Apply(s, step);
            && t.active == s.active + Bit(Executes(s, step, Activate)) - Bit(Executes(s, step, Deactivate))
            && t.queued == s.queued + Bit(Executes(s, step, Enqueue)) - Bit(Executes(s, step, Dequeue))
            && t.total == s.total + Bit(Executes(s, step, HitTotal) || Executes(s, step, NoWorkerTotal) || Executes(s, step, CountTotal))
            && t.success == s.success + Bit(Executes(s, step, HitSuccess) || (Executes(s, step, Tally) && s.calls[step.i].success))
            && t.failed == s.failed + Bit(Executes(s, step, NoWorkerFailed) || (Executes(s, step, Tally) && !s.calls[step.i].success))
  {
    hide Effect, Moved, Added, HeartbeatSeen, Swept, NewCall;
    if step.Advance? {
      EffectOnCounters(s, step.i);
    }
  }

  /** The same for the call the step concerns. */
  lemma RegionsAfter(s: State, step: Step)
    requires Enabled(s, step) && Concerns(step)
    ensures var c, c' := s.calls[step.i], Moved(s, step);
            && Bit(HoldsActive(c')) == Bit(HoldsActive(c)) + Bit(Executes(s, step, Activate)) - Bit(Executes(s, step, Deactivate))
            && Bit(HoldsQueued(c')) == Bit(HoldsQueued(c)) + Bit(Executes(s, step, Enqueue)) - Bit(Executes(s, step, Dequeue))
  {
  }

  lemma MarksAfter(s: State, step: Step)
    requires Enabled(s, step) && Concerns(step) && Proper(s.calls[step.i])
    ensures var c, c' := s.calls[step.i], Moved(s, step);
            && Proper(c')
            && Bit(InTotal(c')) == Bit(InTotal(c))
                 + Bit(Executes(s, step, HitTotal) || Executes(s, step, NoWorkerTotal) || Executes(s, step, CountTotal))
            && Bit(InSuccess(c')) == Bit(InSuccess(c)) + Bit(Executes(s, step, HitSuccess) || (Executes(s, step, Tally) && c.success))
            && Bit(InFailed(c')) == Bit(InFailed(c)) + Bit(Executes(s, step, NoWorkerFailed) || (Executes(s, step, Tally) && !c.success))
  {
  }

  lemma FreshRegions(kind: Kind, task: string)
    ensures var c := NewCall(kind, task);
            Proper(c) && !HoldsActive(c) && !HoldsQueued(c) && !InTotal(c) && !InSuccess(c) && !InFailed(c)
  {
  }

  lemma CountersKept(s: State, step: Step)
    requires CountersInv(s) && Enabled(s, step)
    ensures CountersInv(Apply(s, step))
  {
    hide Apply, Moved, Count, NewCall, Executes, Proper, HoldsActive, HoldsQueued, InTotal, InSuccess, InFailed;
    CountersAfter(s, step);
    if Concerns(step) {
      RegionsAfter(s, step);
      MarksAfter(s, step);
    } else {
      NothingExecuted(s, step);
      if step.Begin? {
        FreshRegions(step.kind, step.task);
      }
    }
    CallsAfter(s, step);
    CountShift(s, step, HoldsActive);
    CountShift(s, step, HoldsQueued);
    CountShift(s, step, InTotal);
    CountShift(s, step, InSuccess);
    CountShift(s, step, InFailed);
  }

  lemma NothingExecuted(s: State, step: Step)
    requires Enabled(s, step) && !Concerns(step)
    ensures forall pc :: !Executes(s, step, pc)
  {
  }

  lemma {:induction false} CountersAlways(run: seq<Step>)
    requires Possible(run)
    ensures CountersInv(After(run))
  {
    hide Apply, Enabled;
    if run != [] {
      CountersAlways(run[..|run| - 1]);
      CountersKept(After(run[..|run| - 1]), run[|run| - 1]);
    }
  }

  lemma {:induction false} MarksPartition(calls: seq<Call>, n: nat)
    requires n <= |calls| && forall i :: 0 <= i < n ==> Proper(calls[i])
    ensures CountTo(calls, n, InTotal) == CountTo(calls, n, InSuccess) + CountTo(calls, n, InFailed) + CountTo(calls, n, Untallied)
  {
    if n > 0 {
      MarksPartition(calls, n - 1);
    }
  }

  /** No task is lost or counted twice, across cache hits, missing workers and failed connections: totalTasks, successTasks
      and failedTasks are the numbers of calls counted in them, and every call in totalTasks is in one of the others or
      has its tally still to come. */
  lemma TotalsBalance(run: seq<Step>)
    requires Possible(run)
    ensures var s := After(run);
            && s.total == Count(s.calls, InTotal) && s.success == Count(s.calls, InSuccess) && s.failed == Count(s.calls, InFailed)
            && s.total == s.success + s.failed + Count(s.calls, Untallied)
  {
    CountersAlways(run);
    MarksPartition(After(run).calls, |After(run).calls|);
  }

  /** Deferred decrements run in reverse order, so at no step does activeTasks exceed queuedTasks. */
  lemma ActiveWithinQueued(run: seq<Step>)
    requires Possible(run)
    ensures 0 <= After(run).active <= After(run).queued
  {
    CountersAlways(run);
    CountWeaker(After(run).calls, |After(run).calls|, HoldsActive, HoldsQueued);
  }

  // ---------------------------------------------------------------------
  // The registry's accounting
  // ---------------------------------------------------------------------

  /** The worker's active tasks are exactly the calls between their increment and decrement. */
  ghost predicate WorkerInv(s: State, w: string)
    requires w in s.workers
  {
    Balanced(s.workers[w]) && s.workers[w].activeTasks == Count(s.calls, RegisteredOn(w))
  }

  ghost predicate RegistryInv(s: State) {
    && "" !in s.workers
    && (forall i :: 0 <= i < |s.calls| && HasWorker(s.calls[i]) ==> s.calls[i].worker in s.workers)
    && (forall w :: w in s.workers ==> WorkerInv(s, w))
  }

  lemma WorkersOnlyGrow(s: State, step: Step)
    requires Enabled(s, step)
    ensures s.workers.Keys <= Apply(s, step).workers.Keys
    ensures "" !in s.workers ==> "" !in Apply(s, step).workers
  {
    hide Moved, TaskStarted, TaskEnded;
  }

  lemma WorkersKnown(s: State, step: Step)
    requires RegistryInv(s) && Enabled(s, step)
    ensures var t := Apply(s, step);
            forall i :: 0 <= i < |t.calls| && HasWorker(t.calls[i]) ==> t.calls[i].worker in t.workers
  {
    hide Incremented, Decremented, Added, HeartbeatSeen, Swept, WorkerInv, Learned;
    WorkersOnlyGrow(s, step);
    var t := Apply(s, step);
    forall i | 0 <= i < |t.calls| && HasWorker(t.calls[i])
      ensures t.calls[i].worker in t.workers
    {
      if Concerns(step) && step.i == i {
        assert t.calls[i] == Moved(s, step);
      } else if i < |s.calls| {
        assert t.calls[i] == s.calls[i];
      }
    }
  }

  /** What the step does to one worker's record. */
  lemma WorkerAfter(s: State, step: Step, w: string)
    requires Enabled(s, step) && w in s.workers
    ensures var t := Apply(s, step);
            && w in t.workers
            && (if step.Advance? && s.calls[step.i].worker == w && s.calls[step.i].pc.Register? then
                  t.workers[w] == TaskStarted(s.workers[w])
                else if step.Advance? && s.calls[step.i].worker == w && s.calls[step.i].pc.Release? then
                  exists ok, time :: t.workers[w] == TaskEnded(s.workers[w], ok, time)
                else
                  && t.workers[w].activeTasks == s.workers[w].activeTasks
                  && (Balanced(s.workers[w]) ==> Balanced(t.workers[w])))
  {
    hide TaskStarted, TaskEnded, Moved;
    if step.Advance? && s.calls[step.i].worker == w && s.calls[step.i].pc.Release? {
      var c := s.calls[step.i];
      assert Apply(s, step).workers[w] == TaskEnded(s.workers[w], c.success, if c.kind == Build then 0 else c.compileTime * MILLISECOND);
    }
  }

  lemma StartedBalanced(w: WorkerInfo)
    requires Balanced(w)
    ensures Balanced(TaskStarted(w)) && TaskStarted(w).activeTasks == w.activeTasks + 1
  {
  }

  lemma EndedBalanced(w: WorkerInfo, ok: bool, time: int)
    requires Balanced(w) && w.activeTasks > 0
    ensures Balanced(TaskEnded(w, ok, time)) && TaskEnded(w, ok, time).activeTasks == w.activeTasks - 1
  {
  }

  lemma WorkerKept(s: State, step: Step, w: string)
    requires RegistryInv(s) && Enabled(s, step) && w in s.workers
    ensures w in Apply(s, step).workers && WorkerInv(Apply(s, step), w)
  {
    hide Count, TaskStarted, TaskEnded, Balanced, Learned, Incremented, Decremented, Added, HeartbeatSeen, Swept;
    assert WorkerInv(s, w);
    CountShift(s, step, RegisteredOn(w));
    WorkerAfter(s, step, w);
    if step.Advance? && s.calls[step.i].worker == w {
      if s.calls[step.i].pc.Register? {
        StartedBalanced(s.workers[w]);
      } else if s.calls[step.i].pc.Release? {
        ReleaseGuard(s, step.i);
        var ok, time :| Apply(s, step).workers[w] == TaskEnded(s.workers[w], ok, time);
        EndedBalanced(s.workers[w], ok, time);
      }
    }
  }

  /** When a call is about to decrement, its worker has a task to take off: the guard in DecrementTasks never fails. */
  lemma ReleaseGuard(s: State, i: nat)
    requires RegistryInv(s) && At(s, i, Release)
    ensures s.calls[i].worker in s.workers && s.workers[s.calls[i].worker].activeTasks > 0
  {
    var w := s.calls[i].worker;
    assert WorkerInv(s, w);
    CountPositive(s.calls, |s.calls|, RegisteredOn(w), i);
  }

  lemma OnlyHandshakesAdd(s: State, step: Step, w: string)
    requires Enabled(s, step) && w !in s.workers && w in Apply(s, step).workers
    ensures step.Handshake? && step.info.id == w
  {
    hide Moved, TaskStarted, TaskEnded, Learned, NewCall;
    if step.Advance? {
      LearnedTouches(s, step.i);
    }
  }

  lemma NewWorkerKept(s: State, step: Step, w: string)
    requires RegistryInv(s) && Enabled(s, step) && w !in s.workers && w in Apply(s, step).workers
    ensures WorkerInv(Apply(s, step), w)
  {
    OnlyHandshakesAdd(s, step, w);
    hide Effect, Moved, NewCall, HeartbeatSeen, Swept;
    CountZero(s.calls, |s.calls|, RegisteredOn(w));
  }

  lemma RegistryKept(s: State, step: Step)
    requires RegistryInv(s) && Enabled(s, step)
    ensures RegistryInv(Apply(s, step))
  {
    hide Apply, WorkerInv, HasWorker;
    WorkersOnlyGrow(s, step);
    WorkersKnown(s, step);
    var t := Apply(s, step);
    forall w | w in t.workers
      ensures WorkerInv(t, w)
    {
      if w in s.workers {
        WorkerKept(s, step, w);
      } else {
        NewWorkerKept(s, step, w);
      }
    }
  }

  /** In every interleaving of builds, handshakes, heartbeats and sweeps the books of every worker balance. */
  lemma {:induction false} RegistryAlways(run: seq<Step>)
    requires Possible(run)
    ensures RegistryInv(After(run))
  {
    if run != [] {
      RegistryAlways(run[..|run| - 1]);
      RegistryKept(After(run[..|run| - 1]), run[|run| - 1]);
    }
  }

  // ---------------------------------------------------------------------
  // The registry's tallies
  // ---------------------------------------------------------------------

  /** Released by its worker with this outcome. */
  predicate Ended(c: Call, ok: bool) {
    if c.pc.Learn? || c.pc.Tally? || c.pc.Deactivate? || c.pc.UncountWorker? then c.success == ok
    else (c.pc.Dequeue? || c.pc.Returned?) && c.mark == if ok then Succeeded else Failed
  }

  function EndedOn(w: string, ok: bool): Call -> bool {
    (c: Call) => c.worker == w && Ended(c, ok)
  }

  predicate WithoutWorker(pc: Pc) {
    pc.Lookup? || pc.HitTotal? || pc.HitSuccess? || pc.Enqueue? || pc.Select? || pc.NoWorkerTotal? || pc.NoWorkerFailed?
  }

  /** A call has no worker before its selection, and a known one afterwards. */
  predicate Placed(s: State, c: Call) {
    && (WithoutWorker(c.pc) ==> c.worker == "")
    && (c.worker != "" ==> c.worker in s.workers)
  }

  ghost predicate Tallied(s: State, w: string)
    requires w in s.workers
  {
    && s.workers[w].successfulTasks == Count(s.calls, EndedOn(w, true))
    && s.workers[w].failedTasks == Count(s.calls, EndedOn(w, false))
  }

  ghost predicate TalliesInv(s: State) {
    && "" !in s.workers
    && (forall i :: 0 <= i < |s.calls| ==> Placed(s, s.calls[i]))
    && (forall w :: w in s.workers ==> Tallied(s, w))
  }

  predicate Releases(s: State, step: Step, w: string, ok: bool)
    requires Enabled(s, step)
  {
    step.Advance? && s.calls[step.i].worker == w && s.calls[step.i].pc.Release? && s.calls[step.i].success == ok
  }

  lemma TallyAfter(s: State, step: Step, w: string)
    requires Enabled(s, step) && w in s.workers
    ensures var t := Apply(s, step);
            && w in t.workers
            && t.workers[w].successfulTasks == s.workers[w].successfulTasks + Bit(Releases(s, step, w, true))
            && t.workers[w].failedTasks == s.workers[w].failedTasks + Bit(Releases(s, step, w, false))
  {
    hide Moved, NewCall, Learned, Gauge, NextAverage;
    if step.Advance? {
      LearnedTouches(s, step.i);
    }
  }

  lemma EndedAfter(s: State, step: Step, w: string, ok: bool)
    requires Enabled(s, step) && Concerns(step) && w != "" && Proper(s.calls[step.i]) && Placed(s, s.calls[step.i])
    ensures Bit(EndedOn(w, ok)(Moved(s, step))) == Bit(EndedOn(w, ok)(s.calls[step.i])) + Bit(Releases(s, step, w, ok))
  {
  }

  lemma FreshNotEnded(kind: Kind, task: string, w: string, ok: bool)
    ensures !EndedOn(w, ok)(NewCall(kind, task))
  {
  }

  lemma TallyKept(s: State, step: Step, w: string)
    requires TalliesInv(s) && CountersInv(s) && Enabled(s, step) && w in s.workers
    ensures w in Apply(s, step).workers && Tallied(Apply(s, step), w)
  {
    assert Tallied(s, w);
    assert Concerns(step) ==> Proper(s.calls[step.i]) && Placed(s, s.calls[step.i]);
    hide Apply, Moved, NewCall, Count, Proper, Placed, Ended, Enabled, CountersInv;
    TallyAfter(s, step, w);
    if Concerns(step) {
      EndedAfter(s, step, w, true);
      EndedAfter(s, step, w, false);
    } else if step.Begin? {
      FreshNotEnded(step.kind, step.task, w, true);
      FreshNotEnded(step.kind, step.task, w, false);
    }
    CountShift(s, step, EndedOn(w, true));
    CountShift(s, step, EndedOn(w, false));
  }

  lemma PlacedKept(s: State, step: Step)
    requires TalliesInv(s) && Enabled(s, step)
    ensures var t := Apply(s, step); forall i :: 0 <= i < |t.calls| ==> Placed(t, t.calls[i])
  {
    hide Apply, Moved, NewCall, Tallied;
    CallsAfter(s, step);
    WorkersOnlyGrow(s, step);
    var t := Apply(s, step);
    if Concerns(step) {
      MovedPlaced(s, t, step);
    } else if step.Begin? {
      FreshPlaced(t, step.kind, step.task);
    }
  }

  lemma MovedPlaced(s: State, t: State, step: Step)
    requires Enabled(s, step) && Concerns(step) && Placed(s, s.calls[step.i]) && s.workers.Keys <= t.workers.Keys
    ensures Placed(t, Moved(s, step))
  {
  }

  lemma FreshPlaced(s: State, kind: Kind, task: string)
    ensures Placed(s, NewCall(kind, task))
  {
  }

  lemma NewcomerTallied(s: State, step: Step, w: string)
    requires TalliesInv(s) && Enabled(s, step) && w !in s.workers && w in Apply(s, step).workers
    ensures Tallied(Apply(s, step), w)
  {
    OnlyHandshakesAdd(s, step, w);
    hide Effect, Moved, NewCall, HeartbeatSeen, Swept, Tallied, Ended;
    assert forall i :: 0 <= i < |s.calls| ==> Placed(s, s.calls[i]);
    CountZero(s.calls, |s.calls|, EndedOn(w, true));
    CountZero(s.calls, |s.calls|, EndedOn(w, false));
    NoTallies(Apply(s, step), w);
  }

  lemma NoTallies(s: State, w: string)
    requires w in s.workers && s.workers[w].successfulTasks == s.workers[w].failedTasks == 0
    requires Count(s.calls, EndedOn(w, true)) == Count(s.calls, EndedOn(w, false)) == 0
    ensures Tallied(s, w)
  {
  }

  lemma TalliesKept(s: State, step: Step)
    requires TalliesInv(s) && CountersInv(s) && Enabled(s, step)
    ensures TalliesInv(Apply(s, step))
  {
    hide Apply, Tallied, Placed, CountersInv;
    WorkersOnlyGrow(s, step);
    PlacedKept(s, step);
    var t := Apply(s, step);
    forall w | w in t.workers
      ensures Tallied(t, w)
    {
      if w in s.workers {
        TallyKept(s, step, w);
      } else {
        NewcomerTallied(s, step, w);
      }
    }
  }

  /** In every interleaving a worker's SuccessfulTasks and FailedTasks are the calls it released with that outcome. */
  lemma {:induction false} TalliesAlways(run: seq<Step>)
    requires Possible(run)
    ensures TalliesInv(After(run))
  {
    hide Apply, Enabled, CountersInv;
    if run != [] {
      TalliesAlways(run[..|run| - 1]);
      CountersAlways(run[..|run| - 1]);
      TalliesKept(After(run[..|run| - 1]), run[|run| - 1]);
    }
  }

  // ---------------------------------------------------------------------
  // The registry's averages
  // ---------------------------------------------------------------------

  /** What a call reports of itself: a compilation the time its worker gave, a build none. */
  function ReportOf(c: Call): Report {
    match c.kind
    case Compile => Report(c.success, c.compileTime * MILLISECOND)
    case Build => Report(c.success, 0)
  }

  /** The reports of the calls released on w, in the order of their release. */
  function ReportsOn(calls: seq<Call>, released: seq<nat>, w: string): seq<Report> {
    if released == [] then []
    else
      var i := released[|released| - 1];
      ReportsOn(calls, released[..|released| - 1], w)
      + if i < |calls| && calls[i].worker == w then [ReportOf(calls[i])] else []
  }

  predicate PastRelease(c: Call) {
    c.pc.Learn? || c.pc.Tally? || c.pc.Deactivate? || c.pc.UncountWorker? || c.pc.Dequeue? || c.pc.Returned?
  }

  ghost predicate Averaged(s: State, w: string)
    requires w in s.workers
  {
    (s.workers[w].successfulTasks, s.workers[w].avgCompileTime) == AverageAfter(ReportsOn(s.calls, s.released, w))
  }

  ghost predicate AveragesInv(s: State) {
    && (forall k :: 0 <= k < |s.released| ==> s.released[k] < |s.calls| && PastRelease(s.calls[s.released[k]]))
    && (forall k, l :: 0 <= k < l < |s.released| ==> s.released[k] != s.released[l])
    && (forall w :: w in s.workers ==> Averaged(s, w))
  }

  /** The reports depend only on the reporting fields of the released calls. */
  lemma {:induction false} ReportsSame(calls: seq<Call>, calls': seq<Call>, released: seq<nat>, w: string)
    requires forall k :: 0 <= k < |released| ==> released[k] < |calls| && released[k] < |calls'|
    requires forall k :: 0 <= k < |released| ==>
      var c, c' := calls[released[k]], calls'[released[k]]; c'.worker == c.worker && ReportOf(c') == ReportOf(c)
    ensures ReportsOn(calls', released, w) == ReportsOn(calls, released, w)
  {
    hide ReportOf;
    if released != [] {
      var init := released[..|released| - 1];
      assert forall k :: 0 <= k < |init| ==> init[k] == released[k];
      ReportsSame(calls, calls', init, w);
      assert released[|released| - 1] < |calls|;
    }
  }

  lemma {:induction false} NoReports(calls: seq<Call>, released: seq<nat>, w: string)
    requires forall i :: 0 <= i < |calls| ==> calls[i].worker != w
    ensures ReportsOn(calls, released, w) == []
  {
    if released != [] {
      NoReports(calls, released[..|released| - 1], w);
    }
  }

  lemma ReportsAppend(calls: seq<Call>, released: seq<nat>, i: nat, w: string)
    requires i < |calls|
    ensures ReportsOn(calls, released + [i], w)
         == ReportsOn(calls, released, w) + if calls[i].worker == w then [ReportOf(calls[i])] else []
  {
    assert (released + [i])[..|released|] == released;
  }

  predicate AtRelease(s: State, step: Step)
    requires Enabled(s, step)
  {
    step.Advance? && s.calls[step.i].pc.Release?
  }

  lemma ReleasedAfter(s: State, step: Step)
    requires Enabled(s, step)
    ensures Apply(s, step).released == s.released + if AtRelease(s, step) then [step.i] else []
  {
    hide Moved, NewCall, Incremented, Decremented, Added, HeartbeatSeen, Swept, Learned, Gauge;
    if step.Advance? {
      LearnedTouches(s, step.i);
    }
  }

  /** What a step does to the average of one worker. */
  lemma AverageAfterStep(s: State, step: Step, w: string)
    requires Enabled(s, step) && w in s.workers
    ensures var t := Apply(s, step);
            && w in t.workers
            && (if AtRelease(s, step) && s.calls[step.i].worker == w then
                  var report := ReportOf(s.calls[step.i]);
                  t.workers[w] == TaskEnded(s.workers[w], report.success, report.compileTime)
                else
                  t.workers[w].successfulTasks == s.workers[w].successfulTasks && t.workers[w].avgCompileTime == s.workers[w].avgCompileTime)
  {
    hide Moved, NewCall, Learned, Gauge, TaskEnded;
    if step.Advance? {
      LearnedTouches(s, step.i);
    }
  }

  /** One more report in the recurrence. */
  lemma OneMoreReport(w: WorkerInfo, reports: seq<Report>, report: Report)
    requires (w.successfulTasks, w.avgCompileTime) == AverageAfter(reports)
    ensures var v := TaskEnded(w, report.success, report.compileTime);
            (v.successfulTasks, v.avgCompileTime) == AverageAfter(reports + [report])
  {
    assert (reports + [report])[..|reports|] == reports;
  }

  /** A released call goes on reporting the same. */
  lemma ReportStays(s: State, step: Step)
    requires Enabled(s, step) && Concerns(step) && (PastRelease(s.calls[step.i]) || s.calls[step.i].pc.Release?)
    ensures var c, c' := s.calls[step.i], Moved(s, step);
            PastRelease(c') && c'.worker == c.worker && ReportOf(c') == ReportOf(c)
  {
  }

  lemma ReleasedKept(s: State, step: Step)
    requires AveragesInv(s) && Enabled(s, step)
    ensures var t := Apply(s, step);
            && (forall k :: 0 <= k < |t.released| ==> t.released[k] < |t.calls| && PastRelease(t.calls[t.released[k]]))
            && (forall k, l :: 0 <= k < l < |t.released| ==> t.released[k] != t.released[l])
  {
    hide Apply, Moved, NewCall, Averaged, ReportOf;
    CallsAfter(s, step);
    ReleasedAfter(s, step);
    if Concerns(step) && (PastRelease(s.calls[step.i]) || s.calls[step.i].pc.Release?) {
      ReportStays(s, step);
    }
  }

  lemma ReportsKept(s: State, step: Step, w: string)
    requires AveragesInv(s) && Enabled(s, step)
    ensures ReportsOn(Apply(s, step).calls, s.released, w) == ReportsOn(s.calls, s.released, w)
  {
    hide Apply, Moved, NewCall, Averaged, ReportOf, ReportsOn;
    CallsAfter(s, step);
    if Concerns(step) && PastRelease(s.calls[step.i]) {
      ReportStays(s, step);
    }
    ReportsSame(s.calls, Apply(s, step).calls, s.released, w);
  }

  lemma AverageKept(s: State, step: Step, w: string)
    requires AveragesInv(s) && Enabled(s, step) && w in s.workers
    ensures w in Apply(s, step).workers && Averaged(Apply(s, step), w)
  {
    assert Averaged(s, w);
    hide Apply, Moved, ReportOf, ReportsOn, AverageAfter, TaskEnded;
    ReportsKept(s, step, w);
    ReleasedAfter(s, step);
    AverageAfterStep(s, step, w);
    if AtRelease(s, step) {
      CallsAfter(s, step);
      ReportStays(s, step);
      ReportsAppend(Apply(s, step).calls, s.released, step.i, w);
      if s.calls[step.i].worker == w {
        OneMoreReport(s.workers[w], ReportsOn(s.calls, s.released, w), ReportOf(s.calls[step.i]));
      } else {
        assert ReportsOn(s.calls, s.released, w) + [] == ReportsOn(s.calls, s.released, w);
      }
    } else {
      assert s.released + [] == s.released;
    }
  }

  lemma NewcomerAveraged(s: State, step: Step, w: string)
    requires TalliesInv(s) && AveragesInv(s) && Enabled(s, step) && w !in s.workers && w in Apply(s, step).workers
    ensures Averaged(Apply(s, step), w)
  {
    OnlyHandshakesAdd(s, step, w);
    hide Effect, Moved, NewCall, HeartbeatSeen, Swept, Tallied, ReportOf, ReportsOn;
    assert forall i :: 0 <= i < |s.calls| ==> Placed(s, s.calls[i]);
    NoReports(s.calls, s.released, w);
  }

  lemma AveragesKept(s: State, step: Step)
    requires TalliesInv(s) && AveragesInv(s) && Enabled(s, step)
    ensures AveragesInv(Apply(s, step))
  {
    ReleasedKept(s, step);
    var t := Apply(s, step);
    hide Apply, Averaged, TalliesInv;
    forall w | w in t.workers
      ensures Averaged(t, w)
    {
      if w in s.workers {
        AverageKept(s, step, w);
      } else {
        NewcomerAveraged(s, step, w);
      }
    }
  }

  /** In every interleaving a worker's successes and average are what the recurrence of DecrementTasks makes of the reports
      of the calls released on it, in the order of their release, each call once. */
  lemma {:induction false} AveragesAlways(run: seq<Step>)
    requires Possible(run)
    ensures AveragesInv(After(run))
  {
    hide Apply, Enabled, TalliesInv;
    if run != [] {
      AveragesAlways(run[..|run| - 1]);
      TalliesAlways(run[..|run| - 1]);
      AveragesKept(After(run[..|run| - 1]), run[|run| - 1]);
    }
  }

  lemma {:induction false} ReportsWithin(calls: seq<Call>, released: seq<nat>, w: string, top: nat)
    requires forall i :: 0 <= i < |calls| ==> 0 <= calls[i].compileTime <= top
    ensures forall k :: 0 <= k < |ReportsOn(calls, released, w)| ==>
      0 <= ReportsOn(calls, released, w)[k].compileTime <= top * MILLISECOND
  {
    if released != [] {
      ReportsWithin(calls, released[..|released| - 1], w, top);
    }
  }

  /** As long as workers report times between 0 and top milliseconds, so are their averages. */
  lemma AveragesInRange(run: seq<Step>, w: string, top: nat)
    requires Possible(run) && w in After(run).workers
    requires forall i :: 0 <= i < |After(run).calls| ==> 0 <= After(run).calls[i].compileTime <= top
    ensures 0 <= After(run).workers[w].avgCompileTime <= top * MILLISECOND
  {
    hide After, Possible, AverageAfter;
    AveragesAlways(run);
    var s := After(run);
    assert Averaged(s, w);
    ReportsWithin(s.calls, s.released, w, top);
    AverageStaysInRange(ReportsOn(s.calls, s.released, w), top * MILLISECOND);
  }

  /** When the calls released on w all succeeded, n of them, with non-negative times, its average is off their mean by at
      most (n - 1)/2, and never above it. */
  lemma AveragesPrecise(run: seq<Step>, w: string)
    requires Possible(run) && w in After(run).workers
    requires forall k :: 0 <= k < |ReportsOn(After(run).calls, After(run).released, w)| ==>
      var r := ReportsOn(After(run).calls, After(run).released, w)[k]; r.success && r.compileTime >= 0
    ensures var reports, worker := ReportsOn(After(run).calls, After(run).released, w), After(run).workers[w];
            && worker.successfulTasks == |reports|
            && 0 <= TotalTime(reports) - |reports| * worker.avgCompileTime <= |reports| * (|reports| - 1) / 2
  {
    hide After, Possible, AverageAfter;
    AveragesAlways(run);
    var s := After(run);
    assert Averaged(s, w);
    AverageErrorBound(ReportsOn(s.calls, s.released, w));
  }

  /** The first success of a compilation leaves its own time as the average. */
  lemma FirstSuccessIsAverage(s: State, i: nat)
    requires At(s, i, Release) && s.calls[i].kind == Compile && s.calls[i].success && s.calls[i].worker in s.workers
    requires s.workers[s.calls[i].worker].successfulTasks == 0
    ensures Apply(s, Advance(i)).workers[s.calls[i].worker].avgCompileTime == s.calls[i].compileTime * 1_000_000
  {
  }

  // ---------------------------------------------------------------------
  // Busy and idle
  // ---------------------------------------------------------------------

  ghost predicate StatesInv(s: State) {
    forall w :: w in s.workers ==> StateFits(s.workers[w])
  }

  predicate StateFits(w: WorkerInfo) {
    w.state != Unhealthy && (w.state == Busy <==> w.activeTasks > 0)
  }

  lemma StartedFits(w: WorkerInfo)
    requires StateFits(w) && w.activeTasks >= 0
    ensures StateFits(TaskStarted(w))
  {
  }

  lemma EndedFits(w: WorkerInfo, ok: bool, time: int)
    requires StateFits(w) && w.activeTasks >= 0
    ensures StateFits(TaskEnded(w, ok, time))
  {
    hide NextAverage;
  }

  /** Apart from booking and releasing, no step but a sweep changes what a fitting state says. */
  lemma StateAfter(s: State, step: Step, w: string)
    requires Enabled(s, step) && !step.Sweep? && w in s.workers && StateFits(s.workers[w])
    requires !(step.Advance? && s.calls[step.i].worker == w && (s.calls[step.i].pc.Register? || s.calls[step.i].pc.Release?))
    ensures w in Apply(s, step).workers && StateFits(Apply(s, step).workers[w])
  {
    hide Moved, NewCall, Learned, Gauge, TaskStarted, TaskEnded;
    if step.Advance? {
      LearnedTouches(s, step.i);
    }
  }

  lemma StatesKept(s: State, step: Step, w: string)
    requires RegistryInv(s) && StatesInv(s) && Enabled(s, step) && !step.Sweep? && w in Apply(s, step).workers
    ensures StateFits(Apply(s, step).workers[w])
  {
    if w !in s.workers {
      OnlyHandshakesAdd(s, step, w);
    } else {
      assert WorkerInv(s, w) && StateFits(s.workers[w]);
      hide Apply, TaskStarted, TaskEnded, StateFits, Count;
      if step.Advance? && s.calls[step.i].worker == w && s.calls[step.i].pc.Register? {
        WorkerAfter(s, step, w);
        StartedFits(s.workers[w]);
      } else if step.Advance? && s.calls[step.i].worker == w && s.calls[step.i].pc.Release? {
        AverageAfterStep(s, step, w);
        EndedFits(s.workers[w], ReportOf(s.calls[step.i]).success, ReportOf(s.calls[step.i]).compileTime);
      } else {
        StateAfter(s, step, w);
      }
    }
  }

  /** In runs without staleness sweeps a worker is busy exactly while it has active tasks, and idle otherwise. */
  lemma {:induction false} BusyIffActive(run: seq<Step>)
    requires Possible(run) && forall k :: 0 <= k < |run| ==> !run[k].Sweep?
    ensures StatesInv(After(run))
  {
    hide Apply, Enabled;
    if run != [] {
      var s, step := After(run[..|run| - 1]), run[|run| - 1];
      BusyIffActive(run[..|run| - 1]);
      RegistryAlways(run[..|run| - 1]);
      forall w | w in Apply(s, step).workers
        ensures StateFits(Apply(s, step).workers[w])
      {
        StatesKept(s, step, w);
      }
    }
  }

  // ---------------------------------------------------------------------
  // Heard from and stale
  // ---------------------------------------------------------------------

  predicate Hears(step: Step, w: string) {
    (step.Handshake? && step.info.id == w) || (step.Heartbeat? && step.id == w)
  }

  /** When w was last heard from. */
  function LastHeard(run: seq<Step>, w: string): int {
    if run == [] then 0
    else if Hears(run[|run| - 1], w) then run[|run| - 1].now
    else LastHeard(run[..|run| - 1], w)
  }

  /** Since it was last heard from, a sweep found w silent for longer than the limit. */
  predicate FoundSilent(run: seq<Step>, w: string) {
    run != []
    && (var init, step := run[..|run| - 1], run[|run| - 1];
        !Hears(step, w) && (FoundSilent(init, w) || (step.Sweep? && step.now - LastHeard(init, w) > step.ttl)))
  }

  lemma HearingAfter(s: State, step: Step, w: string)
    requires Enabled(s, step) && w in Apply(s, step).workers
    ensures var v := Apply(s, step).workers[w];
            && (Hears(step, w) ==> v.lastHeartbeat == step.now && v.state != Unhealthy)
            && (!Hears(step, w) ==>
                  && w in s.workers && v.lastHeartbeat == s.workers[w].lastHeartbeat
                  && (v.state == Unhealthy
                      <==> s.workers[w].state == Unhealthy || (step.Sweep? && step.now - v.lastHeartbeat > step.ttl)))
  {
    hide Moved, NewCall, Learned, Gauge, NextAverage;
    if step.Advance? {
      LearnedTouches(s, step.i);
    }
  }

  /** In every interleaving a worker is unhealthy exactly when a sweep found it silent since it was last heard from: tasks
      never change that, a handshake or heartbeat always ends it. */
  lemma {:induction false} UnhealthyIffSilent(run: seq<Step>, w: string)
    requires Possible(run) && w in After(run).workers
    ensures After(run).workers[w].lastHeartbeat == LastHeard(run, w)
    ensures After(run).workers[w].state == Unhealthy <==> FoundSilent(run, w)
  {
    hide Apply, Enabled;
    if run != [] {
      var init, step := run[..|run| - 1], run[|run| - 1];
      HearingAfter(After(init), step, w);
      if !Hears(step, w) {
        UnhealthyIffSilent(init, w);
      }
    }
  }

  /** What w said of itself at its last handshake. */
  function LastHandshake(run: seq<Step>, w: string): Option<WorkerInfo> {
    if run == [] then None
    else if run[|run| - 1].Handshake? && run[|run| - 1].info.id == w then Some(run[|run| - 1].info)
    else LastHandshake(run[..|run| - 1], w)
  }

  lemma HandshakeAfter(s: State, step: Step, w: string)
    requires Enabled(s, step) && w in Apply(s, step).workers
    ensures var v := Apply(s, step).workers[w];
            if step.Handshake? && step.info.id == w then
              v.capabilities == step.info.capabilities && v.address == step.info.address && v.maxParallel == step.info.maxParallel
            else
              && w in s.workers && v.capabilities == s.workers[w].capabilities
              && v.address == s.workers[w].address && v.maxParallel == s.workers[w].maxParallel
  {
    hide Moved, NewCall, Learned, Gauge, NextAverage;
    if step.Advance? {
      LearnedTouches(s, step.i);
    }
  }

  /** The registry shows the capabilities, address and limit of a worker's last handshake, whatever has happened since. */
  lemma {:induction false} InfoIsLastHandshake(run: seq<Step>, w: string)
    requires Possible(run) && w in After(run).workers
    ensures var v, said := After(run).workers[w], LastHandshake(run, w);
            && said.Some? && v.capabilities == said.value.capabilities
            && v.address == said.value.address && v.maxParallel == said.value.maxParallel
  {
    hide Apply, Enabled;
    if run != [] {
      var init, step := run[..|run| - 1], run[|run| - 1];
      HandshakeAfter(After(init), step, w);
      if !(step.Handshake? && step.info.id == w) {
        InfoIsLastHandshake(init, w);
      }
    }
  }

  /** So a worker is offered by the registry exactly when no sweep found it silent and it is not silent now. */
  lemma ListedIffHeard(run: seq<Step>, w: string, now: int, ttl: int)
    requires Possible(run) && w in After(run).workers
    ensures Healthy(After(run).workers[w], now, ttl) <==> !FoundSilent(run, w) && now - LastHeard(run, w) <= ttl
  {
    UnhealthyIffSilent(run, w);
  }

  // ---------------------------------------------------------------------
  // The per-worker gauge
  // ---------------------------------------------------------------------

  /** What a step does to the gauge of w ... */
  lemma GaugeAfter(s: State, step: Step, w: string)
    requires Enabled(s, step)
    ensures Gauge(Apply(s, step).gauges, w)
         == Gauge(s.gauges, w)
            + (if step.Advance? && s.calls[step.i].worker == w && s.calls[step.i].pc.CountWorker? then 1
               else if step.Advance? && s.calls[step.i].worker == w && s.calls[step.i].pc.UncountWorker? then -1
               else 0)
  {
    hide Effect, Moved, Added, HeartbeatSeen, Swept, NewCall;
    if step.Advance? {
      EffectOnGauge(s, step.i, w);
    }
  }

  lemma EffectOnGauge(s: State, i: nat, w: string)
    requires i < |s.calls|
    ensures Gauge(Effect(s, i).gauges, w)
         == Gauge(s.gauges, w)
            + (if s.calls[i].worker != w then 0 else Bit(s.calls[i].pc.CountWorker?) - Bit(s.calls[i].pc.UncountWorker?))
  {
    hide Incremented, Decremented, Learned;
    LearnedTouches(s, i);
  }

  /** ... and to the call it concerns. */
  lemma GaugedAfter(s: State, step: Step, w: string)
    requires Enabled(s, step) && Concerns(step)
    ensures Bit(GaugedOn(w)(Moved(s, step)))
         == Bit(GaugedOn(w)(s.calls[step.i]))
            + (if step.Advance? && s.calls[step.i].worker == w && s.calls[step.i].pc.CountWorker? then 1
               else if step.Advance? && s.calls[step.i].worker == w && s.calls[step.i].pc.UncountWorker? then -1
               else 0)
  {
  }

  lemma FreshGauge(kind: Kind, task: string)
    ensures !HoldsGauge(NewCall(kind, task))
  {
  }

  lemma GaugeKept(s: State, step: Step, w: string)
    requires Enabled(s, step) && Gauge(s.gauges, w) == Count(s.calls, GaugedOn(w))
    ensures var t := Apply(s, step); Gauge(t.gauges, w) == Count(t.calls, GaugedOn(w))
  {
    hide Apply, Moved, Count, NewCall, HoldsGauge;
    GaugeAfter(s, step, w);
    if Concerns(step) {
      GaugedAfter(s, step, w);
    } else if step.Begin? {
      FreshGauge(step.kind, step.task);
    }
    CountShift(s, step, GaugedOn(w));
  }

  lemma {:induction false} GaugesAlways(run: seq<Step>, w: string)
    requires Possible(run)
    ensures Gauge(After(run).gauges, w) == Count(After(run).calls, GaugedOn(w))
  {
    if run != [] {
      GaugesAlways(run[..|run| - 1], w);
      GaugeKept(After(run[..|run| - 1]), run[|run| - 1], w);
    }
  }
}

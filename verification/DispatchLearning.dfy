/**
 Feedback to the LinUCB learner across concurrent Compile calls
 (internal/coordinator/scheduler/linucb.go, pendingX, and
 internal/coordinator/server/grpc.go, Compile): every update of an arm uses the
 feature vector computed for that worker at that task's selection, exactly once.
 The one hypothesis is that a new call's task id is not occupied by a call that
 holds a pending vector or may still ask for one, and it is exact: taking an
 occupied id can always end in an update with another call's vector. Ids that are
 never reused meet it, and so do non-negative compile times with ids distinct
 among calls in flight.
 */
module DispatchLearning {
  import opened Common
  import opened Registry
  import opened Feedback
  import opened Dispatch

  // ---------------------------------------------------------------------
  // The hypothesis
  // ---------------------------------------------------------------------

  predicate InFlight(c: Call) {
    c.kind == Compile && !c.pc.Returned?
  }

  predicate BeforeRecording(pc: Pc) {
    pc.Register? || pc.Activate? || pc.CountTotal? || pc.CountWorker? || pc.Forward? || pc.Release? || pc.Learn?
  }

  /** Its cached vector is still waiting: the outcome is yet to be recorded, or was refused for not being finite. */
  predicate Holding(c: Call) {
    c.kind == Compile && c.x.Some? && (BeforeRecording(c.pc) || c.reward.NotFinite?)
  }

  predicate Recorded(c: Call) {
    c.kind == Compile && c.x.Some? && !Holding(c)
  }

  /** Without a vector of its own, but going to ask the pending map for one: before its selection, or selected without
      caching and not answered with a reward the learner refuses. */
  predicate MayStillAsk(c: Call) {
    && c.kind == Compile
    && (c.pc.Enqueue? || c.pc.Select?
        || (c.x.None? && BeforeRecording(c.pc) && (c.pc.Release? || c.pc.Learn? ==> c.reward.Finite?)))
  }

  /** The call's task id is still tied to a pending vector, or can become so. */
  predicate Occupies(c: Call) {
    Holding(c) || MayStillAsk(c)
  }

  /** A new Compile call takes a task id that no call occupies. */
  ghost predicate Disciplined(s: State, step: Step) {
    step.Begin? && step.kind == Compile ==>
      forall i :: 0 <= i < |s.calls| && Occupies(s.calls[i]) ==> s.calls[i].task != step.task
  }

  ghost predicate DisciplinedRun(run: seq<Step>)
    requires Possible(run)
  {
    run == [] ||
    (DisciplinedRun(run[..|run| - 1]) && Disciplined(After(run[..|run| - 1]), run[|run| - 1]))
  }

  // ---------------------------------------------------------------------
  // The invariant
  // ---------------------------------------------------------------------

  /** Compile calls that occupy a task id occupy different ones. */
  ghost predicate DistinctTasks(s: State) {
    forall i, j :: 0 <= i < j < |s.calls| && Occupies(s.calls[i]) && Occupies(s.calls[j]) ==>
      s.calls[i].task != s.calls[j].task
  }

  predicate Unselected(pc: Pc) {
    pc.Lookup? || pc.HitTotal? || pc.HitSuccess? || pc.Enqueue? || pc.Select?
    || pc.NoWorkerTotal? || pc.NoWorkerFailed? || pc.Connect?
  }

  /** Facts about a single call: a vector is there only after selection, of a worker with a name; the reward goes with the reply. */
  predicate Sensible(c: Call) {
    && (c.x.Some? ==> c.kind == Compile && c.worker != "" && !Unselected(c.pc))
    && (c.pc.Learn? ==> c.kind == Compile)
    && (c.kind == Compile ==> !OnlyBuild(c.pc))
    && (c.x.Some? && !c.pc.Register? && !c.pc.Activate? && !c.pc.CountTotal? && !c.pc.CountWorker? && !c.pc.Forward? ==>
          RewardFits(c.success, c.compileTime, c.reward))
  }

  predicate OnlyBuild(pc: Pc) {
    pc.Lookup? || pc.HitTotal? || pc.HitSuccess? || pc.NoWorkerTotal? || pc.NoWorkerFailed? || pc.Connect?
  }

  ghost predicate AllSensible(s: State) {
    forall i :: 0 <= i < |s.calls| ==> Sensible(s.calls[i])
  }

  /** Call i's vector is the pending one under its task. */
  ghost predicate Cached(s: State, i: nat)
    requires i < |s.calls|
  {
    Holding(s.calls[i]) ==> s.calls[i].task in s.pending && s.calls[i].x == Some(s.pending[s.calls[i].task])
  }

  ghost predicate Owned(s: State, task: string) {
    exists i :: 0 <= i < |s.calls| && Holding(s.calls[i]) && s.calls[i].task == task
  }

  /** The pending vectors are exactly those of the calls that hold one. */
  ghost predicate PendingInv(s: State) {
    && (forall i :: 0 <= i < |s.calls| ==> Cached(s, i))
    && (forall task :: task in s.pending ==> Owned(s, task))
  }

  /** Update u is the one its call owes: its own worker, its own vector, its own reward. */
  ghost predicate Faithful(s: State, u: Update) {
    && u.call < |s.calls|
    && Recorded(s.calls[u.call])
    && u.worker == s.calls[u.call].worker
    && s.calls[u.call].x == Some(u.x)
    && s.calls[u.call].reward == Finite(u.reward)
  }

  ghost predicate HasUpdate(s: State, i: nat) {
    exists k :: 0 <= k < |s.updates| && s.updates[k].call == i
  }

  ghost predicate UpdatesInv(s: State) {
    && (forall k :: 0 <= k < |s.updates| ==> Faithful(s, s.updates[k]))
    && (forall k, l :: 0 <= k < l < |s.updates| ==> s.updates[k].call != s.updates[l].call)
    && (forall i :: 0 <= i < |s.calls| && Recorded(s.calls[i]) ==> HasUpdate(s, i))
  }

  ghost predicate Inv(s: State) {
    RegistryInv(s) && DistinctTasks(s) && AllSensible(s) && PendingInv(s) && UpdatesInv(s)
  }

  // ---------------------------------------------------------------------
  // Every disciplined step keeps it
  // ---------------------------------------------------------------------

  /** Which statements touch the learner. */
  lemma EffectOnLearner(s: State, i: nat)
    requires i < |s.calls|
    ensures var t := Effect(s, i);
            if s.calls[i].pc.Learn? then t.pending == Learned(s, i).pending && t.updates == Learned(s, i).updates
            else t.pending == s.pending && t.updates == s.updates
  {
    hide Incremented, Decremented, Learned, Gauge;
  }

  /** The learner's state changes only when a Compile call is picked with a vector or records its outcome. */
  lemma LearnerAfter(s: State, step: Step)
    requires Enabled(s, step)
    ensures var t := Apply(s, step);
            if step.Pick? && step.x.Some? then
              t.pending == s.pending[s.calls[step.i].task := step.x.value] && t.updates == s.updates
            else if step.Advance? && s.calls[step.i].pc.Learn? then
              t.pending == Learned(s, step.i).pending && t.updates == Learned(s, step.i).updates
            else
              t.pending == s.pending && t.updates == s.updates
  {
    hide Effect, Learned, Moved, NewCall, Added, HeartbeatSeen, Swept;
    if step.Advance? {
      EffectOnLearner(s, step.i);
    }
  }

  lemma DistinctKept(s: State, step: Step)
    requires DistinctTasks(s) && AllSensible(s) && Enabled(s, step) && Disciplined(s, step)
    ensures DistinctTasks(Apply(s, step))
  {
    hide Apply, Moved, NewCall, Occupies, Sensible;
    CallsAfter(s, step);
    if Concerns(step) {
      assert Sensible(s.calls[step.i]);
      NoneMoreOccupied(s, step);
    } else if step.Begin? {
      FreshOccupies(step.kind, step.task);
    }
  }

  /** A step never makes a call occupy its task id that did not before. */
  lemma NoneMoreOccupied(s: State, step: Step)
    requires Enabled(s, step) && Concerns(step) && Sensible(s.calls[step.i])
    ensures Occupies(Moved(s, step)) ==> Occupies(s.calls[step.i])
  {
    hide RewardFits;
  }

  lemma FreshOccupies(kind: Kind, task: string)
    ensures var c := NewCall(kind, task); c.task == task && c.kind == kind && (Occupies(c) ==> kind == Compile)
  {
  }

  lemma SensibleKept(s: State, step: Step)
    requires RegistryInv(s) && AllSensible(s) && Enabled(s, step) && Disciplined(s, step)
    ensures AllSensible(Apply(s, step))
  {
    hide Apply, WorkerInv;
    CallsAfter(s, step);
    if Concerns(step) {
      assert Sensible(s.calls[step.i]);
      if step.Reply? && s.calls[step.i].kind == Compile {
        assert HasWorker(s.calls[step.i]);
      }
    }
  }

  /** Steps that leave the learner alone move calls only within "holding" or within "not holding". */
  lemma StandingKept(s: State, step: Step)
    requires Quiet(s, step) && Concerns(step) && Sensible(s.calls[step.i])
    ensures SameStanding(s.calls[step.i], Moved(s, step))
  {
  }

  ghost predicate Quiet(s: State, step: Step) {
    && Enabled(s, step)
    && !(step.Pick? && step.x.Some?)
    && !(step.Advance? && s.calls[step.i].pc.Learn? && s.calls[step.i].x.Some? && s.calls[step.i].reward.Finite?)
  }

  /** A call that selected without caching, and has something to record, finds nothing under its task. */
  lemma NothingStale(s: State, i: nat)
    requires Inv(s) && At(s, i, Learn) && s.calls[i].x.None? && s.calls[i].reward.Finite?
    ensures s.calls[i].task !in s.pending
  {
    var task := s.calls[i].task;
    assert Sensible(s.calls[i]);
    if task in s.pending {
      assert Owned(s, task);
      var j :| 0 <= j < |s.calls| && Holding(s.calls[j]) && s.calls[j].task == task;
      assert Occupies(s.calls[j]) && Occupies(s.calls[i]) && i != j;
    }
  }

  /** Under a quiet step every old call keeps its standing with the learner, and a new call has none. */
  lemma QuietCalls(s: State, step: Step)
    requires Inv(s) && Quiet(s, step)
    ensures var t := Apply(s, step);
            && |s.calls| <= |t.calls| && t.pending == s.pending && t.updates == s.updates
            && (forall i :: 0 <= i < |s.calls| ==> SameStanding(s.calls[i], t.calls[i]))
            && (forall i :: |s.calls| <= i < |t.calls| ==> !Holding(t.calls[i]) && !Recorded(t.calls[i]))
  {
    hide Apply, Moved, NewCall;
    CallsAfter(s, step);
    LearnerAfter(s, step);
    if Concerns(step) {
      assert Sensible(s.calls[step.i]);
      if step.Advance? && s.calls[step.i].pc.Learn? && s.calls[step.i].x.None? && s.calls[step.i].reward.Finite? {
        NothingStale(s, step.i);
      }
      StandingKept(s, step);
    } else if step.Begin? {
      FreshCall(step.kind, step.task);
    }
  }

  ghost predicate SameStanding(c: Call, c': Call) {
    && c'.task == c.task && (Holding(c) <==> Holding(c')) && (Recorded(c) <==> Recorded(c'))
    && (Holding(c) || Recorded(c) ==> c'.x == c.x && c'.worker == c.worker)
    && (Recorded(c) ==> c'.reward == c.reward)
  }

  lemma QuietPending(s: State, step: Step)
    requires Inv(s) && Quiet(s, step)
    ensures PendingInv(Apply(s, step))
  {
    hide Apply, Recorded, Sensible, RegistryInv, UpdatesInv, DistinctTasks;
    QuietCalls(s, step);
    var t := Apply(s, step);
    forall i | 0 <= i < |t.calls|
      ensures Cached(t, i)
    {
      if i < |s.calls| {
        assert Cached(s, i) && SameStanding(s.calls[i], t.calls[i]);
      }
    }
    forall task | task in t.pending
      ensures Owned(t, task)
    {
      assert Owned(s, task);
      var i :| 0 <= i < |s.calls| && Holding(s.calls[i]) && s.calls[i].task == task;
      assert SameStanding(s.calls[i], t.calls[i]);
    }
  }

  lemma QuietUpdates(s: State, step: Step)
    requires Inv(s) && Quiet(s, step)
    ensures UpdatesInv(Apply(s, step))
  {
    hide Apply, Holding, Recorded, Sensible, RegistryInv, PendingInv, DistinctTasks;
    QuietCalls(s, step);
    var t := Apply(s, step);
    forall k | 0 <= k < |t.updates|
      ensures Faithful(t, t.updates[k])
    {
      assert Faithful(s, s.updates[k]);
      assert SameStanding(s.calls[s.updates[k].call], t.calls[s.updates[k].call]);
    }
    forall i | 0 <= i < |t.calls| && Recorded(t.calls[i])
      ensures HasUpdate(t, i)
    {
      assert SameStanding(s.calls[i], t.calls[i]) && HasUpdate(s, i);
    }
  }

  lemma FreshCall(kind: Kind, task: string)
    ensures !Holding(NewCall(kind, task)) && !Recorded(NewCall(kind, task))
  {
  }

  lemma PickKept(s: State, step: Step)
    requires Inv(s) && Enabled(s, step) && step.Pick? && step.x.Some?
    ensures PendingInv(Apply(s, step)) && UpdatesInv(Apply(s, step))
  {
    hide RegistryInv;
    var i := step.i;
    var task := s.calls[i].task;
    LearnerAfter(s, step);
    CallsAfter(s, step);
    var t := Apply(s, step);
    var c := t.calls[i];
    assert Sensible(s.calls[i]);
    assert c == Moved(s, step) && Holding(c) && Occupies(s.calls[i]);
    forall j | 0 <= j < |t.calls|
      ensures Cached(t, j)
    {
      if j != i {
        assert Cached(s, j);
      }
    }
    forall k | k in t.pending
      ensures Owned(t, k)
    {
      if k != task {
        assert Owned(s, k);
        var j :| 0 <= j < |s.calls| && Holding(s.calls[j]) && s.calls[j].task == k;
        assert t.calls[j] == s.calls[j];
      }
    }
    assert forall k :: 0 <= k < |s.updates| ==> Faithful(s, s.updates[k]);
    forall j | 0 <= j < |t.calls| && Recorded(t.calls[j])
      ensures HasUpdate(t, j)
    {
      assert HasUpdate(s, j);
    }
  }

  /** What recording does: the call's own vector leaves the pending map and becomes its one update. */
  lemma RecordEffect(s: State, step: Step)
    requires Inv(s) && Enabled(s, step) && step.Advance? && At(s, step.i, Learn)
    requires s.calls[step.i].kind == Compile && s.calls[step.i].x.Some? && s.calls[step.i].reward.Finite?
    ensures var c, t := s.calls[step.i], Apply(s, step);
            && c.task in s.pending && c.x == Some(s.pending[c.task]) && c.reward.Finite? && c.worker != ""
            && t.pending == s.pending - {c.task}
            && t.updates == s.updates + [Update(step.i, c.worker, c.x.value, c.reward.value)]
            && t.calls == s.calls[step.i := c.(pc := Tally)]
  {
    hide RegistryInv, UpdatesInv, DistinctTasks;
    assert Sensible(s.calls[step.i]) && Cached(s, step.i);
  }

  lemma RecordPending(s: State, step: Step)
    requires Inv(s) && Enabled(s, step) && step.Advance? && At(s, step.i, Learn)
    requires s.calls[step.i].kind == Compile && s.calls[step.i].x.Some? && s.calls[step.i].reward.Finite?
    ensures PendingInv(Apply(s, step))
  {
    hide Apply, RegistryInv, UpdatesInv, Sensible;
    RecordEffect(s, step);
    var i, t := step.i, Apply(s, step);
    assert Occupies(s.calls[i]);
    forall j | 0 <= j < |t.calls|
      ensures Cached(t, j)
    {
      if j != i {
        assert Cached(s, j);
      }
    }
    forall k | k in t.pending
      ensures Owned(t, k)
    {
      assert Owned(s, k);
      var j :| 0 <= j < |s.calls| && Holding(s.calls[j]) && s.calls[j].task == k;
      assert t.calls[j] == s.calls[j];
    }
  }

  lemma RecordUpdates(s: State, step: Step)
    requires Inv(s) && Enabled(s, step) && step.Advance? && At(s, step.i, Learn)
    requires s.calls[step.i].kind == Compile && s.calls[step.i].x.Some? && s.calls[step.i].reward.Finite?
    ensures UpdatesInv(Apply(s, step))
  {
    hide Apply, RegistryInv, PendingInv, DistinctTasks, Sensible;
    RecordEffect(s, step);
    var i, t := step.i, Apply(s, step);
    forall k | 0 <= k < |s.updates|
      ensures Faithful(t, s.updates[k]) && s.updates[k].call != i
    {
      assert Faithful(s, s.updates[k]);
    }
    assert Faithful(t, t.updates[|s.updates|]);
    forall j | 0 <= j < |t.calls| && Recorded(t.calls[j])
      ensures HasUpdate(t, j)
    {
      if j == i {
        assert t.updates[|s.updates|].call == i;
      } else {
        assert HasUpdate(s, j);
        var k :| 0 <= k < |s.updates| && s.updates[k].call == j;
        assert t.updates[k].call == j;
      }
    }
  }

  lemma InvKept(s: State, step: Step)
    requires Inv(s) && Enabled(s, step) && Disciplined(s, step)
    ensures Inv(Apply(s, step))
  {
    assert Concerns(step) ==> Sensible(s.calls[step.i]);
    hide Apply, RegistryInv, DistinctTasks, AllSensible, PendingInv, UpdatesInv, Disciplined;
    RegistryKept(s, step);
    DistinctKept(s, step);
    SensibleKept(s, step);
    if step.Pick? && step.x.Some? {
      PickKept(s, step);
    } else if step.Advance? && At(s, step.i, Learn) && s.calls[step.i].x.Some? && s.calls[step.i].reward.Finite? {
      RecordPending(s, step);
      RecordUpdates(s, step);
    } else {
      QuietPending(s, step);
      QuietUpdates(s, step);
    }
  }

  lemma {:induction false} InvAlways(run: seq<Step>)
    requires Possible(run) && DisciplinedRun(run)
    ensures Inv(After(run))
  {
    if run != [] {
      InvAlways(run[..|run| - 1]);
      InvKept(After(run[..|run| - 1]), run[|run| - 1]);
    }
  }

  // ---------------------------------------------------------------------
  // What it means
  // ---------------------------------------------------------------------

  /** Every arm update carries the worker, vector and reward of the one call that caused it, and no call causes two. */
  lemma UpdatesAreFaithful(run: seq<Step>, k: nat)
    requires Possible(run) && DisciplinedRun(run) && k < |After(run).updates|
    ensures var s := After(run);
            var u := s.updates[k];
            && u.call < |s.calls|
            && u.worker == s.calls[u.call].worker && Some(u.x) == s.calls[u.call].x
            && Finite(u.reward) == s.calls[u.call].reward
            && (forall l :: 0 <= l < |s.updates| && l != k ==> s.updates[l].call != u.call)
  {
    InvAlways(run);
    assert Faithful(After(run), After(run).updates[k]);
  }

  /** Success with a compile time below zero, for which the reward is not finite. */
  predicate ReportedNegative(c: Call) {
    c.success && c.compileTime < 0
  }

  /** Once a call that cached a vector has left, its outcome has been recorded exactly when its reward was finite, that is
      unless the worker reported success with a negative compile time. */
  lemma RecordedIffFinite(run: seq<Step>, i: nat)
    requires Possible(run) && DisciplinedRun(run) && At(After(run), i, Returned) && After(run).calls[i].x.Some?
    ensures HasUpdate(After(run), i) <==> After(run).calls[i].reward.Finite?
    ensures After(run).calls[i].reward.Finite? <==> !ReportedNegative(After(run).calls[i])
  {
    hide Possible, After, DisciplinedRun, RegistryInv, PendingInv, DistinctTasks;
    InvAlways(run);
    var s := After(run);
    assert Sensible(s.calls[i]);
    if HasUpdate(s, i) {
      var k :| 0 <= k < |s.updates| && s.updates[k].call == i;
      assert Faithful(s, s.updates[k]);
    }
  }

  /** At every moment the keys of the pending map are exactly the tasks of the calls holding a vector. */
  lemma PendingIsHeld(run: seq<Step>, task: string)
    requires Possible(run) && DisciplinedRun(run)
    ensures task in After(run).pending <==> Owned(After(run), task)
  {
    hide Possible, After, DisciplinedRun, RegistryInv, UpdatesInv, DistinctTasks;
    InvAlways(run);
    var s := After(run);
    if Owned(s, task) {
      var i :| 0 <= i < |s.calls| && Holding(s.calls[i]) && s.calls[i].task == task;
      assert Cached(s, i);
    }
  }

  /** With no Compile call in flight the pending keys are exactly the tasks of cached calls whose worker reported success
      with a negative compile time. */
  lemma PendingAtRest(run: seq<Step>, task: string)
    requires Possible(run) && DisciplinedRun(run)
    requires forall i :: 0 <= i < |After(run).calls| ==> !InFlight(After(run).calls[i])
    ensures var s := After(run);
            (task in s.pending
             <==> exists i :: 0 <= i < |s.calls| && s.calls[i].x.Some? && ReportedNegative(s.calls[i]) && s.calls[i].task == task)
  {
    hide Possible, After, DisciplinedRun, RegistryInv, UpdatesInv, DistinctTasks, PendingInv;
    InvAlways(run);
    PendingIsHeld(run, task);
    var s := After(run);
    assert forall i :: 0 <= i < |s.calls| && s.calls[i].x.Some? ==> Sensible(s.calls[i]);
    assert forall i :: 0 <= i < |s.calls| ==> (Holding(s.calls[i]) <==> s.calls[i].x.Some? && ReportedNegative(s.calls[i]));
  }

  // ---------------------------------------------------------------------
  // Two ways to be disciplined
  // ---------------------------------------------------------------------

  /** No two Compile calls of the run, at whatever distance, carry the same task id. */
  ghost predicate NeverReused(run: seq<Step>) {
    forall i, j :: 0 <= i < j < |run| && run[i].Begin? && run[j].Begin? && run[i].kind == run[j].kind == Compile ==>
      run[i].task != run[j].task
  }

  /** A call keeps its kind and task, and a new one has those it began with. */
  lemma TaskAfter(s: State, step: Step, i: nat)
    requires Enabled(s, step) && i < |Apply(s, step).calls|
    ensures var c := Apply(s, step).calls[i];
            if i < |s.calls| then c.kind == s.calls[i].kind && c.task == s.calls[i].task else step == Begin(c.kind, c.task)
  {
    hide Apply, Moved, NewCall;
    CallsAfter(s, step);
    if step.Begin? {
      NewCallIs(step.kind, step.task);
    }
  }

  lemma {:induction false} TasksWereBegun(run: seq<Step>, i: nat)
    requires Possible(run) && i < |After(run).calls| && After(run).calls[i].kind == Compile
    ensures exists j :: 0 <= j < |run| && run[j] == Begin(Compile, After(run).calls[i].task)
  {
    hide Apply, Enabled;
    if run == [] {
      NothingYet();
      assert false;
    }
    var n := |run| - 1;
    var init, step := run[..n], run[n];
    TaskAfter(After(init), step, i);
    if i < |After(init).calls| {
      TasksWereBegun(init, i);
      var j :| 0 <= j < |init| && init[j] == Begin(Compile, After(init).calls[i].task);
      assert run[j] == init[j];
    } else {
      assert run[n] == Begin(Compile, After(run).calls[i].task);
    }
  }

  lemma NewCallIs(kind: Kind, task: string)
    ensures NewCall(kind, task).kind == kind && NewCall(kind, task).task == task
    ensures kind == Compile ==> NewCall(kind, task).pc == Enqueue
  {
  }

  /** Task ids that are never reused are discipline enough, whatever the rewards. */
  lemma {:induction false} NeverReusedSuffices(run: seq<Step>)
    requires Possible(run) && NeverReused(run)
    ensures DisciplinedRun(run)
  {
    hide Apply, Enabled;
    if run != [] {
      var init, step := run[..|run| - 1], run[|run| - 1];
      NeverReusedSuffices(init);
      if step.Begin? && step.kind == Compile {
        forall i | 0 <= i < |After(init).calls| && Occupies(After(init).calls[i])
          ensures After(init).calls[i].task != step.task
        {
          TasksWereBegun(init, i);
          var j :| 0 <= j < |init| && init[j] == Begin(Compile, After(init).calls[i].task);
          assert run[j] == init[j];
        }
      }
    }
  }

  /** Ids distinct among calls in flight, and no success reported with a negative compile time. */
  ghost predicate Tidy(s: State, step: Step)
    requires Enabled(s, step)
  {
    && (step.Begin? && step.kind == Compile ==>
          forall i :: 0 <= i < |s.calls| && InFlight(s.calls[i]) ==> s.calls[i].task != step.task)
    && (step.Reply? && step.ok ==> step.compileTime >= 0)
  }

  ghost predicate TidyRun(run: seq<Step>)
    requires Possible(run)
  {
    run == [] || (TidyRun(run[..|run| - 1]) && Tidy(After(run[..|run| - 1]), run[|run| - 1]))
  }

  /** Past its reply, a call that cached a vector has a finite reward. */
  predicate Answered(c: Call) {
    c.kind == Compile && c.x.Some? ==> !Unselected(c.pc) && (c.pc.Release? || c.pc.Learn? || !BeforeRecording(c.pc) ==> c.reward.Finite?)
  }

  lemma MovedAnswered(s: State, step: Step)
    requires Enabled(s, step) && Concerns(step) && Tidy(s, step) && Answered(s.calls[step.i])
    ensures Answered(Moved(s, step))
  {
  }

  lemma {:induction false} TidySuffices(run: seq<Step>)
    requires Possible(run) && TidyRun(run)
    ensures DisciplinedRun(run) && forall i :: 0 <= i < |After(run).calls| ==> Answered(After(run).calls[i])
  {
    if run != [] {
      var init, step := run[..|run| - 1], run[|run| - 1];
      TidySuffices(init);
      CallsAfter(After(init), step);
      hide Apply, Moved, NewCall;
      if Concerns(step) {
        MovedAnswered(After(init), step);
      } else if step.Begin? {
        FreshAnswered(step.kind, step.task);
      }
    }
  }

  lemma FreshAnswered(kind: Kind, task: string)
    ensures Answered(NewCall(kind, task))
  {
  }

  /** Then the pending keys are tasks in flight, and the map is empty when none are. */
  lemma PendingIsInFlight(run: seq<Step>)
    requires Possible(run) && TidyRun(run)
    ensures var s := After(run);
            && (forall t :: t in s.pending ==> exists i :: 0 <= i < |s.calls| && InFlight(s.calls[i]) && s.calls[i].task == t)
            && ((forall i :: 0 <= i < |s.calls| ==> !InFlight(s.calls[i])) ==> s.pending == map[])
  {
    hide Possible, After, DisciplinedRun, TidyRun;
    TidySuffices(run);
    var s := After(run);
    forall t | t in s.pending
      ensures exists i :: 0 <= i < |s.calls| && InFlight(s.calls[i]) && s.calls[i].task == t
    {
      PendingIsHeld(run, t);
      var i :| 0 <= i < |s.calls| && Holding(s.calls[i]) && s.calls[i].task == t;
      assert Answered(s.calls[i]);
      assert InFlight(s.calls[i]);
    }
  }

  // ---------------------------------------------------------------------
  // Building runs
  // ---------------------------------------------------------------------

  /** longer goes on where run ends, and no call begins on the way. */
  ghost predicate Continues(run: seq<Step>, longer: seq<Step>) {
    && |run| <= |longer| && longer[..|run|] == run
    && forall j :: |run| <= j < |longer| ==> !longer[j].Begin?
  }

  lemma ContinuesFurther(a: seq<Step>, b: seq<Step>, c: seq<Step>)
    requires Continues(a, b) && Continues(b, c)
    ensures Continues(a, c)
  {
    assert c[..|a|] == c[..|b|][..|a|];
    assert forall j :: |a| <= j < |b| ==> c[j] == c[..|b|][j] == b[j];
  }

  lemma Extend(run: seq<Step>, step: Step) returns (longer: seq<Step>)
    requires Possible(run) && Enabled(After(run), step)
    ensures longer == run + [step] && Possible(longer) && After(longer) == Apply(After(run), step)
    ensures !step.Begin? ==> Continues(run, longer)
  {
    longer := run + [step];
    assert longer[..|run|] == run;
  }

  /** longer continues run, changing call i alone, and knows at least the same workers. */
  ghost predicate Advanced(run: seq<Step>, longer: seq<Step>, i: nat, c: Call)
    requires Possible(run)
  {
    && Possible(longer) && Continues(run, longer) && i < |After(run).calls|
    && After(longer).calls == After(run).calls[i := c]
    && After(run).workers.Keys <= After(longer).workers.Keys
  }

  ghost predicate LearnerSame(run: seq<Step>, longer: seq<Step>)
    requires Possible(run) && Possible(longer)
  {
    After(longer).pending == After(run).pending && After(longer).updates == After(run).updates
  }

  /** One step of a call that does not touch the learner. */
  lemma Go(run: seq<Step>, step: Step) returns (longer: seq<Step>)
    requires Possible(run) && Enabled(After(run), step) && Concerns(step)
    requires !(step.Pick? && step.x.Some?) && !(step.Advance? && At(After(run), step.i, Learn))
    ensures Advanced(run, longer, step.i, Moved(After(run), step)) && LearnerSame(run, longer)
  {
    hide Apply, Moved;
    longer := Extend(run, step);
    CallsAfter(After(run), step);
    LearnerAfter(After(run), step);
    WorkersOnlyGrow(After(run), step);
  }

  lemma Join(a: seq<Step>, b: seq<Step>, c: seq<Step>, i: nat, x: Call, y: Call)
    requires Possible(a) && Advanced(a, b, i, x) && LearnerSame(a, b) && Advanced(b, c, i, y)
    ensures Advanced(a, c, i, y) && After(c).calls[i] == y
    ensures LearnerSame(b, c) ==> LearnerSame(a, c)
  {
    hide After, Possible, Continues;
    ContinuesFurther(a, b, c);
  }

  /** The deterministic statements of call i that do not involve the learner, one after the other. */
  lemma Walk(run: seq<Step>, i: nat, n: nat) returns (longer: seq<Step>)
    requires Possible(run) && i < |After(run).calls| && Walkable(After(run).calls[i], n)
    ensures Advanced(run, longer, i, Walked(After(run).calls[i], n)) && LearnerSame(run, longer)
    decreases n
  {
    hide Apply, After, Possible, Continues, Choosing, Next, NextMark;
    var c := After(run).calls[i];
    if n == 0 {
      longer := run;
      ContinuesItself(run);
      assert After(run).calls == After(run).calls[i := c];
    } else {
      var once := Go(run, Advance(i));
      longer := Walk(once, i, n - 1);
      Join(run, once, longer, i, Stepped(c), Walked(c, n));
    }
  }

  lemma ContinuesItself(run: seq<Step>)
    ensures Continues(run, run)
  {
  }

  /** The call after its next deterministic statement. */
  function Stepped(c: Call): Call {
    c.(pc := Next(c), mark := NextMark(c))
  }

  predicate Walkable(c: Call, n: nat)
    decreases n
  {
    n == 0 || (!Choosing(c.pc) && !c.pc.Learn? && Walkable(Stepped(c), n - 1))
  }

  function Walked(c: Call, n: nat): Call
    decreases n
  {
    if n == 0 then c else Walked(Stepped(c), n - 1)
  }

  lemma Steps(c: Call)
    requires !Choosing(c.pc) && !c.pc.Learn?
    ensures Walkable(c, 1) && Walked(c, 1) == Stepped(c)
    ensures forall n: nat :: (Walkable(c, n + 1) <==> Walkable(Stepped(c), n)) && Walked(c, n + 1) == Walked(Stepped(c), n)
  {
    assert Walkable(Stepped(c), 0) && Walked(Stepped(c), 0) == Stepped(c);
  }

  /** From the booking to the remote call. */
  lemma BookingWalks(c: Call)
    requires c.pc.Register? || c.pc.Activate? || c.pc.CountTotal? || c.pc.CountWorker?
    ensures Walkable(c, Distance(c)) && Walked(c, Distance(c)).pc == Forward
    ensures Walked(c, Distance(c)) == c.(pc := Forward, mark := if c.pc.CountWorker? then c.mark else Counted)
    decreases Distance(c)
  {
    hide Walkable, Walked;
    Steps(c);
    if !c.pc.CountWorker? {
      BookingWalks(Stepped(c));
    }
    assert Distance(c) == 1 + (if c.pc.CountWorker? then 0 else Distance(Stepped(c)));
  }

  /** From the tally to the return. */
  lemma LeavingWalks(c: Call)
    requires c.pc == Tally
    ensures Walkable(c, 4) && Walked(c, 4) == c.(pc := Returned, mark := NextMark(c))
  {
    hide Walkable, Walked;
    var c1 := Stepped(c);
    var c2 := Stepped(c1);
    var c3 := Stepped(c2);
    Steps(c);
    Steps(c1);
    Steps(c2);
    Steps(c3);
  }

  /** Takes call i, selected, to the point where its outcome is about to be recorded. */
  lemma Deliver(run: seq<Step>, i: nat, ok: bool, time: int, reward: Reward) returns (longer: seq<Step>)
    requires Possible(run) && At(After(run), i, Register) && After(run).calls[i].kind == Compile
    requires RewardFits(ok, time, reward)
    ensures Advanced(run, longer, i, Answer(After(run).calls[i], ok, time, reward)) && LearnerSame(run, longer)
  {
    var c := After(run).calls[i];
    BookingWalks(c);
    hide Apply, After, Possible, Continues, Walked, Walkable, RewardFits;
    var a := Walk(run, i, 4);
    var b := AnswerNow(a, i, ok, time, reward);
    Join(run, a, b, i, Walked(c, 4), Answer(c, ok, time, reward));
    longer := b;
  }

  /** Call i as it is about to record this reply. */
  function Answer(c: Call, ok: bool, time: int, reward: Reward): Call {
    c.(pc := Learn, mark := Counted, success := ok, compileTime := time, reward := reward)
  }

  lemma AnswerNow(run: seq<Step>, i: nat, ok: bool, time: int, reward: Reward) returns (longer: seq<Step>)
    requires Possible(run) && At(After(run), i, Forward) && After(run).calls[i].kind == Compile && After(run).calls[i].mark == Counted
    requires RewardFits(ok, time, reward)
    ensures Advanced(run, longer, i, Answer(After(run).calls[i], ok, time, reward)) && LearnerSame(run, longer)
  {
    hide Apply, After, Possible, Continues, RewardFits;
    var c := After(run).calls[i];
    var a := Go(run, Reply(i, ok, time, reward));
    longer := Go(a, Advance(i));
    Join(run, a, longer, i, Moved(After(run), Reply(i, ok, time, reward)), Answer(c, ok, time, reward));
  }

  /** A selection for call i that caches a vector. */
  lemma Choose(run: seq<Step>, i: nat, w: string, x: Vec) returns (longer: seq<Step>)
    requires Possible(run) && At(After(run), i, Select) && After(run).calls[i].kind == Compile && w in After(run).workers
    ensures Advanced(run, longer, i, After(run).calls[i].(pc := Register, worker := w, x := Some(x)))
    ensures After(longer).pending == After(run).pending[After(run).calls[i].task := x] && After(longer).updates == After(run).updates
  {
    hide Apply, After, Possible, Continues;
    var step := Pick(i, Some(w), Some(x));
    longer := Extend(run, step);
    CallsAfter(After(run), step);
    LearnerAfter(After(run), step);
    WorkersOnlyGrow(After(run), step);
  }

  /** Call i hands its outcome to the learner. */
  lemma Teach(run: seq<Step>, i: nat) returns (longer: seq<Step>)
    requires Possible(run) && At(After(run), i, Learn)
    ensures Advanced(run, longer, i, After(run).calls[i].(pc := Tally))
    ensures After(longer).pending == Learned(After(run), i).pending && After(longer).updates == Learned(After(run), i).updates
  {
    hide Apply, After, Possible, Learned, Continues;
    longer := Extend(run, Advance(i));
    WorkersOnlyGrow(After(run), Advance(i));
    CallsAfter(After(run), Advance(i));
    LearnerAfter(After(run), Advance(i));
  }

  /** Takes call i from the tally to its return. */
  lemma Finish(run: seq<Step>, i: nat) returns (longer: seq<Step>)
    requires Possible(run) && At(After(run), i, Tally)
    ensures Advanced(run, longer, i, After(run).calls[i].(pc := Returned, mark := NextMark(After(run).calls[i]))) && LearnerSame(run, longer)
  {
    var c := After(run).calls[i];
    LeavingWalks(c);
    hide Apply, After, Possible, Continues, Walked, Walkable;
    longer := Walk(run, i, 4);
  }

  function Fresh(id: string): WorkerInfo {
    WorkerInfo(id, "", None, Idle, 0, 0, 4, 0, 0, 0, 0, 0)
  }

  /** A worker comes in; nothing else changes. */
  lemma Welcome(run: seq<Step>, id: string) returns (longer: seq<Step>)
    requires Possible(run) && id != ""
    ensures Possible(longer) && Continues(run, longer) && After(longer).calls == After(run).calls && LearnerSame(run, longer)
    ensures id in After(longer).workers && After(run).workers.Keys <= After(longer).workers.Keys
  {
    var step := Handshake(Fresh(id), 0);
    longer := Extend(run, step);
  }

  /** A Compile call begins. */
  lemma Start(run: seq<Step>, task: string) returns (longer: seq<Step>)
    requires Possible(run) && task != ""
    ensures longer == run + [Begin(Compile, task)] && Possible(longer)
    ensures After(longer).calls == After(run).calls + [NewCall(Compile, task)] && LearnerSame(run, longer)
    ensures After(run).workers.Keys <= After(longer).workers.Keys
  {
    hide Apply, After, Possible;
    var step := Begin(Compile, task);
    longer := Extend(run, step);
    CallsAfter(After(run), step);
    LearnerAfter(After(run), step);
    WorkersOnlyGrow(After(run), step);
  }

  // ---------------------------------------------------------------------
  // An occupied task id can always be misfed
  // ---------------------------------------------------------------------

  ghost predicate AllFaithful(s: State) {
    forall k :: 0 <= k < |s.updates| ==> Faithful(s, s.updates[k])
  }

  /** A call without a vector of its own records, and finds one: the update is not its own. */
  lemma TeachWrong(run: seq<Step>, i: nat) returns (longer: seq<Step>)
    requires Possible(run) && At(After(run), i, Learn)
    requires var c := After(run).calls[i]; c.x.None? && c.worker != "" && c.reward.Finite? && c.task in After(run).pending
    ensures Possible(longer) && Continues(run, longer) && !AllFaithful(After(longer))
    ensures var s := After(run);
            After(longer).updates == s.updates + [Update(i, s.calls[i].worker, s.pending[s.calls[i].task], s.calls[i].reward.value)]
    ensures After(longer).calls == After(run).calls[i := After(run).calls[i].(pc := Tally)]
  {
    hide Apply, After, Possible, Continues;
    longer := Teach(run, i);
    var s := After(longer);
    assert !Faithful(s, s.updates[|s.updates| - 1]);
  }

  /** A call at its entrance, whose task has a vector pending, takes it to the arm of any worker. */
  lemma TakeOver(run: seq<Step>, k: nat, v: string) returns (longer: seq<Step>)
    requires Possible(run) && At(After(run), k, Enqueue) && v != "" && v in After(run).workers
    requires var c := After(run).calls[k]; c == NewCall(Compile, c.task) && c.task in After(run).pending
    ensures Possible(longer) && Continues(run, longer) && !AllFaithful(After(longer))
    ensures var s := After(run);
            && After(longer).updates == s.updates + [Update(k, v, s.pending[s.calls[k].task], -1.0)]
            && |After(longer).calls| == |s.calls| && After(longer).calls[k].x == None
            && (forall j :: 0 <= j < |s.calls| && j != k ==> After(longer).calls[j] == s.calls[j])
  {
    var c := After(run).calls[k];
    Steps(c);
    hide Apply, After, Possible, Continues, Walked, Walkable;
    var a := Walk(run, k, 1);
    var b := Go(a, Pick(k, Some(v), None));
    var chosen := c.(pc := Register, worker := v, x := None);
    Join(run, a, b, k, Walked(c, 1), chosen);
    var d := Deliver(b, k, false, 0, Finite(-1.0));
    Join(run, b, d, k, chosen, Answer(chosen, false, 0, Finite(-1.0)));
    longer := TeachWrong(d, k);
    ContinuesFurther(run, d, longer);
  }

  /** A call that has not selected yet can cache a vector. */
  lemma CacheFirst(run: seq<Step>, i: nat, v: string, x: Vec) returns (longer: seq<Step>)
    requires Possible(run) && i < |After(run).calls| && v in After(run).workers
    requires var c := After(run).calls[i]; c.kind == Compile && (c.pc.Enqueue? || c.pc.Select?)
    ensures Advanced(run, longer, i, After(run).calls[i].(pc := Register, worker := v, x := Some(x)))
    ensures After(longer).pending == After(run).pending[After(run).calls[i].task := x] && After(longer).updates == After(run).updates
  {
    var c := After(run).calls[i];
    if c.pc.Select? {
      longer := Choose(run, i, v, x);
    } else {
      Steps(c);
      hide Apply, After, Possible, Continues, Walked, Walkable;
      var a := Walk(run, i, 1);
      longer := Choose(a, i, v, x);
      Join(run, a, longer, i, Walked(c, 1), c.(pc := Register, worker := v, x := Some(x)));
    }
  }

  /** How many statements a selected call is from its remote call, or, once answered, from recording. */
  function Distance(c: Call): nat {
    match c.pc
    case Register => 4
    case Activate => 3
    case CountTotal => 2
    case CountWorker => 1
    case Release => 1
    case _ => 0
  }

  lemma DistanceWalks(c: Call)
    requires c.kind == Compile && BeforeRecording(c.pc)
    ensures Walkable(c, Distance(c))
    ensures var d := Walked(c, Distance(c));
            d == c.(pc := if c.pc.Release? || c.pc.Learn? then Learn else Forward, mark := d.mark)
  {
    hide Walkable, Walked;
    if c.pc.Release? {
      Steps(c);
    } else if !c.pc.Learn? && !c.pc.Forward? {
      BookingWalks(c);
    } else {
      NoSteps(c);
    }
  }

  lemma NoSteps(c: Call)
    ensures Walkable(c, 0) && Walked(c, 0) == c
  {
  }

  /** A selected call that has not been refused comes to record with a finite reward; nothing else changes. */
  lemma ReachRecording(run: seq<Step>, i: nat) returns (longer: seq<Step>, c: Call)
    requires Possible(run) && i < |After(run).calls|
    requires var c := After(run).calls[i];
             c.kind == Compile && BeforeRecording(c.pc) && (c.pc.Release? || c.pc.Learn? ==> c.reward.Finite?)
    ensures Advanced(run, longer, i, c) && LearnerSame(run, longer)
    ensures var b := After(run).calls[i];
            c.pc == Learn && c.reward.Finite? && c.x == b.x && c.worker == b.worker && c.task == b.task
  {
    hide Apply, After, Possible, Continues, Walked, Walkable, Distance;
    var b := After(run).calls[i];
    DistanceWalks(b);
    var a := Walk(run, i, Distance(b));
    c := Walked(b, Distance(b));
    longer := a;
    if c.pc.Forward? {
      var reply := Reply(i, false, 0, Finite(-1.0));
      var r := Go(a, reply);
      var e := Moved(After(a), reply);
      Join(run, a, r, i, c, e);
      longer := Go(r, Advance(i));
      c := Moved(After(r), Advance(i));
      Join(run, r, longer, i, e, c);
    }
  }

  /** The new call caches a vector first, and the older one, which cached none, records it. */
  lemma Overtaken(run: seq<Step>, i: nat, k: nat, v: string) returns (longer: seq<Step>)
    requires Possible(run) && i < |After(run).calls| && At(After(run), k, Enqueue) && i != k && v in After(run).workers
    requires After(run).calls[k].kind == Compile && After(run).calls[k].task == After(run).calls[i].task
    requires var c := After(run).calls[i];
             && c.kind == Compile && c.x.None? && c.worker != "" && BeforeRecording(c.pc)
             && (c.pc.Release? || c.pc.Learn? ==> c.reward.Finite?)
    ensures Possible(longer) && Continues(run, longer) && !AllFaithful(After(longer))
  {
    hide Apply, After, Possible, Continues, AllFaithful, Learned;
    var a := CacheFirst(run, k, v, []);
    var b, c := ReachRecording(a, i);
    longer := TeachWrong(b, i);
    ContinuesFurther(run, a, b);
    ContinuesFurther(run, b, longer);
  }

  /** For every call that occupies its task id, one more call of that task can go on to an update that is not its call's own. */
  lemma OccupiedTaskMisfeeds(run: seq<Step>, i: nat) returns (longer: seq<Step>)
    requires Possible(run) && DisciplinedRun(run) && i < |After(run).calls| && Occupies(After(run).calls[i])
    requires After(run).calls[i].task != ""
    ensures Possible(longer) && Continues(run + [Begin(Compile, After(run).calls[i].task)], longer)
    ensures !AllFaithful(After(longer))
  {
    InvAlways(run);
    var s := After(run);
    var c, k := s.calls[i], |s.calls|;
    assert Cached(s, i);
    assert HasWorker(c) ==> c.worker in s.workers && c.worker != "";
    hide Apply, After, Possible, Continues, DisciplinedRun, Inv, AllFaithful, DisciplinedRun;
    var base := Start(run, c.task);
    var a := Welcome(base, "v");
    NewCallIs(Compile, c.task);
    if Holding(c) {
      longer := TakeOver(a, k, "v");
    } else if c.pc.Enqueue? || c.pc.Select? {
      var b := CacheFirst(a, i, "v", []);
      longer := TakeOver(b, k, "v");
      ContinuesFurther(a, b, longer);
    } else {
      longer := Overtaken(a, i, k, "v");
    }
    ContinuesFurther(base, a, longer);
  }

  // ---------------------------------------------------------------------
  // The exact condition
  // ---------------------------------------------------------------------

  /** Every step after the first n is disciplined. */
  ghost predicate DisciplinedFrom(run: seq<Step>, n: nat)
    requires Possible(run)
  {
    |run| <= n || (DisciplinedFrom(run[..|run| - 1], n) && Disciplined(After(run[..|run| - 1]), run[|run| - 1]))
  }

  lemma {:induction false} DisciplineAddsUp(base: seq<Step>, longer: seq<Step>)
    requires Possible(base) && DisciplinedRun(base) && Possible(longer)
    requires |base| <= |longer| && longer[..|base|] == base && DisciplinedFrom(longer, |base|)
    ensures DisciplinedRun(longer)
  {
    if |longer| == |base| {
      assert longer == base;
    } else {
      var init := longer[..|longer| - 1];
      assert init[..|base|] == base;
      DisciplineAddsUp(base, init);
    }
  }

  lemma {:induction false} NoBeginsNoHarm(base: seq<Step>, longer: seq<Step>)
    requires Possible(longer) && Continues(base, longer)
    ensures DisciplinedFrom(longer, |base|)
  {
    if |longer| > |base| {
      var init := longer[..|longer| - 1];
      assert init[..|base|] == base;
      NoBeginsNoHarm(base, init);
    }
  }

  /** longer is a possible run that begins with run and a further call of the task, and is disciplined from there on. */
  ghost predicate GoesOn(run: seq<Step>, task: string, longer: seq<Step>) {
    var base := run + [Begin(Compile, task)];
    Possible(longer) && |base| <= |longer| && longer[..|base|] == base && DisciplinedFrom(longer, |base|)
  }

  /** However the run goes on after one more call of the task, every update is its call's own. */
  ghost predicate SafeToBegin(run: seq<Step>, task: string) {
    forall longer :: GoesOn(run, task, longer) ==> AllFaithful(After(longer))
  }

  lemma {:induction false} TasksAreNamed(run: seq<Step>, i: nat)
    requires Possible(run) && i < |After(run).calls|
    ensures After(run).calls[i].task != ""
  {
    hide Apply;
    if run != [] {
      var init := run[..|run| - 1];
      TaskAfter(After(init), run[|run| - 1], i);
      if i < |After(init).calls| {
        TasksAreNamed(init, i);
      }
    }
  }

  /** After a disciplined run a task id may be taken exactly when no call occupies it: then, and only then, no continuation
      can feed an arm a vector that is not its call's own. */
  lemma SafeToBeginIff(run: seq<Step>, task: string)
    requires Possible(run) && DisciplinedRun(run) && task != ""
    ensures SafeToBegin(run, task) <==> Disciplined(After(run), Begin(Compile, task))
  {
    if Disciplined(After(run), Begin(Compile, task)) {
      var base := Start(run, task);
      assert base[..|base| - 1] == run;
      assert DisciplinedRun(base);
      forall longer | GoesOn(run, task, longer)
        ensures AllFaithful(After(longer))
      {
        DisciplineAddsUp(base, longer);
        InvAlways(longer);
      }
    } else {
      var i :| 0 <= i < |After(run).calls| && Occupies(After(run).calls[i]) && After(run).calls[i].task == task;
      hide Apply, After, Possible, AllFaithful, DisciplinedRun, Occupies, DisciplinedFrom;
      var longer := OccupiedTaskMisfeeds(run, i);
      NoBeginsNoHarm(run + [Begin(Compile, task)], longer);
      assert GoesOn(run, task, longer);
    }
  }

  /** Every Compile call of the run began where that was safe. */
  ghost predicate BegunSafely(run: seq<Step>)
    requires Possible(run)
  {
    run == []
    || (var init, step := run[..|run| - 1], run[|run| - 1];
        BegunSafely(init) && (step.Begin? && step.kind == Compile ==> SafeToBegin(init, step.task)))
  }

  /** The discipline is exactly as strong as it must be: a run is disciplined exactly when each of its calls began safely. */
  lemma {:induction false} DisciplineIsExact(run: seq<Step>)
    requires Possible(run)
    ensures DisciplinedRun(run) <==> BegunSafely(run)
  {
    hide Apply, SafeToBegin, Disciplined;
    if run != [] {
      var init, step := run[..|run| - 1], run[|run| - 1];
      DisciplineIsExact(init);
      if DisciplinedRun(init) {
        if step.Begin? && step.kind == Compile {
          SafeToBeginIff(init, step.task);
        } else {
          OtherStepsDisciplined(After(init), step);
        }
      }
    }
  }

  lemma OtherStepsDisciplined(s: State, step: Step)
    requires !(step.Begin? && step.kind == Compile)
    ensures Disciplined(s, step)
  {
  }

  // ---------------------------------------------------------------------
  // Runs that go wrong
  // ---------------------------------------------------------------------

  /** A worker that reports success after -1 milliseconds makes the vector stay behind after the only call has returned. */
  lemma NotFiniteLeaks(x: Vec) returns (run: seq<Step>)
    ensures Possible(run)
    ensures var s := After(run);
            && |s.calls| == 1 && At(s, 0, Returned) && s.pending == map["t" := x] && s.updates == []
            && s.calls[0].worker == "w" && s.calls[0].success && s.calls[0].compileTime == -1
  {
    NothingYet();
    hide Apply, After, Possible, Continues, Walked, Walkable;
    run := Welcome([], "w");
    run := Start(run, "t");
    run := CacheFirst(run, 0, "w", x);
    run := Deliver(run, 0, true, -1, NotFinite);
    run := Teach(run, 0);
    run := Finish(run, 0);
  }

  lemma NothingYet()
    ensures Possible([]) && After([]) == INIT
  {
  }

  /** Once a vector has been left behind, a later call of the same task that cached nothing -- with no other call in
      flight -- hands it, computed for one worker, to the arm of another. */
  lemma StaleVectorMisfeeds(x: Vec) returns (run: seq<Step>)
    ensures Possible(run)
    ensures var s := After(run);
            && |s.calls| == 2 && At(s, 0, Returned) && s.calls[0].worker == "w" && s.calls[1].x == None
            && s.updates == [Update(1, "v", x, -1.0)]
  {
    hide Apply, After, Possible, Continues;
    run := NotFiniteLeaks(x);
    run := Start(run, "t");
    run := Welcome(run, "v");
    NewCallIs(Compile, "t");
    run := TakeOver(run, 1, "v");
  }

  /** With one task id used by two calls in flight, one worker's arm is fed the vector computed for the other worker. */
  lemma SharedTaskMisfeeds(x: Vec, y: Vec) returns (run: seq<Step>)
    ensures Possible(run)
    ensures var s := After(run);
            |s.calls| == 2 && s.calls[0].worker == "v" && s.calls[0].x == Some(x)
            && s.updates == [Update(0, "v", y, -1.0)]
  {
    NothingYet();
    hide Apply, After, Possible, Continues;
    run := Welcome([], "v");
    run := Welcome(run, "w");
    run := Start(run, "t");
    run := Start(run, "t");
    run := CacheFirst(run, 0, "v", x);
    run := CacheFirst(run, 1, "w", y);
    run := Deliver(run, 0, false, 0, Finite(-1.0));
    run := Teach(run, 0);
  }
}

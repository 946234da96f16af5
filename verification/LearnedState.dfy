/**
 What the LinUCB learner has learned after any interleaving of Compile calls: the
 arm of every worker is the one a sequential learner would have computed from the
 calls that worker served, each with the vector of its own selection, and its
 theta is their ridge regression solution
 (internal/coordinator/server/grpc.go with internal/coordinator/scheduler/linucb.go).
 */
module LearnedState {
  import opened Common
  import opened Feedback
  import opened Registry
  import opened Dispatch
  import opened DispatchLearning
  import LinUcbModel
  import LinUcb

  type History = seq<LinUcbModel.Outcome>

  /** The outcomes one worker's arm was updated with, in the order of the updates. */
  function ArmHistory(updates: seq<Update>, w: string): History {
    if updates == [] then []
    else
      var u := updates[|updates| - 1];
      ArmHistory(updates[..|updates| - 1], w) + if u.worker == w then [LinUcbModel.Outcome(u.x, u.reward)] else []
  }

  /** What a call owes to the arm of w once it has recorded its outcome. */
  function Contribution(c: Call, w: string): History {
    if Recorded(c) && c.worker == w && c.reward.Finite? then [LinUcbModel.Outcome(c.x.value, c.reward.value)] else []
  }

  /** The outcomes of the calls served by w, in the order in which the calls began. */
  function Delivered(calls: seq<Call>, w: string): History {
    if calls == [] then [] else Delivered(calls[..|calls| - 1], w) + Contribution(calls[|calls| - 1], w)
  }

  lemma ArmHistoryAppend(updates: seq<Update>, u: Update, w: string)
    ensures ArmHistory(updates + [u], w)
         == ArmHistory(updates, w) + if u.worker == w then [LinUcbModel.Outcome(u.x, u.reward)] else []
  {
    assert (updates + [u])[..|updates|] == updates;
  }

  lemma {:induction false} DeliveredReplace(calls: seq<Call>, i: nat, c: Call, w: string)
    requires i < |calls| && Contribution(calls[i], w) == []
    ensures multiset(Delivered(calls[i := c], w)) == multiset(Delivered(calls, w)) + multiset(Contribution(c, w))
  {
    hide Contribution;
    var n := |calls| - 1;
    if i == n {
      assert calls[i := c][..n] == calls[..n];
    } else {
      DeliveredReplace(calls[..n], i, c, w);
      assert calls[i := c][..n] == calls[..n][i := c];
    }
  }

  /** Calls that contribute the same give the same; calls that contribute nothing add nothing. */
  lemma {:induction false} DeliveredSame(calls: seq<Call>, calls': seq<Call>, w: string)
    requires |calls| <= |calls'|
    requires forall i :: 0 <= i < |calls| ==> Contribution(calls'[i], w) == Contribution(calls[i], w)
    requires forall i :: |calls| <= i < |calls'| ==> Contribution(calls'[i], w) == []
    ensures Delivered(calls', w) == Delivered(calls, w)
  {
    hide Contribution;
    if calls' != [] {
      var n := |calls'| - 1;
      if |calls| < |calls'| {
        DeliveredSame(calls, calls'[..n], w);
      } else {
        DeliveredSame(calls[..n], calls'[..n], w);
      }
    }
  }

  ghost predicate InStep(s: State, w: string) {
    multiset(ArmHistory(s.updates, w)) == multiset(Delivered(s.calls, w))
  }

  lemma SameContribution(c: Call, c': Call, w: string)
    requires SameStanding(c, c')
    ensures Contribution(c', w) == Contribution(c, w)
  {
  }

  lemma QuietInStep(s: State, step: Step, w: string)
    requires Inv(s) && Quiet(s, step) && InStep(s, w)
    ensures InStep(Apply(s, step), w)
  {
    hide Apply, Inv, SameStanding, Recorded, Holding;
    QuietCalls(s, step);
    var t := Apply(s, step);
    forall i | 0 <= i < |s.calls|
      ensures Contribution(t.calls[i], w) == Contribution(s.calls[i], w)
    {
      SameContribution(s.calls[i], t.calls[i], w);
    }
    DeliveredSame(s.calls, t.calls, w);
  }

  lemma PickInStep(s: State, step: Step, w: string)
    requires Inv(s) && Enabled(s, step) && step.Pick? && step.x.Some? && InStep(s, w)
    ensures InStep(Apply(s, step), w)
  {
    assert Sensible(s.calls[step.i]);
    assert Contribution(s.calls[step.i], w) == [] && Contribution(Moved(s, step), w) == [];
    hide Apply, Moved, Contribution, Inv;
    CallsAfter(s, step);
    LearnerAfter(s, step);
    DeliveredReplace(s.calls, step.i, Moved(s, step), w);
  }

  /** A call contributes nothing before it records its outcome, and its own outcome from then on. */
  lemma Finishing(c: Call, w: string)
    requires c.kind == Compile && c.x.Some? && c.pc == Learn && c.reward.Finite?
    ensures Contribution(c, w) == []
    ensures Contribution(c.(pc := Tally), w)
         == if c.worker == w then [LinUcbModel.Outcome(c.x.value, c.reward.value)] else []
  {
  }

  lemma RecordInStep(s: State, step: Step, w: string)
    requires Inv(s) && Enabled(s, step) && step.Advance? && At(s, step.i, Learn) && InStep(s, w)
    requires s.calls[step.i].kind == Compile && s.calls[step.i].x.Some? && s.calls[step.i].reward.Finite?
    ensures InStep(Apply(s, step), w)
  {
    hide Apply, Inv, Enabled;
    RecordEffect(s, step);
    var c := s.calls[step.i];
    var u := Update(step.i, c.worker, c.x.value, c.reward.value);
    Finishing(c, w);
    hide Contribution, Recorded, Holding;
    ArmHistoryAppend(s.updates, u, w);
    DeliveredReplace(s.calls, step.i, c.(pc := Tally), w);
  }

  lemma {:induction false} InStepAlways(run: seq<Step>, w: string)
    requires Possible(run) && DisciplinedRun(run)
    ensures InStep(After(run), w)
  {
    if run != [] {
      var s, step := After(run[..|run| - 1]), run[|run| - 1];
      InStepAlways(run[..|run| - 1], w);
      InvAlways(run[..|run| - 1]);
      assert Concerns(step) ==> Sensible(s.calls[step.i]);
      hide Apply, InStep, Inv, Disciplined;
      if step.Pick? && step.x.Some? {
        PickInStep(s, step, w);
      } else if step.Advance? && At(s, step.i, Learn) && s.calls[step.i].x.Some? && s.calls[step.i].reward.Finite? {
        RecordInStep(s, step, w);
      } else {
        QuietInStep(s, step, w);
      }
    }
  }

  /** In every disciplined interleaving the arm of w equals the one computed, call by call, from the calls w served,
      and its theta is the unique minimiser of their ridge objective. */
  lemma ArmIsSequential(run: seq<Step>, w: string, d: nat, t: seq<real>)
    requires Possible(run) && DisciplinedRun(run) && |t| == d
    requires LinUcbModel.Fits(d, Delivered(After(run).calls, w))
    ensures var learned, served := ArmHistory(After(run).updates, w), Delivered(After(run).calls, w);
            && LinUcbModel.Fits(d, learned)
            && LinUcbModel.ArmAfter(d, learned) == LinUcbModel.ArmAfter(d, served)
            && LinUcbModel.Ridge(d, served, LinUcbModel.Theta(d, learned)) <= LinUcbModel.Ridge(d, served, t)
            && (LinUcbModel.Ridge(d, served, LinUcbModel.Theta(d, learned)) == LinUcbModel.Ridge(d, served, t)
                <==> t == LinUcbModel.Theta(d, learned))
  {
    var learned, served := ArmHistory(After(run).updates, w), Delivered(After(run).calls, w);
    InStepAlways(run, w);
    FitsPermuted(d, learned, served);
    hide LinUcbModel.ArmAfter, LinUcbModel.Ridge, ArmHistory, Delivered;
    LinUcbModel.OrderIrrelevant(d, learned, served);
    LinUcbModel.ThetaIsRidgeMinimiser(d, served, t);
  }

  lemma FitsPermuted(d: nat, g: History, h: History)
    requires multiset(g) == multiset(h) && LinUcbModel.Fits(d, h)
    ensures LinUcbModel.Fits(d, g)
  {
    forall k | 0 <= k < |g|
      ensures |g[k].x| == d
    {
      assert g[k] in multiset(h);
      assert g[k] in h;
    }
  }

  // ---------------------------------------------------------------------
  // The scheduler object follows the protocol
  // ---------------------------------------------------------------------

  /** What the scheduler's methods make of a run: a selection caches its vector, a recording goes through RecordOutcome. */
  ghost function Followed(run: seq<Step>): LinUcb.Knowledge
    requires Possible(run)
  {
    if run == [] then LinUcb.Knowledge(map[], map[])
    else
      var init, step := run[..|run| - 1], run[|run| - 1];
      FollowedStep(Followed(init), After(init), step)
  }

  ghost function FollowedStep(l: LinUcb.Knowledge, s: State, step: Step): LinUcb.Knowledge
    requires Enabled(s, step)
  {
    if step.Pick? && step.x.Some? then l.(pending := l.pending[s.calls[step.i].task := step.x.value])
    else if step.Advance? && s.calls[step.i].pc.Learn? then
      LinUcb.Taught(l, s.calls[step.i].worker, s.calls[step.i].reward, s.calls[step.i].task)
    else l
  }

  ghost predicate Mirrors(l: LinUcb.Knowledge, s: State) {
    l.pending == s.pending && forall w :: LinUcb.Recorded(l.histories, w) == ArmHistory(s.updates, w)
  }

  lemma TeachingMirrors(l: LinUcb.Knowledge, s: State, i: nat)
    requires Mirrors(l, s) && i < |s.calls|
    ensures Mirrors(LinUcb.Taught(l, s.calls[i].worker, s.calls[i].reward, s.calls[i].task), Learned(s, i))
  {
    var c := s.calls[i];
    if c.worker != "" && c.reward.Finite? && c.task in s.pending {
      var u := Update(i, c.worker, s.pending[c.task], c.reward.value);
      forall w
        ensures ArmHistory(s.updates + [u], w)
             == ArmHistory(s.updates, w) + if u.worker == w then [LinUcbModel.Outcome(u.x, u.reward)] else []
      {
        ArmHistoryAppend(s.updates, u, w);
      }
      assert Learned(s, i).updates == s.updates + [u];
    }
  }

  lemma MirrorDepends(l: LinUcb.Knowledge, s: State, t: State)
    requires Mirrors(l, s) && t.pending == s.pending && t.updates == s.updates
    ensures Mirrors(l, t)
  {
  }

  /** In every run, disciplined or not, the scheduler's pending vectors and records are those of the step system. */
  lemma {:induction false} SchedulerFollows(run: seq<Step>)
    requires Possible(run)
    ensures Mirrors(Followed(run), After(run))
  {
    if run == [] {
      NothingLearned();
    } else {
      var init, step := run[..|run| - 1], run[|run| - 1];
      var l, s := Followed(init), After(init);
      SchedulerFollows(init);
      LearnerAfter(s, step);
      hide Apply, ArmHistory, LinUcb.Recorded, LinUcb.Taught, Learned;
      if step.Advance? && s.calls[step.i].pc.Learn? {
        TeachingMirrors(l, s, step.i);
        MirrorDepends(FollowedStep(l, s, step), Learned(s, step.i), After(run));
      }
    }
  }

  lemma NothingLearned()
    ensures Mirrors(LinUcb.Knowledge(map[], map[]), INIT)
  {
  }
}

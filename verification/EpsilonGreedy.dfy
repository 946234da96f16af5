/**
 The epsilon-greedy learner (internal/coordinator/scheduler/epsilon_greedy.go):
 its incremental estimate is exactly the mean of everything recorded, and a
 greedy pick prefers workers never tried to workers with only bad outcomes.
 The random draws are parameters.
 */
module EpsilonGreedy {
  import opened Common
  import opened Registry
  import opened Feedback
  import opened Selection

  datatype ArmState = ArmState(q: real, n: nat)

  type Rewards = map<string, seq<real>>

  function Total(rs: seq<real>): real {
    if rs == [] then 0.0 else Total(rs[..|rs| - 1]) + rs[|rs| - 1]
  }

  /** The mean, or zero when nothing was recorded. */
  function Mean(rs: seq<real>): real {
    if rs == [] then 0.0 else Total(rs) / |rs| as real
  }

  /** Section 2.4 of Sutton and Barto: the incremental update is the mean of the longer list. */
  lemma MeanStep(rs: seq<real>, r: real)
    ensures Mean(rs + [r]) == Mean(rs) + (r - Mean(rs)) / (|rs| + 1) as real
  {
    assert (rs + [r])[..|rs|] == rs;
    assert Total(rs + [r]) == Total(rs) + r;
    if rs != [] {
      Incremental(Total(rs), |rs| as real, r);
    }
  }

  lemma Incremental(sum: real, n: real, r: real)
    requires n > 0.0
    ensures (sum + r) / (n + 1.0) == sum / n + (r - sum / n) / (n + 1.0)
  {
    var mean := sum / n;
    assert sum == mean * n;
    assert (mean * n + r) / (n + 1.0) == (mean * (n + 1.0) + (r - mean)) / (n + 1.0);
    Cancel(mean, r - mean, n + 1.0);
  }

  lemma Cancel(mean: real, rest: real, d: real)
    requires d > 0.0
    ensures (mean * d + rest) / d == mean + rest / d
  {
  }

  /** What the scheduler believes of a worker. */
  function Belief(rewards: Rewards, id: string): real {
    if id in rewards then Mean(rewards[id]) else 0.0
  }

  ghost function Beliefs(rewards: Rewards, ws: seq<WorkerInfo>): (r: seq<real>)
    ensures |r| == |ws| && forall j :: 0 <= j < |ws| ==> r[j] == Belief(rewards, ws[j].id)
  {
    seq(|ws|, j requires 0 <= j < |ws| => Belief(rewards, ws[j].id))
  }

  lemma NothingHeard()
    ensures Mean([]) == 0.0
  {
  }

  function Heard(rewards: Rewards, id: string): seq<real> {
    if id in rewards then rewards[id] else []
  }

  class EpsilonGreedyScheduler {
    const epsilon: real
    var values: map<string, ArmState>

    /** Every finite reward recorded for each worker, in order. */
    ghost var rewards: Rewards

    ghost predicate Valid()
      reads this
    {
      && values.Keys == rewards.Keys
      && (forall id :: id in values ==>
            && rewards[id] != []
            && values[id] == ArmState(Mean(rewards[id]), |rewards[id]|))
    }

    constructor (epsilon: real)
      ensures Valid() && values == map[]
      ensures this.epsilon == if epsilon < 0.0 then 0.0 else if epsilon > 1.0 then 1.0 else epsilon
    {
      this.epsilon := if epsilon < 0.0 then 0.0 else if epsilon > 1.0 then 1.0 else epsilon;
      values, rewards := map[], map[];
    }

    /** A finite reward for a named worker joins its record; anything else is ignored. */
    method RecordOutcome(id: string, reward: Reward)
      requires Valid()
      modifies this
      ensures Valid()
      ensures rewards == if id == "" || reward.NotFinite? then old(rewards)
                         else old(rewards)[id := Heard(old(rewards), id) + [reward.value]]
    {
      if id == "" || reward.NotFinite? {
        return;
      }
      hide Mean;
      var st := if id in values then values[id] else ArmState(0.0, 0);
      MeanStep(Heard(rewards, id), reward.value);
      NothingHeard();
      st := st.(n := st.n + 1);
      st := st.(q := st.q + (reward.value - st.q) / st.n as real);
      values := values[id := st];
      rewards := rewards[id := Heard(rewards, id) + [reward.value]];
    }

    method QValue(id: string) returns (q: real)
      requires Valid()
      ensures q == Belief(rewards, id)
    {
      return if id in values then values[id].q else 0.0;
    }

    /** The first candidate with the highest mean reward. */
    method ArgmaxQ(candidates: seq<WorkerInfo>) returns (best: WorkerInfo, ghost k: nat)
      requires Valid() && candidates != []
      ensures FirstMax(Beliefs(rewards, candidates), k) && best == candidates[k]
      ensures best in candidates && forall w :: w in candidates ==> Belief(rewards, w.id) <= Belief(rewards, best.id)
    {
      ghost var qs := Beliefs(rewards, candidates);
      best, k := candidates[0], 0;
      var bestQ := 0.0;
      for i := 0 to |candidates|
        invariant i > 0 ==> k < i && FirstMax(qs[..i], k) && best == candidates[k] && bestQ == qs[k]
      {
        var w := candidates[i];
        var q := QValue(w.id);
        FirstMaxStep(qs, i, k);
        if i == 0 || q > bestQ {
          best, bestQ, k := w, q, i;
        }
      }
      assert qs[..|candidates|] == qs;
      assert forall j :: 0 <= j < |candidates| ==> qs[j] <= qs[k];
    }

    /** The whole selection: the admission rule, then the choice below. */
    method SelectWithDispatchInfo(listed: seq<WorkerInfo>, count: nat, clientOS: string, open: string -> bool, u: real, draw: nat -> nat)
        returns (r: Choice, ghost k: nat)
      requires Valid() && forall n: nat :: n > 0 ==> draw(n) < n
      ensures var e := Eligible(listed, count, clientOS, open);
              if e.Candidates? then r.Chosen? && Offered(r.worker, listed, clientOS, open) else r == Unavailable(e)
      ensures var e := Eligible(listed, count, clientOS, open);
              e.Candidates? ==>
                   && k < |e.workers| && r.worker == e.workers[k]
                   && r.info.qValueAtDispatch == Belief(rewards, r.worker.id)
                   && (r.info.wasExploration <==> |e.workers| > 1 && epsilon > 0.0 && u < epsilon)
                   && (r.info.wasExploration ==> k == draw(|e.workers|))
                   && (!r.info.wasExploration ==> FirstMax(Beliefs(rewards, e.workers), k))
    {
      hide Eligible, Offered, Belief, FirstMax;
      k := 0;
      var e := EligibleWorkers(listed, count, clientOS, open);
      if !e.Candidates? {
        return Unavailable(e), 0;
      }
      OfferedAll(listed, count, clientOS, open);
      var chosen, info;
      chosen, info, k := Choose(e.workers, u, draw(|e.workers|));
      assert chosen in e.workers;
      return Chosen(chosen, info), k;
    }

    /** u is the uniform draw deciding on exploration, pick the position drawn when exploring. */
    method Choose(candidates: seq<WorkerInfo>, u: real, pick: nat)
        returns (chosen: WorkerInfo, info: DispatchInfo, ghost k: nat)
      requires Valid() && pick < |candidates|
      ensures k < |candidates| && chosen == candidates[k]
      ensures info.qValueAtDispatch == Belief(rewards, chosen.id)
      ensures info.wasExploration <==> |candidates| > 1 && epsilon > 0.0 && u < epsilon
      ensures info.wasExploration ==> k == pick
      ensures !info.wasExploration ==> FirstMax(Beliefs(rewards, candidates), k)
    {
      if |candidates| == 1 {
        var q := QValue(candidates[0].id);
        return candidates[0], DispatchInfo(q, false), 0;
      }
      var exploring := epsilon > 0.0 && u < epsilon;
      if exploring {
        chosen, k := candidates[pick], pick;
      } else {
        chosen, k := ArgmaxQ(candidates);
      }
      var q := QValue(chosen.id);
      info := DispatchInfo(q, exploring);
    }
  }

  // ---------------------------------------------------------------------
  // When a worker never tried is preferred
  // ---------------------------------------------------------------------

  ghost predicate Untried(rewards: Rewards, ws: seq<WorkerInfo>, j: int)
    requires 0 <= j < |ws|
  {
    ws[j].id !in rewards
  }

  /** With an untried candidate, the first at position u, the greedy pick is untried exactly when every tried one has a
      negative mean, or a zero mean and a later place; the pick is then u. */
  lemma UntriedPickedIff(rewards: Rewards, ws: seq<WorkerInfo>, k: nat, u: nat)
    requires FirstMax(Beliefs(rewards, ws), k) && u < |ws| && Untried(rewards, ws, u)
    requires forall j :: 0 <= j < u ==> !Untried(rewards, ws, j)
    ensures Untried(rewards, ws, k) <==>
      forall j :: 0 <= j < |ws| && !Untried(rewards, ws, j) ==>
        Belief(rewards, ws[j].id) < 0.0 || (Belief(rewards, ws[j].id) == 0.0 && j > u)
    ensures Untried(rewards, ws, k) ==> k == u
  {
    var qs := Beliefs(rewards, ws);
    assert qs[u] == 0.0 && qs[u] <= qs[k];
    if Untried(rewards, ws, k) {
      assert qs[k] == 0.0;
      assert k == u;
      assert forall j :: 0 <= j < |ws| ==> qs[j] <= qs[k] && (j < k ==> qs[j] < qs[k]);
    } else {
      assert qs[k] == Belief(rewards, ws[k].id);
    }
  }

  lemma {:induction false} NegativeMean(rs: seq<real>)
    requires rs != [] && forall i :: 0 <= i < |rs| ==> rs[i] < 0.0
    ensures Mean(rs) < 0.0
  {
    NegativeSum(rs);
    NegativeQuotient(Total(rs), |rs| as real);
  }

  lemma NegativeQuotient(a: real, b: real)
    requires a < 0.0 && b > 0.0
    ensures a / b < 0.0
  {
    assert (a / b) * b == a;
  }

  lemma {:induction false} NegativeSum(rs: seq<real>)
    requires rs != [] && forall i :: 0 <= i < |rs| ==> rs[i] < 0.0
    ensures Total(rs) < 0.0
  {
    if |rs| > 1 {
      NegativeSum(rs[..|rs| - 1]);
    }
  }

  /** As long as every recorded reward is negative, a greedy pick never takes a tried worker while an untried one is eligible. */
  lemma NegativeRewardsFavourUntried(rewards: Rewards, ws: seq<WorkerInfo>, k: nat, u: nat)
    requires FirstMax(Beliefs(rewards, ws), k) && u < |ws| && Untried(rewards, ws, u)
    requires forall id :: id in rewards ==> rewards[id] != [] && forall i :: 0 <= i < |rewards[id]| ==> rewards[id][i] < 0.0
    ensures Untried(rewards, ws, k)
  {
    var qs := Beliefs(rewards, ws);
    assert qs[u] == 0.0 && qs[u] <= qs[k];
    if !Untried(rewards, ws, k) {
      NegativeMean(rewards[ws[k].id]);
    }
  }
}

/**
 The admission gate of a worker (internal/worker/server/grpc.go, Compile and
 Build). A call atomically adds one to activeTasks and keeps the sum it got back
 (its ticket), compares the ticket with MaxConcurrent, and on its way out -- also
 when it was refused -- subtracts one again. Each atomic add and each comparison
 is a step of its own, and any number of calls may be between any two of them.
 */
module WorkerGate {
  import opened Counting

  datatype Phase =
    | Arrived             // holds a ticket, not compared yet
    | Refused             // compared, above the limit, decrement still to come
    | Admitted            // compared, within the limit, totalTasks not yet counted
    | Executing           // counted in totalTasks
    | Tallied(ok: bool)   // counted as success or failure, decrement still to come
    | Gone(end: Ending)   // deferred decrement done

  datatype Ending = WasRefused | HadSucceeded | HadFailed

  /** ahead records how many calls were live when this one incremented; the code does not use it. */
  datatype Call = Call(ticket: int, phase: Phase, ahead: nat)

  /** Calls are listed in the order of their increments. */
  datatype State = State(active: int, total: int, success: int, failed: int, calls: seq<Call>)

  datatype Step = Arrive | Compare(i: nat) | CountTask(i: nat) | Tally(i: nat, ok: bool) | Leave(i: nat)

  const INIT := State(0, 0, 0, 0, [])

  predicate At(s: State, i: nat, p: Phase) {
    i < |s.calls| && s.calls[i].phase == p
  }

  predicate Enabled(s: State, step: Step) {
    match step
    case Arrive => true
    case Compare(i) => At(s, i, Arrived)
    case CountTask(i) => At(s, i, Admitted)
    case Tally(i, _) => At(s, i, Executing)
    case Leave(i) => i < |s.calls| && (s.calls[i].phase.Refused? || s.calls[i].phase.Tallied?)
  }

  function Moved(s: State, i: nat, p: Phase): State
    requires i < |s.calls|
  {
    s.(calls := s.calls[i := s.calls[i].(phase := p)])
  }

  function EndOf(p: Phase): Ending {
    if p == Tallied(true) then HadSucceeded else if p == Tallied(false) then HadFailed else WasRefused
  }

  function Newcomer(s: State): Call {
    Call(s.active + 1, Arrived, Count(s.calls, Live))
  }

  function Apply(max: int, s: State, step: Step): State
    requires Enabled(s, step)
  {
    match step
    case Arrive => s.(active := s.active + 1, calls := s.calls + [Newcomer(s)])
    case Compare(i) => Moved(s, i, if s.calls[i].ticket > max then Refused else Admitted)
    case CountTask(i) => Moved(s.(total := s.total + 1), i, Executing)
    case Tally(i, ok) =>
      Moved(if ok then s.(success := s.success + 1) else s.(failed := s.failed + 1), i, Tallied(ok))
    case Leave(i) => Moved(s.(active := s.active - 1), i, Gone(EndOf(s.calls[i].phase)))
  }

  /** The run can happen: every step is enabled where it is taken. */
  predicate Possible(max: int, run: seq<Step>)
    decreases |run|, 0
  {
    run == [] ||
    (var init := run[..|run| - 1]; Possible(max, init) && Enabled(After(max, init), run[|run| - 1]))
  }

  function After(max: int, run: seq<Step>): State
    requires Possible(max, run)
    decreases |run|, 1
  {
    if run == [] then INIT else Apply(max, After(max, run[..|run| - 1]), run[|run| - 1])
  }

  // ---------------------------------------------------------------------
  // Counting calls
  // ---------------------------------------------------------------------

  predicate Live(c: Call) {
    !c.phase.Gone?
  }

  /** Past the check and not yet through the deferred decrement. */
  predicate Inside(c: Call) {
    c.phase == Admitted || c.phase == Executing || c.phase.Tallied?
  }

  predicate TurnedAway(c: Call) {
    c.phase == Refused || c.phase == Gone(WasRefused)
  }

  predicate LetIn(c: Call) {
    Inside(c) || c.phase == Gone(HadSucceeded) || c.phase == Gone(HadFailed)
  }

  predicate Running(c: Call) {
    c.phase == Executing
  }

  predicate Succeeded(c: Call) {
    c.phase == Tallied(true) || c.phase == Gone(HadSucceeded)
  }

  predicate Failed(c: Call) {
    c.phase == Tallied(false) || c.phase == Gone(HadFailed)
  }

  predicate InTotal(c: Call) {
    Running(c) || Succeeded(c) || Failed(c)
  }

  // ---------------------------------------------------------------------
  // The invariant
  // ---------------------------------------------------------------------

  ghost predicate TicketCovers(calls: seq<Call>, i: nat)
    requires i < |calls|
  {
    Live(calls[i]) ==> CountTo(calls, i + 1, Live) <= calls[i].ticket
  }

  ghost predicate Inv(max: int, s: State) {
    && s.active == CountTo(s.calls, |s.calls|, Live)
    && s.total == CountTo(s.calls, |s.calls|, InTotal)
    && s.success == CountTo(s.calls, |s.calls|, Succeeded)
    && s.failed == CountTo(s.calls, |s.calls|, Failed)
    && (forall i :: 0 <= i < |s.calls| ==> TicketCovers(s.calls, i))
    && (forall i :: 0 <= i < |s.calls| ==> Judged(max, s.calls[i]))
  }

  /** The ticket is one more than the calls ahead, and the comparison went by it. */
  predicate Judged(max: int, c: Call) {
    c.ticket == c.ahead + 1 && (LetIn(c) ==> c.ticket <= max) && (TurnedAway(c) ==> c.ticket > max)
  }

  lemma MovedCovers(s: State, i: nat, p: Phase)
    requires i < |s.calls| && Live(s.calls[i])
    requires forall k :: 0 <= k < |s.calls| ==> TicketCovers(s.calls, k)
    ensures forall k :: 0 <= k < |s.calls| ==> TicketCovers(Moved(s, i, p).calls, k)
  {
    forall k | 0 <= k < |s.calls|
      ensures TicketCovers(Moved(s, i, p).calls, k)
    {
      assert TicketCovers(s.calls, k);
      CountUpdate(s.calls, k + 1, Live, i, s.calls[i].(phase := p));
    }
  }

  lemma ArriveKeepsInv(max: int, s: State)
    requires Inv(max, s)
    ensures Inv(max, Apply(max, s, Arrive))
  {
    var n, c := |s.calls|, Newcomer(s);
    var calls := s.calls + [c];
    CountExtend(s.calls, [c], n, Live);
    CountExtend(s.calls, [c], n, InTotal);
    CountExtend(s.calls, [c], n, Succeeded);
    CountExtend(s.calls, [c], n, Failed);
    forall k | 0 <= k < n + 1
      ensures TicketCovers(calls, k)
    {
      if k < n {
        assert TicketCovers(s.calls, k);
        CountExtend(s.calls, [c], k + 1, Live);
      }
    }
  }

  /** What a step of an existing call does to that call and to the counters. */
  lemma MoveEffect(max: int, s: State, step: Step)
    requires Enabled(s, step) && !step.Arrive? && Judged(max, s.calls[step.i])
    ensures var t, c, c' := Apply(max, s, step), s.calls[step.i], Apply(max, s, step).calls[step.i];
            && Live(c) && Judged(max, c') && t.calls == Moved(s, step.i, c'.phase).calls == s.calls[step.i := c']
            && t.active == s.active + Bit(Live(c')) - Bit(Live(c))
            && t.total == s.total + Bit(InTotal(c')) - Bit(InTotal(c))
            && t.success == s.success + Bit(Succeeded(c')) - Bit(Succeeded(c))
            && t.failed == s.failed + Bit(Failed(c')) - Bit(Failed(c))
  {
  }

  lemma MoveKeepsInv(max: int, s: State, step: Step)
    requires Inv(max, s) && Enabled(s, step) && !step.Arrive?
    ensures Inv(max, Apply(max, s, step))
  {
    assert Judged(max, s.calls[step.i]);
    hide Apply, Moved, CountTo, Judged, TicketCovers, Live, InTotal, Succeeded, Failed;
    MoveEffect(max, s, step);
    var i, n := step.i, |s.calls|;
    var c := Apply(max, s, step).calls[i];
    CountUpdate(s.calls, n, Live, i, c);
    CountUpdate(s.calls, n, InTotal, i, c);
    CountUpdate(s.calls, n, Succeeded, i, c);
    CountUpdate(s.calls, n, Failed, i, c);
    MovedCovers(s, i, c.phase);
  }

  /** Every step of every interleaving keeps the invariant. */
  lemma {:induction false} InvAlways(max: int, run: seq<Step>)
    requires Possible(max, run)
    ensures Inv(max, After(max, run))
  {
    if run != [] {
      var init, step := run[..|run| - 1], run[|run| - 1];
      InvAlways(max, init);
      if step.Arrive? {
        ArriveKeepsInv(max, After(max, init));
      } else {
        MoveKeepsInv(max, After(max, init), step);
      }
    }
  }

  // ---------------------------------------------------------------------
  // The bound
  // ---------------------------------------------------------------------

  /** The last call inside, if there is one, holds a ticket that counts everyone inside. */
  lemma {:induction false} InsideWithin(max: int, s: State, n: nat)
    requires Inv(max, s) && n <= |s.calls|
    ensures CountTo(s.calls, n, Inside) <= if max > 0 then max else 0
  {
    if n > 0 {
      if Inside(s.calls[n - 1]) {
        assert TicketCovers(s.calls, n - 1);
        CountWeaker(s.calls, n, Inside, Live);
      } else {
        InsideWithin(max, s, n - 1);
      }
    }
  }

  /** In no interleaving are more than MaxConcurrent calls past the admission check at once. */
  lemma NeverMoreThanMax(max: int, run: seq<Step>)
    requires Possible(max, run)
    ensures var calls := After(max, run).calls; CountTo(calls, |calls|, Inside) <= if max > 0 then max else 0
  {
    InvAlways(max, run);
    InsideWithin(max, After(max, run), |After(max, run).calls|);
  }

  lemma {:induction false} CallsPartition(calls: seq<Call>, n: nat)
    requires n <= |calls|
    ensures CountTo(calls, n, InTotal) == CountTo(calls, n, Succeeded) + CountTo(calls, n, Failed) + CountTo(calls, n, Running)
  {
    if n > 0 {
      CallsPartition(calls, n - 1);
    }
  }

  /** The worker's task counters are numbers of calls, and always balance: counted == succeeded + failed + executing. */
  lemma TasksBalance(max: int, run: seq<Step>)
    requires Possible(max, run)
    ensures var s := After(max, run);
            && s.total == Count(s.calls, InTotal) && s.success == Count(s.calls, Succeeded) && s.failed == Count(s.calls, Failed)
            && s.total == s.success + s.failed + Count(s.calls, Running)
  {
    InvAlways(max, run);
    CallsPartition(After(max, run).calls, |After(max, run).calls|);
  }

  /** In every reachable state, of the calls that have been compared exactly those were refused that found at least
      MaxConcurrent calls live at their increment, however long they waited in between. */
  lemma RefusedIffFull(max: int, run: seq<Step>, i: nat)
    requires Possible(max, run) && i < |After(max, run).calls|
    ensures var c := After(max, run).calls[i];
            if c.phase == Arrived then !TurnedAway(c) && !LetIn(c)
            else TurnedAway(c) == (c.ahead >= max) && LetIn(c) == (c.ahead < max)
  {
    InvAlways(max, run);
    assert Judged(max, After(max, run).calls[i]);
  }

  // ---------------------------------------------------------------------
  // The bound is attained
  // ---------------------------------------------------------------------

  function FillUp(n: nat): seq<Step> {
    if n == 0 then [] else FillUp(n - 1) + [Arrive, Compare(n - 1)]
  }

  lemma Extend(max: int, run: seq<Step>, step: Step)
    requires Possible(max, run) && Enabled(After(max, run), step)
    ensures Possible(max, run + [step]) && After(max, run + [step]) == Apply(max, After(max, run), step)
  {
    assert (run + [step])[..|run|] == run;
  }

  /** One more call arrives and is let in. */
  lemma Fill(max: int, run: seq<Step>)
    requires Possible(max, run) && After(max, run).active < max
    ensures var s, longer := After(max, run), run + [Arrive] + [Compare(|After(max, run).calls|)];
            && Possible(max, longer) && After(max, longer).active == s.active + 1
            && After(max, longer).calls == s.calls + [Newcomer(s).(phase := Admitted)]
  {
    hide Possible, After, Newcomer;
    var s := After(max, run);
    NewcomerTicket(s);
    Extend(max, run, Arrive);
    Extend(max, run + [Arrive], Compare(|s.calls|));
  }

  lemma NewcomerTicket(s: State)
    ensures Newcomer(s).ticket == s.active + 1 && Newcomer(s).phase == Arrived
  {
  }

  /** For every limit there is a run with exactly that many calls inside. */
  lemma {:induction false} BoundAttained(max: int, n: nat)
    requires n <= max
    ensures Possible(max, FillUp(n))
    ensures var s := After(max, FillUp(n));
            && |s.calls| == n && s.active == n
            && Count(s.calls, Inside) == n
  {
    if n == 0 {
      assert FillUp(0) == [];
    } else {
      BoundAttained(max, n - 1);
      hide Possible, After, Newcomer, CountTo;
      var run := FillUp(n - 1);
      Fill(max, run);
      assert FillUp(n) == run + [Arrive] + [Compare(n - 1)];
      CountAppend(After(max, run).calls, Inside, Newcomer(After(max, run)).(phase := Admitted));
    }
  }
}

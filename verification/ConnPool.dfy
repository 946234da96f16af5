/**
 The coordinator's pool of worker connections (internal/coordinator/server/grpc.go,
 connPool.get). A call looks the address up under the lock, dials without it, and
 takes the lock again to publish its connection or to close it in favour of one
 published meanwhile. Each locked section and each dial is one step, and any
 number of calls may be between any two of theirs.
 */
module ConnPool {

  datatype Phase =
    | Start
    | Missed                // not pooled at the first look, about to dial
    | Holding(conn: nat)    // dialled, lock not yet taken again
    | Got(conn: nat)        // returned this connection
    | Failed                // the dial failed

  datatype Call = Call(addr: string, phase: Phase)

  /** Connections are numbered in the order they were dialled; dialled[c] is the address of connection c. */
  datatype State = State(conns: map<string, nat>, dialled: seq<string>, closed: set<nat>, calls: seq<Call>)

  datatype Step = Begin(addr: string) | Look(i: nat) | Dial(i: nat, ok: bool) | Settle(i: nat)

  const INIT := State(map[], [], {}, [])

  predicate Enabled(s: State, step: Step) {
    match step
    case Begin(_) => true
    case Look(i) => i < |s.calls| && s.calls[i].phase.Start?
    case Dial(i, _) => i < |s.calls| && s.calls[i].phase.Missed?
    case Settle(i) => i < |s.calls| && s.calls[i].phase.Holding?
  }

  function Moved(s: State, i: nat, p: Phase): State
    requires i < |s.calls|
  {
    s.(calls := s.calls[i := s.calls[i].(phase := p)])
  }

  function Apply(s: State, step: Step): State
    requires Enabled(s, step)
  {
    match step
    case Begin(addr) => s.(calls := s.calls + [Call(addr, Start)])
    case Look(i) =>
      var addr := s.calls[i].addr;
      Moved(s, i, if addr in s.conns then Got(s.conns[addr]) else Missed)
    case Dial(i, ok) =>
      if ok then Moved(s.(dialled := s.dialled + [s.calls[i].addr]), i, Holding(|s.dialled|))
      else Moved(s, i, Failed)
    case Settle(i) =>
      var addr, c := s.calls[i].addr, s.calls[i].phase.conn;
      if addr in s.conns then Moved(s.(closed := s.closed + {c}), i, Got(s.conns[addr]))
      else Moved(s.(conns := s.conns[addr := c]), i, Got(c))
  }

  predicate Possible(run: seq<Step>)
    decreases |run|, 0
  {
    run == [] ||
    (var init := run[..|run| - 1]; Possible(init) && Enabled(After(init), run[|run| - 1]))
  }

  function After(run: seq<Step>): State
    requires Possible(run)
    decreases |run|, 1
  {
    if run == [] then INIT else Apply(After(run[..|run| - 1]), run[|run| - 1])
  }

  // ---------------------------------------------------------------------
  // Where a connection can be
  // ---------------------------------------------------------------------

  predicate Pooled(s: State, c: nat) {
    exists addr :: addr in s.conns && s.conns[addr] == c
  }

  predicate HeldBy(s: State, i: int, c: nat) {
    0 <= i < |s.calls| && s.calls[i].phase == Holding(c)
  }

  ghost predicate Held(s: State, c: nat) {
    exists i: int :: HeldBy(s, i, c)
  }

  ghost predicate PoolInv(s: State) {
    forall addr :: addr in s.conns ==>
      var c := s.conns[addr]; c < |s.dialled| && s.dialled[c] == addr && c !in s.closed && !Held(s, c)
  }

  ghost predicate HolderInv(s: State) {
    && (forall i: int, c: nat :: HeldBy(s, i, c) ==>
          c < |s.dialled| && s.dialled[c] == s.calls[i].addr && c !in s.closed)
    && (forall i: int, j: int, c: nat :: HeldBy(s, i, c) && HeldBy(s, j, c) ==> i == j)
  }

  ghost predicate Accounted(s: State) {
    && (forall c :: c in s.closed ==> c < |s.dialled|)
    && (forall c: nat :: c < |s.dialled| ==> c in s.closed || Pooled(s, c) || Held(s, c))
  }

  ghost predicate ServedInv(s: State) {
    forall i :: 0 <= i < |s.calls| && s.calls[i].phase.Got? ==>
      s.calls[i].addr in s.conns && s.conns[s.calls[i].addr] == s.calls[i].phase.conn
  }

  ghost predicate Inv(s: State) {
    PoolInv(s) && HolderInv(s) && Accounted(s) && ServedInv(s)
  }

  // ---------------------------------------------------------------------
  // Every step keeps it
  // ---------------------------------------------------------------------

  /** How a step changes who holds what. */
  lemma HeldAfter(s: State, step: Step)
    requires Enabled(s, step)
    ensures var t := Apply(s, step);
            forall i: int, c: nat ::
              HeldBy(t, i, c) <==> (if step.Dial? && step.ok && i == step.i then c == |s.dialled|
                                    else HeldBy(s, i, c) && !(step.Settle? && i == step.i))
  {
  }

  lemma PooledAfter(s: State, step: Step, c: nat)
    requires Enabled(s, step)
    ensures Pooled(s, c) && PoolInv(s) ==> Pooled(Apply(s, step), c)
    ensures step.Settle? && s.calls[step.i].addr !in s.conns && c == s.calls[step.i].phase.conn ==> Pooled(Apply(s, step), c)
  {
    var t := Apply(s, step);
    if Pooled(s, c) && PoolInv(s) {
      var addr :| addr in s.conns && s.conns[addr] == c;
      assert addr in t.conns && t.conns[addr] == c;
    }
    if step.Settle? && s.calls[step.i].addr !in s.conns && c == s.calls[step.i].phase.conn {
      assert t.conns[s.calls[step.i].addr] == c;
    }
  }

  lemma PoolKept(s: State, step: Step)
    requires Inv(s) && Enabled(s, step)
    ensures PoolInv(Apply(s, step))
  {
    assert step.Settle? ==> HeldBy(s, step.i, s.calls[step.i].phase.conn);
    hide Accounted, ServedInv, HeldBy;
    HeldAfter(s, step);
  }

  lemma HoldersKept(s: State, step: Step)
    requires Inv(s) && Enabled(s, step)
    ensures HolderInv(Apply(s, step))
  {
    hide ServedInv, PoolInv, Pooled;
    HeldAfter(s, step);
    assert step.Settle? ==> HeldBy(s, step.i, s.calls[step.i].phase.conn);
  }

  lemma AccountedKept(s: State, step: Step)
    requires Inv(s) && Enabled(s, step)
    ensures Accounted(Apply(s, step))
  {
    assert step.Settle? ==> HeldBy(s, step.i, s.calls[step.i].phase.conn);
    assert forall i: int, c: nat :: HeldBy(s, i, c) ==> 0 <= i < |s.calls| && s.calls[i].phase == Holding(c);
    hide HeldBy, ServedInv, Pooled;
    var t := Apply(s, step);
    HeldAfter(s, step);
    forall c: nat | c < |t.dialled|
      ensures c in t.closed || Pooled(t, c) || Held(t, c)
    {
      PooledAfter(s, step, c);
      if c < |s.dialled| && Held(s, c) {
        var i: int :| HeldBy(s, i, c);
        assert HeldBy(t, i, c) || (step.Settle? && i == step.i);
      } else if c == |s.dialled| {
        assert HeldBy(t, step.i, c);
      }
    }
  }

  lemma ServedKept(s: State, step: Step)
    requires Inv(s) && Enabled(s, step)
    ensures ServedInv(Apply(s, step))
  {
    hide PoolInv, HolderInv, Accounted;
  }

  lemma {:induction false} InvAlways(run: seq<Step>)
    requires Possible(run)
    ensures Inv(After(run))
  {
    if run != [] {
      var s, step := After(run[..|run| - 1]), run[|run| - 1];
      InvAlways(run[..|run| - 1]);
      PoolKept(s, step);
      HoldersKept(s, step);
      AccountedKept(s, step);
      ServedKept(s, step);
    }
  }

  // ---------------------------------------------------------------------
  // What it means
  // ---------------------------------------------------------------------

  /** All calls that succeed for one address return the same connection, to that address, and it stays open. */
  lemma OneConnectionPerAddress(run: seq<Step>, i: nat, j: nat)
    requires Possible(run)
    requires var calls := After(run).calls;
             && i < |calls| && j < |calls| && calls[i].phase.Got? && calls[j].phase.Got?
             && calls[i].addr == calls[j].addr
    ensures var s := After(run);
            var c := s.calls[i].phase.conn;
            && s.calls[j].phase.conn == c
            && c < |s.dialled| && s.dialled[c] == s.calls[i].addr && c !in s.closed
  {
    InvAlways(run);
  }

  /** Every dialled connection is exactly one of closed, pooled, or held by exactly one call between its dial and its re-lock. */
  lemma EveryConnectionHasOnePlace(run: seq<Step>, c: nat)
    requires Possible(run) && c < |After(run).dialled|
    ensures var s := After(run);
            && (c in s.closed || Pooled(s, c) || Held(s, c))
            && !(c in s.closed && Pooled(s, c)) && !(c in s.closed && Held(s, c)) && !(Pooled(s, c) && Held(s, c))
            && (forall i: int, j: int :: HeldBy(s, i, c) && HeldBy(s, j, c) ==> i == j)
  {
    InvAlways(run);
  }

  /** With no call between dial and re-lock nothing leaks: there is one open connection per pooled address, and no other. */
  lemma NoLeakAtRest(run: seq<Step>, c: nat, d: nat)
    requires Possible(run) && c < |After(run).dialled| && d < |After(run).dialled|
    requires forall i :: 0 <= i < |After(run).calls| ==> !After(run).calls[i].phase.Holding?
    requires c !in After(run).closed && d !in After(run).closed
    ensures Pooled(After(run), c)
    ensures After(run).dialled[c] == After(run).dialled[d] ==> c == d
  {
    InvAlways(run);
    assert !Held(After(run), c) && !Held(After(run), d);
  }
}

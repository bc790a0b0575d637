/** How long a ready process waits, and what happens once the idle task runs. */
module RoundRobin {
  import opened Common
  import opened Processes
  import opened ProcessInvariant
  import opened ProcessExit
  import opened ProcessRuns

  /** No process has a quantum above `q`; fork copies the parent's. */
  ghost predicate QuantaWithin(s: Sys, q: nat)
    requires Shape(s)
  {
    forall t :: 0 <= t < NR_TASKS ==> s.pcbs[t].quantum <= q
  }

  /** Ticks the running process may still take before the one that switches. */
  function Left(s: Sys): nat
    requires Shape(s)
  {
    if s.cur == IDLE || Cur(s).quantum < s.ticks then 1 else Cur(s).quantum + 1 - s.ticks
  }

  /** Upper bound on the ticks until the process at index `k` of the ready queue runs. */
  function Wait(s: Sys, k: nat, q: nat): nat
    requires Shape(s)
  {
    k * (q + 1) + Left(s)
  }

  /** `t` is ready at index `k` with at most `w` ticks to wait, or has the CPU. */
  ghost predicate Within(s: Sys, t: nat, q: nat, w: int)
    requires Shape(s)
  {
    s.cur == t || exists k :: 0 <= k < |s.ready| && s.ready[k] == t && Wait(s, k, q) <= w
  }

  /** A switch takes the first ready process and moves every other one up. */
  lemma SwitchAdvances(s: Sys, k: nat, q: nat)
    requires Shape(s) && k < |s.ready| && QuantaWithin(s, q)
    ensures var r := SchedNext(s);
            Within(r, s.ready[k], q, k * (q + 1)) && QuantaWithin(r, q)
  {
    var r := SchedNext(s);
    if k > 0 {
      assert r.ready[k - 1] == s.ready[k];
      assert Left(r) <= q + 1;
      assert (k - 1) * (q + 1) + (q + 1) == k * (q + 1);
    }
  }

  /** A call that reschedules either switches or leaves everyone where they are. */
  lemma ScheduleAdvances(s: Sys, k: nat, q: nat)
    requires Shape(s) && k < |s.ready| && QuantaWithin(s, q)
    ensures var r := Schedule(s);
            Within(r, s.ready[k], q, Wait(s, k, q)) && QuantaWithin(r, q)
  {
    var s1 := SetPcb(s, s.cur, Cur(s).(nrTicks := s.ticks));
    assert QuantaWithin(s1, q);
    if NeedsSched(s1) {
      SwitchAdvances(s1, k, q);
      Weaken(SchedNext(s1), s.ready[k], q, k * (q + 1), Wait(s, k, q));
    } else {
      assert Left(s1) == Left(s);
      assert s1.ready[k] == s.ready[k];
    }
  }

  lemma Weaken(s: Sys, t: nat, q: nat, w: int, v: int)
    requires Shape(s) && Within(s, t, q, w) && w <= v
    ensures Within(s, t, q, v)
  {
  }

  /** Every tick brings a ready process one tick closer to the CPU. */
  lemma TickAdvances(s: Sys, k: nat, q: nat)
    requires Inv(s) && k < |s.ready| && QuantaWithin(s, q)
    ensures var r := TickStep(s);
            Within(r, s.ready[k], q, Wait(s, k, q) - 1) && QuantaWithin(r, q)
  {
    Places(s, s.cur);
    assert s.cur != IDLE;
    assert Live(s, s.cur);
    var t := s.(ticks := s.ticks + 1);
    var s1 := SetPcb(t, t.cur, Cur(t).(nrTicks := t.ticks));
    assert QuantaWithin(s1, q);
    if NeedsSched(s1) {
      SwitchAdvances(s1, k, q);
      Weaken(SchedNext(s1), s.ready[k], q, k * (q + 1), Wait(s, k, q) - 1);
    } else {
      assert s1.ready[k] == s.ready[k] && Left(s1) == Left(s) - 1;
    }
  }

  /** And no other kernel entry takes it further away. */
  lemma CallAdvances(s: Sys, op: Call, k: nat, q: nat)
    requires Inv(s) && k < |s.ready| && QuantaWithin(s, q) && !Breaks(s, op) && !op.Tick?
    ensures var r := Step(s, op);
            Within(r, s.ready[k], q, Wait(s, k, q)) && QuantaWithin(r, q)
  {
    Places(s, s.cur);
    assert s.cur != IDLE;
    assert Live(s, s.cur);
    match op
    case Fork(ok) => ForkAdvances(s, ok, k, q);
    case Exit => ExitAdvances(s, k, q);
    case Block => BlockAdvances(s, k, q);
    case Unblock(pid) =>
      var r := UnblockStep(s, pid);
      assert r.ready[k] == s.ready[k] && Left(r) == Left(s);
  }

  lemma ForkAdvances(s: Sys, ok: bool, k: nat, q: nat)
    requires Shape(s) && k < |s.ready| && QuantaWithin(s, q) && s.cur < IDLE && s.cur !in s.free && !LosesPcb(s, ok)
    ensures var r := ForkStep(s, ok);
            Within(r, s.ready[k], q, Wait(s, k, q)) && QuantaWithin(r, q)
  {
    var r := ForkStep(s, ok);
    assert r.ready[k] == s.ready[k];
    if s.free != [] {
      assert s.free[0] in s.free;
    }
    assert Left(r) == Left(s);
  }

  lemma BlockAdvances(s: Sys, k: nat, q: nat)
    requires Shape(s) && k < |s.ready| && QuantaWithin(s, q)
    ensures var r := BlockStep(s);
            Within(r, s.ready[k], q, Wait(s, k, q)) && QuantaWithin(r, q)
  {
    if Cur(s).pending == 0 {
      var b := SetPcb(s, s.cur, Cur(s).(state := Blocked)).(blocked := s.blocked + [s.cur]);
      assert QuantaWithin(b, q) && Left(b) == Left(s);
      ScheduleAdvances(b, k, q);
    } else {
      assert Left(BlockStep(s)) == Left(s);
    }
  }

  lemma {:induction false} ReparentQuanta(s: Sys, k: nat, q: nat)
    requires Shape(s) && k <= NR_TASKS && QuantaWithin(s, q)
    ensures QuantaWithin(Reparent(s, k), q) && Reparent(s, k).ready == s.ready
  {
    if k > 0 {
      ReparentQuanta(s, k - 1, q);
    }
  }

  lemma ExitAdvances(s: Sys, k: nat, q: nat)
    requires Inv(s) && s.cur != IDLE && k < |s.ready| && QuantaWithin(s, q) && !DeadSon(s)
    ensures var r := ExitStep(s);
            Within(r, s.ready[k], q, Wait(s, k, q)) && QuantaWithin(r, q)
  {
    ExitKeepsIff(s);
    var l := LeaveSiblings(s);
    assert QuantaWithin(l, q);
    ReparentQuanta(l, NR_TASKS, q);
    var s1 := Reparent(l, NR_TASKS);
    if !s1.hung {
      var e := SetPcb(s1, s1.cur, Cur(s1).(state := Zombie)).(free := s1.free + [s1.cur]);
      SwitchAdvances(e, k, q);
      Weaken(SchedNext(e), s.ready[k], q, k * (q + 1), Wait(s, k, q));
    }
  }

  // ---- runs --------------------------------------------------------------------------

  function TicksIn(ops: seq<Call>): nat {
    if ops == [] then 0 else (if ops[0].Tick? then 1 else 0) + TicksIn(ops[1..])
  }

  /** `t` has the CPU in some state of the run. */
  ghost predicate Dispatched(s: Sys, ops: seq<Call>, t: nat)
    requires Shape(s)
    decreases ops
  {
    s.cur == t || (ops != [] && Dispatched(Step(s, ops[0]), ops[1..], t))
  }

  /** Any step that breaks nothing: a tick brings the process closer, a call no
      further away. */
  lemma StepAdvances(s: Sys, op: Call, t: nat, q: nat, w: int)
    requires Inv(s) && !Breaks(s, op) && QuantaWithin(s, q) && Within(s, t, q, w) && s.cur != t
    ensures Within(Step(s, op), t, q, if op.Tick? then w - 1 else w) && QuantaWithin(Step(s, op), q)
  {
    var k :| 0 <= k < |s.ready| && s.ready[k] == t && Wait(s, k, q) <= w;
    if op.Tick? {
      TickAdvances(s, k, q);
      Weaken(Step(s, op), t, q, Wait(s, k, q) - 1, w - 1);
    } else {
      CallAdvances(s, op, k, q);
      Weaken(Step(s, op), t, q, Wait(s, k, q), w);
    }
  }

  lemma {:induction false} DispatchedWithin(s: Sys, ops: seq<Call>, t: nat, q: nat, w: int)
    requires Inv(s) && Safe(s, ops) && QuantaWithin(s, q) && Within(s, t, q, w) && w <= TicksIn(ops)
    ensures Dispatched(s, ops, t)
    decreases ops
  {
    if s.cur != t {
      StillWaiting(s, t, q, w);
      var op := ops[0];
      StepKeepsIff(s, op);
      StepAdvances(s, op, t, q, w);
      DispatchedWithin(Step(s, op), ops[1..], t, q, if op.Tick? then w - 1 else w);
    }
  }

  /** A process that has to wait has to wait for a tick. */
  lemma StillWaiting(s: Sys, t: nat, q: nat, w: int)
    requires Shape(s) && Within(s, t, q, w) && s.cur != t
    ensures w >= 1
  {
    var k :| 0 <= k < |s.ready| && s.ready[k] == t && Wait(s, k, q) <= w;
    assert k * (q + 1) >= 0;
  }

  /** Round robin is fair: with quanta of at most `q`, the process at index `k` of
      the ready queue gets the CPU before `(k + 1) * (q + 1)` ticks are over,
      whatever forks, exits, blocks and unblocks happen in between. */
  lemma BoundedWaiting(s: Sys, ops: seq<Call>, k: nat, q: nat)
    requires Inv(s) && Safe(s, ops) && QuantaWithin(s, q) && k < |s.ready|
    requires (k + 1) * (q + 1) <= TicksIn(ops)
    ensures Dispatched(s, ops, s.ready[k])
  {
    assert Left(s) <= q + 1;
    assert (k + 1) * (q + 1) == k * (q + 1) + (q + 1);
    DispatchedWithin(s, ops, s.ready[k], q, (k + 1) * (q + 1));
  }

  // ---- idle ----------------------------------------------------------------------------

  /** The idle task runs only when no process is ready, and then for ever: nothing
      but a running process makes another one ready. */
  lemma {:induction false} IdleForEver(s: Sys, ops: seq<Call>)
    requires Inv(s) && s.cur == IDLE
    ensures var r := Run(s, ops);
            r.cur == IDLE && r.ready == [] && r.free == s.free && r.blocked == s.blocked
    decreases ops
  {
    if ops != [] {
      StepKeepsIff(s, ops[0]);
      var r := Step(s, ops[0]);
      assert r.cur == IDLE && r.free == s.free && r.blocked == s.blocked;
      IdleForEver(r, ops[1..]);
    }
  }

  /** Going idle loses nobody: at that moment every live process is blocked. */
  lemma IdleMeansAllBlocked(s: Sys, t: nat)
    requires Inv(s) && s.cur == IDLE && Live(s, t)
    ensures t in s.blocked
  {
    Places(s, t);
  }
}

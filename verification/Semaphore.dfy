/** block and unblock as a counting semaphore per process. */
module Semaphore {
  import opened Common
  import opened Processes
  import opened ProcessInvariant
  import opened ProcessSteps
  import opened ProcessRuns
  import opened ProcessLaws

  /** What happened to a process since it was forked: unblocks its parent
      delivered, and block calls that have returned. */
  datatype Tally = Tally(delivered: nat, returned: nat)

  ghost predicate TallyShape(c: seq<Tally>) { |c| == NR_TASKS }

  /** An unblock for `t` is delivered. */
  ghost predicate Delivers(s: Sys, op: Call, t: nat)
    requires Shape(s)
  {
    op.Unblock? && Addressed(s, op.pid, t)
  }

  /** A block call of `t` returns: at once, when an unblock is pending or the caller is
      left running, or when `t` comes out of the blocked state. */
  ghost predicate Returns(s: Sys, op: Call, t: nat)
    requires Shape(s) && t < NR_TASKS
  {
    if t == s.cur then op.Block? && (Cur(s).pending != 0 || Step(s, op).cur == s.cur)
    else s.pcbs[t].state == Blocked && Step(s, op).pcbs[t].state != Blocked
  }

  /** The child of a fork. */
  ghost predicate Starts(s: Sys, op: Call, t: nat) {
    op.Fork? && op.ok && s.free != [] && t == s.free[0]
  }

  ghost function CountOne(s: Sys, c: Tally, op: Call, t: nat): Tally
    requires Shape(s) && t < NR_TASKS
  {
    if Starts(s, op, t) then Tally(0, 0)
    else Tally(c.delivered + if Delivers(s, op, t) then 1 else 0, c.returned + if Returns(s, op, t) then 1 else 0)
  }

  ghost function Count(s: Sys, c: seq<Tally>, op: Call): (r: seq<Tally>)
    requires Shape(s) && TallyShape(c)
    ensures TallyShape(r)
    ensures forall t :: 0 <= t < NR_TASKS ==> r[t] == if s.hung || s.cur == IDLE then c[t] else CountOne(s, c[t], op, t)
  {
    seq(NR_TASKS, t requires 0 <= t < NR_TASKS => if s.hung || s.cur == IDLE then c[t] else CountOne(s, c[t], op, t))
  }

  /** No wakeup lost, none duplicated: what was delivered is what block calls have
      consumed and what is still pending. */
  ghost predicate Balanced(s: Sys, c: seq<Tally>)
    requires Shape(s) && TallyShape(c)
  {
    forall t: nat :: Live(s, t) ==> c[t].delivered == c[t].returned + s.pcbs[t].pending
  }

  /** A live process the step does not concern. */
  ghost predicate Quiet(s: Sys, r: Sys, op: Call, t: nat)
    requires Shape(s) && Shape(r) && t < NR_TASKS
  {
    Live(s, t) && r.pcbs[t].pending == s.pcbs[t].pending && !Starts(s, op, t) && !Delivers(s, op, t) && !Returns(s, op, t)
  }

  lemma QuietBalanced(s: Sys, c: seq<Tally>, r: Sys, op: Call)
    requires Shape(s) && !s.hung && s.cur != IDLE && TallyShape(c) && Balanced(s, c) && Shape(r)
    requires forall t: nat :: Live(r, t) ==> Quiet(s, r, op, t)
    ensures Balanced(r, Count(s, c, op))
  {
  }

  /** A blocked process is not the one dispatched next. */
  lemma BlockedWaits(s: Sys, t: nat)
    requires Inv(s) && Live(s, t) && s.pcbs[t].state == Blocked
    ensures t in s.blocked && t != s.cur && (s.ready != [] ==> t != s.ready[0])
  {
    Places(s, t);
    if s.ready != [] {
      assert s.ready[0] in s.ready;
    }
  }

  /** One step keeps the balance exactly when it does not block in vain - any step
      but those that hang the kernel or lose a PCB. */
  lemma StepBalancedIff(s: Sys, c: seq<Tally>, op: Call)
    requires Inv(s) && TallyShape(c) && Balanced(s, c) && (Breaks(s, op) ==> op.Block?)
    ensures Balanced(Step(s, op), Count(s, c, op)) <==> !Breaks(s, op)
  {
    if s.cur == IDLE {
      IdleBalanced(s, c, op);
    } else {
      match op
      case Tick => TickBalanced(s, c, Step(s, op));
      case Fork(ok) => ForkBalanced(s, c, ok, Step(s, op));
      case Exit => ExitBalanced(s, c, Step(s, op));
      case Block => BlockBalancedIff(s, c, Step(s, op));
      case Unblock(pid) => UnblockBalanced(s, c, pid, Step(s, op));
    }
  }

  lemma IdleBalanced(s: Sys, c: seq<Tally>, op: Call)
    requires Inv(s) && s.cur == IDLE && TallyShape(c) && Balanced(s, c)
    ensures Balanced(Step(s, op), Count(s, c, op))
  {
    forall t: nat | Live(Step(s, op), t)
      ensures Live(s, t) && Step(s, op).pcbs[t].pending == s.pcbs[t].pending
    {
    }
  }

  lemma TickBalanced(s: Sys, c: seq<Tally>, r: Sys)
    requires Inv(s) && s.cur != IDLE && TallyShape(c) && Balanced(s, c) && r == Step(s, Tick)
    ensures Balanced(r, Count(s, c, Tick))
  {
    TickCalm(s, r);
    forall t: nat | Live(r, t)
      ensures Quiet(s, r, Tick, t)
    {
      assert Live(s, t);
      if s.pcbs[t].state == Blocked {
        BlockedWaits(s, t);
      }
    }
    QuietBalanced(s, c, r, Tick);
  }

  lemma TickCalm(s: Sys, r: Sys)
    requires Inv(s) && s.cur != IDLE && r == Step(s, Tick)
    ensures r.free == s.free
    ensures forall t :: 0 <= t < NR_TASKS ==> r.pcbs[t].pending == s.pcbs[t].pending
    ensures forall t :: 0 <= t < NR_TASKS && t != s.cur && (s.ready == [] || t != s.ready[0]) ==> r.pcbs[t].state == s.pcbs[t].state
  {
    if s.ready != [] && Cur(s).quantum <= s.ticks {
      TickSwitched(s);
    } else {
      TickKept(s);
    }
  }

  lemma ForkBalanced(s: Sys, c: seq<Tally>, ok: bool, r: Sys)
    requires Inv(s) && s.cur != IDLE && TallyShape(c) && Balanced(s, c) && !LosesPcb(s, ok) && r == Step(s, Fork(ok))
    ensures Balanced(r, Count(s, c, Fork(ok)))
  {
    if s.free == [] {
      ForkRefused(s, ok);
      QuietBalanced(s, c, r, Fork(ok));
    } else {
      ForkStarts(s);
      assert s.free == [s.free[0]] + s.free[1..];
      forall t: nat | Live(r, t) && t != s.free[0]
        ensures Quiet(s, r, Fork(ok), t)
      {
        assert Live(s, t);
      }
      assert Count(s, c, Fork(ok))[s.free[0]] == Tally(0, 0);
    }
  }

  lemma ExitBalanced(s: Sys, c: seq<Tally>, r: Sys)
    requires Inv(s) && s.cur != IDLE && TallyShape(c) && Balanced(s, c) && !DeadSon(s) && r == Step(s, Exit)
    ensures Balanced(r, Count(s, c, Exit))
  {
    ExitLeaves(s);
    forall t: nat | Live(r, t)
      ensures Quiet(s, r, Exit, t)
    {
      assert Live(s, t) && t != s.cur;
      assert r.pcbs[t] == Bereaved(s, t);
      if s.pcbs[t].state == Blocked {
        BlockedWaits(s, t);
      }
    }
    QuietBalanced(s, c, r, Exit);
  }

  lemma BlockBalancedIff(s: Sys, c: seq<Tally>, r: Sys)
    requires Inv(s) && s.cur != IDLE && TallyShape(c) && Balanced(s, c) && r == Step(s, Block)
    ensures Balanced(r, Count(s, c, Block)) <==> !BlocksInVain(s)
  {
    Places(s, s.cur);
    assert Live(s, s.cur);
    if Cur(s).pending != 0 {
      BlockConsumes(s);
    } else if BlocksInVain(s) {
      BlockSwitchesIff(s);
      InVainUnbalanced(s, c, r);
    } else {
      BlockParked(s);
      forall t: nat | Live(r, t)
        ensures Quiet(s, r, Block, t)
      {
        assert Live(s, t);
        if s.pcbs[t].state == Blocked {
          BlockedWaits(s, t);
        }
      }
      QuietBalanced(s, c, r, Block);
    }
  }

  /** A call that blocks in vain returns although nothing was delivered. */
  lemma InVainUnbalanced(s: Sys, c: seq<Tally>, r: Sys)
    requires Inv(s) && s.cur != IDLE && Live(s, s.cur) && TallyShape(c) && Balanced(s, c) && r == Step(s, Block)
    requires BlocksInVain(s) && r.cur == s.cur
    ensures !Balanced(r, Count(s, c, Block))
  {
    assert r.free == s.free && Cur(r).pending == 0;
    assert Live(r, s.cur);
    assert Count(s, c, Block)[s.cur].returned == c[s.cur].returned + 1;
  }

  /** A block with nothing pending takes the caller off the CPU unless it is in vain. */
  lemma BlockSwitchesIff(s: Sys)
    requires Inv(s) && s.cur != IDLE && Cur(s).pending == 0
    ensures BlockStep(s).cur != s.cur <==> !BlocksInVain(s)
  {
    Places(s, s.cur);
    assert Live(s, s.cur);
    if s.ready != [] {
      assert s.ready[0] in s.ready;
    }
  }

  lemma UnblockBalanced(s: Sys, c: seq<Tally>, pid: int, r: Sys)
    requires Inv(s) && s.cur != IDLE && TallyShape(c) && Balanced(s, c) && r == Step(s, Unblock(pid))
    ensures Balanced(r, Count(s, c, Unblock(pid)))
  {
    if t: nat :| Addressed(s, pid, t) {
      SonFound(s, pid, t);
      if s.pcbs[t].state == Blocked {
        var k := UnblockWakes(s, pid, t);
        BlockedWaits(s, t);
      } else {
        UnblockNotifies(s, pid, t);
      }
      OnlyOne(s, pid, t);
      SonBalanced(s, c, pid, t, r);
    } else {
      UnblockNobody(s, pid);
      QuietBalanced(s, c, r, Unblock(pid));
    }
  }

  /** PIDs differ, so an unblock is for one process. */
  lemma OnlyOne(s: Sys, pid: int, t: nat)
    requires Inv(s) && Addressed(s, pid, t)
    ensures forall u: nat :: Addressed(s, pid, u) ==> u == t
  {
    forall u: nat | Addressed(s, pid, u)
      ensures u == t
    {
      SonFound(s, pid, u);
      SonFound(s, pid, t);
    }
  }

  /** One unblock more: consumed at once by a son that waits, pending otherwise. */
  lemma SonBalanced(s: Sys, c: seq<Tally>, pid: int, t: nat, r: Sys)
    requires Shape(s) && !s.hung && s.cur != IDLE && TallyShape(c) && Balanced(s, c) && Live(s, t) && Shape(r)
    requires Addressed(s, pid, t) && (forall u: nat :: Addressed(s, pid, u) ==> u == t) && r == Step(s, Unblock(pid))
    requires r.free == s.free && (forall u :: 0 <= u < NR_TASKS && u != t ==> r.pcbs[u] == s.pcbs[u])
    requires if s.pcbs[t].state == Blocked then s.pcbs[t].pending == 0 == r.pcbs[t].pending && r.pcbs[t].state != Blocked && t != s.cur
             else r.pcbs[t] == s.pcbs[t].(pending := s.pcbs[t].pending + 1)
    ensures Balanced(r, Count(s, c, Unblock(pid)))
  {
    var op := Unblock(pid);
    forall u: nat | Live(r, u)
      ensures Count(s, c, op)[u].delivered == Count(s, c, op)[u].returned + r.pcbs[u].pending
    {
      assert Live(s, u);
      assert Delivers(s, op, u) <==> u == t;
      assert Returns(s, op, u) <==> u == t && s.pcbs[t].state == Blocked;
    }
  }

  // ---- runs ------------------------------------------------------------------------------

  ghost function CountRun(s: Sys, c: seq<Tally>, ops: seq<Call>): (r: seq<Tally>)
    requires Shape(s) && TallyShape(c)
    ensures TallyShape(r)
    decreases ops
  {
    if ops == [] then c else CountRun(Step(s, ops[0]), Count(s, c, ops[0]), ops[1..])
  }

  /** Over every run in which nobody blocks in vain, for every live process:
      unblocks delivered are block calls returned plus unblocks pending, and a
      blocked process has none pending. */
  lemma {:induction false} RunBalanced(s: Sys, c: seq<Tally>, ops: seq<Call>)
    requires Inv(s) && TallyShape(c) && Balanced(s, c) && Safe(s, ops)
    ensures Inv(Run(s, ops)) && Balanced(Run(s, ops), CountRun(s, c, ops))
    ensures forall t: nat :: Live(Run(s, ops), t) && Run(s, ops).pcbs[t].state == Blocked ==> Run(s, ops).pcbs[t].pending == 0
    decreases ops
  {
    if ops == [] {
      forall t: nat | Live(s, t) && s.pcbs[t].state == Blocked
        ensures s.pcbs[t].pending == 0
      {
        BlockedIsQueued(s, t);
      }
    } else {
      StepKeepsIff(s, ops[0]);
      StepBalancedIff(s, c, ops[0]);
      RunBalanced(Step(s, ops[0]), Count(s, c, ops[0]), ops[1..]);
    }
  }
}

/** Whole runs of the process machine: when they stay consistent, block and
    unblock as a semaphore, round-robin waiting times, and the end of it all. */
module ProcessRuns {
  import opened Common
  import opened Processes
  import opened ProcessInvariant
  import opened ProcessSteps
  import opened ProcessExit

  // ---- consistency -------------------------------------------------------------------

  /** A step keeps the invariant exactly when it neither blocks in vain, nor exits
      over a dead son, nor loses a PCB to a failed fork. */
  lemma StepKeepsIff(s: Sys, op: Call)
    requires Inv(s)
    ensures Inv(Step(s, op)) <==> !Breaks(s, op)
  {
    if op.Tick? {
      TickKeeps(s, Step(s, op));
    } else if s.cur != IDLE {
      CallKeepsIff(s, op);
    }
  }

  lemma TickKeeps(s: Sys, r: Sys)
    requires Inv(s) && r == Step(s, Tick)
    ensures Inv(r)
  {
    ScheduleKeeps(s, s.ticks + 1);
    TickIsSchedule(s);
  }

  lemma TickIsSchedule(s: Sys)
    requires Shape(s) && !s.hung
    ensures Step(s, Tick) == Schedule(s.(ticks := s.ticks + 1))
  {
  }

  lemma CallKeepsIff(s: Sys, op: Call)
    requires Inv(s) && s.cur != IDLE && !op.Tick?
    ensures Inv(Step(s, op)) <==> !Breaks(s, op)
  {
    match op
    case Fork(ok) =>
      ForkKeepsIff(s, ok);
      assert Step(s, op) == ForkStep(s, ok);
    case Exit =>
      ExitKeepsIff(s);
      assert Step(s, op) == ExitStep(s);
    case Block =>
      BlockKeepsIff(s);
      assert Step(s, op) == BlockStep(s);
    case Unblock(pid) =>
      UnblockKeeps(s, pid);
      assert Step(s, op) == UnblockStep(s, pid);
  }

  /** No step of the run is one of the three that break the invariant. */
  ghost predicate Safe(s: Sys, ops: seq<Call>)
    requires Shape(s)
    decreases ops
  {
    ops == [] || (!Breaks(s, ops[0]) && Safe(Step(s, ops[0]), ops[1..]))
  }

  /** The invariant holds in every state of the run. */
  ghost predicate AlwaysInv(s: Sys, ops: seq<Call>)
    requires Shape(s)
    decreases ops
  {
    Inv(s) && (ops == [] || AlwaysInv(Step(s, ops[0]), ops[1..]))
  }

  /** Over a whole run - PCB partition, states, PIDs, family tree, no null pointer
      followed - everything stays in order exactly as long as no process blocks in
      vain, none exits over a dead son and no fork loses a PCB. */
  lemma {:induction false} RunKeepsIff(s: Sys, ops: seq<Call>)
    requires Inv(s)
    ensures AlwaysInv(s, ops) <==> Safe(s, ops)
    decreases ops
  {
    if ops != [] {
      StepKeepsIff(s, ops[0]);
      if Inv(Step(s, ops[0])) {
        RunKeepsIff(Step(s, ops[0]), ops[1..]);
      } else {
        assert !AlwaysInv(Step(s, ops[0]), ops[1..]);
      }
    }
  }

  /** What the partition means: every user PCB is in exactly one of the three
      queues or on the CPU, once. */
  lemma OnePlaceEach(s: Sys, t: nat)
    requires Inv(s) && t < IDLE
    ensures multiset(s.free)[t] + multiset(s.ready)[t] + multiset(s.blocked)[t] + (if s.cur == t then 1 else 0) == 1
    ensures t !in s.free ==> (t in s.ready <==> s.pcbs[t].state == Ready) && (t in s.blocked <==> s.pcbs[t].state == Blocked)
                             && (s.cur == t <==> s.pcbs[t].state == Running)
  {
    Places(s, t);
    Places(s, s.cur);
  }

  // ---- boot, and the runs that go wrong ----------------------------------------------

  const INIT_QUANTUM := 1

  function BootPcb(t: nat): Pcb {
    if t == IDLE then Pcb(0, Running, None, 0, 0, 0)
    else if t == TASK1 then Pcb(1, Running, None, 0, INIT_QUANTUM, 0)
    else Pcb(-1, Running, None, 0, 0, 0)
  }

  /** `init_sched`, `init_idle`, `init_task1`. */
  function Boot(): (s: Sys)
    ensures Shape(s)
    ensures forall t :: 0 <= t < NR_TASKS ==> s.pcbs[t] == BootPcb(t) && s.sons[t] == []
  {
    Sys(seq(NR_TASKS, t requires 0 <= t => BootPcb(t)),
        [7, 6, 5, 4, 3, 2, 1, 0], [], [], seq(NR_TASKS, _ => []), TASK1, 0, 2, false)
  }

  /** The numbers below `n`, largest first. */
  function Down(n: nat): (r: seq<nat>)
    ensures |r| == n
  {
    if n == 0 then [] else [n - 1] + Down(n - 1)
  }

  lemma {:induction false} DownMembers(n: nat)
    ensures forall u: nat :: u in Down(n) <==> u < n
  {
    if n > 0 {
      DownMembers(n - 1);
    }
  }

  lemma DownTail(n: nat)
    requires n > 0
    ensures Down(n)[0] == n - 1 && Down(n)[1..] == Down(n - 1)
  {
  }

  lemma DownEight()
    ensures Down(8) == [7, 6, 5, 4, 3, 2, 1, 0]
  {
  }

  lemma BootLive()
    ensures forall t: nat :: Live(Boot(), t) <==> t == TASK1
  {
    var f := Boot().free;
    assert f[0] == 7 && f[1] == 6 && f[2] == 5 && f[3] == 4 && f[4] == 3 && f[5] == 2 && f[6] == 1 && f[7] == 0;
  }

  lemma BootPartition()
    ensures Partition(Boot())
  {
    assert multiset(Boot().free) == multiset{7, 6, 5, 4, 3, 2, 1, 0};
  }

  lemma BootInv()
    ensures Inv(Boot())
  {
    BootLive();
    BootPartition();
    FirstProcessAlone(Boot());
  }

  /** Process 1 on the CPU, every other PCB free. */
  lemma FirstProcessAlone(s: Sys)
    requires Shape(s) && Partition(s) && s.cur == TASK1 && s.nextPid == 2 && s.ready == s.blocked == []
    requires forall t :: 0 <= t < NR_TASKS ==> s.pcbs[t] == BootPcb(t) && s.sons[t] == []
    requires forall t: nat :: Live(s, t) <==> t == TASK1
    ensures States(s) && Pids(s) && Family(s)
  {
    assert Live(s, TASK1);
  }

  /** Process 1 runs alone past its quantum and then blocks: it is left running,
      in state blocked and in the blocked queue. */
  lemma BlockInVainFromBoot()
    ensures var s := Run(Boot(), [Tick, Tick, Block]);
            s.cur == TASK1 && s.blocked == [TASK1] && Cur(s).state == Blocked && !Inv(s)
  {
    var s0 := Boot();
    var s1 := Step(s0, Tick);
    var s2 := Step(s1, Tick);
    var s3 := Step(s2, Block);
    assert s1 == s0.(ticks := 1, pcbs := s0.pcbs[TASK1 := s0.pcbs[TASK1].(nrTicks := 1)]);
    assert s2.ticks == 2 && s2.ready == [] && s2.blocked == [] && s2.cur == TASK1;
    assert s3.blocked == [TASK1] && s3.cur == TASK1;
    assert [Tick, Tick, Block][1..] == [Tick, Block] && [Tick, Block][1..] == [Block] && [Block][1..] == [];
    assert Run(s3, []) == s3;
    assert Run(s2, [Block]) == s3;
    assert Run(s1, [Tick, Block]) == s3;
  }

  /** After a fork that ran out of memory a PCB is on no queue and not running: one
      process less can ever be started. */
  lemma FailedForkLosesPcb(s: Sys)
    requires Inv(s) && s.cur != IDLE && s.free != []
    ensures var r := Step(s, Fork(false));
            var c := s.free[0];
            c < IDLE && c !in r.free && c !in r.ready && c !in r.blocked && c != r.cur && !Inv(r)
  {
    var c := s.free[0];
    var r := Step(s, Fork(false));
    ForkKeepsIff(s, false);
    assert c in s.free && s.free == [c] + r.free;
    assert multiset(s.free) == multiset{c} + multiset(r.free);
    Places(s, c);
    assert c in r.free <==> multiset(r.free)[c] > 0;
  }

  /** A process alone on the machine forks, loses the CPU to its child at the next
      tick, the child exits, and then it exits itself: the kernel hangs. */
  lemma OutlivedChildHangs(s: Sys)
    requires Inv(s) && s.cur != IDLE && s.ready == [] && s.free != [] && Cur(s).quantum <= s.ticks
    ensures Step(Step(Step(Step(s, Fork(true)), Tick), Exit), Exit).hung
  {
    var s1 := Step(s, Fork(true));
    ForkAlone(s);
    StepKeepsIff(s1, Tick);
    TickSwitches(s1);
    BothExit(Step(s1, Tick), s.cur);
  }

  lemma ForkAlone(s: Sys)
    requires Inv(s) && s.cur != IDLE && s.ready == [] && s.free != [] && Cur(s).quantum <= s.ticks
    ensures var r := Step(s, Fork(true));
            Inv(r) && r.cur == s.cur && r.ready == [s.free[0]] && r.pcbs[s.free[0]].parent == Some(s.cur)
            && Cur(r).quantum <= r.ticks && s.free[0] < IDLE
  {
    Places(s, s.cur);
    assert s.free[0] in s.free;
    Places(s, s.free[0]);
    StepKeepsIff(s, Fork(true));
  }

  /** The child exits while its parent, the only other process around, waits; then
      the parent exits. */
  lemma BothExit(s: Sys, p: nat)
    requires Inv(s) && s.cur != IDLE && p < IDLE && s.ready == [p] && Cur(s).parent == Some(p)
    ensures Step(Step(s, Exit), Exit).hung
  {
    ExitKeepsIff(s);
    var s1 := Step(s, Exit);
    if !s1.hung {
      DeadSonOf(s1, s.cur);
      ExitKeepsIff(s1);
    }
  }

  lemma DeadSonOf(s: Sys, z: nat)
    requires Shape(s) && z in s.free && z < NR_TASKS && s.pcbs[z].parent == Some(s.cur)
    ensures DeadSon(s)
  {
  }

  /** A tick past the quantum hands the CPU to the first ready task. */
  lemma TickSwitches(s: Sys)
    requires Inv(s) && s.cur != IDLE && s.ready != [] && Cur(s).quantum <= s.ticks
    ensures var r := TickStep(s);
            && r.cur == s.ready[0] && r.ready == s.ready[1..] + [s.cur]
            && (forall t :: 0 <= t < NR_TASKS ==> r.pcbs[t].parent == s.pcbs[t].parent)
  {
    Places(s, s.cur);
    assert Live(s, s.cur);
    assert (s.ready + [s.cur])[1..] == s.ready[1..] + [s.cur];
  }

  /** It happens from boot. */
  lemma HangFromBoot(s: Sys)
    requires s == Boot()
    ensures Step(Step(Step(Step(Step(s, Tick), Fork(true)), Tick), Exit), Exit).hung
  {
    BootInv();
    var s1 := Step(s, Tick);
    TickKeeps(s, s1);
    FirstTick(s);
    OutlivedChildHangs(s1);
  }

  lemma FirstTick(s: Sys)
    requires Shape(s) && !s.hung && s.cur == TASK1 && s.ticks == 0 && s.ready == [] && s.free != []
    requires s.pcbs[TASK1] == BootPcb(TASK1)
    ensures var r := Step(s, Tick);
            r.cur == TASK1 && r.ticks == 1 && r.ready == [] && r.free == s.free && Cur(r).quantum == 1
  {
  }
}

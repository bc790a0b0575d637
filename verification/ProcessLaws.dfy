/** What each entry to the kernel does to a consistent process state, in full and
    in terms of the state alone. */
module ProcessLaws {
  import opened Common
  import opened Lists
  import opened Processes
  import opened ProcessInvariant
  import opened ProcessSteps
  import opened ProcessExit
  import opened ProcessRuns

  // ---- unblock ---------------------------------------------------------------------------

  /** `t` is a son of the running process with that PID. */
  ghost predicate Addressed(s: Sys, pid: int, t: nat)
    requires Shape(s)
  {
    t < NR_TASKS && t in s.sons[s.cur] && s.pcbs[t].pid == pid
  }

  /** The search finds the one son with the PID. */
  lemma SonFound(s: Sys, pid: int, t: nat)
    requires Inv(s) && Addressed(s, pid, t)
    ensures FindPid(s.pcbs, s.sons[s.cur], pid) == Some(t) && Live(s, t)
  {
    var f := FindPid(s.pcbs, s.sons[s.cur], pid);
    assert f.Some?;
    SonIsLive(s, f.value);
    SonIsLive(s, t);
  }

  /** The list without the entry at its first occurrence. */
  lemma {:induction false} WithoutFirst(q: seq<nat>, t: nat) returns (k: nat)
    requires t in q
    ensures k < |q| && q[k] == t && Without(q, t) == q[..k] + q[k + 1..]
  {
    if q[0] == t {
      k := 0;
    } else {
      var j := WithoutFirst(q[1..], t);
      k := j + 1;
      assert q[..k] == [q[0]] + q[1..][..j];
    }
  }

  /** A blocked son that is unblocked is ready: last in the ready queue, off the
      blocked queue, and nothing else has changed. */
  lemma UnblockWakes(s: Sys, pid: int, t: nat) returns (k: nat)
    requires Inv(s) && s.cur != IDLE && Addressed(s, pid, t) && s.pcbs[t].state == Blocked
    ensures k < |s.blocked| && s.blocked[k] == t
    ensures var r := Step(s, Unblock(pid));
            && t !in r.blocked && r.pcbs[t].state == Ready
            && r == s.(pcbs := s.pcbs[t := s.pcbs[t].(state := Ready, pending := 0)],
                       ready := s.ready + [t], blocked := s.blocked[..k] + s.blocked[k + 1..])
  {
    SonFound(s, pid, t);
    BlockedIsQueued(s, t);
    k := WithoutFirst(s.blocked, t);
    OffBlocked(s, t);
    UnblockIsWoken(s, pid, t);
  }

  lemma OffBlocked(s: Sys, t: nat)
    requires Partition(s) && t in s.blocked
    ensures t !in Without(s.blocked, t)
  {
    WithoutMultiset(s.blocked, t);
    Places(s, t);
    assert t in Without(s.blocked, t) <==> multiset(Without(s.blocked, t))[t] > 0;
  }

  lemma UnblockIsWoken(s: Sys, pid: int, t: nat)
    requires Shape(s) && !s.hung && s.cur != IDLE && t < NR_TASKS
    requires FindPid(s.pcbs, s.sons[s.cur], pid) == Some(t) && s.pcbs[t].state == Blocked
    ensures Step(s, Unblock(pid)) ==
              s.(pcbs := s.pcbs[t := s.pcbs[t].(state := Ready, pending := 0)], ready := s.ready + [t], blocked := Without(s.blocked, t))
  {
  }

  /** Any other son finds one unblock more pending, and nothing else has changed. */
  lemma UnblockNotifies(s: Sys, pid: int, t: nat)
    requires Inv(s) && s.cur != IDLE && Addressed(s, pid, t) && s.pcbs[t].state != Blocked
    ensures Step(s, Unblock(pid)) == s.(pcbs := s.pcbs[t := s.pcbs[t].(pending := s.pcbs[t].pending + 1)])
  {
    SonFound(s, pid, t);
  }

  /** With no such son nothing happens. */
  lemma UnblockNobody(s: Sys, pid: int)
    requires Inv(s) && s.cur != IDLE && forall t :: !Addressed(s, pid, t)
    ensures Step(s, Unblock(pid)) == s
  {
    var f := FindPid(s.pcbs, s.sons[s.cur], pid);
    assert f.Some? ==> Addressed(s, pid, f.value);
  }

  // ---- the clock ---------------------------------------------------------------------------

  /** A tick takes the CPU away exactly when somebody is ready and the quantum is over. */
  lemma TickSwitchesIff(s: Sys)
    requires Inv(s) && s.cur != IDLE
    ensures Step(s, Tick).cur != s.cur <==> s.ready != [] && Cur(s).quantum <= s.ticks
  {
    Places(s, s.cur);
    assert Live(s, s.cur);
    if s.ready != [] {
      assert s.ready[0] in s.ready;
    }
  }

  /** Then the first ready process runs, from tick 0, and the other one goes to the end
      of the queue. */
  lemma TickSwitched(s: Sys)
    requires Inv(s) && s.cur != IDLE && s.ready != [] && Cur(s).quantum <= s.ticks
    ensures var (r, next) := (Step(s, Tick), s.ready[0]);
            && next < NR_TASKS && next != s.cur
            && r == s.(pcbs := s.pcbs[s.cur := Cur(s).(state := Ready, nrTicks := s.ticks + 1)][next := s.pcbs[next].(state := Running)],
                       ready := s.ready[1..] + [s.cur], cur := next, ticks := 0)
  {
    Places(s, s.cur);
    assert Live(s, s.cur) && s.ready[0] in s.ready;
    assert (s.ready + [s.cur])[1..] == s.ready[1..] + [s.cur];
  }

  /** Otherwise only the counters move. */
  lemma TickKept(s: Sys)
    requires Inv(s) && s.cur != IDLE && (s.ready == [] || s.ticks < Cur(s).quantum)
    ensures Step(s, Tick) == s.(pcbs := s.pcbs[s.cur := Cur(s).(nrTicks := s.ticks + 1)], ticks := s.ticks + 1)
  {
    Places(s, s.cur);
    assert Live(s, s.cur);
  }

  function Ticks(n: nat): (ops: seq<Call>)
    ensures |ops| == n
  {
    if n == 0 then [] else [Tick] + Ticks(n - 1)
  }

  lemma TicksRun(s: Sys, n: nat)
    requires Shape(s) && n > 0
    ensures Run(s, Ticks(n)) == Run(Step(s, Tick), Ticks(n - 1))
  {
    assert Ticks(n)[0] == Tick && Ticks(n)[1..] == Ticks(n - 1);
  }

  /** After `n` ticks in a row the same process runs and the others wait as before. */
  ghost predicate StillRuns(s: Sys, r: Sys, n: nat)
    requires Shape(s)
  {
    Inv(r) && r.cur == s.cur && r.ready == s.ready && r.ticks == s.ticks + n && Cur(r).quantum == Cur(s).quantum
  }

  lemma TickStillRuns(s: Sys, r: Sys)
    requires Inv(s) && s.cur != IDLE && (s.ready == [] || s.ticks < Cur(s).quantum) && r == Step(s, Tick)
    ensures StillRuns(s, r, 1)
  {
    TickKept(s);
    TickKeeps(s, r);
  }

  /** A process that makes no call keeps the CPU while ticks of its quantum are left,
      and as long as nobody else wants it. */
  lemma {:induction false} KeepsCpu(s: Sys, n: nat)
    requires Inv(s) && s.cur != IDLE && (s.ready == [] || s.ticks + n <= Cur(s).quantum)
    ensures StillRuns(s, Run(s, Ticks(n)), n)
    decreases n
  {
    if n > 0 {
      var r := Step(s, Tick);
      TickStillRuns(s, r);
      TicksRun(s, n);
      KeepsCpu(r, n - 1);
      StillRunsMore(s, r, Run(r, Ticks(n - 1)), n);
    }
  }

  lemma StillRunsMore(s: Sys, r: Sys, z: Sys, n: nat)
    requires Shape(s) && n > 0 && StillRuns(s, r, 1) && StillRuns(r, z, n - 1)
    ensures StillRuns(s, z, n)
  {
  }

  lemma {:induction false} RunJoins(s: Sys, n: nat)
    requires Shape(s)
    ensures Run(s, Ticks(n + 1)) == Step(Run(s, Ticks(n)), Tick)
    decreases n
  {
    TicksRun(s, n + 1);
    if n > 0 {
      TicksRun(s, n);
      RunJoins(Step(s, Tick), n - 1);
    } else {
      assert Run(s, Ticks(0)) == s;
    }
  }

  /** From its dispatch on, with somebody ready, a process that makes no call has the
      CPU for the ticks of its quantum and loses it at the next one. */
  lemma QuantumServed(s: Sys, n: nat)
    requires Inv(s) && s.cur != IDLE && s.ready != [] && s.ticks == 0 && n <= Cur(s).quantum + 1
    ensures Run(s, Ticks(n)).cur == if n <= Cur(s).quantum then s.cur else s.ready[0]
    ensures s.ready[0] != s.cur
  {
    assert s.ready[0] in s.ready;
    Places(s, s.cur);
    if n <= Cur(s).quantum {
      KeepsCpu(s, n);
    } else {
      KeepsCpu(s, n - 1);
      RunJoins(s, n - 1);
      TickSwitched(Run(s, Ticks(n - 1)));
    }
  }

  // ---- block -------------------------------------------------------------------------------

  /** A pending unblock is used up, and the caller goes on. */
  lemma BlockConsumes(s: Sys)
    requires Inv(s) && s.cur != IDLE && Cur(s).pending > 0
    ensures Step(s, Block) == s.(pcbs := s.pcbs[s.cur := Cur(s).(pending := Cur(s).pending - 1)])
  {
  }

  /** With none pending the caller is parked, last in the blocked queue, and the first
      ready process runs, or idle. */
  lemma BlockParked(s: Sys)
    requires Inv(s) && s.cur != IDLE && Cur(s).pending == 0 && !BlocksInVain(s)
    ensures var parked := s.pcbs[s.cur := Cur(s).(state := Blocked, nrTicks := s.ticks)];
            Step(s, Block) ==
              if s.ready == [] then s.(pcbs := parked, blocked := s.blocked + [s.cur], cur := IDLE, ticks := 0)
              else s.(pcbs := parked[s.ready[0] := s.pcbs[s.ready[0]].(state := Running)], blocked := s.blocked + [s.cur],
                      ready := s.ready[1..], cur := s.ready[0], ticks := 0)
  {
    Places(s, s.cur);
    assert Live(s, s.cur);
    if s.ready != [] {
      assert s.ready[0] in s.ready;
    }
  }

  // ---- fork --------------------------------------------------------------------------------

  /** The child takes the first free PCB and a new PID; it is ready, last in the queue,
      with its parent's quantum, nothing pending and no ticks used, and its parent's
      youngest son. Nothing else has changed. */
  lemma ForkStarts(s: Sys)
    requires Inv(s) && s.cur != IDLE && s.free != []
    ensures var c := s.free[0];
            c < NR_TASKS && c != s.cur && s.sons[c] == [] &&
            Step(s, Fork(true)) ==
              s.(pcbs := s.pcbs[c := Pcb(s.nextPid, Ready, Some(s.cur), 0, Cur(s).quantum, 0)],
                 free := s.free[1..], ready := s.ready + [c],
                 sons := s.sons[s.cur := s.sons[s.cur] + [c]], nextPid := s.nextPid + 1)
  {
    var c := s.free[0];
    assert c in s.free;
    Places(s, c);
    Places(s, s.cur);
    DeadHaveNoSons(s, c);
    assert s.sons[c := []] == s.sons;
  }

  /** With no free PCB nothing happens. */
  lemma ForkRefused(s: Sys, ok: bool)
    requires Inv(s) && s.free == []
    ensures Step(s, Fork(ok)) == s
  {
  }

  function Forks(n: nat): (ops: seq<Call>)
    ensures |ops| == n
  {
    if n == 0 then [] else [Fork(true)] + Forks(n - 1)
  }

  /** `n` forks have filled the first free PCBs. */
  ghost predicate Filled(s: Sys, r: Sys, n: nat)
    requires Shape(s) && n <= |s.free|
  {
    && Shape(r) && r.ready == s.ready + s.free[..n] && r.free == s.free[n..] && r.cur == s.cur
    && (forall i :: 0 <= i < n ==> r.pcbs[s.free[i]].pid == s.nextPid + i)
    && (forall t :: 0 <= t < NR_TASKS && t !in s.free ==> r.pcbs[t] == s.pcbs[t])
  }

  /** One fork more has filled the first free PCB. */
  ghost predicate FilledOne(s: Sys, r: Sys)
    requires Shape(s) && s.free != []
  {
    && Shape(r) && s.free[0] < NR_TASKS && s.free[0] !in s.free[1..]
    && r.free == s.free[1..] && r.ready == s.ready + [s.free[0]] && r.cur == s.cur && r.nextPid == s.nextPid + 1
    && r.pcbs[s.free[0]].pid == s.nextPid && (forall t :: 0 <= t < NR_TASKS && t != s.free[0] ==> r.pcbs[t] == s.pcbs[t])
  }

  lemma ForkFills(s: Sys, r: Sys)
    requires Inv(s) && s.cur != IDLE && s.free != [] && r == Step(s, Fork(true))
    ensures Inv(r) && FilledOne(s, r)
  {
    ForkStarts(s);
    FirstNotLater(s);
    CallKeepsIff(s, Fork(true));
  }

  /** Forks take the free PCBs in order, and give out PIDs in order. */
  lemma {:induction false} ForksInOrder(s: Sys, n: nat)
    requires Inv(s) && s.cur != IDLE && n <= |s.free|
    ensures Filled(s, Run(s, Forks(n)), n)
    decreases n
  {
    if n > 0 {
      var r := Step(s, Fork(true));
      ForkFills(s, r);
      assert Forks(n)[0] == Fork(true) && Forks(n)[1..] == Forks(n - 1);
      ForksInOrder(r, n - 1);
      FilledMore(s, r, Run(r, Forks(n - 1)), n);
    }
  }

  lemma FilledMore(s: Sys, r: Sys, z: Sys, n: nat)
    requires Shape(s) && 0 < n <= |s.free| && FilledOne(s, r) && Filled(r, z, n - 1)
    ensures Filled(s, z, n)
  {
    assert s.free[..n] == [s.free[0]] + r.free[..n - 1];
    assert forall i :: 1 <= i < n ==> s.free[i] == r.free[i - 1];
    assert s.free == [s.free[0]] + r.free;
  }

  lemma FirstNotLater(s: Sys)
    requires Inv(s) && s.free != []
    ensures s.free[0] !in s.free[1..] && s.free[0] < IDLE
  {
    var c := s.free[0];
    assert c in s.free;
    Places(s, c);
    assert s.free == [c] + s.free[1..];
    assert multiset(s.free) == multiset{c} + multiset(s.free[1..]);
  }

  /** From boot the first eight forks fill the PCBs 7 down to 0 with the PIDs 2 to 9. */
  lemma FirstForks(s: Sys)
    requires s == Boot()
    ensures var r := Run(s, Forks(8));
            && r.ready == [7, 6, 5, 4, 3, 2, 1, 0] && r.free == [] && r.cur == 8
            && (forall t :: 0 <= t < 8 ==> r.pcbs[t].pid == 9 - t) && r.pcbs[8].pid == 1 && r.pcbs[9].pid == 0
  {
    BootInv();
    ForksInOrder(s, 8);
    FilledBoot(s, Run(s, Forks(8)));
  }

  lemma FilledBoot(s: Sys, r: Sys)
    requires Shape(s) && s.free == [7, 6, 5, 4, 3, 2, 1, 0] && s.ready == [] && s.cur == 8 && s.nextPid == 2
    requires s.pcbs[8].pid == 1 && s.pcbs[9].pid == 0 && Filled(s, r, 8)
    ensures r.ready == [7, 6, 5, 4, 3, 2, 1, 0] && r.free == [] && r.cur == 8
    ensures (forall t :: 0 <= t < 8 ==> r.pcbs[t].pid == 9 - t) && r.pcbs[8].pid == 1 && r.pcbs[9].pid == 0
  {
    assert s.free[..8] == s.free;
    forall t | 0 <= t < 8
      ensures r.pcbs[t].pid == 9 - t
    {
      assert s.free[7 - t] == t;
    }
  }

  // ---- exit --------------------------------------------------------------------------------

  /** The PCBs below `k` that name the running process as their parent, in order. */
  function SonsBelow(s: Sys, k: nat): (r: seq<nat>)
    requires Shape(s) && k <= NR_TASKS
  {
    if k == 0 then [] else SonsBelow(s, k - 1) + if s.pcbs[k - 1].parent == Some(s.cur) then [k - 1] else []
  }

  lemma WithoutNone(q: seq<nat>, t: nat)
    requires t !in q
    ensures Without(q, t) == q
  {
  }

  /** After `k` rounds of the loop of exit the sons below `k` are at the end of idle's
      list in the order of their PCBs, and no third list was touched. */
  ghost predicate MovedInOrder(s: Sys, r: Sys, k: nat)
    requires Shape(s) && Shape(r) && k <= NR_TASKS
  {
    && r.sons[IDLE] == s.sons[IDLE] + SonsBelow(s, k)
    && (forall q :: 0 <= q < NR_TASKS && q != s.cur && q != IDLE ==> r.sons[q] == s.sons[q])
  }

  lemma {:induction false} ReparentOrder(s: Sys, k: nat)
    requires Shape(s) && !s.hung && s.cur < IDLE && ListsMatch(s, s.cur) && k <= NR_TASKS && !Reparent(s, k).hung
    ensures MovedInOrder(s, Reparent(s, k), k)
  {
    if k > 0 {
      var a := Reparent(s, k - 1);
      assert !a.hung;
      ReparentRounds(s, k - 1);
      ReparentOrder(s, k - 1);
      RoundOrder(s, a, Reparent(s, k), k - 1);
    }
  }

  lemma RoundOrder(s: Sys, a: Sys, r: Sys, i: nat)
    requires Shape(s) && s.cur < IDLE && i < NR_TASKS && !a.hung && ReparentedUpTo(s, a, i) && MovedInOrder(s, a, i)
    requires r == ReparentOne(a, i) && !r.hung
    ensures MovedInOrder(s, r, i + 1)
  {
    if s.pcbs[i].parent == Some(s.cur) {
      NotElsewhere(a, s.cur, i);
      MovedLists(a.sons, r.sons, s.cur, i);
    }
  }

  lemma NotElsewhere(a: Sys, x: nat, i: nat)
    requires Shape(a) && x < NR_TASKS && ListsMatch(a, x) && i < NR_TASKS && a.pcbs[i].parent == Some(x)
    ensures forall q :: 0 <= q < NR_TASKS && q != x ==> i !in a.sons[q]
  {
  }

  lemma MovedLists(sons: seq<seq<nat>>, r: seq<seq<nat>>, x: nat, i: nat)
    requires |sons| == NR_TASKS && x < IDLE && (forall q :: 0 <= q < NR_TASKS && q != x ==> i !in sons[q])
    requires var lists := Unlink(sons, i); r == lists[IDLE := lists[IDLE] + [i]]
    ensures r[IDLE] == sons[IDLE] + [i]
    ensures forall q :: 0 <= q < NR_TASKS && q != x && q != IDLE ==> r[q] == sons[q]
  {
  }

  /** What exit leaves behind: the exiting process is off its brothers' list, its sons
      are at the end of idle's, its PCB is free, last in the queue, with no PID; the
      first ready process runs, or idle. Nothing else has changed. */
  ghost predicate Left(s: Sys, r: Sys)
    requires Shape(s)
  {
    && Shape(r) && LeftQueues(s, r)
    && r.pcbs[s.cur] == Cur(s).(pid := -1, state := Zombie)
    && (forall t :: 0 <= t < NR_TASKS && t != s.cur ==> r.pcbs[t] == Bereaved(s, t))
    && (forall q :: 0 <= q < NR_TASKS && q != s.cur ==>
          r.sons[q] == Without(s.sons[q], s.cur) + if q == IDLE then SonsBelow(s, NR_TASKS) else [])
    && r.sons[s.cur] == []
  }

  ghost predicate LeftQueues(s: Sys, r: Sys) {
    && r.free == s.free + [s.cur] && r.blocked == s.blocked && r.nextPid == s.nextPid && !r.hung && r.ticks == 0
    && if s.ready == [] then r.cur == IDLE && r.ready == [] else r.cur == s.ready[0] && r.ready == s.ready[1..]
  }

  lemma ExitLeaves(s: Sys)
    requires Inv(s) && s.cur != IDLE && !DeadSon(s)
    ensures Left(s, Step(s, Exit))
  {
    var l := LeaveSiblings(s);
    var s1 := Reparent(l, NR_TASKS);
    ExitLists(s, l, s1);
    NotItself(s);
    ExitDispatches(s, l, s1, Step(s, Exit));
    ExitKeepsIff(s);
    NoSonsLeft(s, ExitStep(s));
  }

  /** The loop goes through, and moves the sons in order. */
  lemma ExitLists(s: Sys, l: Sys, s1: Sys)
    requires Inv(s) && s.cur != IDLE && !DeadSon(s) && l == LeaveSiblings(s) && s1 == Reparent(l, NR_TASKS)
    ensures !l.hung && l.pcbs == s.pcbs[s.cur := Cur(s).(pid := -1)] && l.cur == s.cur && l.nextPid == s.nextPid
    ensures l.free == s.free && l.ready == s.ready && l.blocked == s.blocked
    ensures !s1.hung && ReparentedUpTo(l, s1, NR_TASKS)
    ensures forall q :: 0 <= q < NR_TASKS && q != s.cur ==>
              s1.sons[q] == Without(s.sons[q], s.cur) + if q == IDLE then SonsBelow(s, NR_TASKS) else []
  {
    LeavePcbs(s);
    LeaveMatches(s);
    UnlinkedSonIff(s);
    ReparentRounds(l, NR_TASKS);
    ReparentOrder(l, NR_TASKS);
    LeftOrder(s, l);
    LeftSons(s, l, NR_TASKS);
  }

  lemma NotItself(s: Sys)
    requires Inv(s) && s.cur != IDLE
    ensures Cur(s).parent != Some(s.cur) && (s.ready != [] ==> s.ready[0] != s.cur)
  {
    Places(s, s.cur);
    assert Live(s, s.cur) && HasParent(s, s.cur);
    if s.ready != [] {
      assert s.ready[0] in s.ready;
    }
  }

  lemma NoSonsLeft(s: Sys, r: Sys)
    requires Shape(s) && s.cur < IDLE && Inv(r) && s.cur in r.free
    ensures r.sons[s.cur] == []
  {
    DeadHaveNoSons(r, s.cur);
  }

  /** What exit makes of the PCB of another task. */
  function Bereaved(s: Sys, t: nat): Pcb
    requires Shape(s) && t < NR_TASKS
  {
    var p := if s.pcbs[t].parent == Some(s.cur) then s.pcbs[t].(parent := Some(IDLE)) else s.pcbs[t];
    if s.ready != [] && t == s.ready[0] then p.(state := Running) else p
  }

  lemma LeftOrder(s: Sys, l: Sys)
    requires Inv(s) && s.cur != IDLE && l == LeaveSiblings(s)
    ensures forall q :: 0 <= q < NR_TASKS ==> l.sons[q] == Without(s.sons[q], s.cur)
  {
    LeavePcbs(s);
    if Cur(s).pid == 1 {
      FirstOnNoList(s);
    }
  }

  lemma {:induction false} LeftSons(s: Sys, l: Sys, k: nat)
    requires Shape(s) && Shape(l) && k <= NR_TASKS && l.cur == s.cur && l.pcbs == s.pcbs[s.cur := Cur(s).(pid := -1)]
    ensures SonsBelow(l, k) == SonsBelow(s, k)
  {
    if k > 0 {
      LeftSons(s, l, k - 1);
    }
  }

  lemma ExitDispatches(s: Sys, l: Sys, s1: Sys, r: Sys)
    requires Shape(s) && s.cur < IDLE && l == LeaveSiblings(s) && !s.hung && !l.hung && s1 == Reparent(l, NR_TASKS) && !s1.hung
    requires l.pcbs == s.pcbs[s.cur := Cur(s).(pid := -1)] && l.cur == s.cur && l.nextPid == s.nextPid
    requires l.free == s.free && l.ready == s.ready && l.blocked == s.blocked
    requires ReparentedUpTo(l, s1, NR_TASKS) && Cur(s).parent != Some(s.cur) && (s.ready != [] ==> s.ready[0] != s.cur)
    requires r == Step(s, Exit)
    ensures LeftQueues(s, r) && r.sons == s1.sons && r.pcbs[s.cur] == Cur(s).(pid := -1, state := Zombie)
    ensures forall t :: 0 <= t < NR_TASKS && t != s.cur ==> r.pcbs[t] == Bereaved(s, t)
  {
    var e := SetPcb(s1, s1.cur, Cur(s1).(state := Zombie)).(free := s1.free + [s1.cur]);
    assert r == SchedNext(e);
    ZombieDispatches(e, r);
    forall t | 0 <= t < NR_TASKS && t != s.cur
      ensures r.pcbs[t] == Bereaved(s, t)
    {
      assert s1.pcbs[t] == if l.pcbs[t].parent == Some(l.cur) then l.pcbs[t].(parent := Some(IDLE)) else l.pcbs[t];
    }
  }

  /** Dispatching when the running task is gone. */
  lemma ZombieDispatches(e: Sys, r: Sys)
    requires Shape(e) && Cur(e).pid == -1 && r == SchedNext(e)
    ensures r.free == e.free && r.blocked == e.blocked && r.nextPid == e.nextPid && r.hung == e.hung && r.ticks == 0 && r.sons == e.sons
    ensures if e.ready == [] then r.cur == IDLE && r.ready == [] && r.pcbs == e.pcbs
            else r.cur == e.ready[0] && r.ready == e.ready[1..] &&
                 r.pcbs == e.pcbs[e.ready[0] := e.pcbs[e.ready[0]].(state := Running)]
  {
  }

  // ---- dispatch ----------------------------------------------------------------------------

  /** Whoever gets the CPU gets it with no ticks used. */
  lemma SwitchResets(s: Sys, op: Call)
    requires Inv(s) && Step(s, op).cur != s.cur && !Step(s, op).hung
    ensures Step(s, op).ticks == 0
  {
  }
}

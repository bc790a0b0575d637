/** Each kernel step keeps the process invariant, unless it is one of the two
    steps that break it. */
module ProcessSteps {
  import opened Common
  import opened Lists
  import opened Processes
  import opened ProcessInvariant

  /** PIDs and the family tree do not look at states, queues or ticks. */
  lemma TreeKept(s: Sys, r: Sys)
    requires Shape(s) && Shape(r) && Pids(s) && Family(s)
    requires r.sons == s.sons && r.nextPid == s.nextPid
    requires forall t: nat :: t < IDLE ==> (t in r.free <==> t in s.free)
    requires forall t: nat :: t < NR_TASKS ==> r.pcbs[t].pid == s.pcbs[t].pid && r.pcbs[t].parent == s.pcbs[t].parent
    ensures Pids(r) && Family(r)
  {
    forall q, t: nat | 0 <= q < NR_TASKS && t in r.sons[q]
      ensures Live(r, t) && r.pcbs[t].parent == Some(q)
    {
      assert Live(s, t) && s.pcbs[t].parent == Some(q);
    }
    forall t: nat | Live(r, t)
      ensures HasParent(r, t)
    {
      assert Live(s, t) && HasParent(s, t);
    }
  }

  /** The current task was just put on a queue: everyone is on a queue. */
  ghost predicate Parked(s: Sys) {
    && Shape(s) && !s.hung
    && multiset(s.free) + multiset(s.ready) + multiset(s.blocked) == multiset(UserTasks())
    && (forall t :: t in s.free && t < IDLE ==> s.pcbs[t].pid == -1)
    && (forall t :: t in s.ready && t < IDLE ==> s.pcbs[t].state == Ready)
    && (forall t :: t in s.blocked && t < IDLE ==> s.pcbs[t].state == Blocked && s.pcbs[t].pending == 0)
    && s.pcbs[IDLE].pid == 0 && s.pcbs[IDLE].state == Running
    && (forall t: nat :: Live(s, t) ==> s.pcbs[t].pending >= 0)
  }

  /** Dispatching the first ready task when the current one is parked. */
  lemma DispatchParked(s: Sys)
    requires Parked(s) && Pids(s) && Family(s) && (Cur(s).pid <= 0 || Cur(s).state == Blocked)
    ensures Inv(SchedNext(s))
    ensures s.ready != [] ==> SchedNext(s).cur == s.ready[0]
  {
    var r := SchedNext(s);
    if s.ready == [] {
      TreeKept(s, r);
    } else {
      DispatchedStates(s, r, s.ready[0]);
      TreeKept(s, r);
    }
  }

  lemma DispatchedStates(s: Sys, r: Sys, next: nat)
    requires Parked(s) && s.ready != [] && next == s.ready[0]
    requires r == SetPcb(s, next, s.pcbs[next].(state := Running)).(ready := s.ready[1..], ticks := 0, cur := next)
    ensures Partition(r) && States(r)
  {
    assert s.ready == [next] + s.ready[1..];
    assert multiset(s.ready) == multiset{next} + multiset(r.ready);
    QueuePlaces(s, next);
    assert multiset(s.ready)[next] > 0;
    assert next < IDLE && r.cur != IDLE;
    DispatchedPlaces(s, r, next);
  }

  /** Nobody else waits in the place of the dispatched task. */
  lemma DispatchedPlaces(s: Sys, r: Sys, next: nat)
    requires multiset(s.free) + multiset(s.ready) + multiset(s.blocked) == multiset(UserTasks())
    requires next in s.ready && multiset(s.ready) == multiset{next} + multiset(r.ready)
    requires r.free == s.free && r.blocked == s.blocked
    ensures forall t :: t in r.ready ==> t in s.ready && t != next
    ensures next !in s.free && next !in s.blocked
  {
    QueuePlaces(s, next);
    assert multiset(s.ready)[next] > 0;
    forall t | t in r.ready
      ensures t in s.ready && t != next
    {
      assert multiset(r.ready)[t] > 0;
      assert multiset(s.ready)[t] > 0;
    }
  }

  lemma QueuePlaces(s: Sys, t: nat)
    requires multiset(s.free) + multiset(s.ready) + multiset(s.blocked) == multiset(UserTasks())
    ensures multiset(s.free)[t] + multiset(s.ready)[t] + multiset(s.blocked)[t] == if t < IDLE then 1 else 0
  {
    assert (multiset(s.free) + multiset(s.ready) + multiset(s.blocked))[t] == multiset(UserTasks())[t];
  }

  /** Preempting the running task parks it; dispatching then gives the invariant back. */
  lemma SwitchRunning(s: Sys)
    requires Inv(s) && s.cur != IDLE && s.ready != []
    ensures Inv(SchedNext(s)) && SchedNext(s).cur == s.ready[0]
  {
    PreemptParks(s);
    var q := Preempt(s).(cur := IDLE);
    DispatchParked(q);
    PreemptedDispatch(s, q);
  }

  lemma PreemptedDispatch(s: Sys, q: Sys)
    requires Shape(s) && s.cur < IDLE && s.ready != [] && q == Preempt(s).(cur := IDLE)
    requires Cur(s).pid > 0 && Cur(s).state != Blocked && s.pcbs[IDLE].pid == 0
    ensures q.ready == s.ready + [s.cur] && SchedNext(q) == SchedNext(s)
  {
  }

  lemma PreemptParks(s: Sys)
    requires Inv(s) && s.cur != IDLE && s.ready != []
    ensures Live(s, s.cur) && Cur(s).pid > 0 && Cur(s).state != Blocked && s.pcbs[IDLE].pid == 0
    ensures var q := Preempt(s).(cur := IDLE);
            Parked(q) && Pids(q) && Family(q) && Cur(q).pid == 0
  {
    Places(s, s.cur);
    assert Live(s, s.cur);
    var q := Preempt(s).(cur := IDLE);
    assert multiset(q.ready) == multiset(s.ready) + multiset{s.cur};
    forall t | t in q.blocked && t < IDLE
      ensures t != s.cur
    {
      Places(s, t);
    }
    TreeKept(s, q);
  }

  function WithTicks(s: Sys, nrTicks: nat, ticks: nat): (r: Sys)
    requires Shape(s)
    ensures Shape(r)
  {
    SetPcb(s, s.cur, Cur(s).(nrTicks := nrTicks)).(ticks := ticks)
  }

  /** Tick counters are nobody's business. */
  lemma CountersKeep(s: Sys, nrTicks: nat, ticks: nat)
    requires Inv(s)
    ensures Inv(WithTicks(s, nrTicks, ticks))
  {
    TreeKept(s, WithTicks(s, nrTicks, ticks));
  }

  lemma ScheduleKeeps(s: Sys, ticks: nat)
    requires Inv(s)
    ensures Inv(Schedule(s.(ticks := ticks)))
  {
    var s1 := WithTicks(s, ticks, ticks);
    CountersKeep(s, ticks, ticks);
    assert Schedule(s.(ticks := ticks)) == if NeedsSched(s1) then SchedNext(s1) else s1;
    if NeedsSched(s1) {
      SwitchRunning(s1);
    }
  }

  // ---- block and unblock ---------------------------------------------------------------

  /** `sys_block` up to the decision whether to switch. */
  function Blocking(s: Sys): (r: Sys)
    requires Shape(s)
    ensures Shape(r)
  {
    SetPcb(s, s.cur, Cur(s).(state := Blocked, nrTicks := s.ticks)).(blocked := s.blocked + [s.cur])
  }

  lemma BlockParks(s: Sys)
    requires Inv(s) && s.cur != IDLE && Cur(s).pending == 0
    ensures Parked(Blocking(s)) && Pids(Blocking(s)) && Family(Blocking(s))
  {
    Places(s, s.cur);
    var r := Blocking(s);
    assert multiset(r.blocked) == multiset(s.blocked) + multiset{s.cur};
    TreeKept(s, r);
    forall t | t in r.ready && t < IDLE
      ensures t != s.cur
    {
      Places(s, t);
    }
  }

  /** `sys_block` with nothing pending: the invariant survives exactly when the
      process does not block in vain. */
  lemma BlockKeepsIff(s: Sys)
    requires Inv(s) && s.cur != IDLE
    ensures Inv(BlockStep(s)) <==> !BlocksInVain(s)
  {
    Places(s, s.cur);
    assert Live(s, s.cur);
    if Cur(s).pending == 0 {
      BlockParks(s);
      var r := Blocking(s);
      assert BlockStep(s) == if NeedsSched(r) then SchedNext(r) else r;
      if NeedsSched(r) {
        DispatchParked(r);
      } else {
        StillRunning(r);
      }
    } else {
      PendingKeeps(s);
    }
  }

  /** A task both parked and on the CPU is in two places. */
  lemma StillRunning(s: Sys)
    requires Parked(s) && s.cur != IDLE
    ensures !Partition(s)
  {
    QueuePlaces(s, s.cur);
    if Partition(s) {
      Places(s, s.cur);
    }
  }

  lemma PendingKeeps(s: Sys)
    requires Inv(s) && s.cur != IDLE && Cur(s).pending != 0
    ensures Inv(BlockStep(s))
  {
    Places(s, s.cur);
    var r := BlockStep(s);
    TreeKept(s, r);
    assert s.cur !in s.blocked && s.cur !in s.ready && s.cur !in s.free;
  }

  lemma UnblockKeeps(s: Sys, pid: int)
    requires Inv(s) && s.cur != IDLE
    ensures Inv(UnblockStep(s, pid))
  {
    var f := FindPid(s.pcbs, s.sons[s.cur], pid);
    if f.Some? {
      SonIsLive(s, f.value);
      UnblockKeepsSon(s, f.value);
      assert UnblockStep(s, pid) == if s.pcbs[f.value].state == Blocked then Woken(s, f.value) else Notified(s, f.value);
    }
  }

  /** A son of the running process is live. */
  lemma SonIsLive(s: Sys, t: nat)
    requires Shape(s) && Family(s) && t in s.sons[s.cur]
    ensures Live(s, t)
  {
  }

  lemma UnblockKeepsSon(s: Sys, t: nat)
    requires Inv(s) && s.cur != IDLE && Live(s, t)
    ensures Inv(if s.pcbs[t].state == Blocked then Woken(s, t) else Notified(s, t))
  {
    if s.pcbs[t].state == Blocked {
      WakeKeeps(s, t);
    } else {
      NotifyKeeps(s, t);
    }
  }

  lemma WakeKeeps(s: Sys, t: nat)
    requires Inv(s) && s.cur != IDLE && Live(s, t) && s.pcbs[t].state == Blocked
    ensures Inv(Woken(s, t))
  {
    BlockedIsQueued(s, t);
    WakePlaces(s, t);
    TreeKept(s, Woken(s, t));
  }

  lemma WakePlaces(s: Sys, t: nat)
    requires Shape(s) && Partition(s) && States(s) && s.cur != IDLE && t < IDLE && t in s.blocked
    ensures Partition(Woken(s, t)) && States(Woken(s, t))
  {
    var r := Woken(s, t);
    WakePartition(s, r, t);
    WakeStates(s, r, t);
  }

  lemma WakePartition(s: Sys, r: Sys, t: nat)
    requires Partition(s) && t in s.blocked
    requires r.free == s.free && r.cur == s.cur && r.blocked == Without(s.blocked, t) && r.ready == s.ready + [t]
    ensures Partition(r)
    ensures multiset(r.blocked) == multiset(s.blocked) - multiset{t}
  {
    WithoutMultiset(s.blocked, t);
    assert multiset(r.ready) == multiset(s.ready) + multiset{t};
  }

  lemma WakeStates(s: Sys, r: Sys, t: nat)
    requires Shape(s) && Shape(r) && Partition(s) && States(s) && s.cur != IDLE && t < IDLE && t in s.blocked
    requires r.free == s.free && r.cur == s.cur && r.ready == s.ready + [t]
    requires multiset(r.blocked) == multiset(s.blocked) - multiset{t}
    requires r.pcbs == s.pcbs[t := s.pcbs[t].(state := Ready, pending := 0)]
    ensures States(r)
  {
    forall u: nat | u < IDLE
      ensures u in r.blocked ==> u in s.blocked && u != t
      ensures u == t ==> u !in s.free && u != s.cur
    {
      Places(s, u);
      assert u in r.blocked <==> multiset(r.blocked)[u] > 0;
    }
  }

  lemma NotifyKeeps(s: Sys, t: nat)
    requires Inv(s) && Live(s, t) && s.pcbs[t].state != Blocked
    ensures Inv(Notified(s, t))
  {
    var r := Notified(s, t);
    assert t !in s.blocked;
    TreeKept(s, r);
  }

  /** A live process in state blocked is in the blocked queue. */
  lemma BlockedIsQueued(s: Sys, t: nat)
    requires Inv(s) && Live(s, t) && s.pcbs[t].state == Blocked
    ensures t in s.blocked
  {
    Places(s, t);
  }

  // ---- fork ------------------------------------------------------------------------------

  /** Fork keeps the invariant exactly when it does not lose a PCB. */
  lemma ForkKeepsIff(s: Sys, ok: bool)
    requires Inv(s) && s.cur != IDLE
    ensures Inv(ForkStep(s, ok)) <==> !LosesPcb(s, ok)
  {
    if s.free != [] {
      if ok {
        ForkKeeps(s);
      } else {
        LostPcb(s, ForkStep(s, ok), s.free[0]);
      }
    }
  }

  /** The lost PCB is in no place. */
  lemma LostPcb(s: Sys, r: Sys, c: nat)
    requires Partition(s) && s.cur != IDLE && s.free != [] && c == s.free[0]
    requires r.free == s.free[1..] && r.ready == s.ready && r.blocked == s.blocked && r.cur == s.cur
    ensures !Partition(r)
  {
    assert s.free == [c] + s.free[1..];
    assert multiset(s.free) == multiset{c} + multiset(r.free);
    Places(s, c);
    if Partition(r) {
      Places(r, c);
    }
  }

  lemma ForkKeeps(s: Sys)
    requires Inv(s) && s.cur != IDLE && s.free != []
    ensures Inv(ForkStep(s, true))
  {
    var c := s.free[0];
    var r := ForkStep(s, true);
    Places(s, c);
    Places(s, s.cur);
    ForkStates(s, r, c);
    ForkFamily(s, r, c);
  }

  /** The child takes the first free PCB and goes to the ready queue. */
  lemma ForkStates(s: Sys, r: Sys, c: nat)
    requires Shape(s) && Shape(r) && Partition(s) && States(s) && s.cur < IDLE && s.free != [] && c == s.free[0]
    requires c < IDLE && c != s.cur && c !in s.blocked
    requires r.free == s.free[1..] && r.ready == s.ready + [c] && r.blocked == s.blocked && r.cur == s.cur
    requires forall t: nat :: t < NR_TASKS && t != c ==> r.pcbs[t] == s.pcbs[t]
    requires r.pcbs[c].state == Ready && r.pcbs[c].pending == 0
    ensures Partition(r) && States(r)
    ensures forall t: nat :: Live(r, t) <==> Live(s, t) || t == c
  {
    assert s.free == [c] + s.free[1..];
    assert multiset(s.free) == multiset{c} + multiset(r.free);
    assert multiset(r.ready) == multiset(s.ready) + multiset{c};
    Places(s, c);
    forall t: nat
      ensures Live(r, t) <==> Live(s, t) || t == c
      ensures t in r.free ==> t in s.free && t != c
    {
      assert multiset(s.free)[t] == multiset(r.free)[t] + if t == c then 1 else 0;
      assert t in r.free <==> multiset(r.free)[t] > 0;
      assert t in s.free <==> multiset(s.free)[t] > 0;
    }
  }

  /** The parent of a live process is live, or idle. */
  lemma ParentIsLive(s: Sys, q: nat, t: nat)
    requires Shape(s) && Family(s) && q < IDLE && t in s.sons[q]
    ensures Live(s, q)
  {
    assert HasParent(s, t);
  }

  /** A free PCB has no sons: its sons moved to idle when it exited. */
  lemma DeadHaveNoSons(s: Sys, c: nat)
    requires Shape(s) && Family(s) && c < IDLE && !Live(s, c)
    ensures s.sons[c] == []
  {
    if s.sons[c] != [] {
      ParentIsLive(s, c, s.sons[c][0]);
    }
  }

  lemma ForkFamily(s: Sys, r: Sys, c: nat)
    requires Inv(s) && s.cur != IDLE && s.free != [] && c == s.free[0] && r == ForkStep(s, true) && Live(s, s.cur)
    requires c < IDLE && c != s.cur
    requires forall t: nat :: Live(r, t) <==> Live(s, t) || t == c
    ensures Pids(r) && Family(r)
  {
    assert c in s.free;
    DeadHaveNoSons(s, c);
    assert s.sons[c := []] == s.sons;
    ForkTree(s, r, c);
  }

  lemma ForkTree(s: Sys, r: Sys, c: nat)
    requires Shape(s) && Shape(r) && Family(s) && s.cur < IDLE && c < IDLE && !Live(s, c) && Live(s, s.cur)
    requires r.sons == s.sons[s.cur := s.sons[s.cur] + [c]]
    requires forall t: nat :: Live(r, t) <==> Live(s, t) || t == c
    requires forall t: nat :: t < NR_TASKS && t != c ==> r.pcbs[t] == s.pcbs[t]
    requires r.pcbs[c].parent == Some(s.cur) && r.pcbs[c].pid != 1 && s.pcbs[s.cur].pid < r.pcbs[c].pid
    ensures Family(r)
  {
    assert !Listed(s.sons, c);
    InsertMembers(s.sons, s.cur, c, s.sons[s.cur] + [c]);
    forall t: nat | Live(r, t)
      ensures HasParent(r, t)
    {
      if t != c {
        assert HasParent(s, t);
      }
    }
  }
}

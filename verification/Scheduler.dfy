/** zeos/sched.c and the process side of zeos/sys.c and of the clock interrupt,
    on the PCB array and the real linked lists. Every method is proved against
    the state function of the same operation in `Processes`. */
module Scheduler {
  import opened Common
  import opened Lists
  import opened TaskLists
  import opened Processes
  import opened ProcessInvariant
  import opened ProcessSteps
  import opened ProcessRuns

  class Scheduler {
    /** `freequeue`, `readyqueue`, `blocked`, and the `node` of every PCB. */
    const queues: TaskLists
    /** The `sons` head and the `bros` node of every PCB. */
    const family: TaskLists
    const task: array<Pcb>
    var current: nat
    var ticksSinceLastSwitch: nat
    var nextPid: int
    var zeosTicks: nat
    var hung: bool

    ghost predicate Objects() {
      && |queues.heads| == 3 && |family.heads| == |queues.nodes| == |family.nodes| == task.Length == NR_TASKS
      && queues.Repr !! family.Repr && this !in queues.Repr + family.Repr && task !in queues.Repr + family.Repr
      && queues in queues.Repr && family in family.Repr
    }

    ghost predicate Valid()
      reads this, task, queues.Repr, family.Repr
    {
      Objects() && queues.Valid() && family.Valid() && current < NR_TASKS
    }

    ghost function View(): (s: Sys)
      requires Valid()
      reads this, task, queues.Repr, family.Repr
      ensures Shape(s)
    {
      Sys(task[..], queues.lists[FREE_QUEUE], queues.lists[READY_QUEUE], queues.lists[BLOCKED_QUEUE],
          family.lists, current, ticksSinceLastSwitch, nextPid, hung)
    }

    // ---- boot ----------------------------------------------------------------------

    constructor ()
      ensures Valid() && View() == Boot()
    {
      queues := new TaskLists(3, NR_TASKS);
      family := new TaskLists(NR_TASKS, NR_TASKS);
      task := new Pcb[NR_TASKS](_ => Pcb(0, Running, None, 0, 0, 0));
      current, ticksSinceLastSwitch, nextPid, zeosTicks, hung := 0, 0, 2, 0, false;
      new;
      BootTasks();
    }

    /** `init_sched`, `init_idle` and `init_task1`. */
    method BootTasks()
      requires Valid() && queues.lists == [[], [], []] && family.lists == seq(NR_TASKS, _ => []) && nextPid == 2 && !hung
      requires forall t :: 0 <= t < NR_TASKS ==> task[t] == Pcb(0, Running, None, 0, 0, 0)
      modifies this`current, this`ticksSinceLastSwitch, task, queues.Repr
      ensures Valid() && View() == Boot()
    {
      InitSched();
      StartTasks();
      BootDone();
    }

    /** `init_idle`, then `init_task1`, which keeps the CPU. */
    method StartTasks()
      requires Valid() && queues.lists == [Down(task.Length), [], []]
      requires forall t :: 0 <= t < NR_TASKS ==> task[t] == Pcb(-1, Running, None, 0, 0, 0)
      modifies this`current, this`ticksSinceLastSwitch, task, queues.Repr
      ensures Valid() && queues.lists == [Down(task.Length - 2), [], []]
      ensures forall t :: 0 <= t < NR_TASKS ==> task[t] == BootPcb(t)
      ensures current == TASK1 && ticksSinceLastSwitch == 0
    {
      var idle := InitNext(0, 0, task.Length);
      current := InitNext(1, INIT_QUANTUM, task.Length - 1);
      ticksSinceLastSwitch := 0;
    }

    /** The highest free PCB becomes a task. */
    method InitNext(pid: int, quantum: nat, ghost n: nat) returns (t: nat)
      requires Valid() && 0 < n <= NR_TASKS && queues.lists == [Down(n), [], []]
      modifies task, queues.Repr
      ensures Valid() && t == n - 1 && queues.lists == [Down(n - 1), [], []]
      ensures task[..] == old(task[..])[t := old(task[n - 1]).(pid := pid, quantum := quantum)]
    {
      DownTail(n);
      t := InitTask(pid, quantum);
    }

    lemma BootDone()
      requires Valid() && queues.lists == [Down(task.Length - 2), [], []] && family.lists == seq(NR_TASKS, _ => [])
      requires forall t :: 0 <= t < NR_TASKS ==> task[t] == BootPcb(t)
      requires current == TASK1 && ticksSinceLastSwitch == 0 && nextPid == 2 && !hung
      ensures View() == Boot()
    {
      DownEight();
      assert task[..] == Boot().pcbs;
      assert family.lists == Boot().sons;
    }

    /** `init_sched`: every PCB goes to the front of the free queue. */
    method InitSched()
      requires Valid() && queues.lists == [[], [], []]
      requires forall t :: 0 <= t < NR_TASKS ==> task[t] == Pcb(0, Running, None, 0, 0, 0)
      modifies task, queues.Repr
      ensures Valid() && queues.lists == [Down(task.Length), [], []]
      ensures forall t :: 0 <= t < NR_TASKS ==> task[t] == Pcb(-1, Running, None, 0, 0, 0)
    {
      var i := 0;
      while i < NR_TASKS
        invariant 0 <= i <= NR_TASKS && Valid() && queues.lists == [Down(i), [], []]
        invariant forall t :: 0 <= t < NR_TASKS ==> task[t] == Pcb(if t < i then -1 else 0, Running, None, 0, 0, 0)
      {
        task[i] := task[i].(pid := -1);
        FreeFirst(i);
        i := i + 1;
      }
    }

    method FreeFirst(i: nat)
      requires Valid() && i < NR_TASKS && queues.lists == [Down(i), [], []]
      modifies queues.Repr
      ensures Valid() && queues.lists == [Down(i + 1), [], []]
    {
      DownMembers(i);
      queues.Prepend(FREE_QUEUE, i);
    }

    /** `init_idle` and `init_task1`: the first free PCB becomes a task. */
    method InitTask(pid: int, quantum: nat) returns (t: nat)
      requires Valid() && queues.lists[FREE_QUEUE] != []
      modifies task, queues.Repr
      ensures Valid() && t == old(queues.lists)[FREE_QUEUE][0] && t < NR_TASKS
      ensures queues.lists == old(queues.lists)[FREE_QUEUE := old(queues.lists)[FREE_QUEUE][1..]]
      ensures task[t] == old(task[t]).(pid := pid, quantum := quantum)
      ensures forall u :: 0 <= u < NR_TASKS && u != t ==> task[u] == old(task[u])
    {
      t := queues.TakeFirst(FREE_QUEUE);
      task[t] := task[t].(pid := pid, quantum := quantum);
    }

    // ---- sched.c -------------------------------------------------------------------

    /** A running user task is on no queue. */
    ghost predicate OffQueues()
      requires Valid()
      reads this, task, queues.Repr, family.Repr
    {
      task[current].pid > 0 && task[current].state != Blocked ==> !Listed(queues.lists, current)
    }

    lemma InvOffQueues()
      requires Valid() && Inv(View())
      ensures current != IDLE ==> !Listed(queues.lists, current)
      ensures OffQueues()
    {
      Places(View(), current);
      assert task[IDLE] == View().pcbs[IDLE];
    }

    /** `needs_sched_rr` */
    method NeedsSchedRr() returns (b: bool)
      requires Valid()
      ensures b == NeedsSched(View())
    {
      var empty := queues.Empty(READY_QUEUE);
      var p := task[current];
      if p.pid == 0 {
        return !empty;
      }
      if p.quantum < p.nrTicks {
        return !empty;
      }
      if p.state == Blocked {
        return true;
      }
      return false;
    }

    /** `update_process_state_rr` of the running task. */
    method ParkCurrent(dest: nat, state: State)
      requires Valid() && dest < 3 && !Listed(queues.lists, current)
      modifies task, queues.Repr
      ensures Valid() && queues.lists == old(queues.lists)[dest := old(queues.lists)[dest] + [current]]
      ensures task[..] == old(task[..])[current := old(task[current]).(state := state)]
    {
      queues.Append(dest, current);
      task[current] := task[current].(state := state);
    }

    /** `update_process_state_rr` and `task_switch` to the first ready task. */
    method RunFirst()
      requires Valid() && View().ready != []
      modifies this`current, this`ticksSinceLastSwitch, task, queues.Repr
      ensures Valid()
      ensures var s := old(View());
              var next := s.ready[0];
              View() == SetPcb(s, next, s.pcbs[next].(state := Running)).(ready := s.ready[1..], ticks := 0, cur := next)
    {
      var next := queues.TakeFirst(READY_QUEUE);
      task[next] := task[next].(state := Running);
      ticksSinceLastSwitch := 0;
      current := next;
    }

    /** `sched_next_rr` */
    method SchedNextRr()
      requires Valid() && OffQueues()
      modifies this`current, this`ticksSinceLastSwitch, task, queues.Repr
      ensures Valid() && View() == SchedNext(old(View()))
    {
      var empty := queues.Empty(READY_QUEUE);
      if empty {
        ticksSinceLastSwitch := 0;
        current := IDLE;
        return;
      }
      if task[current].pid > 0 && task[current].state != Blocked {
        ParkCurrent(READY_QUEUE, Ready);
      }
      assert View() == Preempt(old(View()));
      RunFirst();
    }

    /** `schedule`, with `update_sched_data_rr`. */
    method DoSchedule()
      requires Valid() && OffQueues()
      modifies this`current, this`ticksSinceLastSwitch, task, queues.Repr
      ensures Valid() && View() == Schedule(old(View()))
    {
      task[current] := task[current].(nrTicks := ticksSinceLastSwitch);
      var needed := NeedsSchedRr();
      if needed {
        SchedNextRr();
      }
    }

    /** `clk_routine` */
    method ClkRoutine()
      requires Valid() && OffQueues()
      modifies this`current, this`ticksSinceLastSwitch, this`zeosTicks, task, queues.Repr
      ensures Valid() && View() == TickStep(old(View())) && zeosTicks == old(zeosTicks) + 1
    {
      zeosTicks := zeosTicks + 1;
      ticksSinceLastSwitch := ticksSinceLastSwitch + 1;
      assert View() == old(View()).(ticks := old(View()).ticks + 1);
      DoSchedule();
    }

    // ---- sys.c ---------------------------------------------------------------------

    /** `sys_block`. A task runs it only while it is on no queue. */
    method Block()
      requires Valid() && !Listed(queues.lists, current)
      modifies this`current, this`ticksSinceLastSwitch, task, queues.Repr
      ensures Valid() && View() == BlockStep(old(View()))
    {
      if task[current].pending == 0 {
        ParkCurrent(BLOCKED_QUEUE, Blocked);
        DoSchedule();
      } else {
        task[current] := task[current].(pending := task[current].pending - 1);
      }
    }

    /** The search of `sys_unblock` through the caller's sons. */
    method FindSon(pid: int) returns (r: Option<nat>)
      requires Valid()
      ensures r == FindPid(View().pcbs, View().sons[current], pid)
    {
      ghost var s, q := View(), View().sons[current];
      var empty := family.Empty(current);
      if empty {
        return None;
      }
      var pos := family.FirstTask(current);
      var end := false;
      ghost var k := 0;
      while !end
        invariant 0 <= k <= |q| && (end <==> k == |q|)
        invariant !end ==> pos == q[k]
        invariant FindPid(s.pcbs, q, pid) == FindPid(s.pcbs, q[k..], pid)
        decreases |q| - k
      {
        if task[pos].pid == pid {
          return Some(pos);
        }
        pos, end := family.TaskAfter(current, pos, k);
        k := k + 1;
      }
      r := None;
    }

    /** `sys_unblock` */
    method Unblock(pid: int) returns (r: int)
      requires Valid() && WakeReady(pid)
      modifies task, queues.Repr
      ensures Valid() && View() == UnblockStep(old(View()), pid)
      ensures r == if FindPid(old(View()).pcbs, old(View()).sons[current], pid).Some? then 0 else -ECHILD
    {
      var son := FindSon(pid);
      if son == None {
        return -ECHILD;
      }
      var t := son.value;
      if task[t].state == Blocked {
        Wake(t);
      } else {
        task[t] := task[t].(pending := task[t].pending + 1);
      }
      r := 0;
    }

    /** A son that is blocked is linked into the blocked queue. */
    ghost predicate WakeReady(pid: int)
      requires Valid()
      reads this, task, queues.Repr, family.Repr
    {
      var f := FindPid(View().pcbs, View().sons[current], pid);
      f.Some? && task[f.value].state == Blocked ==> f.value in queues.lists[BLOCKED_QUEUE]
    }

    lemma InvWakeReady(pid: int)
      requires Valid() && Inv(View())
      ensures WakeReady(pid)
    {
      var s := View();
      var f := FindPid(s.pcbs, s.sons[s.cur], pid);
      if f.Some? && s.pcbs[f.value].state == Blocked {
        SonIsLive(s, f.value);
        BlockedIsQueued(s, f.value);
      }
    }

    method Wake(t: nat)
      requires Valid() && t in queues.lists[BLOCKED_QUEUE] && t < NR_TASKS
      modifies task, queues.Repr
      ensures Valid() && View() == Woken(old(View()), t)
    {
      task[t] := task[t].(state := Ready, pending := 0);
      Requeue(t);
    }

    /** From the blocked to the end of the ready queue. */
    method Requeue(t: nat)
      requires Valid() && t in queues.lists[BLOCKED_QUEUE] && t < NR_TASKS
      modifies queues.Repr
      ensures Valid()
      ensures var q := old(queues.lists);
              queues.lists == q[BLOCKED_QUEUE := Without(q[BLOCKED_QUEUE], t)][READY_QUEUE := q[READY_QUEUE] + [t]]
    {
      ghost var lists := queues.lists;
      ghost var k :| 0 <= k < |lists[BLOCKED_QUEUE]| && lists[BLOCKED_QUEUE][k] == t;
      WithoutRemoves(lists[BLOCKED_QUEUE], k);
      UnlinkMembers(lists, t);
      UnlinkRemoves(lists, BLOCKED_QUEUE, k);
      queues.Remove(t, BLOCKED_QUEUE, k);
      queues.Append(READY_QUEUE, t);
    }

    /** The first free PCB becomes a copy of the caller's. */
    method TakePcb() returns (child: nat)
      requires Valid() && queues.lists[FREE_QUEUE] != []
      modifies task, queues.Repr
      ensures Valid() && child == old(queues.lists)[FREE_QUEUE][0] && child < NR_TASKS && !Listed(queues.lists, child)
      ensures queues.lists == old(queues.lists)[FREE_QUEUE := old(queues.lists)[FREE_QUEUE][1..]]
      ensures task[..] == old(task[..])[child := old(task[current])]
    {
      ghost var q := queues.lists;
      UnlinkMembers(q, q[FREE_QUEUE][0]);
      UnlinkRemoves(q, FREE_QUEUE, 0);
      assert Removed(q[FREE_QUEUE], 0) == q[FREE_QUEUE][1..];
      child := queues.TakeFirst(FREE_QUEUE);
      task[child] := task[current];
    }

    /** The fields the child has of its own, and its place in the ready queue. */
    method StartChild(child: nat)
      requires Valid() && child < NR_TASKS && !Listed(queues.lists, child)
      modifies this`nextPid, task, queues.Repr
      ensures Valid() && nextPid == old(nextPid) + 1
      ensures queues.lists == old(queues.lists)[READY_QUEUE := old(queues.lists)[READY_QUEUE] + [child]]
      ensures task[..] == old(task[..])[child := Pcb(old(nextPid), Ready, Some(current), 0, old(task[child]).quantum, 0)]
    {
      task[child] := task[child].(pid := nextPid, nrTicks := 0, state := Ready, pending := 0);
      nextPid := nextPid + 1;
      queues.Append(READY_QUEUE, child);
      task[child] := task[child].(parent := Some(current));
    }

    /** `sys_fork`: the process side. `ok` is whether its memory part succeeds. */
    method Fork(ok: bool) returns (r: int)
      requires Valid() && ForkReady()
      modifies this`nextPid, task, queues.Repr, family.Repr
      ensures Valid() && View() == ForkStep(old(View()), ok)
      ensures r == if old(View()).free == [] || !ok then -ENOMEM else old(nextPid)
    {
      ghost var s := View();
      var empty := queues.Empty(FREE_QUEUE);
      if empty {
        return -ENOMEM;
      }
      var child := TakePcb();
      if !ok {
        return -ENOMEM;
      }
      StartChild(child);
      AddSon(child);
      ForkIsDone(s, child);
      r := task[child].pid;
    }

    lemma ForkIsDone(s: Sys, child: nat)
      requires Valid() && Shape(s) && s.free != [] && child == s.free[0] && s.sons[child] == []
      requires queues.lists == [s.free[1..], s.ready + [child], s.blocked]
      requires task[..] == s.pcbs[child := Pcb(s.nextPid, Ready, Some(s.cur), 0, Cur(s).quantum, 0)]
      requires family.lists == s.sons[s.cur := s.sons[s.cur] + [child]]
      requires current == s.cur && ticksSinceLastSwitch == s.ticks && nextPid == s.nextPid + 1 && hung == s.hung
      ensures View() == ForkStep(s, true)
    {
      assert s.sons[child := []] == s.sons;
    }

    /** The child starts with no sons and is the caller's youngest. */
    method AddSon(child: nat)
      requires Valid() && child < NR_TASKS && family.lists[child] == [] && !Listed(family.lists, child)
      modifies family.Repr
      ensures Valid() && family.lists == old(family.lists)[current := old(family.lists)[current] + [child]]
    {
      family.InitHead(child);
      assert family.lists == old(family.lists);
      family.Append(current, child);
    }

    /** The first free PCB has no sons and is on no sibling list. */
    ghost predicate ForkReady()
      requires Valid()
      reads this, task, queues.Repr, family.Repr
    {
      var f := queues.lists[FREE_QUEUE];
      f != [] ==> f[0] != current && family.lists[f[0]] == [] && !Listed(family.lists, f[0])
    }

    lemma InvForkReady()
      requires Valid() && Inv(View()) && current != IDLE
      ensures ForkReady()
    {
      var s := View();
      if s.free != [] {
        assert s.free[0] in s.free;
        Places(s, s.free[0]);
        DeadHaveNoSons(s, s.free[0]);
      }
    }

    /** `list_del` of the sibling node of `t`. */
    method UnlinkBros(t: nat)
      requires Valid() && t < NR_TASKS && Listed(family.lists, t)
      modifies family.Repr
      ensures Valid() && family.lists == Unlink(old(family.lists), t)
    {
      ghost var lists := family.lists;
      ghost var h :| 0 <= h < |lists| && t in lists[h];
      ghost var k :| 0 <= k < |lists[h]| && lists[h][k] == t;
      UnlinkRemoves(lists, h, k);
      family.Remove(t, h, k);
    }

    /** The start of `sys_exit`. Deleting an unlinked node would write through a null pointer. */
    method Leave()
      requires Valid() && !hung
      modifies this`hung, task, family.Repr
      ensures Valid() && View() == LeaveSiblings(old(View()))
    {
      if task[current].pid != 1 {
        var linked := family.IsLinked(current);
        if !linked {
          hung := true;
          return;
        }
        UnlinkBros(current);
      }
      task[current] := task[current].(pid := -1);
    }

    /** One round of the loop of `sys_exit`. */
    method ReparentTask(i: nat)
      requires Valid() && !hung && i < NR_TASKS
      modifies this`hung, task, family.Repr
      ensures Valid() && View() == ReparentOne(old(View()), i)
    {
      if task[i].parent != Some(current) {
        return;
      }
      task[i] := task[i].(parent := Some(IDLE));
      var linked := family.IsLinked(i);
      if !linked {
        hung := true;
        return;
      }
      UnlinkMembers(family.lists, i);
      UnlinkBros(i);
      family.Append(IDLE, i);
    }

    /** The loop of `sys_exit` over all PCBs. */
    method ReparentSons()
      requires Valid() && !hung
      modifies this`hung, task, family.Repr
      ensures Valid() && View() == Reparent(old(View()), NR_TASKS)
    {
      ghost var s := View();
      var i := 0;
      while i < NR_TASKS
        invariant 0 <= i <= NR_TASKS && Valid() && !hung
        invariant View() == Reparent(s, i)
      {
        ReparentTask(i);
        i := i + 1;
        if hung {
          ReparentSticky(s, i, NR_TASKS);
          return;
        }
      }
    }

    /** `sys_exit`: the process side. */
    method Exit()
      requires Valid() && !hung && !Listed(queues.lists, current)
      modifies this`current, this`ticksSinceLastSwitch, this`hung, task, queues.Repr, family.Repr
      ensures Valid() && View() == ExitStep(old(View()))
    {
      ghost var s := View();
      Leave();
      ghost var l := View();
      if hung {
        ReparentSticky(l, 0, NR_TASKS);
        return;
      }
      ReparentSons();
      if hung {
        return;
      }
      ReparentPids(l, NR_TASKS);
      ParkCurrent(FREE_QUEUE, Zombie);
      SchedNextRr();
    }

    /** Any kernel entry from a consistent state: the step of the model, which stays
        consistent exactly when it is not one of the three that break it. */
    method Enter(op: Call)
      requires Valid() && Inv(View())
      modifies this, task, queues.Repr, family.Repr
      ensures Valid() && View() == Step(old(View()), op)
      ensures Inv(View()) <==> !Breaks(old(View()), op)
    {
      StepKeepsIff(View(), op);
      InvOffQueues();
      if op.Tick? {
        ClkRoutine();
      } else if current != IDLE {
        match op {
          case Fork(ok) =>
            InvForkReady();
            var pid := Fork(ok);
          case Exit => Exit();
          case Block => Block();
          case Unblock(pid) =>
            InvWakeReady(pid);
            var r := Unblock(pid);
        }
      }
    }

    /** `sys_numbros`: the size of the ring seen from the caller, less one. A caller
        on no list walks into a null pointer. */
    method NumBros() returns (n: int)
      requires Valid() && !hung
      modifies this`hung
      ensures Valid() && hung == !Listed(family.lists, current)
      ensures !hung ==> exists h :: 0 <= h < NR_TASKS && current in family.lists[h] && n == |family.lists[h]| - 1
    {
      n := -1;
      var linked := family.IsLinked(current);
      if !linked {
        hung := true;
        return;
      }
      ghost var h :| 0 <= h < NR_TASKS && current in family.lists[h];
      ghost var k :| 0 <= k < |family.lists[h]| && family.lists[h][k] == current;
      var size := family.SizeFrom(current, h, k);
      n := size - 1;
    }
  }

  lemma {:induction false} ReparentSticky(s: Sys, k: nat, n: nat)
    requires Shape(s) && k <= n <= NR_TASKS && Reparent(s, k).hung
    ensures Reparent(s, n) == Reparent(s, k)
  {
    if k < n {
      ReparentSticky(s, k, n - 1);
    }
  }

  lemma {:induction false} ReparentPids(s: Sys, k: nat)
    requires Shape(s) && k <= NR_TASKS
    ensures Reparent(s, k).cur == s.cur
    ensures forall t :: 0 <= t < NR_TASKS ==> Reparent(s, k).pcbs[t].pid == s.pcbs[t].pid
  {
    if k > 0 {
      ReparentPids(s, k - 1);
    }
  }
}

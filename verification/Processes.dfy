/** The process state of the kernel - PCBs, the three state queues, the sibling
    lists - and each system call and clock tick as a function on it, with the
    tests in the order the C code makes them. */
module Processes {
  import opened Common
  import opened Lists

  const FREE_QUEUE := 0
  const READY_QUEUE := 1
  const BLOCKED_QUEUE := 2

  datatype State = Running | Ready | Blocked | Zombie

  datatype Pcb = Pcb(pid: int, state: State, parent: Option<nat>, pending: int, quantum: nat, nrTicks: nat)

  /** `hung` is a kernel that followed a null list pointer: the page-fault handler
      loops forever with interrupts off. */
  datatype Sys = Sys(
    pcbs: seq<Pcb>,
    free: seq<nat>, ready: seq<nat>, blocked: seq<nat>,
    sons: seq<seq<nat>>,
    cur: nat, ticks: nat, nextPid: int, hung: bool)

  /** `Fork(ok)`: whether the memory part of the fork succeeds. */
  datatype Call = Tick | Fork(ok: bool) | Exit | Block | Unblock(pid: int)

  ghost predicate Tasks(q: seq<nat>) {
    forall i :: 0 <= i < |q| ==> q[i] < NR_TASKS
  }

  ghost predicate Shape(s: Sys) {
    && |s.pcbs| == |s.sons| == NR_TASKS && s.cur < NR_TASKS
    && Tasks(s.free) && Tasks(s.ready) && Tasks(s.blocked)
    && (forall q :: 0 <= q < NR_TASKS ==> Tasks(s.sons[q]))
  }

  function Cur(s: Sys): Pcb
    requires Shape(s)
  {
    s.pcbs[s.cur]
  }

  function SetPcb(s: Sys, t: nat, p: Pcb): (r: Sys)
    requires Shape(s) && t < NR_TASKS
    ensures Shape(r)
  {
    s.(pcbs := s.pcbs[t := p])
  }

  // ---- sched.c ---------------------------------------------------------------------

  /** `needs_sched_rr`: the quantum is tested before the blocked state. */
  predicate NeedsSched(s: Sys)
    requires Shape(s)
  {
    if Cur(s).pid == 0 then s.ready != []
    else if Cur(s).quantum < Cur(s).nrTicks then s.ready != []
    else Cur(s).state == Blocked
  }

  /** The running task goes back to the ready queue unless it is idle, dead or blocked. */
  function Preempt(s: Sys): (r: Sys)
    requires Shape(s)
    ensures Shape(r)
  {
    if Cur(s).pid > 0 && Cur(s).state != Blocked then
      SetPcb(s, s.cur, Cur(s).(state := Ready)).(ready := s.ready + [s.cur])
    else s
  }

  /** `sched_next_rr` */
  function SchedNext(s: Sys): (r: Sys)
    requires Shape(s)
    ensures Shape(r)
  {
    if s.ready == [] then s.(ticks := 0, cur := IDLE)
    else
      var next := s.ready[0];
      var s1 := Preempt(s);
      SetPcb(s1, next, s1.pcbs[next].(state := Running)).(ready := s1.ready[1..], ticks := 0, cur := next)
  }

  /** `schedule` */
  function Schedule(s: Sys): (r: Sys)
    requires Shape(s)
    ensures Shape(r)
  {
    var s1 := SetPcb(s, s.cur, Cur(s).(nrTicks := s.ticks));
    if NeedsSched(s1) then SchedNext(s1) else s1
  }

  /** `clk_routine` */
  function TickStep(s: Sys): (r: Sys)
    requires Shape(s)
    ensures Shape(r)
  {
    Schedule(s.(ticks := s.ticks + 1))
  }

  // ---- sys.c -----------------------------------------------------------------------

  /** `sys_fork`. When memory runs out it returns at once: the PCB it took off the
      free queue is a copy of the caller's and is on no queue. */
  function ForkStep(s: Sys, ok: bool): (r: Sys)
    requires Shape(s)
    ensures Shape(r)
  {
    if s.free == [] then s
    else if !ok then SetPcb(s, s.free[0], Cur(s)).(free := s.free[1..])
    else
      var c := s.free[0];
      var child := Pcb(s.nextPid, Ready, Some(s.cur), 0, Cur(s).quantum, 0);
      var sons1 := s.sons[c := []];
      SetPcb(s, c, child).(
        free := s.free[1..], ready := s.ready + [c],
        sons := sons1[s.cur := sons1[s.cur] + [c]], nextPid := s.nextPid + 1)
  }

  /** `sys_block` */
  function BlockStep(s: Sys): (r: Sys)
    requires Shape(s)
    ensures Shape(r)
  {
    if Cur(s).pending == 0 then
      Schedule(SetPcb(s, s.cur, Cur(s).(state := Blocked)).(blocked := s.blocked + [s.cur]))
    else SetPcb(s, s.cur, Cur(s).(pending := Cur(s).pending - 1))
  }

  /** The first task on `q` with that PID. */
  function FindPid(pcbs: seq<Pcb>, q: seq<nat>, pid: int): (r: Option<nat>)
    requires |pcbs| == NR_TASKS && Tasks(q)
    ensures r.Some? ==> r.value in q && r.value < NR_TASKS && pcbs[r.value].pid == pid
    ensures r.None? ==> forall t :: t in q && t < NR_TASKS ==> pcbs[t].pid != pid
  {
    if q == [] then None else if pcbs[q[0]].pid == pid then Some(q[0]) else FindPid(pcbs, q[1..], pid)
  }

  /** `sys_unblock`; with no such son it answers -ECHILD and changes nothing. */
  function UnblockStep(s: Sys, pid: int): (r: Sys)
    requires Shape(s)
    ensures Shape(r)
  {
    match FindPid(s.pcbs, s.sons[s.cur], pid)
    case None => s
    case Some(t) =>
      if s.pcbs[t].state == Blocked then Woken(s, t) else Notified(s, t)
  }

  /** A blocked son goes to the ready queue. */
  function Woken(s: Sys, t: nat): (r: Sys)
    requires Shape(s) && t < NR_TASKS
    ensures Shape(r)
  {
    SetPcb(s, t, s.pcbs[t].(state := Ready, pending := 0)).(blocked := Without(s.blocked, t), ready := s.ready + [t])
  }

  /** Any other son finds the unblock pending at its next block. */
  function Notified(s: Sys, t: nat): (r: Sys)
    requires Shape(s) && t < NR_TASKS
    ensures Shape(r)
  {
    SetPcb(s, t, s.pcbs[t].(pending := s.pcbs[t].pending + 1))
  }

  /** One round of the loop of `sys_exit` over all PCBs, live or not: a son of the
      exiting task moves to idle's list. A PCB off every list is a null pointer. */
  ghost function ReparentOne(s: Sys, i: nat): (r: Sys)
    requires Shape(s) && i < NR_TASKS
    ensures Shape(r)
  {
    if s.hung || s.pcbs[i].parent != Some(s.cur) then s
    else if !Listed(s.sons, i) then SetPcb(s, i, s.pcbs[i].(parent := Some(IDLE))).(hung := true)
    else
      var lists := Unlink(s.sons, i);
      SetPcb(s, i, s.pcbs[i].(parent := Some(IDLE))).(sons := lists[IDLE := lists[IDLE] + [i]])
  }

  ghost function Reparent(s: Sys, k: nat): (r: Sys)
    requires Shape(s) && k <= NR_TASKS
    ensures Shape(r)
  {
    if k == 0 then s else ReparentOne(Reparent(s, k - 1), k - 1)
  }

  /** The exiting task leaves its parent's list - process 1 was never on one. */
  ghost function LeaveSiblings(s: Sys): (r: Sys)
    requires Shape(s)
    ensures Shape(r)
  {
    if Cur(s).pid == 1 then SetPcb(s, s.cur, Cur(s).(pid := -1))
    else if Listed(s.sons, s.cur) then SetPcb(s, s.cur, Cur(s).(pid := -1)).(sons := Unlink(s.sons, s.cur))
    else s.(hung := true)
  }

  /** `sys_exit`: its own `parent` field keeps its value. */
  ghost function ExitStep(s: Sys): (r: Sys)
    requires Shape(s)
    ensures Shape(r)
  {
    var s1 := Reparent(LeaveSiblings(s), NR_TASKS);
    if s1.hung then s1
    else SchedNext(SetPcb(s1, s1.cur, Cur(s1).(state := Zombie)).(free := s1.free + [s1.cur]))
  }

  /** One atomic entry to the kernel. The idle task makes no calls, and nothing
      happens any more in a hung kernel. */
  ghost function Step(s: Sys, op: Call): (r: Sys)
    requires Shape(s)
    ensures Shape(r)
  {
    if s.hung || (s.cur == IDLE && !op.Tick?) then s
    else
      match op
      case Tick => TickStep(s)
      case Fork(ok) => ForkStep(s, ok)
      case Exit => ExitStep(s)
      case Block => BlockStep(s)
      case Unblock(pid) => UnblockStep(s, pid)
  }

  ghost function Run(s: Sys, ops: seq<Call>): (r: Sys)
    requires Shape(s)
    ensures Shape(r)
    decreases ops
  {
    if ops == [] then s else Run(Step(s, ops[0]), ops[1..])
  }
}

/** What every kernel step keeps of the process state, and exactly which steps
    of the code as written do not. */
module ProcessInvariant {
  import opened Common
  import opened Lists
  import opened Processes

  // ---- the invariant -----------------------------------------------------------------

  /** The running user task, if it is not idle's turn. */
  ghost function OnCpu(s: Sys): multiset<nat> {
    if s.cur == IDLE then multiset{} else multiset{s.cur}
  }

  ghost function UserTasks(): set<nat> { {0, 1, 2, 3, 4, 5, 6, 7, 8} }

  /** Every user PCB is in exactly one place: free, ready, blocked or running. */
  ghost predicate Partition(s: Sys) {
    multiset(s.free) + multiset(s.ready) + multiset(s.blocked) + OnCpu(s) == multiset(UserTasks())
  }

  ghost predicate Live(s: Sys, t: nat) { t < IDLE && t !in s.free }

  /** The state field agrees with the place; idle runs only when nothing else can. */
  ghost predicate States(s: Sys)
    requires Shape(s)
  {
    && (forall t :: t in s.free && t < IDLE ==> s.pcbs[t].pid == -1)
    && (forall t :: t in s.ready && t < IDLE ==> s.pcbs[t].state == Ready)
    && (forall t :: t in s.blocked && t < IDLE ==> s.pcbs[t].state == Blocked && s.pcbs[t].pending == 0)
    && Cur(s).state == Running
    && (s.cur == IDLE ==> s.ready == [])
    && s.pcbs[IDLE].pid == 0 && s.pcbs[IDLE].state == Running
    && (forall t: nat :: Live(s, t) ==> s.pcbs[t].pending >= 0)
  }

  /** Live processes have positive, distinct PIDs already given out. */
  ghost predicate Pids(s: Sys)
    requires Shape(s)
  {
    && (forall t: nat :: Live(s, t) ==> 0 < s.pcbs[t].pid < s.nextPid)
    && (forall t: nat, u: nat :: Live(s, t) && Live(s, u) && s.pcbs[t].pid == s.pcbs[u].pid ==> t == u)
    && 1 < s.nextPid
  }

  /** The family tree: a live process is on the list of its parent and on no
      other; process 1 alone has no parent; a parent is idle or a live process
      with a smaller PID, so the tree has no cycles. */
  ghost predicate Family(s: Sys)
    requires Shape(s)
  {
    && Apart(s.sons)
    && (forall q, t :: 0 <= q < NR_TASKS && t in s.sons[q] ==> Live(s, t) && s.pcbs[t].parent == Some(q))
    && (forall t: nat {:trigger HasParent(s, t)} :: Live(s, t) ==> HasParent(s, t))
    && s.pcbs[IDLE].parent == None
  }

  ghost predicate HasParent(s: Sys, t: nat)
    requires Shape(s) && t < NR_TASKS
  {
    match s.pcbs[t].parent
    case None => s.pcbs[t].pid == 1
    case Some(q) =>
      && s.pcbs[t].pid != 1 && (q == IDLE || Live(s, q))
      && s.pcbs[q].pid < s.pcbs[t].pid && t in s.sons[q]
  }

  ghost predicate Inv(s: Sys) {
    Shape(s) && !s.hung && Partition(s) && States(s) && Pids(s) && Family(s)
  }

  // ---- the steps that break it ---------------------------------------------------------

  /** `sys_block` of a process whose quantum has run out while nobody is ready:
      `needs_sched_rr` looks at the quantum first and finds nothing to switch to,
      so the process stays on the CPU and in the blocked queue at once. */
  ghost predicate BlocksInVain(s: Sys)
    requires Shape(s)
  {
    Cur(s).pending == 0 && s.ready == [] && Cur(s).quantum < s.ticks
  }

  /** A PCB on the free queue still names the running task as its parent: a son
      that exited earlier, whose sibling node is no longer linked. */
  ghost predicate DeadSon(s: Sys)
    requires Shape(s)
  {
    exists z :: z in s.free && z < NR_TASKS && s.pcbs[z].parent == Some(s.cur)
  }

  /** A fork that takes a PCB and then fails for want of memory: the PCB goes back
      to no queue. */
  ghost predicate LosesPcb(s: Sys, ok: bool)
    requires Shape(s)
  {
    !ok && s.free != []
  }

  ghost predicate Breaks(s: Sys, op: Call)
    requires Shape(s)
  {
    s.cur != IDLE &&
    ((op.Block? && BlocksInVain(s)) || (op.Exit? && DeadSon(s)) || (op.Fork? && LosesPcb(s, op.ok)))
  }

  // ---- reading the partition -------------------------------------------------------------

  /** What the partition says of one task. */
  lemma Places(s: Sys, t: nat)
    requires Partition(s)
    ensures multiset(s.free)[t] + multiset(s.ready)[t] + multiset(s.blocked)[t] + OnCpu(s)[t] == if t < IDLE then 1 else 0
    ensures t in s.free <==> multiset(s.free)[t] > 0
    ensures t in s.ready <==> multiset(s.ready)[t] > 0
    ensures t in s.blocked <==> multiset(s.blocked)[t] > 0
  {
    assert (multiset(s.free) + multiset(s.ready) + multiset(s.blocked) + OnCpu(s))[t] == multiset(UserTasks())[t];
  }
}

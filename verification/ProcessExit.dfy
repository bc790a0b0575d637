/** `sys_exit` and the family tree: exit keeps the invariant exactly when no
    dead son is left behind. */
module ProcessExit {
  import opened Common
  import opened Lists
  import opened Processes
  import opened ProcessInvariant
  import opened ProcessSteps

  // ---- the loop ------------------------------------------------------------------------

  /** The lists hold the live tasks other than `x`, each under its parent. */
  ghost predicate ListsMatch(s: Sys, x: nat)
    requires Shape(s)
  {
    && Apart(s.sons)
    && (forall q, t :: 0 <= q < NR_TASKS && t in s.sons[q] ==> Live(s, t) && t != x && s.pcbs[t].parent == Some(q))
    && (forall t: nat :: Live(s, t) && t != x && s.pcbs[t].parent.Some? ==>
          s.pcbs[t].parent.value < NR_TASKS && t in s.sons[s.pcbs[t].parent.value])
  }

  /** The loop after `k` rounds, while it has not followed a null pointer. */
  ghost predicate ReparentedUpTo(s: Sys, r: Sys, k: nat)
    requires Shape(s) && k <= NR_TASKS
  {
    && Shape(r)
    && r.free == s.free && r.ready == s.ready && r.blocked == s.blocked
    && r.cur == s.cur && r.ticks == s.ticks && r.nextPid == s.nextPid
    && ListsMatch(r, s.cur)
    && (forall t :: 0 <= t < NR_TASKS ==>
          r.pcbs[t] == if t < k && s.pcbs[t].parent == Some(s.cur) then s.pcbs[t].(parent := Some(IDLE)) else s.pcbs[t])
  }

  ghost predicate UnlinkedSon(s: Sys, i: nat)
    requires Shape(s)
  {
    i < NR_TASKS && s.pcbs[i].parent == Some(s.cur) && !(Live(s, i) && i != s.cur)
  }

  /** The loop hangs as soon as it meets a PCB that names the exiting task as its
      parent without being its live son, and otherwise moves the sons to idle. */
  lemma {:induction false} ReparentRounds(s: Sys, k: nat)
    requires Shape(s) && !s.hung && s.cur != IDLE && ListsMatch(s, s.cur) && k <= NR_TASKS
    ensures Reparent(s, k).hung <==> exists i :: 0 <= i < k && UnlinkedSon(s, i)
    ensures !Reparent(s, k).hung ==> ReparentedUpTo(s, Reparent(s, k), k)
  {
    if k > 0 {
      ReparentRounds(s, k - 1);
      var a := Reparent(s, k - 1);
      if !a.hung {
        ReparentRound(s, a, k - 1);
      }
      assert (exists i :: 0 <= i < k && UnlinkedSon(s, i)) <==> (exists i :: 0 <= i < k - 1 && UnlinkedSon(s, i)) || UnlinkedSon(s, k - 1);
    }
  }

  lemma ReparentRound(s: Sys, a: Sys, i: nat)
    requires Shape(s) && s.cur != IDLE && i < NR_TASKS && !a.hung && ReparentedUpTo(s, a, i)
    ensures ReparentOne(a, i).hung <==> UnlinkedSon(s, i)
    ensures !ReparentOne(a, i).hung ==> ReparentedUpTo(s, ReparentOne(a, i), i + 1)
  {
    if s.pcbs[i].parent == Some(s.cur) {
      if UnlinkedSon(s, i) {
        assert !Listed(a.sons, i);
      } else {
        assert i in a.sons[s.cur];
        ReparentSon(s, a, ReparentOne(a, i), i);
      }
    }
  }

  lemma ReparentSon(s: Sys, a: Sys, r: Sys, i: nat)
    requires Shape(s) && s.cur < IDLE && i < NR_TASKS && !a.hung && ReparentedUpTo(s, a, i)
    requires s.pcbs[i].parent == Some(s.cur) && Live(s, i) && i != s.cur
    requires var lists := Unlink(a.sons, i);
             r == SetPcb(a, i, a.pcbs[i].(parent := Some(IDLE))).(sons := lists[IDLE := lists[IDLE] + [i]])
    requires Shape(r)
    ensures ReparentedUpTo(s, r, i + 1)
  {
    MoveMembers(a.sons, r.sons, i);
    MoveToIdle(a, r, s.cur, i);
  }

  lemma MoveToIdle(a: Sys, r: Sys, x: nat, i: nat)
    requires Shape(a) && Shape(r) && ListsMatch(a, x) && i < NR_TASKS && Live(a, i) && i != x && r.free == a.free
    requires r.pcbs == a.pcbs[i := a.pcbs[i].(parent := Some(IDLE))]
    requires Apart(r.sons)
    requires forall q, t: nat :: 0 <= q < NR_TASKS ==> (t in r.sons[q] <==> if t == i then q == IDLE else t in a.sons[q])
    ensures ListsMatch(r, x)
  {
    forall q, t: nat | 0 <= q < NR_TASKS && t in r.sons[q]
      ensures Live(r, t) && t != x && r.pcbs[t].parent == Some(q)
    {
      assert Live(a, t);
    }
    forall t: nat | Live(r, t) && t != x && r.pcbs[t].parent.Some?
      ensures r.pcbs[t].parent.value < NR_TASKS && t in r.sons[r.pcbs[t].parent.value]
    {
      assert Live(a, t);
    }
  }

  /** Who is where after a move to idle's list. */
  lemma MoveMembers(sons: seq<seq<nat>>, r: seq<seq<nat>>, i: nat)
    requires |sons| == NR_TASKS && Apart(sons)
    requires var lists := Unlink(sons, i); r == lists[IDLE := lists[IDLE] + [i]]
    ensures Apart(r)
    ensures forall q, t: nat :: 0 <= q < NR_TASKS ==> (t in r[q] <==> if t == i then q == IDLE else t in sons[q])
  {
    var lists := Unlink(sons, i);
    UnlinkMembers(sons, i);
    InsertMembers(lists, IDLE, i, lists[IDLE] + [i]);
  }

  // ---- exit ----------------------------------------------------------------------------

  /** What leaving the siblings does to everything but the lists. */
  lemma LeavePcbs(s: Sys)
    requires Inv(s) && s.cur != IDLE
    ensures Live(s, s.cur) && HasParent(s, s.cur)
    ensures var r := LeaveSiblings(s);
            && !r.hung && r.pcbs == s.pcbs[s.cur := Cur(s).(pid := -1)]
            && r.sons == (if Cur(s).pid == 1 then s.sons else Unlink(s.sons, s.cur))
            && r.free == s.free && r.ready == s.ready && r.blocked == s.blocked
            && r.cur == s.cur && r.nextPid == s.nextPid
  {
    Places(s, s.cur);
    assert Live(s, s.cur) && HasParent(s, s.cur);
  }

  lemma LeaveMatches(s: Sys)
    requires Inv(s) && s.cur != IDLE
    ensures ListsMatch(LeaveSiblings(s), s.cur)
  {
    LeavePcbs(s);
    LeftMatches(s, LeaveSiblings(s));
  }

  lemma LeftMatches(s: Sys, r: Sys)
    requires Shape(s) && Shape(r) && Family(s) && Live(s, s.cur) && HasParent(s, s.cur)
    requires r.free == s.free && r.pcbs == s.pcbs[s.cur := Cur(s).(pid := -1)]
    requires r.sons == if Cur(s).pid == 1 then s.sons else Unlink(s.sons, s.cur)
    ensures ListsMatch(r, s.cur)
  {
    LeftLists(s, r);
    forall t: nat | Live(r, t) && t != s.cur && r.pcbs[t].parent.Some?
      ensures r.pcbs[t].parent.value < NR_TASKS && t in r.sons[r.pcbs[t].parent.value]
    {
      assert Live(s, t) && HasParent(s, t);
    }
    forall q, t: nat | 0 <= q < NR_TASKS && t in r.sons[q]
      ensures Live(r, t) && t != s.cur && r.pcbs[t].parent == Some(q)
    {
      assert t in s.sons[q] && t != s.cur;
      assert Live(s, t);
    }
  }

  lemma LeftLists(s: Sys, r: Sys)
    requires Shape(s) && Family(s) && Live(s, s.cur) && HasParent(s, s.cur)
    requires r.sons == if Cur(s).pid == 1 then s.sons else Unlink(s.sons, s.cur)
    ensures |r.sons| == NR_TASKS && Apart(r.sons)
    ensures forall q, t: nat :: 0 <= q < NR_TASKS ==> (t in r.sons[q] <==> t in s.sons[q] && t != s.cur)
  {
    if Cur(s).pid == 1 {
      FirstOnNoList(s);
    } else {
      UnlinkMembers(s.sons, s.cur);
    }
  }

  /** Process 1 is on nobody's list. */
  lemma FirstOnNoList(s: Sys)
    requires Shape(s) && Family(s) && HasParent(s, s.cur) && Cur(s).pid == 1
    ensures forall q, t: nat :: 0 <= q < NR_TASKS && t in s.sons[q] ==> t != s.cur
  {
  }

  /** No live process is its own parent, so the PCBs that stop the loop are
      exactly the free ones that still name the exiting task. */
  lemma UnlinkedSonIff(s: Sys)
    requires Inv(s) && s.cur != IDLE
    ensures (exists i :: 0 <= i < NR_TASKS && UnlinkedSon(LeaveSiblings(s), i)) <==> DeadSon(s)
  {
    LeavePcbs(s);
    SonlessIff(s, LeaveSiblings(s));
  }

  lemma SonlessIff(s: Sys, r: Sys)
    requires Shape(s) && Shape(r) && States(s) && Family(s) && Live(s, s.cur) && HasParent(s, s.cur)
    requires r.free == s.free && r.cur == s.cur && r.pcbs == s.pcbs[s.cur := Cur(s).(pid := -1)]
    ensures (exists i :: 0 <= i < NR_TASKS && UnlinkedSon(r, i)) <==> DeadSon(s)
  {
    if z :| z in s.free && z < NR_TASKS && s.pcbs[z].parent == Some(s.cur) {
      assert UnlinkedSon(r, z);
    }
    if i :| 0 <= i < NR_TASKS && UnlinkedSon(r, i) {
      assert i in s.free && s.pcbs[i].parent == Some(s.cur);
    }
  }

  /** Exit follows a null pointer exactly when a dead son still names the exiting
      task; otherwise the invariant holds, and the PCB goes free as it is. */
  lemma ExitKeepsIff(s: Sys)
    requires Inv(s) && s.cur != IDLE
    ensures Inv(ExitStep(s)) <==> !DeadSon(s)
    ensures ExitStep(s).hung <==> DeadSon(s)
    ensures !DeadSon(s) ==> s.cur in ExitStep(s).free && ExitStep(s).pcbs[s.cur].parent == Cur(s).parent
    ensures !DeadSon(s) ==> ExitStep(s).cur == if s.ready == [] then IDLE else s.ready[0]
  {
    var l := LeaveSiblings(s);
    LeavePcbs(s);
    LeaveMatches(s);
    UnlinkedSonIff(s);
    ReparentRounds(l, NR_TASKS);
    var s1 := Reparent(l, NR_TASKS);
    if !s1.hung {
      ExitParks(s, l, s1);
      var r := SetPcb(s1, s1.cur, Cur(s1).(state := Zombie)).(free := s1.free + [s1.cur]);
      DispatchParked(r);
      assert Cur(s).parent != Some(s.cur);
      DispatchKeepsParent(r, s.cur);
    }
  }

  lemma DispatchKeepsParent(s: Sys, t: nat)
    requires Shape(s) && t < NR_TASKS && (Cur(s).pid <= 0 || Cur(s).state == Blocked)
    ensures var r := SchedNext(s);
            r.free == s.free && r.hung == s.hung && r.pcbs[t].parent == s.pcbs[t].parent
  {
  }

  lemma ExitParks(s: Sys, l: Sys, s1: Sys)
    requires Inv(s) && s.cur != IDLE && l == LeaveSiblings(s) && !s1.hung && ReparentedUpTo(l, s1, NR_TASKS)
    ensures var r := SetPcb(s1, s1.cur, Cur(s1).(state := Zombie)).(free := s1.free + [s1.cur]);
            Parked(r) && Pids(r) && Family(r) && Cur(r).pid == -1
  {
    var r := SetPcb(s1, s1.cur, Cur(s1).(state := Zombie)).(free := s1.free + [s1.cur]);
    LeavePcbs(s);
    Places(s, s.cur);
    forall t: nat
      ensures Live(r, t) <==> Live(s, t) && t != s.cur
    {
      assert t in r.free <==> t in s.free || t == s.cur;
    }
    ExitedTask(s, l, s1, r);
    ExitStates(s, r);
    ExitPids(s, r);
    ExitFamily(s, s1, r);
  }

  /** The PCBs after the loop. */
  lemma ExitedTask(s: Sys, l: Sys, s1: Sys, r: Sys)
    requires Shape(s) && s.cur < IDLE && Shape(l) && l.pcbs == s.pcbs[s.cur := Cur(s).(pid := -1)] && l.cur == s.cur
    requires ReparentedUpTo(l, s1, NR_TASKS) && Shape(r) && r.pcbs == s1.pcbs[s.cur := Cur(s1).(state := Zombie)]
    ensures forall t: nat :: t < NR_TASKS && t != s.cur ==> r.pcbs[t] == s1.pcbs[t]
    ensures forall t: nat :: t < NR_TASKS && t != s.cur ==>
              s1.pcbs[t] == if s.pcbs[t].parent == Some(s.cur) then s.pcbs[t].(parent := Some(IDLE)) else s.pcbs[t]
    ensures r.pcbs[s.cur].pid == -1
  {
  }

  lemma ExitPids(s: Sys, r: Sys)
    requires Shape(s) && Shape(r) && Pids(s) && r.nextPid == s.nextPid
    requires forall t: nat :: Live(r, t) <==> Live(s, t) && t != s.cur
    requires forall t: nat :: t < NR_TASKS && t != s.cur ==> r.pcbs[t].pid == s.pcbs[t].pid
    ensures Pids(r)
  {
  }

  lemma ExitStates(s: Sys, r: Sys)
    requires Inv(s) && s.cur != IDLE && Shape(r) && !r.hung && s.cur !in s.ready && s.cur !in s.blocked
    requires r.free == s.free + [s.cur] && r.ready == s.ready && r.blocked == s.blocked
    requires forall t: nat :: t < NR_TASKS && t != s.cur ==>
               r.pcbs[t].pid == s.pcbs[t].pid && r.pcbs[t].state == s.pcbs[t].state && r.pcbs[t].pending == s.pcbs[t].pending
    requires r.pcbs[s.cur].pid == -1
    ensures Parked(r)
  {
    assert multiset(r.free) == multiset(s.free) + multiset{s.cur};
    forall t: nat | Live(r, t)
      ensures r.pcbs[t].pending >= 0
    {
      assert Live(s, t) && t != s.cur;
    }
  }

  lemma ExitFamily(s: Sys, s1: Sys, r: Sys)
    requires Shape(s) && Shape(r) && Family(s) && Pids(s) && s.pcbs[IDLE].pid == 0 && s.cur < IDLE
    requires Shape(s1) && ListsMatch(s1, s.cur) && s1.free == s.free
    requires forall t: nat :: t < NR_TASKS && t != s.cur ==>
               s1.pcbs[t] == if s.pcbs[t].parent == Some(s.cur) then s.pcbs[t].(parent := Some(IDLE)) else s.pcbs[t]
    requires r.sons == s1.sons && (forall t: nat :: t < NR_TASKS && t != s.cur ==> r.pcbs[t] == s1.pcbs[t])
    requires forall t: nat :: Live(r, t) <==> Live(s, t) && t != s.cur
    ensures Family(r)
  {
    forall q, t: nat | 0 <= q < NR_TASKS && t in r.sons[q]
      ensures Live(r, t) && r.pcbs[t].parent == Some(q)
    {
      assert Live(s1, t) && t != s.cur;
    }
    forall t: nat | Live(r, t)
      ensures HasParent(r, t)
    {
      assert Live(s, t) && HasParent(s, t);
      assert Live(s1, t);
    }
  }
}

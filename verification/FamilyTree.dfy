/** What the sibling lists mean: brothers are counted right, the tree has no
    cycles, and an exit hands every son to idle. */
module FamilyTree {
  import opened Common
  import opened Lists
  import opened Processes
  import opened ProcessInvariant
  import opened ProcessSteps
  import opened ProcessExit

  /** The live processes with the same parent as `t`, other than `t`. */
  ghost function Siblings(s: Sys, t: nat): set<nat>
    requires Shape(s) && t < NR_TASKS
  {
    set u: nat | u < IDLE && Live(s, u) && u != t && s.pcbs[u].parent == s.pcbs[t].parent
  }

  ghost function Members(q: seq<nat>): set<nat> { set t | t in q }

  lemma {:induction false} DistinctSize(q: seq<nat>)
    requires Distinct(q)
    ensures |Members(q)| == |q|
  {
    if q != [] {
      DistinctSize(q[1..]);
      assert q[0] !in q[1..];
      assert Members(q) == {q[0]} + Members(q[1..]);
    }
  }

  /** The list a process is on, less itself, is exactly its siblings: what
      `sys_numbros` returns is their number. */
  lemma BrothersCounted(s: Sys, t: nat, p: nat)
    requires Inv(s) && Live(s, t) && s.pcbs[t].parent == Some(p)
    ensures p < NR_TASKS && t in s.sons[p] && |s.sons[p]| - 1 == |Siblings(s, t)|
  {
    assert HasParent(s, t);
    SonsAreSiblings(s, t, p);
    assert Members(s.sons[p]) == Siblings(s, t) + {t};
    DistinctSize(s.sons[p]);
  }

  /** Exactly a process without a parent - process 1 - is on no list, and asking for
      its brothers walks into a null pointer. */
  lemma NoListIff(s: Sys, t: nat)
    requires Inv(s) && Live(s, t)
    ensures !Listed(s.sons, t) <==> s.pcbs[t].parent == None
    ensures !Listed(s.sons, t) <==> s.pcbs[t].pid == 1
  {
    assert HasParent(s, t);
    if s.pcbs[t].parent.Some? {
      assert t in s.sons[s.pcbs[t].parent.value];
    }
  }

  lemma SonsAreSiblings(s: Sys, t: nat, p: nat)
    requires Shape(s) && Family(s) && Live(s, t) && s.pcbs[t].parent == Some(p) && p < NR_TASKS
    ensures forall u: nat :: u in s.sons[p] <==> u in Siblings(s, t) || u == t
  {
    assert HasParent(s, t);
    forall u: nat
      ensures u in s.sons[p] <==> u in Siblings(s, t) || u == t
    {
      if u in Siblings(s, t) {
        assert HasParent(s, u);
      }
    }
  }

  /** A walk from son to parent, as long as it stays among user processes. */
  ghost predicate Ancestry(s: Sys, path: seq<nat>)
    requires Shape(s)
  {
    && path != [] && Live(s, path[0])
    && (|path| > 1 ==> s.pcbs[path[0]].parent == Some(path[1]) && Ancestry(s, path[1..]))
  }

  /** PIDs fall along it, so no process is its own ancestor. */
  lemma {:induction false} AncestorsAreOlder(s: Sys, path: seq<nat>)
    requires Inv(s) && Ancestry(s, path) && |path| > 1
    ensures path[|path| - 1] < NR_TASKS
    ensures s.pcbs[path[|path| - 1]].pid < s.pcbs[path[0]].pid && path[|path| - 1] != path[0]
  {
    assert HasParent(s, path[0]);
    if |path| > 2 {
      AncestorsAreOlder(s, path[1..]);
    }
  }

  /** After a clean exit every live process whose parent exited is a son of idle,
      and nobody else changed parents. */
  lemma ExitReparents(s: Sys, t: nat)
    requires Inv(s) && s.cur != IDLE && !DeadSon(s) && Live(s, t) && t != s.cur
    ensures var r := ExitStep(s);
            && Live(r, t)
            && r.pcbs[t].parent == (if s.pcbs[t].parent == Some(s.cur) then Some(IDLE) else s.pcbs[t].parent)
            && (s.pcbs[t].parent == Some(s.cur) ==> t in r.sons[IDLE])
            && r.sons[s.cur] == []
  {
    var l := LeaveSiblings(s);
    LeavePcbs(s);
    LeaveMatches(s);
    UnlinkedSonIff(s);
    ReparentRounds(l, NR_TASKS);
    var s1 := Reparent(l, NR_TASKS);
    var e := SetPcb(s1, s1.cur, Cur(s1).(state := Zombie)).(free := s1.free + [s1.cur]);
    DispatchKeepsParent(e, t);
    ExitKeepsIff(s);
    assert HasParent(ExitStep(s), t);
    DeadHaveNoSons(ExitStep(s), s.cur);
  }
}

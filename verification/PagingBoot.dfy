/** The memory state the kernel boots into. */
module PagingBoot {
  import opened Common
  import opened Paging
  import opened PagingInvariant
  import opened UserMemory
  import opened PagingRefinement

  /** Reference bytes once the kernel's frames and the first `n` allocations are taken. */
  function BootRefs(n: nat): (r: seq<int>)
    ensures |r| == TOTAL_PAGES
    ensures forall f :: 0 <= f < TOTAL_PAGES ==> r[f] == BootRef(n, f)
  {
    seq(TOTAL_PAGES, f => BootRef(n, f))
  }

  function BootRef(n: nat, f: int): int {
    if f < SharedFrame(0) || (f < SharedFrame(n) && f % 2 == 0) then 1 else 0
  }

  /** Allocations at boot come out in order, two frames apart. */
  lemma BootAlloc(n: nat)
    requires n < (TOTAL_PAGES - NUM_PAG_KERNEL) / 2
    ensures FirstFree(BootRefs(n), NUM_PAG_KERNEL) == SharedFrame(n)
    ensures BootRefs(n)[SharedFrame(n) := 1] == BootRefs(n + 1)
  {
    var refs := BootRefs(n);
    FirstFreeRange(refs, NUM_PAG_KERNEL);
    assert refs[SharedFrame(n)] == BootRef(n, SharedFrame(n));
    assert (SharedFrame(n) - NUM_PAG_KERNEL) % 2 == 0;
    var f := FirstFree(refs, NUM_PAG_KERNEL);
    if 0 <= f {
      assert refs[f] == BootRef(n, f);
    }
  }

  function CodePte(j: nat): Pte { Pte(CodeFrame(j), false, true, true) }

  function DataPte(i: nat): Pte { UserPte(FIRST_DATA_FRAME + 2 * i) }

  /** A table with the kernel mapped, and `code` code pages and `data` data pages
      of the first process. */
  function UserTable(code: nat, data: nat): (t: Table)
    ensures |t| == TOTAL_PAGES
    ensures forall pg :: 0 <= pg < TOTAL_PAGES ==> t[pg] == BootEntry(code, data, pg)
  {
    seq(TOTAL_PAGES, pg requires 0 <= pg => BootEntry(code, data, pg))
  }

  function BootEntry(code: nat, data: nat, pg: nat): Pte {
    if pg < NUM_PAG_KERNEL then KernelPte(pg)
    else if CODE <= pg < CODE + code then CodePte(pg - CODE)
    else if DATA <= pg < DATA + data then DataPte(pg - DATA)
    else NO_ENTRY
  }

  function BootTables(): (t: seq<Table>)
    ensures |t| == NR_TASKS
    ensures forall p :: 0 <= p < NR_TASKS ==>
              t[p] == if p == TASK1 then UserTable(NUM_PAG_CODE, NUM_PAG_DATA) else UserTable(0, 0)
  {
    seq(NR_TASKS, p => if p == TASK1 then UserTable(NUM_PAG_CODE, NUM_PAG_DATA) else UserTable(0, 0))
  }

  function BootShared(): (s: seq<SharedPage>)
    ensures |s| == NUM_SHARED_PAGES
    ensures forall k :: 0 <= k < NUM_SHARED_PAGES ==> s[k] == SharedPage(SharedFrame(k), 0, false)
  {
    seq(NUM_SHARED_PAGES, k requires 0 <= k => SharedPage(SharedFrame(k), 0, false))
  }

  function BootMem(ram: seq<Page>): Mem {
    Mem(BootRefs(NUM_SHARED_PAGES + NUM_PAG_CODE + NUM_PAG_DATA), ram, BootTables(), BootShared())
  }

  /** What user programs find at boot: one process, nothing attached. */
  ghost function BootUser(ram: seq<Page>): User
    requires |ram| == TOTAL_PAGES
  {
    User(map[TASK1 := seq(NUM_PAG_DATA, i requires 0 <= i < NUM_PAG_DATA => ram[FIRST_DATA_FRAME + 2 * i])],
         seq(NUM_PAG_CODE, j requires 0 <= j < NUM_PAG_CODE => ram[CodeFrame(j)]),
         seq(NUM_SHARED_PAGES, k requires 0 <= k < NUM_SHARED_PAGES => ram[SharedFrame(k)]),
         map[],
         seq(NUM_SHARED_PAGES, _ => false), {}, {})
  }

  /** The boot state meets every invariant and shows user programs what it should. */
  lemma BootRefines(ram: seq<Page>)
    requires |ram| == TOTAL_PAGES
    ensures Refines(BootMem(ram), BootUser(ram))
  {
    var m := BootMem(ram);
    var a := BootUser(ram);
    BootShape(ram);
    BootCounts(ram);
    assert forall k: nat :: Attached(a, k) == {};
    assert AttOk(m, a);
    assert Frozen(m);
    assert PrivOk(m, a) by {
      forall p | Task(p)
        ensures PrivTask(m, a, p)
      {
        assert p == TASK1 ==> Full(m, p);
      }
    }
  }

  lemma BootShape(ram: seq<Page>)
    requires |ram| == TOTAL_PAGES
    ensures Shape(BootMem(ram))
  {
    forall p | 0 <= p < NR_TASKS
      ensures TableShape(BootMem(ram).tables[p])
    {
    }
  }

  lemma BootCounts(ram: seq<Page>)
    requires |ram| == TOTAL_PAGES
    ensures Core(BootMem(ram))
  {
    BootShape(ram);
    var m := BootMem(ram);
    forall p, i | Slot(p, i)
      ensures Entry(m, p, i) == if p == TASK1 then DataPte(i) else NO_ENTRY
    {
    }
    forall f: nat | NUM_PAG_KERNEL <= f < TOTAL_PAGES
      ensures m.refs[f] == FixedRefs(f) + |Mappers(m, f)|
    {
      var i := (f - FIRST_DATA_FRAME) / 2;
      if FIRST_DATA_FRAME <= f && f % 2 == 0 && i < NUM_PAG_DATA {
        assert f == FIRST_DATA_FRAME + 2 * i;
        assert (TASK1 as nat, i) in Slots();
        assert Mappers(m, f) == {(TASK1 as nat, i)} by {
          forall x | x in Slots()
            ensures x in Mappers(m, f) <==> x == (TASK1 as nat, i)
          {
            assert Slot(x.0, x.1);
          }
        }
      } else {
        assert Mappers(m, f) == {} by {
          forall x | x in Slots()
            ensures x !in Mappers(m, f)
          {
            assert Slot(x.0, x.1);
          }
        }
      }
    }
  }
}

/** Shared-page accounting over whole runs, and what the shared-page calls
    promise and do not promise. */
module SharedPages {
  import opened Common
  import opened Paging
  import opened PagingInvariant
  import opened UserMemory
  import opened PagingRefinement
  import opened PagingRuns

  /** Entries above the user image, over all ten tables, that map `frame`. */
  ghost function EntriesOn(m: Mem, frame: nat): set<(nat, nat)>
    requires Shape(m)
  {
    set p: nat, pg: nat | p < NR_TASKS && USER_LAST_PAGE <= pg < TOTAL_PAGES &&
                          m.tables[p][pg] != NO_ENTRY && m.tables[p][pg].frame == frame :: (p, pg)
  }

  /** Shared-page accounting: after any run, `num_refs` of a page is the number of
      entries that map its frame. Exit takes no part in it: the entries of an
      exited process stay, and stay counted. */
  lemma ReachableRefs(cow: bool, m: Mem, a: User, ops: seq<Op>, id: nat)
    requires Refines(m, a) && Behaved(cow, a, ops) && Run(cow, m, ops).Some? && id < NUM_SHARED_PAGES
    ensures var r := Run(cow, m, ops).value.0;
            Shape(r) && r.shared[id].numRefs == |EntriesOn(r, r.shared[id].frame)|
  {
    RunRefines(cow, m, a, ops);
    RefsCountEntries(Run(cow, m, ops).value.0, UserRun(cow, a, ops).value.0, id);
  }

  lemma RefsCountEntries(m: Mem, a: User, id: nat)
    requires Core(m) && UserShape(a) && AttOk(m, a) && SharedFrames(m) && id < NUM_SHARED_PAGES
    ensures m.shared[id].numRefs == |EntriesOn(m, m.shared[id].frame)|
  {
    assert Attached(a, id) == EntriesOn(m, SharedFrame(id)) by {
      forall p: nat, pg: nat | p < NR_TASKS && USER_LAST_PAGE <= pg < TOTAL_PAGES
        ensures (p, pg) in Attached(a, id) <==> (p, pg) in EntriesOn(m, SharedFrame(id))
      {
        assert UpperOk(m, a, p, pg);
        if (p, pg) in a.taken {
          LeakAlone(m, a, m.tables[p][pg]);
        }
      }
    }
  }

  /** Detaching works on exactly the attached pages other than shared page 0: the
      answer "not shared" of `is_frame_shared` is also that page's id. */
  lemma DetachIff(m: Mem, a: User, p: nat, addr: nat)
    requires Refines(m, a) && Enabled(a, ShmDt(p, addr))
    ensures Shmdt(m, p, addr).1 == 0 <==>
            addr % PAGE_SIZE == 0 && (p, addr / PAGE_SIZE) in a.att && a.att[(p, addr / PAGE_SIZE)] != 0
  {
    ShmdtSim(m, a, p, addr);
  }

  /** The number of attachments of page `id` falls only when a detach takes one
      away, never for page 0; and when the last one of a page marked by shmrm
      goes, the page is left all zero. */
  lemma DropsOnDetach(cow: bool, m: Mem, a: User, op: Op, id: nat)
    requires Refines(m, a) && Enabled(a, op) && InRange(op) && Step(cow, m, op).Some? && id < NUM_SHARED_PAGES
    ensures var r := Step(cow, m, op).value.0;
            r.shared[id].numRefs < m.shared[id].numRefs ==>
              && op.ShmDt? && id != 0
              && r.shared[id].numRefs == m.shared[id].numRefs - 1
              && (r.shared[id].numRefs == 0 && m.shared[id].toClear ==> r.ram[SharedFrame(id)] == ZeroPage())
  {
    StepRefines(cow, m, a, op);
    AttachmentsDrop(cow, a, op, id);
  }

  /** The same in the specification's terms. */
  lemma AttachmentsDrop(cow: bool, a: User, op: Op, id: nat)
    requires UserShape(a) && Enabled(a, op) && UserStep(cow, a, op).Some? && id < NUM_SHARED_PAGES
    ensures var b := UserStep(cow, a, op).value.0;
            |Attached(b, id)| < |Attached(a, id)| ==>
              && op.ShmDt? && id != 0
              && |Attached(b, id)| == |Attached(a, id)| - 1
              && (|Attached(b, id)| == 0 && a.clear[id] ==> b.shm[id] == ZeroPage())
  {
    match op
    case ShmAt(p, at, addr) => AttachDropsNone(a, p, at, addr, id);
    case ShmDt(p, addr) => DetachDrops(a, p, addr, id);
    case _ => assert !op.ShmAt? && !op.ShmDt? ==> Attached(UserStep(cow, a, op).value.0, id) == Attached(a, id);
  }

  lemma AttachDropsNone(a: User, p: nat, at: int, addr: nat, id: nat)
    requires UserShape(a) && p < NR_TASKS && addr / PAGE_SIZE < TOTAL_PAGES
    ensures |Attached(UserAttach(a, p, at, addr).0, id)| >= |Attached(a, id)|
  {
    FreeFromRange(a, p, USER_LAST_PAGE);
    var (b, o) := UserAttach(a, p, at, addr);
    if o >= 0 {
      AttachCounts(a, (p, o / PAGE_SIZE), at);
    }
  }

  lemma DetachDrops(a: User, p: nat, addr: nat, id: nat)
    requires UserShape(a) && p < NR_TASKS && addr / PAGE_SIZE < TOTAL_PAGES && id < NUM_SHARED_PAGES
    ensures var b := UserDetach(a, p, addr).0;
            |Attached(b, id)| < |Attached(a, id)| ==>
              && id != 0
              && |Attached(b, id)| == |Attached(a, id)| - 1
              && (|Attached(b, id)| == 0 && a.clear[id] ==> b.shm[id] == ZeroPage())
  {
    var (b, o) := UserDetach(a, p, addr);
    if o == 0 {
      var x := (p, addr / PAGE_SIZE);
      DetachCounts(a, b.att, x, a.att[x]);
      assert Attached(b, id) == Attached(a.(att := b.att), id);
    }
  }

  /** Over a whole run shared page 0 collects attachments and never loses one. */
  lemma {:induction false} PageZeroOnlyGrows(cow: bool, m: Mem, a: User, ops: seq<Op>)
    requires Refines(m, a) && Behaved(cow, a, ops) && Run(cow, m, ops).Some?
    ensures Shape(Run(cow, m, ops).value.0)
    ensures Run(cow, m, ops).value.0.shared[0].numRefs >= m.shared[0].numRefs
    decreases ops
  {
    if ops == [] {
    } else {
      StepRefines(cow, m, a, ops[0]);
      DropsOnDetach(cow, m, a, ops[0], 0);
      var r := Step(cow, m, ops[0]).value.0;
      var b := UserStep(cow, a, ops[0]).value.0;
      PageZeroOnlyGrows(cow, r, b, ops[1..]);
      RunRefines(cow, m, a, ops);
    }
  }
}

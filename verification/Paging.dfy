/** The state behind zeos/mm.c - reference bytes, frame contents, one page table
    per task and the shared-page table - and each kernel operation on it as a
    function from state to state, branch for branch as the C code has it. */
module Paging {
  import opened Common

  const TOTAL_PAGES := 1024
  const NUM_PAG_KERNEL := 256
  const NUM_PAG_DATA := 20
  const NUM_PAG_CODE := 8
  const DATA := 256              // PAG_LOG_INIT_DATA and USER_FIRST_PAGE
  const CODE := 276              // PAG_LOG_INIT_CODE
  const USER_LAST_PAGE := 284
  const NUM_SHARED_PAGES := 10
  const PAGE_SIZE := 4096

  newtype byte = x: int | 0 <= x < 256

  type Page = s: seq<byte> | |s| == PAGE_SIZE witness ZeroPage()

  function ZeroPage(): (z: seq<byte>)
    ensures |z| == PAGE_SIZE
  {
    seq(PAGE_SIZE, _ => 0)
  }

  /** The bits of a page-table entry the kernel reads or writes. */
  datatype Pte = Pte(frame: nat, rw: bool, user: bool, present: bool)

  /** `entry == 0` */
  const NO_ENTRY := Pte(0, false, false, false)

  /** What `set_ss_pag` stores. */
  function UserPte(frame: nat): Pte { Pte(frame, true, true, true) }

  datatype SharedPage = SharedPage(frame: nat, numRefs: int, toClear: bool)

  type Table = seq<Pte>

  datatype Mem = Mem(refs: seq<int>, ram: seq<Page>, tables: seq<Table>, shared: seq<SharedPage>)

  ghost predicate TableShape(t: Table) {
    |t| == TOTAL_PAGES && forall pg :: 0 <= pg < TOTAL_PAGES ==> t[pg].frame < TOTAL_PAGES
  }

  ghost predicate Shape(m: Mem) {
    && |m.refs| == |m.ram| == TOTAL_PAGES
    && |m.tables| == NR_TASKS
    && |m.shared| == NUM_SHARED_PAGES
    && (forall p :: 0 <= p < NR_TASKS ==> TableShape(m.tables[p]))
    && (forall k :: 0 <= k < NUM_SHARED_PAGES ==> m.shared[k].frame < TOTAL_PAGES)
  }

  ghost predicate Task(p: int) { 0 <= p < NR_TASKS }

  // ---- mm.c ----------------------------------------------------------------

  /** First free frame at or after `i`, stepping over the intended holes, or -1. */
  function FirstFree(refs: seq<int>, i: nat): int
    requires |refs| == TOTAL_PAGES
    decreases TOTAL_PAGES - i
  {
    if i >= TOTAL_PAGES then -1
    else if refs[i] == 0 then i
    else FirstFree(refs, i + 2)
  }

  /** First empty logical page at or after `pg`, or -1. */
  function FreePageFrom(t: Table, pg: nat): int
    requires |t| == TOTAL_PAGES
    decreases TOTAL_PAGES - pg
  {
    if pg >= TOTAL_PAGES then -1
    else if t[pg] == NO_ENTRY then pg
    else FreePageFrom(t, pg + 1)
  }

  /** `get_user_free_page` */
  function FreePage(t: Table): int
    requires |t| == TOTAL_PAGES
  {
    FreePageFrom(t, USER_LAST_PAGE)
  }

  /** `is_frame_shared`: the id owning `frame`, and 0 when there is none. */
  function SharedId(shared: seq<SharedPage>, frame: nat, k: nat): int
    decreases |shared| - k
  {
    if k >= |shared| then 0
    else if shared[k].frame == frame then k
    else SharedId(shared, frame, k + 1)
  }

  function SetPte(m: Mem, p: nat, pg: nat, e: Pte): (r: Mem)
    requires Shape(m) && p < NR_TASKS && pg < TOTAL_PAGES && e.frame < TOTAL_PAGES
    ensures Shape(r)
  {
    m.(tables := m.tables[p := m.tables[p][pg := e]])
  }

  /** One more reference, in a Byte. */
  function Retain(m: Mem, f: nat): (r: Mem)
    requires Shape(m) && f < TOTAL_PAGES
    ensures Shape(r)
  {
    m.(refs := m.refs[f := (m.refs[f] + 1) % 256])
  }

  /** One reference less, in a Byte. */
  function Release(m: Mem, f: nat): (r: Mem)
    requires Shape(m) && f < TOTAL_PAGES
    ensures Shape(r)
  {
    m.(refs := m.refs[f := (m.refs[f] - 1) % 256])
  }

  /** `free_frame`: frame 256 itself is never released. */
  function FreeFrame(m: Mem, f: nat): (r: Mem)
    requires Shape(m)
    ensures Shape(r)
  {
    if NUM_PAG_KERNEL < f < TOTAL_PAGES then Release(m, f) else m
  }

  /** Copies the contents of one frame to another. */
  function CopyFrame(m: Mem, from: nat, to: nat): (r: Mem)
    requires Shape(m) && from < TOTAL_PAGES && to < TOTAL_PAGES
    ensures Shape(r)
  {
    m.(ram := m.ram[to := m.ram[from]])
  }

  /** One round of `free_user_pages`. */
  function FreeOne(m: Mem, p: nat, i: nat): (r: Mem)
    requires Shape(m) && p < NR_TASKS && i < NUM_PAG_DATA
    ensures Shape(r)
  {
    SetPte(FreeFrame(m, m.tables[p][DATA + i].frame), p, DATA + i, NO_ENTRY)
  }

  /** `free_user_pages` after its first `k` rounds. */
  function FreeData(m: Mem, p: nat, k: nat): (r: Mem)
    requires Shape(m) && p < NR_TASKS && k <= NUM_PAG_DATA
    ensures Shape(r)
  {
    if k == 0 then m else FreeOne(FreeData(m, p, k - 1), p, k - 1)
  }

  // ---- fork ------------------------------------------------------------------

  /** The child table once the kernel and code entries are copied. */
  function CodeCopied(parent: Table, child: Table): (t: Table)
    requires |parent| == |child| == TOTAL_PAGES
    ensures |t| == TOTAL_PAGES
    ensures forall pg :: 0 <= pg < TOTAL_PAGES ==> t[pg] == if pg < DATA || CODE <= pg < USER_LAST_PAGE then parent[pg] else child[pg]
  {
    seq(TOTAL_PAGES, pg requires 0 <= pg < TOTAL_PAGES =>
      if pg < DATA || CODE <= pg < USER_LAST_PAGE then parent[pg] else child[pg])
  }

  function CopyKernelCode(m: Mem, p: nat, c: nat): (r: Mem)
    requires Shape(m) && p < NR_TASKS && c < NR_TASKS
    ensures Shape(r)
  {
    var t := CodeCopied(m.tables[p], m.tables[c]);
    assert TableShape(t) by { assert TableShape(m.tables[p]) && TableShape(m.tables[c]); }
    m.(tables := m.tables[c := t])
  }

  /** One round of the copy-on-write loop: share the frame, then drop both write bits. */
  function ShareOne(m: Mem, p: nat, c: nat, i: nat): (r: Mem)
    requires Shape(m) && p < NR_TASKS && c < NR_TASKS && i < NUM_PAG_DATA
    ensures Shape(r)
  {
    var e := m.tables[p][DATA + i];
    assert e.frame < TOTAL_PAGES by { assert TableShape(m.tables[p]); }
    var m1 := Retain(m, e.frame);
    SetPte(SetPte(m1, c, DATA + i, e.(rw := false)), p, DATA + i, e.(rw := false))
  }

  function ShareData(m: Mem, p: nat, c: nat, k: nat): (r: Mem)
    requires Shape(m) && p < NR_TASKS && c < NR_TASKS && k <= NUM_PAG_DATA
    ensures Shape(r)
  {
    if k == 0 then m else ShareOne(ShareData(m, p, c, k - 1), p, c, k - 1)
  }

  /** `sys_fork` with USE_COW: the part that touches memory. */
  function ForkLazy(m: Mem, p: nat, c: nat): (r: Mem)
    requires Shape(m) && p < NR_TASKS && c < NR_TASKS
    ensures Shape(r)
  {
    ShareData(CopyKernelCode(m, p, c), p, c, NUM_PAG_DATA)
  }

  /** How the reservation loop of the eager fork stands: still going, out of
      logical pages, or out of frames. */
  datatype Status = Going | NoPage | NoFrame

  /** Memory and `free_pt_pages` after some rounds of the reservation loop. */
  datatype Reserved = Reserved(m: Mem, pages: seq<nat>, status: Status)

  ghost predicate ReservedShape(r: Reserved) {
    Shape(r.m) && (forall j :: 0 <= j < |r.pages| ==> USER_LAST_PAGE <= r.pages[j] < TOTAL_PAGES)
  }

  function ReserveOne(m: Mem, pages: seq<nat>, p: nat, c: nat, i: nat): (r: Reserved)
    requires ReservedShape(Reserved(m, pages, Going)) && p < NR_TASKS && c < NR_TASKS && i < NUM_PAG_DATA
    ensures ReservedShape(r)
    ensures r.status == Going ==> |r.pages| == |pages| + 1
  {
    FreePageRange(m.tables[p], USER_LAST_PAGE);
    FirstFreeRange(m.refs, NUM_PAG_KERNEL);
    var fp := FreePage(m.tables[p]);
    var f := FirstFree(m.refs, NUM_PAG_KERNEL);
    if fp < 0 then Reserved(m, pages, NoPage)
    else if f < 0 then Reserved(FreeData(m, c, NUM_PAG_DATA), pages, NoFrame)
    else
      Reserved(SetPte(SetPte(Retain(m, f), p, fp, UserPte(f)), c, DATA + i, UserPte(f)), pages + [fp], Going)
  }

  function Reserve(m: Mem, p: nat, c: nat, k: nat): (r: Reserved)
    requires Shape(m) && p < NR_TASKS && c < NR_TASKS && k <= NUM_PAG_DATA
    ensures ReservedShape(r)
    ensures r.status == Going ==> |r.pages| == k
  {
    if k == 0 then Reserved(m, [], Going)
    else
      var r := Reserve(m, p, c, k - 1);
      if r.status != Going then r else ReserveOne(r.m, r.pages, p, c, k - 1)
  }

  /** One round of the copy loop: the parent's page `i`, through the logical page `fp`. */
  function CopyOne(m: Mem, p: nat, fp: nat, i: nat): (r: Mem)
    requires Shape(m) && p < NR_TASKS && fp < TOTAL_PAGES && i < NUM_PAG_DATA
    ensures Shape(r)
  {
    assert TableShape(m.tables[p]);
    SetPte(CopyFrame(m, m.tables[p][DATA + i].frame, m.tables[p][fp].frame), p, fp, NO_ENTRY)
  }

  function CopyAll(m: Mem, p: nat, pages: seq<nat>, k: nat): (r: Mem)
    requires Shape(m) && p < NR_TASKS && k <= |pages| && k <= NUM_PAG_DATA
    requires forall j :: 0 <= j < |pages| ==> pages[j] < TOTAL_PAGES
    ensures Shape(r)
  {
    if k == 0 then m else CopyOne(CopyAll(m, p, pages, k - 1), p, pages[k - 1], k - 1)
  }

  /** `sys_fork` without USE_COW. A fork that runs out returns -ENOMEM on the
      spot: the status says why and nothing is rolled back. */
  function ForkEager(m: Mem, p: nat, c: nat): (r: (Mem, Status))
    requires Shape(m) && p < NR_TASKS && c < NR_TASKS
    ensures Shape(r.0)
  {
    var r := Reserve(CopyKernelCode(m, p, c), p, c, NUM_PAG_DATA);
    if r.status != Going then (r.m, r.status)
    else (CopyAll(r.m, p, r.pages, NUM_PAG_DATA), Going)
  }

  // ---- page fault ------------------------------------------------------------

  function IsCowPage(t: Table, pg: nat): bool
    requires pg < |t|
  {
    t[pg] != NO_ENTRY && !t[pg].rw
  }

  /** `pgf_routine`; None is its error branch, which prints and loops forever. */
  function Fault(m: Mem, p: nat, pg: nat): (r: Option<Mem>)
    requires Shape(m) && p < NR_TASKS && pg < TOTAL_PAGES
    ensures r.Some? ==> Shape(r.value)
  {
    var t := m.tables[p];
    assert TableShape(t);
    FreePageRange(t, USER_LAST_PAGE);
    FirstFreeRange(m.refs, NUM_PAG_KERNEL);
    var fp := FreePage(t);
    var f := FirstFree(m.refs, NUM_PAG_KERNEL);
    if !IsCowPage(t, pg) then None
    else if m.refs[t[pg].frame] == 1 then Some(SetPte(m, p, pg, t[pg].(rw := true)))
    else if fp < 0 || f < 0 then None
    else
      var m1 := SetPte(Retain(m, f), p, fp, UserPte(f));
      var m2 := CopyFrame(m1, t[pg].frame, f);
      var m3 := Release(m2, t[pg].frame);
      Some(SetPte(SetPte(m3, p, pg, UserPte(f)), p, fp, NO_ENTRY))
  }

  // ---- shared pages ----------------------------------------------------------

  /** `sys_shmat`: the logical page is the one asked for when it is empty, and
      otherwise the first empty one. */
  function Shmat(m: Mem, p: nat, id: int, addr: nat): (r: (Mem, int))
    requires Shape(m) && p < NR_TASKS && addr / PAGE_SIZE < TOTAL_PAGES
    ensures Shape(r.0)
  {
    if id < 0 || id > 9 then (m, -ENOSHR)
    else if addr != 0 && addr % PAGE_SIZE != 0 then (m, -EFAULT)
    else
      var t := m.tables[p];
      FreePageRange(t, USER_LAST_PAGE);
      var pg := if addr == 0 || t[addr / PAGE_SIZE] != NO_ENTRY then FreePage(t) else addr / PAGE_SIZE;
      if pg == -1 then (m, -ENOMEM)
      else
        var m1 := SetPte(m, p, pg, UserPte(m.shared[id].frame));
        (m1.(shared := m.shared[id := m.shared[id].(numRefs := m.shared[id].numRefs + 1)]), pg * PAGE_SIZE)
  }

  /** `sys_shmdt` */
  function Shmdt(m: Mem, p: nat, addr: nat): (r: (Mem, int))
    requires Shape(m) && p < NR_TASKS && addr / PAGE_SIZE < TOTAL_PAGES
    ensures Shape(r.0)
  {
    if addr == 0 then (m, -EINVAL)
    else if addr % PAGE_SIZE != 0 then (m, -EFAULT)
    else
      var pg := addr / PAGE_SIZE;
      var t := m.tables[p];
      assert TableShape(t);
      if t[pg] == NO_ENTRY then (m, -ENOSHR)
      else
        var id := SharedId(m.shared, t[pg].frame, 0);
        SharedIdRange(m.shared, t[pg].frame, 0);
        if id == 0 then (m, -ENOSHR)
        else
          var sp := m.shared[id].(numRefs := m.shared[id].numRefs - 1);
          var m1 := m.(shared := m.shared[id := sp]);
          var m2 := if sp.numRefs == 0 && sp.toClear then m1.(ram := m1.ram[t[pg].frame := ZeroPage()]) else m1;
          (SetPte(m2, p, pg, NO_ENTRY), 0)
  }

  /** `sys_shmrm` only marks the page. */
  function Shmrm(m: Mem, id: int): (r: (Mem, int))
    requires Shape(m)
    ensures Shape(r.0)
  {
    if id < 0 || id > 9 then (m, -ENOSHR)
    else (m.(shared := m.shared[id := m.shared[id].(toClear := true)]), 0)
  }

  // ---- what the searches return ----------------------------------------------

  /** The search for a frame returns the least free one it can see, and -1
      exactly when it sees none. */
  lemma {:induction false} FirstFreeRange(refs: seq<int>, i: nat)
    requires |refs| == TOTAL_PAGES
    ensures var f := FirstFree(refs, i);
            if f < 0 then f == -1 && (forall g :: i <= g < TOTAL_PAGES && (g - i) % 2 == 0 ==> refs[g] != 0)
            else i <= f < TOTAL_PAGES && (f - i) % 2 == 0 && refs[f] == 0
                 && (forall g :: i <= g < f && (g - i) % 2 == 0 ==> refs[g] != 0)
    decreases TOTAL_PAGES - i
  {
    if i < TOTAL_PAGES && refs[i] != 0 {
      FirstFreeRange(refs, i + 2);
    }
  }

  /** The search for a logical page returns the least empty one, and -1 exactly
      when there is none. */
  lemma {:induction false} FreePageRange(t: Table, pg: nat)
    requires |t| == TOTAL_PAGES
    ensures var r := FreePageFrom(t, pg);
            if r < 0 then r == -1 && (forall q :: pg <= q < TOTAL_PAGES ==> t[q] != NO_ENTRY)
            else pg <= r < TOTAL_PAGES && t[r] == NO_ENTRY && (forall q :: pg <= q < r ==> t[q] != NO_ENTRY)
    decreases TOTAL_PAGES - pg
  {
    if pg < TOTAL_PAGES && t[pg] != NO_ENTRY {
      FreePageRange(t, pg + 1);
    }
  }

  lemma {:induction false} SharedIdRange(shared: seq<SharedPage>, frame: nat, k: nat)
    ensures var id := SharedId(shared, frame, k);
            && 0 <= id <= |shared|
            && (id != 0 ==> k <= id < |shared| && shared[id].frame == frame)
            && (id == 0 ==> (k == 0 < |shared| && shared[0].frame == frame)
                            || (forall j :: k <= j < |shared| ==> shared[j].frame != frame))
    decreases |shared| - k
  {
    if k < |shared| && shared[k].frame != frame {
      SharedIdRange(shared, frame, k + 1);
    }
  }
}

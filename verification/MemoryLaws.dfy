/** What user programs see of memory, in terms of what their loads read: after every
    reachable state the laws of private, common and shared pages. */
module MemoryLaws {
  import opened Common
  import opened Paging
  import opened PagingInvariant
  import opened PagingBoot
  import opened UserMemory
  import opened PagingRefinement
  import opened PagingRuns

  // ---- boot, in numbers ------------------------------------------------------------------

  /** Frames and entries at boot: the kernel's frames and the first thirty-eight even
      ones above them are taken; shared pages come first, then the read-only code and
      the writable data of process 1. */
  lemma BootLayout(ram: seq<Page>)
    requires |ram| == 1024
    ensures var m := BootMem(ram);
            && (forall f :: 0 <= f < 1024 ==> m.refs[f] == if f < 256 || (f < 332 && f % 2 == 0) then 1 else 0)
            && (forall k :: 0 <= k < 10 ==> m.shared[k] == SharedPage(256 + 2 * k, 0, false))
            && (forall pg :: 276 <= pg < 284 ==> m.tables[8][pg] == Pte(276 + 2 * (pg - 276), false, true, true))
            && (forall pg :: 256 <= pg < 276 ==> m.tables[8][pg] == Pte(292 + 2 * (pg - 256), true, true, true))
            && (forall p, pg :: 0 <= p < 10 && 256 <= pg < 1024 && (p != 8 || 284 <= pg) ==>
                  m.tables[p][pg] == Pte(0, false, false, false))
  {
  }

  /** In every reachable state every table maps the kernel's pages on the frames of the
      same number, writable and not for users - and page 0 not at all. */
  lemma KernelMapped(cow: bool, m: Mem, a: User, ops: seq<Op>, p: nat, pg: nat)
    requires Refines(m, a) && Behaved(cow, a, ops) && Run(cow, m, ops).Some? && p < 10 && pg < 256
    ensures var r := Run(cow, m, ops).value.0;
            && Shape(r) && |r.tables[p]| == 1024
            && r.tables[p][pg].present == (pg != 0)
            && (pg != 0 ==> r.tables[p][pg].frame == pg && r.tables[p][pg].rw && !r.tables[p][pg].user)
  {
    RunRefines(cow, m, a, ops);
    var r := Run(cow, m, ops).value.0;
    assert Task(p) && r.tables[p][pg] == KernelPte(pg);
  }

  /** And so at boot, where every run starts. */
  lemma KernelMappedAtBoot(ram: seq<Page>, p: nat, pg: nat)
    requires |ram| == 1024 && p < 10 && pg < 256
    ensures var e := BootMem(ram).tables[p][pg];
            e.present == (pg != 0) && (pg != 0 ==> e.frame == pg && e.rw && !e.user)
  {
  }

  // ---- answers in numbers ------------------------------------------------------------------

  lemma AttachErrors(m: Mem, p: nat, id: int, addr: nat)
    requires Shape(m) && p < NR_TASKS && addr / PAGE_SIZE < TOTAL_PAGES
    ensures !(0 <= id < 10) ==> Shmat(m, p, id, addr) == (m, -45)
    ensures 0 <= id < 10 && addr % 4096 != 0 ==> Shmat(m, p, id, addr) == (m, -14)
    ensures 0 <= id < 10 && addr == 0 && FreePage(m.tables[p]) == -1 ==> Shmat(m, p, id, addr) == (m, -12)
  {
    assert TableShape(m.tables[p]);
  }

  lemma DetachErrors(m: Mem, p: nat, addr: nat)
    requires Shape(m) && p < NR_TASKS && addr / PAGE_SIZE < TOTAL_PAGES
    ensures addr == 0 ==> Shmdt(m, p, addr) == (m, -22)
    ensures addr % 4096 != 0 ==> Shmdt(m, p, addr) == (m, -14)
    ensures addr != 0 && addr % 4096 == 0 && Shmdt(m, p, addr).1 != 0 ==> Shmdt(m, p, addr) == (m, -45)
  {
    assert TableShape(m.tables[p]);
  }

  lemma RemoveErrors(m: Mem, id: int)
    requires Shape(m)
    ensures Shmrm(m, id).1 == if 0 <= id < 10 then 0 else -45
    ensures Shmrm(m, id).0 == if 0 <= id < 10 then m.(shared := m.shared[id := m.shared[id].(toClear := true)]) else m
  {
  }

  // ---- loads -------------------------------------------------------------------------------

  /** What a load of process `p` reads; None if it has no such page. */
  function Reads(m: Mem, p: nat, pg: nat, off: nat): Option<int>
    requires Shape(m) && p < NR_TASKS && pg < TOTAL_PAGES && off < PAGE_SIZE
  {
    var s := Step(true, m, Load(p, pg, off));
    if s.Some? then Some(s.value.1) else None
  }

  /** Loads change nothing, and read the same under both settings. */
  lemma LoadsOnlyRead(cow: bool, m: Mem, p: nat, pg: nat, off: nat)
    requires Shape(m) && p < NR_TASKS && pg < TOTAL_PAGES && off < PAGE_SIZE
    ensures Step(cow, m, Load(p, pg, off)) ==
              if Reads(m, p, pg, off).Some? then Some((m, Reads(m, p, pg, off).value)) else None
  {
  }

  lemma ReadsSeen(m: Mem, a: User, p: nat, pg: nat, off: nat)
    requires Refines(m, a) && p in a.priv && pg < TOTAL_PAGES && off < PAGE_SIZE
    ensures p < NR_TASKS
    ensures Accessible(a, p, pg) ==> Reads(m, p, pg, off) == Some(Seen(a, p, pg)[off] as int)
    ensures Reads(m, p, pg, off).None? <==> !Accessible(a, p, pg) && (p, pg) !in a.taken
  {
    AccessSim(m, a, p, pg);
  }

  // ---- stores ------------------------------------------------------------------------------

  /** A byte stored is read back, and the others of its page are as they were. */
  lemma StoreReadBack(cow: bool, m: Mem, r: Mem, a: User, p: nat, pg: nat, off: nat, v: byte, at: nat)
    requires Refines(m, a) && Enabled(a, Store(p, pg, off, v)) && Accessible(a, p, pg) && at < PAGE_SIZE && p < NR_TASKS
    requires Step(cow, m, Store(p, pg, off, v)) == Some((r, 0))
    ensures Shape(r) && Reads(r, p, pg, at) == if at == off then Some(v as int) else Reads(m, p, pg, at)
  {
    StoreSim(m, r, a, p, pg, off, v);
    var b := Written(a, p, pg, Seen(a, p, pg)[off := v]);
    ReadsSeen(m, a, p, pg, at);
    ReadsSeen(r, b, p, pg, at);
  }

  /** A store in a data page is read by nobody else, and nowhere else. */
  lemma StorePrivate(cow: bool, m: Mem, r: Mem, a: User, p: nat, pg: nat, off: nat, v: byte, q: nat, other: nat, at: nat)
    requires Refines(m, a) && Enabled(a, Store(p, pg, off, v)) && 256 <= pg < 276 && p < NR_TASKS
    requires Step(cow, m, Store(p, pg, off, v)) == Some((r, 0))
    requires q in a.priv && Accessible(a, q, other) && other < TOTAL_PAGES && at < PAGE_SIZE && (q, other) != (p, pg)
    ensures Shape(r) && q < NR_TASKS && Reads(r, q, other, at) == Reads(m, q, other, at)
  {
    StoreSim(m, r, a, p, pg, off, v);
    var b := Written(a, p, pg, Seen(a, p, pg)[off := v]);
    ReadsSeen(m, a, q, other, at);
    ReadsSeen(r, b, q, other, at);
  }

  /** Two attachments of one shared page read the same, and a store through one is read
      through the other. */
  lemma StoreShared(cow: bool, m: Mem, r: Mem, a: User, p: nat, pg: nat, off: nat, v: byte, q: nat, other: nat, at: nat)
    requires Refines(m, a) && Enabled(a, Store(p, pg, off, v)) && p < NR_TASKS && at < PAGE_SIZE
    requires q in a.priv && (p, pg) in a.att && (q, other) in a.att && a.att[(p, pg)] == a.att[(q, other)]
    requires Step(cow, m, Store(p, pg, off, v)) == Some((r, 0))
    ensures Shape(r) && q < NR_TASKS && other < TOTAL_PAGES
    ensures Reads(m, q, other, at) == Reads(m, p, pg, at)
    ensures Reads(r, q, other, at) == if at == off then Some(v as int) else Reads(m, q, other, at)
  {
    StoreSim(m, r, a, p, pg, off, v);
    var b := Written(a, p, pg, Seen(a, p, pg)[off := v]);
    ReadsSeen(m, a, p, pg, at);
    ReadsSeen(m, a, q, other, at);
    ReadsSeen(r, b, q, other, at);
  }

  // ---- fork and exit -----------------------------------------------------------------------

  /** After a fork that answers 0 the child reads in its image what its parent reads, and
      everybody else reads what they read before. */
  lemma ForkReads(cow: bool, m: Mem, r: Mem, a: User, p: nat, c: nat, q: nat, pg: nat, off: nat)
    requires Refines(m, a) && Enabled(a, Fork(p, c)) && p < NR_TASKS && c < NR_TASKS && off < PAGE_SIZE && pg < TOTAL_PAGES
    requires Step(cow, m, Fork(p, c)) == Some((r, 0)) && q in a.priv && Accessible(a, q, pg)
    ensures Shape(r) && q < NR_TASKS && Reads(r, q, pg, off) == Reads(m, q, pg, off)
    ensures 256 <= pg < 284 ==> Reads(r, c, pg, off) == Reads(m, p, pg, off) && Reads(m, p, pg, off).Some?
  {
    ForkRefines(cow, m, a, p, c);
    var b := a.(priv := a.priv[c := a.priv[p]]);
    ReadsSeen(m, a, q, pg, off);
    ReadsSeen(r, b, q, pg, off);
    if 256 <= pg < 284 {
      ReadsSeen(m, a, p, pg, off);
      ReadsSeen(r, b, c, pg, off);
    }
  }

  /** After a fork that answers -12, or an exit, everybody left reads what they read before. */
  lemma OthersRead(cow: bool, m: Mem, r: Mem, a: User, op: Op, o: int, q: nat, pg: nat, off: nat)
    requires Refines(m, a) && Enabled(a, op) && InRange(op) && Step(cow, m, op) == Some((r, o))
    requires (op.Fork? && o == -12) || (op.Exit? && q != op.p)
    requires q in a.priv && Accessible(a, q, pg) && off < PAGE_SIZE && pg < TOTAL_PAGES
    ensures Shape(r) && q < NR_TASKS && Reads(r, q, pg, off) == Reads(m, q, pg, off)
  {
    StepRefines(cow, m, a, op);
    var b := UserStep(cow, a, op).value.0;
    ReadsSeen(m, a, q, pg, off);
    ReadsSeen(r, b, q, pg, off);
  }

  // ---- attaching and detaching ---------------------------------------------------------------

  /** After an attachment its page is there, reads what any other attachment of the same
      shared page reads, and was not there before. */
  lemma AttachReads(cow: bool, m: Mem, r: Mem, a: User, p: nat, id: int, addr: nat, x: int, off: nat)
    requires Refines(m, a) && Enabled(a, ShmAt(p, id, addr)) && p < NR_TASKS && off < PAGE_SIZE
    requires Step(cow, m, ShmAt(p, id, addr)) == Some((r, x)) && x >= 0
    ensures Shape(r) && x % 4096 == 0 && 284 <= x / 4096 < 1024 && 0 <= id < 10
    ensures Reads(m, p, x / 4096, off) == None
    ensures Reads(r, p, x / 4096, off) == Some(m.ram[256 + 2 * id][off] as int)
    ensures addr != 0 && 284 <= addr / 4096 && m.tables[p][addr / 4096] == NO_ENTRY ==> x == addr
  {
    ShmatSim(m, a, p, id, addr);
    FreeFromRange(a, p, USER_LAST_PAGE);
    var b := UserAttach(a, p, id, addr).0;
    var pg := x / 4096;
    if 284 <= addr / 4096 {
      assert UpperOk(m, a, p, addr / 4096);
      EmptyIsUnused(m, a, p, addr / 4096);
    }
    ReadsSeen(m, a, p, pg, off);
    ReadsSeen(r, b, p, pg, off);
    assert m.ram[SharedFrame(id)] == a.shm[id];
  }

  lemma EmptyIsUnused(m: Mem, a: User, p: nat, pg: nat)
    requires Refines(m, a) && Task(p) && USER_LAST_PAGE <= pg < TOTAL_PAGES
    ensures m.tables[p][pg] == NO_ENTRY <==> !Used(a, p, pg)
  {
    assert UpperOk(m, a, p, pg);
  }

  /** After a detachment its page is gone. */
  lemma DetachReads(cow: bool, m: Mem, r: Mem, a: User, p: nat, addr: nat, off: nat)
    requires Refines(m, a) && Enabled(a, ShmDt(p, addr)) && p < NR_TASKS && off < PAGE_SIZE
    requires Step(cow, m, ShmDt(p, addr)) == Some((r, 0))
    ensures Shape(r) && addr % 4096 == 0 && addr / 4096 < 1024 && Reads(m, p, addr / 4096, off).Some?
    ensures Reads(r, p, addr / 4096, off) == None
  {
    ShmdtSim(m, a, p, addr);
    var b := UserDetach(a, p, addr).0;
    ReadsSeen(m, a, p, addr / 4096, off);
    ReadsSeen(r, b, p, addr / 4096, off);
  }

  /** Attaching anywhere takes the first empty page above the image. */
  lemma AttachTakesFirst(m: Mem, p: nat, id: nat, x: int)
    requires Shape(m) && p < NR_TASKS && id < 10 && Shmat(m, p, id, 0).1 == x && x >= 0
    ensures 284 <= x / 4096 < 1024 && m.tables[p][x / 4096] == NO_ENTRY
    ensures forall pg :: 284 <= pg < x / 4096 ==> m.tables[p][pg] != NO_ENTRY
  {
    FreePageRange(m.tables[p], USER_LAST_PAGE);
  }

  /** A detachment clears the page it lets go exactly when that was the last attachment
      and shmrm has marked the page, and touches no other memory. */
  lemma DetachClears(cow: bool, m: Mem, r: Mem, a: User, p: nat, addr: nat, id: nat)
    requires Refines(m, a) && Enabled(a, ShmDt(p, addr)) && p < NR_TASKS && id < 10
    requires Step(cow, m, ShmDt(p, addr)) == Some((r, 0)) && m.tables[p][addr / 4096].frame == 256 + 2 * id
    ensures r.shared == m.shared[id := SharedPage(256 + 2 * id, m.shared[id].numRefs - 1, m.shared[id].toClear)]
    ensures r.ram == if m.shared[id].numRefs == 1 && m.shared[id].toClear then m.ram[256 + 2 * id := ZeroPage()] else m.ram
  {
    SharedIdOf(m, 256 + 2 * id);
    assert SharedFrame(id) == 256 + 2 * id;
  }
}

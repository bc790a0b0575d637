/** zeos/mm.c and the memory side of fork, exit, the page-fault handler and the
    shared-page calls, in place on the kernel's arrays. Every method is proved
    against the state function of the same operation in `Paging`. */
module MemoryManager {
  import opened Common
  import opened Paging
  import opened PagingInvariant
  import opened PagingRefinement
  import opened PagingBoot

  class Memory {
    /** References to each frame: a Byte, 0 for a free frame. */
    const physMem: array<int>
    /** What each frame holds. */
    const ram: array<Page>
    /** One page table per task. */
    const pagusrTable: array<Table>
    const sharedPages: array<SharedPage>

    ghost function View(): Mem
      reads physMem, ram, pagusrTable, sharedPages
    {
      Mem(physMem[..], ram[..], pagusrTable[..], sharedPages[..])
    }

    ghost predicate Valid()
      reads physMem, ram, pagusrTable, sharedPages
    {
      Shape(View())
    }

    // ---- boot --------------------------------------------------------------------

    /** `init_mm` and the pages of the first task, over a memory that holds `contents`. */
    constructor (contents: seq<Page>)
      requires |contents| == TOTAL_PAGES
      ensures Valid() && fresh(physMem) && fresh(ram) && fresh(pagusrTable) && fresh(sharedPages)
      ensures View() == BootMem(contents)
      ensures Refines(View(), BootUser(contents))
    {
      physMem := new int[TOTAL_PAGES](_ => 0);
      ram := new Page[TOTAL_PAGES](i requires 0 <= i < |contents| => contents[i]);
      pagusrTable := new Table[NR_TASKS](_ => seq(TOTAL_PAGES, _ => NO_ENTRY));
      sharedPages := new SharedPage[NUM_SHARED_PAGES](_ => SharedPage(0, 0, false));
      new;
      assert ram[..] == contents;
      InitTablePages();
      InitFrames();
      InitSharedPages();
      SetUserPages(TASK1);
      assert pagusrTable[..] == BootMem(contents).tables;
      BootRefines(contents);
    }

    /** `init_table_pages` */
    method InitTablePages()
      requires pagusrTable.Length == NR_TASKS
      modifies pagusrTable
      ensures forall p :: 0 <= p < NR_TASKS ==> pagusrTable[p] == UserTable(0, 0)
      ensures forall p :: 0 <= p < 10 ==> KernelOnly(pagusrTable[p])
    {
      var j := 0;
      while j < NR_TASKS
        invariant 0 <= j <= NR_TASKS
        invariant forall p :: 0 <= p < j ==> pagusrTable[p] == UserTable(0, 0)
      {
        pagusrTable[j] := seq(TOTAL_PAGES, _ => NO_ENTRY);
        var i := 1;
        while i < NUM_PAG_KERNEL
          invariant 1 <= i <= NUM_PAG_KERNEL
          invariant forall p :: 0 <= p < j ==> pagusrTable[p] == UserTable(0, 0)
          invariant |pagusrTable[j]| == TOTAL_PAGES
          invariant forall pg :: 0 <= pg < TOTAL_PAGES ==> pagusrTable[j][pg] == if pg < i then KernelPte(pg) else NO_ENTRY
        {
          pagusrTable[j] := pagusrTable[j][i := Pte(i, true, false, true)];
          i := i + 1;
        }
        assert pagusrTable[j] == UserTable(0, 0);
        j := j + 1;
      }
    }

    /** `init_frames` */
    method InitFrames()
      requires physMem.Length == TOTAL_PAGES
      modifies physMem
      ensures physMem[..] == BootRefs(0)
    {
      var i := 0;
      while i < TOTAL_PAGES
        invariant 0 <= i <= TOTAL_PAGES
        invariant forall f :: 0 <= f < i ==> physMem[f] == 0
      {
        physMem[i] := 0;
        i := i + 1;
      }
      i := 0;
      while i < NUM_PAG_KERNEL
        invariant 0 <= i <= NUM_PAG_KERNEL
        invariant forall f :: 0 <= f < TOTAL_PAGES ==> physMem[f] == if f < i then 1 else 0
      {
        physMem[i] := (physMem[i] + 1) % 256;
        i := i + 1;
      }
      assert forall f :: 0 <= f < TOTAL_PAGES ==> physMem[f] == BootRef(0, f);
    }

    /** `init_shared_pages` */
    method InitSharedPages()
      requires Valid() && physMem[..] == BootRefs(0)
      modifies physMem, sharedPages
      ensures Valid() && physMem[..] == BootRefs(NUM_SHARED_PAGES) && sharedPages[..] == BootShared()
    {
      var idx := 0;
      while idx < NUM_SHARED_PAGES
        invariant 0 <= idx <= NUM_SHARED_PAGES && Valid() && physMem[..] == BootRefs(idx)
        invariant forall k :: 0 <= k < idx ==> sharedPages[k] == SharedPage(SharedFrame(k), 0, false)
      {
        BootAlloc(idx);
        var frame := AllocFrame();
        sharedPages[idx] := SharedPage(frame, 0, false);
        idx := idx + 1;
      }
    }

    /** `set_user_pages`, for the first task. */
    method SetUserPages(p: nat)
      requires Valid() && physMem[..] == BootRefs(NUM_SHARED_PAGES) && p < NR_TASKS && pagusrTable[p] == UserTable(0, 0)
      modifies physMem, pagusrTable
      ensures Valid() && physMem[..] == BootRefs(NUM_SHARED_PAGES + NUM_PAG_CODE + NUM_PAG_DATA)
      ensures pagusrTable[..] == old(pagusrTable[..])[p := UserTable(NUM_PAG_CODE, NUM_PAG_DATA)]
    {
      var pag := 0;
      while pag < NUM_PAG_CODE
        invariant 0 <= pag <= NUM_PAG_CODE && Valid() && physMem[..] == BootRefs(NUM_SHARED_PAGES + pag)
        invariant pagusrTable[..] == old(pagusrTable[..])[p := UserTable(pag, 0)]
      {
        SetBootPage(p, CODE + pag, false, NUM_SHARED_PAGES + pag);
        assert UserTable(pag, 0)[CODE + pag := CodePte(pag)] == UserTable(pag + 1, 0);
        pag := pag + 1;
      }
      pag := 0;
      while pag < NUM_PAG_DATA
        invariant 0 <= pag <= NUM_PAG_DATA && Valid() && physMem[..] == BootRefs(NUM_SHARED_PAGES + NUM_PAG_CODE + pag)
        invariant pagusrTable[..] == old(pagusrTable[..])[p := UserTable(NUM_PAG_CODE, pag)]
      {
        SetBootPage(p, DATA + pag, true, NUM_SHARED_PAGES + NUM_PAG_CODE + pag);
        assert UserTable(NUM_PAG_CODE, pag)[DATA + pag := DataPte(pag)] == UserTable(NUM_PAG_CODE, pag + 1);
        pag := pag + 1;
      }
    }

    /** One round of either loop of `set_user_pages`: the `n`-th allocation since boot. */
    method SetBootPage(p: nat, pg: nat, rw: bool, n: nat)
      requires Valid() && n < 38 && physMem[..] == BootRefs(n) && p < NR_TASKS && pg < TOTAL_PAGES
      modifies physMem, pagusrTable
      ensures Valid() && physMem[..] == BootRefs(n + 1)
      ensures pagusrTable[..] == old(pagusrTable[..])[p := old(pagusrTable[..])[p][pg := Pte(SharedFrame(n), rw, true, true)]]
    {
      BootAlloc(n);
      var newPhPag := AllocFrame();
      SetEntry(p, pg, Pte(newPhPag, rw, true, true));
    }

    // ---- mm.c --------------------------------------------------------------------

    /** `alloc_frame` */
    method AllocFrame() returns (f: int)
      requires Valid()
      modifies physMem
      ensures Valid() && f == FirstFree(old(physMem[..]), NUM_PAG_KERNEL)
      ensures -1 <= f < TOTAL_PAGES
      ensures View() == if f < 0 then old(View()) else Retain(old(View()), f)
      ensures f >= 0 ==> 256 <= f && f % 2 == 0 && old(physMem[f]) == 0 && physMem[f] == 1
    {
      ghost var was := physMem[..];
      FirstFreeRange(was, NUM_PAG_KERNEL);
      var i := NUM_PAG_KERNEL;
      while i < TOTAL_PAGES
        invariant NUM_PAG_KERNEL <= i <= TOTAL_PAGES + 1
        invariant physMem[..] == was
        invariant FirstFree(was, i) == FirstFree(was, NUM_PAG_KERNEL)
      {
        if physMem[i] == 0 {
          physMem[i] := (physMem[i] + 1) % 256;
          return i;
        }
        i := i + 2;
      }
      return -1;
    }

    /** `free_frame` */
    method FreeFrame(f: nat)
      requires Valid()
      modifies physMem
      ensures Valid() && View() == Paging.FreeFrame(old(View()), f)
      ensures forall g :: 0 <= g < 1024 ==> physMem[g] == if g == f && 256 < g then (old(physMem[g]) - 1) % 256 else old(physMem[g])
    {
      if f > NUM_PAG_KERNEL && f < TOTAL_PAGES {
        physMem[f] := (physMem[f] - 1) % 256;
      }
    }

    /** `get_user_free_page` */
    method GetUserFreePage(p: nat) returns (pg: int)
      requires Valid() && p < NR_TASKS
      ensures pg == FreePage(View().tables[p])
    {
      var t := pagusrTable[p];
      assert TableShape(View().tables[p]);
      pg := USER_LAST_PAGE;
      while pg < TOTAL_PAGES
        invariant USER_LAST_PAGE <= pg <= TOTAL_PAGES
        invariant FreePageFrom(t, pg) == FreePage(t)
      {
        if t[pg] == NO_ENTRY {
          return;
        }
        pg := pg + 1;
      }
      pg := -1;
    }

    /** `is_frame_shared` */
    method IsFrameShared(frame: nat) returns (id: int)
      requires Valid()
      ensures id == SharedId(View().shared, frame, 0)
    {
      var k := 0;
      while k < NUM_SHARED_PAGES
        invariant 0 <= k <= NUM_SHARED_PAGES
        invariant SharedId(sharedPages[..], frame, k) == SharedId(sharedPages[..], frame, 0)
      {
        if sharedPages[k].frame == frame {
          return k;
        }
        k := k + 1;
      }
      return 0;
    }

    method SetEntry(p: nat, pg: nat, e: Pte)
      requires Valid() && p < NR_TASKS && pg < TOTAL_PAGES && e.frame < TOTAL_PAGES
      modifies pagusrTable
      ensures Valid() && View() == SetPte(old(View()), p, pg, e)
    {
      assert TableShape(View().tables[p]);
      pagusrTable[p] := pagusrTable[p][pg := e];
    }

    /** `set_ss_pag` */
    method SetSsPag(p: nat, pg: nat, frame: nat)
      requires Valid() && p < NR_TASKS && pg < TOTAL_PAGES && frame < TOTAL_PAGES
      modifies pagusrTable
      ensures Valid() && View() == SetPte(old(View()), p, pg, UserPte(frame))
      ensures |pagusrTable[p]| == 1024 && pagusrTable[p][pg] == Pte(frame, true, true, true)
    {
      SetEntry(p, pg, Pte(frame, true, true, true));
    }

    /** `del_ss_pag` */
    method DelSsPag(p: nat, pg: nat)
      requires Valid() && p < NR_TASKS && pg < TOTAL_PAGES
      modifies pagusrTable
      ensures Valid() && View() == SetPte(old(View()), p, pg, NO_ENTRY)
      ensures |pagusrTable[p]| == 1024 && pagusrTable[p][pg] == Pte(0, false, false, false)
    {
      SetEntry(p, pg, NO_ENTRY);
    }

    /** `copy_data` of one page between two logical pages of task `p`. */
    method CopyPage(p: nat, from: nat, to: nat)
      requires Valid() && p < NR_TASKS && from < TOTAL_PAGES && to < TOTAL_PAGES
      requires pagusrTable[p][from].frame < TOTAL_PAGES && pagusrTable[p][to].frame < TOTAL_PAGES
      modifies ram
      ensures Valid()
      ensures View() == CopyFrame(old(View()), old(View()).tables[p][from].frame, old(View()).tables[p][to].frame)
    {
      var t := pagusrTable[p];
      assert t == View().tables[p];
      ram[t[to].frame] := ram[t[from].frame];
    }

    /** `free_user_pages` */
    method FreeUserPages(p: nat)
      requires Valid() && p < NR_TASKS
      modifies physMem, pagusrTable
      ensures Valid() && View() == FreeData(old(View()), p, NUM_PAG_DATA)
    {
      var i := 0;
      while i < NUM_PAG_DATA
        invariant 0 <= i <= NUM_PAG_DATA && Valid()
        invariant View() == FreeData(old(View()), p, i)
      {
        FreeFrame(pagusrTable[p][DATA + i].frame);
        SetEntry(p, DATA + i, NO_ENTRY);
        i := i + 1;
      }
    }

    // ---- sys_fork ------------------------------------------------------------------

    /** The kernel and code loops of `sys_fork`. */
    method CopyKernelAndCode(p: nat, c: nat)
      requires Valid() && p < NR_TASKS && c < NR_TASKS && p != c
      modifies pagusrTable
      ensures Valid() && View() == CopyKernelCode(old(View()), p, c)
    {
      ghost var parent, child := pagusrTable[p], pagusrTable[c];
      assert TableShape(View().tables[p]) && TableShape(View().tables[c]);
      OverlaidNone(child, parent, 0);
      assert old(View()).tables[c := child] == old(View()).tables;
      var pag := 0;
      while pag < NUM_PAG_KERNEL
        invariant 0 <= pag <= NUM_PAG_KERNEL && Valid()
        invariant View() == old(View()).(tables := old(View()).tables[c := Overlaid(child, parent, 0, pag)])
      {
        SetEntry(c, pag, pagusrTable[p][pag]);
        OverlaidNext(child, parent, 0, pag);
        pag := pag + 1;
      }
      ghost var half := Overlaid(child, parent, 0, NUM_PAG_KERNEL);
      OverlaidNone(half, parent, CODE);
      pag := 0;
      while pag < NUM_PAG_CODE
        invariant 0 <= pag <= NUM_PAG_CODE && Valid()
        invariant View() == old(View()).(tables := old(View()).tables[c := Overlaid(half, parent, CODE, CODE + pag)])
      {
        SetEntry(c, CODE + pag, pagusrTable[p][CODE + pag]);
        OverlaidNext(half, parent, CODE, CODE + pag);
        pag := pag + 1;
      }
      OverlaidIsCodeCopied(parent, child);
    }

    /** One round of the data loop with USE_COW. */
    method ShareDataPage(p: nat, c: nat, i: nat)
      requires Valid() && p < NR_TASKS && c < NR_TASKS && p != c && i < NUM_PAG_DATA
      modifies physMem, pagusrTable
      ensures Valid() && View() == ShareOne(old(View()), p, c, i)
    {
      ghost var m := View();
      var e := pagusrTable[p][DATA + i];
      assert TableShape(m.tables[p]);
      SetEntry(c, DATA + i, e);
      var f := pagusrTable[c][DATA + i].frame;
      physMem[f] := (physMem[f] + 1) % 256;
      SetEntry(c, DATA + i, pagusrTable[c][DATA + i].(rw := false));
      SetEntry(p, DATA + i, pagusrTable[p][DATA + i].(rw := false));
      ghost var shared := e.(rw := false);
      assert m.tables[c][DATA + i := e][DATA + i := shared] == m.tables[c][DATA + i := shared];
      assert pagusrTable[..] == m.tables[c := m.tables[c][DATA + i := shared]][p := m.tables[p][DATA + i := shared]];
    }

    /** The data loop with USE_COW. */
    method ShareDataPages(p: nat, c: nat)
      requires Valid() && p < NR_TASKS && c < NR_TASKS && p != c
      modifies physMem, pagusrTable
      ensures Valid() && View() == ShareData(old(View()), p, c, NUM_PAG_DATA)
    {
      var i := 0;
      while i < NUM_PAG_DATA
        invariant 0 <= i <= NUM_PAG_DATA && Valid()
        invariant View() == ShareData(old(View()), p, c, i)
      {
        ShareDataPage(p, c, i);
        i := i + 1;
      }
    }

    /** One round of the reservation loop without USE_COW. */
    method ReservePage(p: nat, c: nat, i: nat) returns (fp: int, f: int)
      requires Valid() && p < NR_TASKS && c < NR_TASKS && i < NUM_PAG_DATA
      modifies physMem, pagusrTable
      ensures Valid() && fp == FreePage(old(View()).tables[p]) && (fp >= 0 ==> f == FirstFree(old(View()).refs, NUM_PAG_KERNEL))
      ensures var r := ReserveOne(old(View()), [], p, c, i);
              View() == r.m && (r.status == NoPage <==> fp < 0) && (r.status == NoFrame <==> fp >= 0 && f < 0)
    {
      f := -1;
      fp := GetUserFreePage(p);
      FreePageRange(pagusrTable[p], USER_LAST_PAGE);
      if fp < 0 {
        return;
      }
      f := AllocFrame();
      if f < 0 {
        FreeUserPages(c);
        return;
      }
      SetSsPag(p, fp, f);
      SetSsPag(c, DATA + i, f);
    }

    /** The same round, noting the logical page in `free_pt_pages`. */
    method ReserveAndNote(ghost m: Mem, p: nat, c: nat, i: nat, freePtPages: array<nat>) returns (status: Status)
      requires Valid() && Shape(m) && p < NR_TASKS && c < NR_TASKS && i < NUM_PAG_DATA == freePtPages.Length
      requires Reserve(m, p, c, i) == Reserved(View(), freePtPages[..i], Going)
      modifies physMem, pagusrTable, freePtPages
      ensures Valid()
      ensures var r := Reserve(m, p, c, i + 1);
              r.m == View() && r.status == status && (status == Going ==> r.pages == freePtPages[..i + 1])
    {
      ghost var now, before := View(), freePtPages[..i];
      var fp, f := ReservePage(p, c, i);
      ReserveUnfolds(m, now, before, p, c, i);
      FreePageRange(now.tables[p], USER_LAST_PAGE);
      if fp < 0 {
        return NoPage;
      } else if f < 0 {
        return NoFrame;
      }
      freePtPages[i] := fp;
      assert freePtPages[..i + 1] == before + [fp as nat];
      return Going;
    }

    /** The reservation loop without USE_COW. */
    method ReserveDataPages(p: nat, c: nat, freePtPages: array<nat>) returns (status: Status)
      requires Valid() && p < NR_TASKS && c < NR_TASKS && freePtPages.Length == NUM_PAG_DATA
      modifies physMem, pagusrTable, freePtPages
      ensures Valid()
      ensures var r := Reserve(old(View()), p, c, NUM_PAG_DATA);
              status == r.status && View() == r.m && (status == Going ==> freePtPages[..] == r.pages)
    {
      ghost var m := View();
      var i := 0;
      status := Going;
      while i < NUM_PAG_DATA
        invariant 0 <= i <= NUM_PAG_DATA && Valid() && status == Going
        invariant Reserve(m, p, c, i) == Reserved(View(), freePtPages[..i], Going)
      {
        status := ReserveAndNote(m, p, c, i, freePtPages);
        i := i + 1;
        if status != Going {
          ghost var r := Reserve(m, p, c, i);
          ReserveSticky(m, p, c, i, NUM_PAG_DATA, r);
          assert Reserve(m, p, c, NUM_PAG_DATA) == r;
          return;
        }
      }
      assert i == NUM_PAG_DATA && freePtPages[..i] == freePtPages[..];
    }

    /** The copy loop without USE_COW. */
    method CopyReservedPages(p: nat, freePtPages: array<nat>)
      requires Valid() && p < NR_TASKS && freePtPages.Length == NUM_PAG_DATA
      requires forall j :: 0 <= j < NUM_PAG_DATA ==> freePtPages[j] < TOTAL_PAGES
      modifies ram, pagusrTable
      ensures Valid() && View() == CopyAll(old(View()), p, freePtPages[..], NUM_PAG_DATA)
    {
      ghost var m := View();
      ghost var pages := freePtPages[..];
      var i := 0;
      while i < NUM_PAG_DATA
        invariant 0 <= i <= NUM_PAG_DATA && Valid()
        invariant View() == CopyAll(m, p, pages, i)
      {
        assert TableShape(View().tables[p]);
        CopyPage(p, DATA + i, freePtPages[i]);
        DelSsPag(p, freePtPages[i]);
        i := i + 1;
      }
    }

    /** The data part of `sys_fork` without USE_COW. */
    method CopyDataPages(p: nat, c: nat) returns (status: Status)
      requires Valid() && p < NR_TASKS && c < NR_TASKS && p != c
      modifies physMem, ram, pagusrTable
      ensures Valid()
      ensures var r := Reserve(old(View()), p, c, NUM_PAG_DATA);
              status == r.status &&
              View() == if status == Going then CopyAll(r.m, p, r.pages, NUM_PAG_DATA) else r.m
    {
      var freePtPages := new nat[NUM_PAG_DATA](_ => 0);
      status := ReserveDataPages(p, c, freePtPages);
      if status == Going {
        assert forall j :: 0 <= j < NUM_PAG_DATA ==> freePtPages[j] == freePtPages[..][j];
        CopyReservedPages(p, freePtPages);
      }
    }

    /** The shared-memory loop of `sys_fork` and of `sys_exit`. It shifts the frame
        number left before asking `is_frame_shared`, so the answer is always 0 and
        the branch that would share, or release, the page is never taken. */
    method ScanSharedPages(p: nat)
      requires Valid() && SharedFrames(View()) && p < NR_TASKS
    {
      var pag := USER_LAST_PAGE;
      while pag < TOTAL_PAGES
        invariant USER_LAST_PAGE <= pag <= TOTAL_PAGES
      {
        if pagusrTable[p][pag] != NO_ENTRY {
          var frame := pagusrTable[p][pag].frame * 0x1000;
          var id := IsFrameShared(frame);
          ShiftedNeverShared(View(), pagusrTable[p][pag].frame);
          assert id == 0;
        }
        pag := pag + 1;
      }
    }

    /** The memory side of `sys_fork`. */
    method Fork(useCow: bool, p: nat, c: nat) returns (status: Status)
      requires Valid() && SharedFrames(View()) && p < NR_TASKS && c < NR_TASKS && p != c
      modifies physMem, ram, pagusrTable
      ensures Valid()
      ensures if useCow then View() == ForkLazy(old(View()), p, c) && status == Going
              else (View(), status) == ForkEager(old(View()), p, c)
    {
      CopyKernelAndCode(p, c);
      if useCow {
        ShareDataPages(p, c);
        status := Going;
      } else {
        status := CopyDataPages(p, c);
        if status != Going {
          return;
        }
      }
      ScanSharedPages(p);
    }

    // ---- sys_exit, pgf_routine, shared pages ---------------------------------------

    /** The memory side of `sys_exit`. */
    method Exit(p: nat)
      requires Valid() && SharedFrames(View()) && p < NR_TASKS
      modifies physMem, pagusrTable
      ensures Valid() && View() == FreeData(old(View()), p, NUM_PAG_DATA)
    {
      ScanSharedPages(p);
      FreeUserPages(p);
    }

    /** `pgf_routine`; not ok is its error branch, which never returns. */
    method PageFault(p: nat, pg: nat) returns (ok: bool)
      requires Valid() && p < NR_TASKS && pg < TOTAL_PAGES
      modifies physMem, ram, pagusrTable
      ensures ok == Fault(old(View()), p, pg).Some?
      ensures ok ==> Valid() && View() == Fault(old(View()), p, pg).value
    {
      var e := pagusrTable[p][pg];
      assert TableShape(View().tables[p]);
      if e == NO_ENTRY || e.rw {
        return false;
      }
      if physMem[e.frame] == 1 {
        SetEntry(p, pg, e.(rw := true));
        return true;
      }
      ok := UnsharePage(p, pg);
    }

    /** The copying branch of `pgf_routine`. */
    method UnsharePage(p: nat, pg: nat) returns (ok: bool)
      requires Valid() && p < NR_TASKS && pg < TOTAL_PAGES
      requires IsCowPage(View().tables[p], pg) && View().tables[p][pg].frame < TOTAL_PAGES
      requires View().refs[View().tables[p][pg].frame] != 1
      modifies physMem, ram, pagusrTable
      ensures ok == Fault(old(View()), p, pg).Some?
      ensures ok ==> Valid() && View() == Fault(old(View()), p, pg).value
    {
      ghost var m := View();
      var freePtPage := GetUserFreePage(p);
      FreePageRange(pagusrTable[p], USER_LAST_PAGE);
      if freePtPage < 0 {
        return false;
      }
      var newPhPag := AllocFrame();
      if newPhPag < 0 {
        return false;
      }
      SetSsPag(p, freePtPage, newPhPag);
      CopyPage(p, pg, freePtPage);
      var shared := pagusrTable[p][pg].frame;
      physMem[shared] := (physMem[shared] - 1) % 256;
      SetSsPag(p, pg, newPhPag);
      DelSsPag(p, freePtPage);
      ok := true;
    }

    /** `sys_shmat` */
    method ShmAttach(p: nat, id: int, addr: nat) returns (r: int)
      requires Valid() && p < NR_TASKS && addr / PAGE_SIZE < TOTAL_PAGES
      modifies pagusrTable, sharedPages
      ensures Valid() && (View(), r) == Shmat(old(View()), p, id, addr)
    {
      if id < 0 || id > 9 {
        return -ENOSHR;
      }
      FreePageRange(pagusrTable[p], USER_LAST_PAGE);
      var page: int;
      if addr == 0 {
        page := GetUserFreePage(p);
        if page == -1 {
          return -ENOMEM;
        }
      } else {
        if addr % PAGE_SIZE != 0 {
          return -EFAULT;
        }
        page := addr / PAGE_SIZE;
        if pagusrTable[p][page] != NO_ENTRY {
          page := GetUserFreePage(p);
          if page == -1 {
            return -ENOMEM;
          }
        }
      }
      SetSsPag(p, page, sharedPages[id].frame);
      sharedPages[id] := sharedPages[id].(numRefs := sharedPages[id].numRefs + 1);
      return page * PAGE_SIZE;
    }

    /** `sys_shmdt` */
    method ShmDetach(p: nat, addr: nat) returns (r: int)
      requires Valid() && p < NR_TASKS && addr / PAGE_SIZE < TOTAL_PAGES
      modifies ram, pagusrTable, sharedPages
      ensures Valid() && (View(), r) == Shmdt(old(View()), p, addr)
    {
      if addr == 0 {
        return -EINVAL;
      }
      if addr % PAGE_SIZE != 0 {
        return -EFAULT;
      }
      var page := addr / PAGE_SIZE;
      assert TableShape(View().tables[p]);
      if pagusrTable[p][page] == NO_ENTRY {
        return -ENOSHR;
      }
      var frame := pagusrTable[p][page].frame;
      var id := IsFrameShared(frame);
      SharedIdRange(View().shared, frame, 0);
      if id == 0 {
        return -ENOSHR;
      }
      sharedPages[id] := sharedPages[id].(numRefs := sharedPages[id].numRefs - 1);
      if sharedPages[id].numRefs == 0 && sharedPages[id].toClear {
        ram[pagusrTable[p][page].frame] := ZeroPage();
      }
      DelSsPag(p, page);
      return 0;
    }

    /** `sys_shmrm` */
    method ShmRemove(id: int) returns (r: int)
      requires Valid()
      modifies sharedPages
      ensures Valid() && (View(), r) == Shmrm(old(View()), id)
    {
      if id < 0 || id > 9 {
        return -ENOSHR;
      }
      sharedPages[id] := sharedPages[id].(toClear := true);
      return 0;
    }
  }

  /** The kernel's pages on the frames of the same number, page 0 and all others empty. */
  ghost predicate KernelOnly(t: Table) {
    |t| == 1024 && forall pg :: 0 <= pg < 1024 ==> t[pg] == if 0 < pg < 256 then Pte(pg, true, false, true) else Pte(0, false, false, false)
  }

  /** `child` with the entries from `lo` up to `hi` taken from `parent`. */
  ghost function Overlaid(child: Table, parent: Table, lo: nat, hi: nat): (t: Table)
    requires |child| == |parent| == TOTAL_PAGES
    ensures |t| == TOTAL_PAGES
    ensures forall pg :: 0 <= pg < TOTAL_PAGES ==> t[pg] == if lo <= pg < hi then parent[pg] else child[pg]
  {
    seq(TOTAL_PAGES, pg requires 0 <= pg < TOTAL_PAGES => if lo <= pg < hi then parent[pg] else child[pg])
  }

  lemma OverlaidNone(child: Table, parent: Table, lo: nat)
    requires |child| == |parent| == TOTAL_PAGES
    ensures Overlaid(child, parent, lo, lo) == child
  {
  }

  lemma OverlaidNext(child: Table, parent: Table, lo: nat, hi: nat)
    requires |child| == |parent| == TOTAL_PAGES && lo <= hi < TOTAL_PAGES
    ensures Overlaid(child, parent, lo, hi + 1) == Overlaid(child, parent, lo, hi)[hi := parent[hi]]
  {
  }

  lemma OverlaidIsCodeCopied(parent: Table, child: Table)
    requires |child| == |parent| == TOTAL_PAGES
    ensures Overlaid(Overlaid(child, parent, 0, DATA), parent, CODE, USER_LAST_PAGE) == CodeCopied(parent, child)
  {
  }

  /** A frame number shifted by twelve is no frame number, unless it was 0. */
  lemma ShiftedNeverShared(m: Mem, frame: nat)
    requires Shape(m) && SharedFrames(m)
    ensures SharedId(m.shared, frame * 0x1000, 0) == 0
  {
    SharedIdOf(m, frame * 0x1000);
  }

  lemma ReserveUnfolds(m: Mem, now: Mem, pages: seq<nat>, p: nat, c: nat, i: nat)
    requires Shape(m) && p < NR_TASKS && c < NR_TASKS && i < NUM_PAG_DATA
    requires Reserve(m, p, c, i) == Reserved(now, pages, Going)
    ensures var r := ReserveOne(now, [], p, c, i);
            Reserve(m, p, c, i + 1) == Reserved(r.m, pages + r.pages, r.status)
  {
  }

  /** The reservation loop has ended with `r` before its round `n`. */
  ghost predicate Stopped(m: Mem, p: nat, c: nat, n: nat, r: Reserved)
    requires Shape(m) && p < NR_TASKS && c < NR_TASKS && n <= NUM_PAG_DATA
  {
    Reserve(m, p, c, n) == r && r.status != Going
  }

  lemma {:induction false} ReserveSticky(m: Mem, p: nat, c: nat, k: nat, n: nat, r: Reserved)
    requires Shape(m) && p < NR_TASKS && c < NR_TASKS && k <= n <= NUM_PAG_DATA && Stopped(m, p, c, k, r)
    ensures Stopped(m, p, c, n, r)
    decreases n - k
  {
    if k < n {
      ReserveStopped(m, p, c, k, r);
      ReserveSticky(m, p, c, k + 1, n, r);
    }
  }

  lemma ReserveStopped(m: Mem, p: nat, c: nat, k: nat, r: Reserved)
    requires Shape(m) && p < NR_TASKS && c < NR_TASKS && k < NUM_PAG_DATA && Stopped(m, p, c, k, r)
    ensures Stopped(m, p, c, k + 1, r)
  {
  }
}

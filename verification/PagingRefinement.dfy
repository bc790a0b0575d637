/** Lazy and eager fork, the page-fault handler, exit and the shared-page calls
    all implement `UserMemory`, step by step and over every run. */
module PagingRefinement {
  import opened Common
  import opened Paging
  import opened PagingInvariant
  import opened PagingSteps
  import opened PagingEager
  import opened UserMemory

  // ---- the machine -----------------------------------------------------------------

  predicate CanWrite(e: Pte) { e.present && e.user && e.rw }

  function PutByte(m: Mem, f: nat, off: nat, v: byte): (r: Mem)
    requires Shape(m) && f < TOTAL_PAGES && off < PAGE_SIZE
    ensures Shape(r)
  {
    m.(ram := m.ram[f := m.ram[f][off := v]])
  }

  /** A user store: the hardware writes through a writable entry, and otherwise
      faults and tries again after the handler returns. */
  function StoreByte(m: Mem, p: nat, pg: nat, off: nat, v: byte): (r: Option<Mem>)
    requires Shape(m) && p < NR_TASKS && pg < TOTAL_PAGES && off < PAGE_SIZE
    ensures r.Some? ==> Shape(r.value)
  {
    var e := m.tables[p][pg];
    assert TableShape(m.tables[p]);
    if CanWrite(e) then Some(PutByte(m, e.frame, off, v))
    else
      match Fault(m, p, pg)
      case None => None
      case Some(m1) =>
        var e1 := m1.tables[p][pg];
        assert TableShape(m1.tables[p]);
        if CanWrite(e1) then Some(PutByte(m1, e1.frame, off, v)) else None
  }

  /** Task numbers, page numbers and offsets that exist. */
  predicate InRange(op: Op) {
    && op.p < NR_TASKS
    && (op.Fork? ==> op.c < NR_TASKS)
    && (op.Load? || op.Store? ==> op.pg < TOTAL_PAGES && op.off < PAGE_SIZE)
    && (op.ShmAt? || op.ShmDt? ==> op.addr / PAGE_SIZE < TOTAL_PAGES)
  }

  /** One step with USE_COW set or not: the new memory and the answer. None is a
      kernel stuck in the handler's error loop. */
  function Step(cow: bool, m: Mem, op: Op): (r: Option<(Mem, int)>)
    requires Shape(m) && InRange(op)
    ensures r.Some? ==> Shape(r.value.0)
  {
    match op
    case Fork(p, c) =>
      if cow then Some((ForkLazy(m, p, c), 0))
      else
        var (r, status) := ForkEager(m, p, c);
        Some((r, if status == Going then 0 else -ENOMEM))
    case Exit(p) => Some((FreeData(m, p, NUM_PAG_DATA), 0))
    case Load(p, pg, off) =>
      var e := m.tables[p][pg];
      assert TableShape(m.tables[p]);
      if e.present && e.user then Some((m, m.ram[e.frame][off] as int)) else None
    case Store(p, pg, off, v) =>
      var r := StoreByte(m, p, pg, off, v);
      if r.Some? then Some((r.value, 0)) else None
    case ShmAt(p, id, addr) => Some(Shmat(m, p, id, addr))
    case ShmDt(p, addr) => Some(Shmdt(m, p, addr))
    case ShmRm(p, id) => Some(Shmrm(m, id))
  }

  // ---- the simulation relation -------------------------------------------------------

  /** A live process has its twenty pages with the right contents; a slot that is
      neither live nor lost has none. */
  ghost predicate PrivTask(m: Mem, a: User, p: nat)
    requires Shape(m) && Task(p)
  {
    if p in a.priv then
      |a.priv[p]| == NUM_PAG_DATA && Full(m, p) && (forall i :: Slot(p, i) ==> m.ram[Entry(m, p, i).frame] == a.priv[p][i])
    else p in a.lost || Clean(m, p)
  }

  ghost predicate PrivOk(m: Mem, a: User)
    requires Shape(m)
  {
    forall p :: Task(p) ==> PrivTask(m, a, p)
  }

  ghost predicate CommonOk(m: Mem, a: User)
    requires Shape(m) && UserShape(a)
  {
    && (forall j :: 0 <= j < NUM_PAG_CODE ==> m.ram[CodeFrame(j)] == a.code[j])
    && (forall k :: 0 <= k < NUM_SHARED_PAGES ==> m.ram[SharedFrame(k)] == a.shm[k])
  }

  /** What a failed fork left in its caller's table: the entry of a writable data
      page of a lost slot. */
  ghost predicate Leaked(m: Mem, a: User, e: Pte)
    requires Shape(m)
  {
    exists c :: c in a.lost && c < NR_TASKS && LeakedTo(m, c, e)
  }

  /** Above the user image, a page table maps exactly what is attached and what a
      failed fork left behind. */
  ghost predicate UpperOk(m: Mem, a: User, p: nat, pg: nat)
    requires Shape(m) && UserShape(a) && Task(p) && pg < TOTAL_PAGES
  {
    var e := m.tables[p][pg];
    if (p, pg) in a.att then e == UserPte(SharedFrame(a.att[(p, pg)]))
    else if (p, pg) in a.taken then Leaked(m, a, e)
    else e == NO_ENTRY
  }

  ghost predicate UppersOk(m: Mem, a: User)
    requires Shape(m) && UserShape(a)
  {
    forall p, pg :: Task(p) && USER_LAST_PAGE <= pg < TOTAL_PAGES ==> UpperOk(m, a, p, pg)
  }

  /** Shared-page accounting: `num_refs` counts the entries over all ten tables. */
  ghost predicate SharedOk(m: Mem, a: User)
    requires Shape(m) && UserShape(a)
  {
    forall k :: 0 <= k < NUM_SHARED_PAGES ==>
      m.shared[k].toClear == a.clear[k] && m.shared[k].numRefs == |Attached(a, k)|
  }

  ghost predicate AttOk(m: Mem, a: User)
    requires Shape(m) && UserShape(a)
  {
    UppersOk(m, a) && SharedOk(m, a)
  }

  ghost predicate Refines(m: Mem, a: User) {
    Core(m) && Frozen(m) && UserShape(a) && PrivOk(m, a) && CommonOk(m, a) && AttOk(m, a)
  }

  // ---- fork and exit -----------------------------------------------------------------

  lemma ForkSim(m: Mem, r: Mem, a: User, b: User, p: nat, c: nat)
    requires Refines(m, a) && Enabled(a, Fork(p, c)) && Forked(m, r, p, c) && b == a.(priv := a.priv[c := a.priv[p]])
    ensures Refines(r, b)
  {
    assert PrivTask(m, a, p);
    forall q | Task(q)
      ensures PrivTask(r, b, q)
    {
      assert PrivTask(m, a, q);
      if q == c {
        CodeKept(m, p, r, c);
        forall i | Slot(c, i)
          ensures r.ram[Entry(r, c, i).frame] == b.priv[c][i]
        {
          assert Slot(p, i);
        }
      } else {
        CodeKept(m, q, r, q);
        assert DataKept(m, r, q);
      }
    }
    AttKept(m, r, a, b);
  }

  lemma ForkNeeds(m: Mem, a: User, p: nat, c: nat)
    requires Refines(m, a) && Enabled(a, Fork(p, c))
    ensures Task(p) && Task(c) && p != c && c != IDLE && Full(m, p) && Clean(m, c)
  {
    assert PrivTask(m, a, p) && PrivTask(m, a, c);
  }

  /** The caller has as many empty pages as the specification says. */
  lemma EmptyAgree(m: Mem, a: User, p: nat)
    requires Refines(m, a) && Task(p)
    ensures FreePages(m.tables[p]) == EmptyPages(a, p)
  {
    forall pg: nat | USER_LAST_PAGE <= pg < TOTAL_PAGES
      ensures pg in FreePages(m.tables[p]) <==> pg in EmptyPages(a, p)
    {
      assert UpperOk(m, a, p, pg);
    }
  }

  /** A failed fork does what the specification says it may do. */
  lemma FailSim(m: Mem, r: Mem, a: User, p: nat, c: nat)
    requires Refines(m, a) && Enabled(a, Fork(p, c)) && ForkFailed(m, r, p, c)
    ensures Refines(r, Given(a, p, c))
  {
    var b := Given(a, p, c);
    assert PrivTask(m, a, p);
    forall q | Task(q)
      ensures PrivTask(r, b, q)
    {
      assert PrivTask(m, a, q);
      if q != c {
        CodeKept(m, q, r, q);
      }
    }
    forall q, pg | Task(q) && USER_LAST_PAGE <= pg < TOTAL_PAGES
      ensures UpperOk(r, b, q, pg)
    {
      assert UpperOk(m, a, q, pg);
      FailUpper(m, r, a, p, c, q, pg);
    }
    assert forall k: nat :: Attached(b, k) == Attached(a, k);
  }

  lemma FailUpper(m: Mem, r: Mem, a: User, p: nat, c: nat, q: nat, pg: nat)
    requires Shape(m) && UserShape(a) && p in a.priv && c < IDLE && c !in a.priv && c !in a.lost && ForkFailed(m, r, p, c)
    requires Task(q) && USER_LAST_PAGE <= pg < TOTAL_PAGES && UpperOk(m, a, q, pg)
    ensures UpperOk(r, Given(a, p, c), q, pg)
  {
    var b := Given(a, p, c);
    if q == p && m.tables[p][pg] == NO_ENTRY {
      assert pg in EmptyPages(a, p);
      assert LeakedTo(r, c, r.tables[p][pg]);
    } else {
      assert r.tables[q][pg] == m.tables[q][pg];
      if (q, pg) in a.taken {
        LeakStays(m, r, a, b, m.tables[q][pg]);
      }
    }
  }

  lemma LeakStays(m: Mem, r: Mem, a: User, b: User, e: Pte)
    requires Shape(m) && Shape(r) && Leaked(m, a, e) && a.lost <= b.lost
    requires forall c, i :: c in a.lost && Slot(c, i) ==> Entry(r, c, i) == Entry(m, c, i)
    ensures Leaked(r, b, e)
  {
    var c :| c in a.lost && c < NR_TASKS && LeakedTo(m, c, e);
    var i :| Slot(c, i) && Entry(m, c, i) == e;
    assert LeakedTo(r, c, e);
  }

  /** A frame left behind is a data frame nobody else maps as data. */
  lemma LeakAlone(m: Mem, a: User, e: Pte)
    requires Core(m) && Leaked(m, a, e)
    ensures FIRST_DATA_FRAME <= e.frame && e == UserPte(e.frame) && e != NO_ENTRY
    ensures forall q, j :: Slot(q, j) && Mapped(m, q, j) && Entry(m, q, j).frame == e.frame ==> q in a.lost
  {
    var c :| c in a.lost && c < NR_TASKS && LeakedTo(m, c, e);
    var i :| Slot(c, i) && Entry(m, c, i) == e;
    assert Mapped(m, c, i);
  }

  /** Nothing above the image changed, nor the data of a lost slot. */
  lemma AttKept(m: Mem, r: Mem, a: User, b: User)
    requires Shape(m) && Shape(r) && UserShape(a) && UserShape(b) && AttOk(m, a)
    requires b.att == a.att && b.clear == a.clear && b.lost == a.lost && b.taken == a.taken && r.shared == m.shared
    requires forall q, pg :: Task(q) && USER_LAST_PAGE <= pg < TOTAL_PAGES ==> r.tables[q][pg] == m.tables[q][pg]
    requires forall c, i :: c in a.lost && Slot(c, i) ==> Entry(r, c, i) == Entry(m, c, i)
    ensures AttOk(r, b)
  {
    forall q, pg | Task(q) && USER_LAST_PAGE <= pg < TOTAL_PAGES
      ensures UpperOk(r, b, q, pg)
    {
      assert UpperOk(m, a, q, pg);
      if (q, pg) in a.taken {
        LeakStays(m, r, a, b, m.tables[q][pg]);
      }
    }
    assert forall k: nat :: Attached(b, k) == Attached(a, k);
  }

  lemma ExitSim(m: Mem, a: User, p: nat)
    requires Refines(m, a) && Enabled(a, Exit(p))
    ensures Refines(FreeData(m, p, NUM_PAG_DATA), a.(priv := a.priv - {p}))
  {
    var b := a.(priv := a.priv - {p});
    var r := FreeData(m, p, NUM_PAG_DATA);
    FreeDataCore(m, p, NUM_PAG_DATA);
    forall q | Task(q)
      ensures PrivTask(r, b, q)
    {
      assert PrivTask(m, a, q);
      CodeKept(m, q, r, q);
    }
    AttKept(m, r, a, b);
  }

  // ---- loads and stores ----------------------------------------------------------------

  /** A page table lets a process reach its pages and those a failed fork left
      behind, and no other; in its pages it finds what the specification says. */
  lemma AccessSim(m: Mem, a: User, p: nat, pg: nat)
    requires Refines(m, a) && p in a.priv && pg < TOTAL_PAGES
    ensures Task(p) && m.tables[p][pg].frame < TOTAL_PAGES
    ensures Accessible(a, p, pg) || (p, pg) in a.taken <==> m.tables[p][pg].present && m.tables[p][pg].user
    ensures Accessible(a, p, pg) ==> m.ram[m.tables[p][pg].frame] == Seen(a, p, pg)
    ensures (p, pg) in a.taken ==> !Accessible(a, p, pg) && Leaked(m, a, m.tables[p][pg])
  {
    assert Task(p) && PrivTask(m, a, p) && TableShape(m.tables[p]);
    if pg < DATA {
      assert m.tables[p][pg] == KernelPte(pg);
    } else if pg < CODE {
      assert Slot(p, pg - DATA) && Mapped(m, p, pg - DATA);
    } else if pg < USER_LAST_PAGE {
      var j := pg - CODE;
      assert CodeEntry(m, p, j).frame == CodeFrame(j);
    } else {
      assert UpperOk(m, a, p, pg);
    }
  }

  lemma RamOnly(m: Mem, r: Mem)
    requires Core(m) && Frozen(m) && Shape(r) && r.refs == m.refs && r.tables == m.tables && r.shared == m.shared
    ensures Core(r) && Frozen(r)
  {
    SameEntries(m, r);
  }

  /** The handler on a data page. */
  lemma FaultSim(m: Mem, r: Mem, a: User, p: nat, i: nat)
    requires Refines(m, a) && p in a.priv && Slot(p, i) && MadeWritable(m, r, p, i)
    ensures Refines(r, a)
  {
    forall q | Task(q)
      ensures PrivTask(r, a, q)
    {
      FaultPriv(m, r, a, p, i, q);
    }
    forall q, pg | Task(q) && 0 <= pg < TOTAL_PAGES && !(DATA <= pg < CODE)
      ensures r.tables[q][pg] == m.tables[q][pg]
    {
    }
    AttKept(m, r, a, a);
  }

  lemma FaultPriv(m: Mem, r: Mem, a: User, p: nat, i: nat, q: nat)
    requires Shape(m) && PrivOk(m, a) && p in a.priv && Slot(p, i) && MadeWritable(m, r, p, i) && Task(q)
    ensures PrivTask(r, a, q)
  {
    assert PrivTask(m, a, q);
    CodeKept(m, q, r, q);
    forall j | Slot(q, j)
      ensures Mapped(m, q, j) <==> Mapped(r, q, j)
      ensures Mapped(m, q, j) ==> r.ram[Entry(r, q, j).frame] == m.ram[Entry(m, q, j).frame]
    {
      assert PrivTask(m, a, p);
      assert (q, j) == (p, i) ==> Mapped(m, q, j);
    }
  }

  /** The handler on a code page: every process maps the one frame, yet its count
      is one, so the write bit is simply set. */
  lemma CodeFaultSim(m: Mem, r: Mem, a: User, p: nat, pg: nat)
    requires Refines(m, a) && p in a.priv && CODE <= pg < USER_LAST_PAGE && !m.tables[p][pg].rw
    requires Fault(m, p, pg) == Some(r)
    ensures Refines(r, a) && r.tables[p][pg].rw
  {
    CodeFault(m, a, p, pg);
    CodeWritable(m, r, a, p, pg);
  }

  lemma CodeFault(m: Mem, a: User, p: nat, pg: nat)
    requires Refines(m, a) && p in a.priv && CODE <= pg < USER_LAST_PAGE && !m.tables[p][pg].rw
    ensures m.tables[p][pg].frame < TOTAL_PAGES
    ensures Fault(m, p, pg) == Some(SetPte(m, p, pg, m.tables[p][pg].(rw := true)))
  {
    var j := pg - CODE;
    assert Task(p) && PrivTask(m, a, p);
    assert CodeEntry(m, p, j).frame == CodeFrame(j);
    CodeFrameRefs(m, CodeFrame(j));
  }

  lemma CodeWritable(m: Mem, r: Mem, a: User, p: nat, pg: nat)
    requires Refines(m, a) && p in a.priv && CODE <= pg < USER_LAST_PAGE && m.tables[p][pg].frame < TOTAL_PAGES
    requires r == SetPte(m, p, pg, m.tables[p][pg].(rw := true))
    ensures Refines(r, a)
  {
    SameEntries(m, r);
    forall q | Task(q)
      ensures PrivTask(r, a, q)
    {
      assert PrivTask(m, a, q);
      CodeKept(m, q, r, q);
    }
    AttKept(m, r, a, a);
  }

  lemma CodeFrameRefs(m: Mem, f: nat)
    requires Core(m) && NUM_PAG_KERNEL <= f < FIRST_DATA_FRAME && f % 2 == 0
    ensures m.refs[f] == 1
  {
    if x :| x in Mappers(m, f) {
      assert Slot(x.0, x.1) && Mapped(m, x.0, x.1);
      assert false;
    }
  }

  /** What a write does to everyone's private pages. */
  lemma WritePriv(m: Mem, r: Mem, a: User, b: User, p: nat, pg: nat, page: Page)
    requires Core(m) && UserShape(a) && PrivOk(m, a) && p in a.priv && pg < TOTAL_PAGES && Accessible(a, p, pg)
    requires m.tables[p][pg].rw && m.tables[p][pg].frame < TOTAL_PAGES && Shape(r)
    requires r == m.(ram := m.ram[m.tables[p][pg].frame := page]) && b == Written(a, p, pg, page)
    requires !(DATA <= pg < CODE) ==> m.tables[p][pg].frame < FIRST_DATA_FRAME
    ensures PrivOk(r, b)
  {
    assert PrivTask(m, a, p);
    if DATA <= pg < CODE {
      assert Slot(p, pg - DATA) && Entry(m, p, pg - DATA) == m.tables[p][pg];
    }
    forall q | Task(q)
      ensures PrivTask(r, b, q)
    {
      assert PrivTask(m, a, q);
      CodeKept(m, q, r, q);
      if q in a.priv {
        forall i | Slot(q, i)
          ensures r.ram[Entry(r, q, i).frame] == b.priv[q][i]
        {
          assert Mapped(m, q, i);
        }
      }
    }
  }

  /** A write through a writable entry is the specified write. */
  lemma WriteSim(m: Mem, a: User, p: nat, pg: nat, off: nat, v: byte)
    requires Refines(m, a) && p in a.priv && pg < TOTAL_PAGES && off < PAGE_SIZE && Accessible(a, p, pg)
    requires m.tables[p][pg].rw && m.tables[p][pg].frame < TOTAL_PAGES
    ensures Refines(PutByte(m, m.tables[p][pg].frame, off, v), Written(a, p, pg, Seen(a, p, pg)[off := v]))
  {
    AccessSim(m, a, p, pg);
    var f := m.tables[p][pg].frame;
    var r := PutByte(m, f, off, v);
    var page := Seen(a, p, pg)[off := v];
    var b := Written(a, p, pg, page);
    RamOnly(m, r);
    assert r.ram[f] == page;
    assert PrivTask(m, a, p);
    if DATA <= pg < CODE {
      assert Slot(p, pg - DATA) && Entry(m, p, pg - DATA) == m.tables[p][pg];
    } else if CODE <= pg < USER_LAST_PAGE {
      assert CodeEntry(m, p, pg - CODE).frame == CodeFrame(pg - CODE);
    } else {
      assert UpperOk(m, a, p, pg);
    }
    WritePriv(m, r, a, b, p, pg, page);
    AttKept(m, r, a, b);
  }

  /** What is written to a page a failed fork left behind, no live process sees. */
  lemma LeakWriteSim(m: Mem, a: User, p: nat, pg: nat, off: nat, v: byte)
    requires Refines(m, a) && Task(p) && pg < TOTAL_PAGES && off < PAGE_SIZE && (p, pg) in a.taken
    ensures m.tables[p][pg].frame < TOTAL_PAGES && CanWrite(m.tables[p][pg])
    ensures Refines(PutByte(m, m.tables[p][pg].frame, off, v), a)
  {
    assert UpperOk(m, a, p, pg) && TableShape(m.tables[p]);
    var e := m.tables[p][pg];
    LeakAlone(m, a, e);
    var r := PutByte(m, e.frame, off, v);
    RamOnly(m, r);
    forall q | Task(q)
      ensures PrivTask(r, a, q)
    {
      assert PrivTask(m, a, q);
      CodeKept(m, q, r, q);
      if q in a.priv {
        forall i | Slot(q, i)
          ensures r.ram[Entry(r, q, i).frame] == m.ram[Entry(m, q, i).frame]
        {
          assert Mapped(m, q, i);
        }
      }
    }
    AttKept(m, r, a, a);
  }

  /** The handler has nothing to offer outside the user image. */
  lemma FaultOutside(m: Mem, a: User, p: nat, pg: nat)
    requires Refines(m, a) && p in a.priv && pg < TOTAL_PAGES && !(DATA <= pg < USER_LAST_PAGE)
    ensures Fault(m, p, pg) == None
  {
    assert Task(p);
    if pg < DATA {
      assert m.tables[p][pg] == KernelPte(pg);
    } else {
      assert UpperOk(m, a, p, pg);
    }
  }

  /** The handler, whatever it is called for: when it returns, the page is
      writable and nothing a user can see has changed. */
  lemma HandlerSim(m: Mem, r: Mem, a: User, p: nat, pg: nat)
    requires Refines(m, a) && p in a.priv && pg < TOTAL_PAGES && Fault(m, p, pg) == Some(r)
    ensures Accessible(a, p, pg) && Refines(r, a) && r.tables[p][pg].rw
  {
    if !(DATA <= pg < USER_LAST_PAGE) {
      FaultOutside(m, a, p, pg);
    } else if pg < CODE {
      DataHandlerSim(m, r, a, p, pg, pg - DATA);
    } else {
      CodeFaultSim(m, r, a, p, pg);
    }
  }

  lemma DataHandlerSim(m: Mem, r: Mem, a: User, p: nat, pg: nat, i: nat)
    requires Refines(m, a) && p in a.priv && Slot(p, i) && pg == DATA + i && Fault(m, p, pg) == Some(r)
    ensures Refines(r, a) && r.tables[p][pg].rw
  {
    FaultCore(m, r, p, i);
    FaultSim(m, r, a, p, i);
    assert Entry(r, p, i).rw;
  }

  /** A store that returns has done the specified write; on a page a failed fork
      left behind it does nothing any live process sees. */
  lemma StoreSim(m: Mem, r: Mem, a: User, p: nat, pg: nat, off: nat, v: byte)
    requires Refines(m, a) && Enabled(a, Store(p, pg, off, v)) && StoreByte(m, p, pg, off, v) == Some(r)
    ensures Accessible(a, p, pg) || (p, pg) in a.taken
    ensures Refines(r, if Accessible(a, p, pg) then Written(a, p, pg, Seen(a, p, pg)[off := v]) else a)
  {
    AccessSim(m, a, p, pg);
    if (p, pg) in a.taken {
      LeakWriteSim(m, a, p, pg, off, v);
    } else if CanWrite(m.tables[p][pg]) {
      WriteSim(m, a, p, pg, off, v);
    } else {
      var m1 := Fault(m, p, pg).value;
      HandlerSim(m, m1, a, p, pg);
      AccessSim(m1, a, p, pg);
      WriteSim(m1, a, p, pg, off, v);
    }
  }

  // ---- shared pages --------------------------------------------------------------------

  /** The kernel's search for an empty page finds the page the specification names. */
  lemma {:induction false} FreeAgrees(m: Mem, a: User, p: nat, pg: nat)
    requires Shape(m) && UserShape(a) && AttOk(m, a) && Task(p) && USER_LAST_PAGE <= pg
    ensures FreePageFrom(m.tables[p], pg) == FreeFrom(a, p, pg)
    decreases TOTAL_PAGES - pg
  {
    if pg < TOTAL_PAGES {
      assert UpperOk(m, a, p, pg);
      FreeAgrees(m, a, p, pg + 1);
    }
  }

  /** Below the user image's end only page 0 is empty. */
  lemma LowPagesTaken(m: Mem, a: User, p: nat, pg: nat)
    requires Refines(m, a) && p in a.priv && 0 < pg < USER_LAST_PAGE
    ensures m.tables[p][pg] != NO_ENTRY
    ensures forall k :: 0 <= k < NUM_SHARED_PAGES ==> m.tables[p][pg].frame != SharedFrame(k)
  {
    assert Task(p) && PrivTask(m, a, p);
    if pg < DATA {
      assert m.tables[p][pg] == KernelPte(pg);
    } else if pg < CODE {
      assert Slot(p, pg - DATA) && Mapped(m, p, pg - DATA);
    } else {
      assert CodeEntry(m, p, pg - CODE).frame == CodeFrame(pg - CODE);
    }
  }

  /** Entries above the user image and the shared-page table may change freely. */
  lemma UpperChange(m: Mem, r: Mem, a: User, b: User)
    requires Refines(m, a) && Shape(r) && UserShape(b) && b.priv == a.priv && b.code == a.code && b.lost == a.lost
    requires r.refs == m.refs
    requires forall q, pg :: Task(q) && 0 <= pg < USER_LAST_PAGE ==> r.tables[q][pg] == m.tables[q][pg]
    requires forall k :: 0 <= k < NUM_SHARED_PAGES ==> r.shared[k].frame == m.shared[k].frame
    requires forall f :: SharedFrame(NUM_SHARED_PAGES) <= f < TOTAL_PAGES ==> r.ram[f] == m.ram[f]
    requires forall k :: 0 <= k < NUM_SHARED_PAGES ==> r.ram[SharedFrame(k)] == b.shm[k]
    ensures Core(r) && Frozen(r) && PrivOk(r, b) && CommonOk(r, b)
  {
    SameEntries(m, r);
    forall q | Task(q)
      ensures PrivTask(r, b, q)
    {
      assert PrivTask(m, a, q);
      CodeKept(m, q, r, q);
      forall i | Slot(q, i)
        ensures Entry(r, q, i) == Entry(m, q, i)
        ensures Mapped(m, q, i) ==> r.ram[Entry(r, q, i).frame] == m.ram[Entry(m, q, i).frame]
      {
      }
    }
  }

  /** Where an attachment goes, in the kernel's words and in the specification's. */
  lemma AttachPage(m: Mem, a: User, p: nat, addr: nat)
    requires Refines(m, a) && p in a.priv && addr / PAGE_SIZE < TOTAL_PAGES && addr % PAGE_SIZE == 0
    ensures Task(p)
    ensures var asked := addr / PAGE_SIZE;
            var t := m.tables[p];
            (if addr == 0 || t[asked] != NO_ENTRY then FreePage(t) else asked) ==
            (if USER_LAST_PAGE <= asked && !Used(a, p, asked) then asked else FreeFrom(a, p, USER_LAST_PAGE))
  {
    assert Task(p);
    FreeAgrees(m, a, p, USER_LAST_PAGE);
    var asked := addr / PAGE_SIZE;
    if 0 < asked < USER_LAST_PAGE {
      LowPagesTaken(m, a, p, asked);
    } else if USER_LAST_PAGE <= asked {
      assert UpperOk(m, a, p, asked);
    }
  }

  lemma ShmatSim(m: Mem, a: User, p: nat, id: int, addr: nat)
    requires Refines(m, a) && Enabled(a, ShmAt(p, id, addr))
    ensures var (r, o) := Shmat(m, p, id, addr);
            var (b, o') := UserAttach(a, p, id, addr);
            Refines(r, b) && o == o'
  {
    if 0 <= id < NUM_SHARED_PAGES && addr % PAGE_SIZE == 0 {
      AttachPage(m, a, p, addr);
      FreePageRange(m.tables[p], USER_LAST_PAGE);
      FreeFromRange(a, p, USER_LAST_PAGE);
      var asked := addr / PAGE_SIZE;
      var pg := if USER_LAST_PAGE <= asked && !Used(a, p, asked) then asked else FreeFrom(a, p, USER_LAST_PAGE);
      if pg != -1 {
        AttachSim(m, Shmat(m, p, id, addr).0, a, UserAttach(a, p, id, addr).0, p, pg, id);
      }
    }
  }

  lemma AttachSim(m: Mem, r: Mem, a: User, b: User, p: nat, pg: nat, id: nat)
    requires Refines(m, a) && p in a.priv && USER_LAST_PAGE <= pg < TOTAL_PAGES && id < NUM_SHARED_PAGES
    requires !Used(a, p, pg) && b == a.(att := a.att[(p, pg) := id])
    requires Shape(r) && r.refs == m.refs && r.ram == m.ram
    requires r.tables == m.tables[p := m.tables[p][pg := UserPte(m.shared[id].frame)]]
    requires r.shared == m.shared[id := m.shared[id].(numRefs := m.shared[id].numRefs + 1)]
    ensures Refines(r, b)
  {
    AttachAtt(m, r, a, b, p, pg, id);
    UpperChange(m, r, a, b);
  }

  lemma AttachAtt(m: Mem, r: Mem, a: User, b: User, p: nat, pg: nat, id: nat)
    requires Shape(m) && Shape(r) && UserShape(a) && UserShape(b) && AttOk(m, a)
    requires Task(p) && USER_LAST_PAGE <= pg < TOTAL_PAGES && id < NUM_SHARED_PAGES
    requires !Used(a, p, pg) && b == a.(att := a.att[(p, pg) := id]) && m.shared[id].frame == SharedFrame(id)
    requires r.tables == m.tables[p := m.tables[p][pg := UserPte(m.shared[id].frame)]]
    requires r.shared == m.shared[id := m.shared[id].(numRefs := m.shared[id].numRefs + 1)]
    ensures AttOk(r, b)
  {
    AttachCounts(a, (p, pg), id);
    forall q, g | Task(q) && USER_LAST_PAGE <= g < TOTAL_PAGES
      ensures UpperOk(r, b, q, g)
    {
      assert UpperOk(m, a, q, g);
      if (q, g) in a.taken {
        LeakStays(m, r, a, b, m.tables[q][g]);
      }
    }
  }

  /** A new attachment is one more for its page and no more for any other. */
  lemma AttachCounts(a: User, x: (nat, nat), id: nat)
    requires x !in a.att
    ensures forall k: nat :: |Attached(a.(att := a.att[x := id]), k)| == |Attached(a, k)| + if k == id then 1 else 0
  {
    var b := a.(att := a.att[x := id]);
    forall k: nat
      ensures |Attached(b, k)| == |Attached(a, k)| + if k == id then 1 else 0
    {
      assert x !in Attached(a, k);
      if k == id {
        assert Attached(b, k) == Attached(a, k) + {x};
      } else {
        assert Attached(b, k) == Attached(a, k);
      }
    }
  }

  /** On a frame of a shared page, `is_frame_shared` answers its id, and on any
      other frame 0 - which is also the id of the first shared page. */
  lemma SharedIdOf(m: Mem, f: nat)
    requires Shape(m) && SharedFrames(m)
    ensures var id := SharedId(m.shared, f, 0);
            0 <= id <= NUM_SHARED_PAGES &&
            (if exists k :: 0 <= k < NUM_SHARED_PAGES && f == SharedFrame(k) then f == SharedFrame(id) else id == 0)
  {
    SharedIdRange(m.shared, f, 0);
    if k :| 0 <= k < NUM_SHARED_PAGES && f == SharedFrame(k) {
      assert m.shared[k].frame == f;
    }
  }

  lemma ShmdtSim(m: Mem, a: User, p: nat, addr: nat)
    requires Refines(m, a) && Enabled(a, ShmDt(p, addr))
    ensures var (r, o) := Shmdt(m, p, addr);
            var (b, o') := UserDetach(a, p, addr);
            Refines(r, b) && o == o'
  {
    var pg := addr / PAGE_SIZE;
    if addr != 0 && addr % PAGE_SIZE == 0 {
      DetachId(m, a, p, pg);
      if (p, pg) in a.att && a.att[(p, pg)] != 0 {
        assert m.tables[p][pg].frame == SharedFrame(a.att[(p, pg)]);
        DetachSim(m, Shmdt(m, p, addr).0, a, UserDetach(a, p, addr).0, p, pg, a.att[(p, pg)]);
      }
    }
  }

  /** What `sys_shmdt` makes of a mapped page. */
  lemma DetachId(m: Mem, a: User, p: nat, pg: nat)
    requires Refines(m, a) && p in a.priv && 0 < pg < TOTAL_PAGES
    ensures Task(p)
    ensures var e := m.tables[p][pg];
            if (p, pg) in a.att then e == UserPte(SharedFrame(a.att[(p, pg)])) && SharedId(m.shared, e.frame, 0) == a.att[(p, pg)]
            else e == NO_ENTRY || SharedId(m.shared, e.frame, 0) == 0
  {
    assert Task(p);
    var e := m.tables[p][pg];
    SharedIdOf(m, e.frame);
    if pg < USER_LAST_PAGE {
      LowPagesTaken(m, a, p, pg);
    } else {
      assert UpperOk(m, a, p, pg);
      if (p, pg) in a.taken {
        LeakAlone(m, a, e);
      }
    }
  }

  /** Taking an attachment away leaves one less, and none exactly when it was alone. */
  lemma DetachCounts(a: User, att: map<(nat, nat), nat>, x: (nat, nat), id: nat)
    requires x in a.att && a.att[x] == id && att == a.att - {x}
    ensures forall k: nat :: |Attached(a.(att := att), k)| == |Attached(a, k)| - if k == id then 1 else 0
    ensures |Attached(a, id)| == 1 <==> Attached(a, id) == {x}
  {
    assert x in Attached(a, id);
    if |Attached(a, id)| == 1 {
      forall y | y in Attached(a, id)
        ensures y == x
      {
        SubsetSize({x, y}, Attached(a, id));
      }
    }
    forall k: nat
      ensures |Attached(a.(att := att), k)| == |Attached(a, k)| - if k == id then 1 else 0
    {
      assert Attached(a.(att := att), k) == Attached(a, k) - {x};
      assert x in Attached(a, k) <==> k == id;
    }
  }

  lemma DetachSim(m: Mem, r: Mem, a: User, b: User, p: nat, pg: nat, id: nat)
    requires Refines(m, a) && p in a.priv && USER_LAST_PAGE <= pg < TOTAL_PAGES && 0 < id < NUM_SHARED_PAGES
    requires (p, pg) in a.att && a.att[(p, pg)] == id
    requires var n := m.shared[id].numRefs - 1;
             && Shape(r) && r.refs == m.refs && r.shared == m.shared[id := m.shared[id].(numRefs := n)]
             && r.tables == m.tables[p := m.tables[p][pg := NO_ENTRY]]
             && r.ram == if n == 0 && m.shared[id].toClear then m.ram[SharedFrame(id) := ZeroPage()] else m.ram
    requires UserShape(b) && b == a.(att := a.att - {(p, pg)},
                                     shm := if Attached(a, id) == {(p, pg)} && a.clear[id] then a.shm[id := ZeroPage()] else a.shm)
    ensures Refines(r, b)
  {
    DetachCounts(a, b.att, (p, pg), id);
    DetachAtt(m, r, a, b, p, pg, id);
    assert m.shared[id].numRefs == |Attached(a, id)| && m.shared[id].toClear == a.clear[id];
    DetachUpper(m, r, a, b, p, pg, id);
  }

  lemma DetachUpper(m: Mem, r: Mem, a: User, b: User, p: nat, pg: nat, id: nat)
    requires Refines(m, a) && p in a.priv && USER_LAST_PAGE <= pg < TOTAL_PAGES && 0 < id < NUM_SHARED_PAGES
    requires Shape(r) && r.refs == m.refs && r.tables == m.tables[p := m.tables[p][pg := NO_ENTRY]]
    requires forall k :: 0 <= k < NUM_SHARED_PAGES ==> r.shared[k].frame == m.shared[k].frame
    requires UserShape(b) && b.priv == a.priv && b.code == a.code && b.lost == a.lost
    requires || (r.ram == m.ram && b.shm == a.shm)
             || (r.ram == m.ram[SharedFrame(id) := ZeroPage()] && b.shm == a.shm[id := ZeroPage()])
    ensures Core(r) && Frozen(r) && PrivOk(r, b) && CommonOk(r, b)
  {
    UpperChange(m, r, a, b);
  }

  lemma DetachAtt(m: Mem, r: Mem, a: User, b: User, p: nat, pg: nat, id: nat)
    requires Shape(m) && Shape(r) && UserShape(a) && UserShape(b) && AttOk(m, a)
    requires Task(p) && USER_LAST_PAGE <= pg < TOTAL_PAGES && id < NUM_SHARED_PAGES
    requires (p, pg) in a.att && a.att[(p, pg)] == id && b.att == a.att - {(p, pg)} && b.clear == a.clear
    requires b.lost == a.lost && b.taken == a.taken
    requires r.shared == m.shared[id := m.shared[id].(numRefs := m.shared[id].numRefs - 1)]
    requires r.tables == m.tables[p := m.tables[p][pg := NO_ENTRY]]
    ensures AttOk(r, b)
  {
    DetachCounts(a, b.att, (p, pg), id);
    assert forall k: nat :: Attached(b, k) == Attached(a.(att := b.att), k);
    forall q, g | Task(q) && USER_LAST_PAGE <= g < TOTAL_PAGES
      ensures UpperOk(r, b, q, g)
    {
      assert UpperOk(m, a, q, g);
      if (q, g) in a.taken {
        LeakStays(m, r, a, b, m.tables[q][g]);
      }
    }
  }

  lemma ShmrmSim(m: Mem, a: User, id: nat)
    requires Refines(m, a) && id < NUM_SHARED_PAGES
    ensures Refines(Shmrm(m, id).0, a.(clear := a.clear[id := true]))
  {
    var r := Shmrm(m, id).0;
    var b := a.(clear := a.clear[id := true]);
    assert forall k: nat :: Attached(b, k) == Attached(a, k);
    forall q, g | Task(q) && USER_LAST_PAGE <= g < TOTAL_PAGES
      ensures UpperOk(r, b, q, g)
    {
      assert UpperOk(m, a, q, g);
      if (q, g) in a.taken {
        LeakStays(m, r, a, b, m.tables[q][g]);
      }
    }
    UpperChange(m, r, a, b);
  }
}

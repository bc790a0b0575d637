/** Whole runs of the memory machine: copy-on-write and eager fork are the same
    thing to user programs, and exactly when either gets stuck. */
module PagingRuns {
  import opened Common
  import opened Paging
  import opened PagingInvariant
  import opened PagingEager
  import opened UserMemory
  import opened PagingRefinement

  /** One step, either fork, implements the specified step: the promised answer, and
      the same memory to every process. */
  lemma StepRefines(cow: bool, m: Mem, a: User, op: Op)
    requires Refines(m, a) && Enabled(a, op) && InRange(op) && Step(cow, m, op).Some?
    ensures var s := UserStep(cow, a, op);
            var (r, o) := Step(cow, m, op).value;
            s.Some? && Refines(r, s.value.0) && Promised(s.value.1, o)
  {
    match op
    case Fork(p, c) => ForkRefines(cow, m, a, p, c);
    case Exit(p) => ExitSim(m, a, p);
    case Load(p, pg, off) => AccessSim(m, a, p, pg);
    case Store(p, pg, off, v) => StoreSim(m, Step(cow, m, op).value.0, a, p, pg, off, v);
    case ShmAt(p, id, addr) => ShmatSim(m, a, p, id, addr);
    case ShmDt(p, addr) => ShmdtSim(m, a, p, addr);
    case ShmRm(p, id) =>
      if 0 <= id < NUM_SHARED_PAGES {
        ShmrmSim(m, a, id);
      }
  }

  lemma ForkRefines(cow: bool, m: Mem, a: User, p: nat, c: nat)
    requires Refines(m, a) && Enabled(a, Fork(p, c)) && p < NR_TASKS && c < NR_TASKS
    ensures var (b, e) := UserStep(cow, a, Fork(p, c)).value;
            var (r, o) := Step(cow, m, Fork(p, c)).value;
            Refines(r, b) && Promised(e, o)
  {
    ForkNeeds(m, a, p, c);
    var r := Step(cow, m, Fork(p, c)).value.0;
    if cow {
      LazyFork(m, p, c);
      ForkSim(m, r, a, a.(priv := a.priv[c := a.priv[p]]), p, c);
    } else {
      EagerFork(m, p, c);
      EmptyAgree(m, a, p);
      if ForkFits(cow, a, p) {
        ForkSim(m, r, a, a.(priv := a.priv[c := a.priv[p]]), p, c);
      } else {
        FailSim(m, r, a, p, c);
      }
    }
  }

  /** What makes a step the specification allows get stuck: a first write to a still
      shared page when the process has no empty logical page left. */
  ghost predicate Stuck(m: Mem, op: Op)
    requires Shape(m) && InRange(op)
  {
    op.Store? && DATA <= op.pg < CODE && !CanWrite(m.tables[op.p][op.pg]) &&
    m.tables[op.p][op.pg].frame < TOTAL_PAGES && m.refs[m.tables[op.p][op.pg].frame] != 1 &&
    FreePages(m.tables[op.p]) == {}
  }

  /** A step goes wrong exactly when the specification has no such step or it is the
      case of `Stuck`. Frames never run out. */
  lemma StepStuckIff(cow: bool, m: Mem, a: User, op: Op)
    requires Refines(m, a) && Enabled(a, op) && InRange(op)
    ensures Step(cow, m, op).None? <==> UserStep(cow, a, op).None? || Stuck(m, op)
  {
    match op
    case Store(p, pg, off, v) =>
      AccessSim(m, a, p, pg);
      if !CanWrite(m.tables[p][pg]) {
        StoreStuckIff(m, a, op);
      }
    case Load(p, pg, off) => AccessSim(m, a, p, pg);
    case _ =>
  }

  lemma StoreStuckIff(m: Mem, a: User, op: Op)
    requires Refines(m, a) && Enabled(a, op) && InRange(op) && op.Store? && !CanWrite(m.tables[op.p][op.pg])
    ensures (op.p, op.pg) !in a.taken
    ensures StoreByte(m, op.p, op.pg, op.off, op.v).None? <==> !Accessible(a, op.p, op.pg) || Stuck(m, op)
  {
    var p, pg := op.p, op.pg;
    AccessSim(m, a, p, pg);
    if !(DATA <= pg < USER_LAST_PAGE) {
      FaultOutside(m, a, p, pg);
      UpperWritable(m, a, p, pg);
    } else if pg < CODE {
      DataFaultIff(m, a, p, pg - DATA);
      if Fault(m, p, pg).Some? {
        HandledWritable(m, Fault(m, p, pg).value, a, p, pg);
      }
    } else {
      CodeFault(m, a, p, pg);
    }
  }

  lemma HandledWritable(m: Mem, r: Mem, a: User, p: nat, pg: nat)
    requires Refines(m, a) && p in a.priv && pg < TOTAL_PAGES && Fault(m, p, pg) == Some(r)
    ensures CanWrite(r.tables[p][pg])
  {
    HandlerSim(m, r, a, p, pg);
    AccessSim(r, a, p, pg);
  }

  /** The handler gives up on a data page exactly when the page is writable
      anyway, or shared while no logical page is left for the copy. */
  lemma DataFaultIff(m: Mem, a: User, p: nat, i: nat)
    requires Refines(m, a) && p in a.priv && Slot(p, i)
    ensures Mapped(m, p, i)
    ensures Fault(m, p, DATA + i).None? <==>
            Entry(m, p, i).rw || (m.refs[Entry(m, p, i).frame] != 1 && FreePages(m.tables[p]) == {})
  {
    assert PrivTask(m, a, p);
    AllocSucceeds(m);
    FreePageRange(m.tables[p], USER_LAST_PAGE);
    var fp := FreePage(m.tables[p]);
    if fp >= 0 {
      assert fp in FreePages(m.tables[p]);
    }
  }

  /** A page above the image is writable if there is one. */
  lemma UpperWritable(m: Mem, a: User, p: nat, pg: nat)
    requires Refines(m, a) && Task(p) && pg < TOTAL_PAGES
    ensures Used(a, p, pg) ==> CanWrite(m.tables[p][pg])
  {
    if Used(a, p, pg) {
      assert UpperOk(m, a, p, pg);
    }
  }

  // ---- runs ------------------------------------------------------------------------

  /** A run of the machine: the memory it ends in and everything user programs
      observed on the way; None if it got stuck. */
  function Run(cow: bool, m: Mem, ops: seq<Op>): Option<(Mem, seq<int>)>
    requires Shape(m)
    decreases ops
  {
    if ops == [] then Some((m, []))
    else if !InRange(ops[0]) then None
    else
      match Step(cow, m, ops[0])
      case None => None
      case Some((m1, o)) =>
        match Run(cow, m1, ops[1..])
        case None => None
        case Some((m2, os)) => Some((m2, [o] + os))
  }

  /** A run of the specification; None if some step has no meaning in it. */
  ghost function UserRun(cow: bool, a: User, ops: seq<Op>): Option<(User, seq<Option<int>>)>
    requires UserShape(a)
    decreases ops
  {
    if ops == [] then Some((a, []))
    else if !Enabled(a, ops[0]) then None
    else
      match UserStep(cow, a, ops[0])
      case None => None
      case Some((a1, e)) =>
        match UserRun(cow, a1, ops[1..])
        case None => None
        case Some((a2, es)) => Some((a2, [e] + es))
  }

  /** Every answer is the promised one. */
  ghost predicate AllPromised(es: seq<Option<int>>, os: seq<int>) {
    |es| == |os| && forall i :: 0 <= i < |es| ==> Promised(es[i], os[i])
  }

  /** Only live processes act, and the kernel forks into a free slot. */
  ghost predicate Behaved(cow: bool, a: User, ops: seq<Op>)
    requires UserShape(a)
    decreases ops
  {
    ops == [] ||
    (Enabled(a, ops[0]) && (UserStep(cow, a, ops[0]).Some? ==> Behaved(cow, UserStep(cow, a, ops[0]).value.0, ops[1..])))
  }

  /** Copy-on-write and eager fork both refine private memory: over every run, failed
      forks included, every load returns what it would if fork copied all twenty pages
      at once, every call answers the same, and the invariants hold at the end. */
  lemma {:induction false} RunRefines(cow: bool, m: Mem, a: User, ops: seq<Op>)
    requires Refines(m, a) && Behaved(cow, a, ops)
    requires Run(cow, m, ops).Some?
    ensures UserRun(cow, a, ops).Some?
    ensures AllPromised(UserRun(cow, a, ops).value.1, Run(cow, m, ops).value.1)
    ensures Refines(Run(cow, m, ops).value.0, UserRun(cow, a, ops).value.0)
    decreases ops
  {
    if ops != [] {
      StepRefines(cow, m, a, ops[0]);
      RunRefines(cow, Step(cow, m, ops[0]).value.0, UserStep(cow, a, ops[0]).value.0, ops[1..]);
      RunsJoin(cow, m, a, ops);
    }
  }

  /** The answers of a first step and those of the rest. */
  lemma RunsJoin(cow: bool, m: Mem, a: User, ops: seq<Op>)
    requires Shape(m) && UserShape(a) && ops != [] && Enabled(a, ops[0]) && InRange(ops[0])
    requires Step(cow, m, ops[0]).Some? && UserStep(cow, a, ops[0]).Some?
    requires Promised(UserStep(cow, a, ops[0]).value.1, Step(cow, m, ops[0]).value.1)
    requires var (r, b) := (Step(cow, m, ops[0]).value.0, UserStep(cow, a, ops[0]).value.0);
             Run(cow, r, ops[1..]).Some? && UserRun(cow, b, ops[1..]).Some? &&
             AllPromised(UserRun(cow, b, ops[1..]).value.1, Run(cow, r, ops[1..]).value.1)
    ensures var (r, b) := (Step(cow, m, ops[0]).value.0, UserStep(cow, a, ops[0]).value.0);
            && Run(cow, m, ops).Some? && Run(cow, m, ops).value.0 == Run(cow, r, ops[1..]).value.0
            && UserRun(cow, a, ops).Some? && UserRun(cow, a, ops).value.0 == UserRun(cow, b, ops[1..]).value.0
            && AllPromised(UserRun(cow, a, ops).value.1, Run(cow, m, ops).value.1)
  {
  }

  /** Whatever the specification allows, both machines can do, as long as the pages
      in use - those there are and those the run may attach - leave every process
      twenty empty logical pages. Then every fork succeeds. */
  lemma {:induction false} RunSucceeds(cow: bool, m: Mem, a: User, ops: seq<Op>)
    requires Refines(m, a) && UserRun(cow, a, ops).Some?
    requires |a.att| + |a.taken| + Attaches(ops) <= UPPER_PAGES - NUM_PAG_DATA
    ensures Run(cow, m, ops).Some?
    ensures AllPromised(UserRun(cow, a, ops).value.1, Run(cow, m, ops).value.1)
    ensures Refines(Run(cow, m, ops).value.0, UserRun(cow, a, ops).value.0)
    decreases ops
  {
    if ops != [] {
      StepSucceeds(cow, m, a, ops[0], |a.att| + |a.taken|);
      RunSucceeds(cow, Step(cow, m, ops[0]).value.0, UserStep(cow, a, ops[0]).value.0, ops[1..]);
      RunsJoin(cow, m, a, ops);
    }
  }

  lemma StepSucceeds(cow: bool, m: Mem, a: User, op: Op, n: nat)
    requires Refines(m, a) && Enabled(a, op) && UserStep(cow, a, op).Some?
    requires |a.att| + |a.taken| == n && n + (if op.ShmAt? then 1 else 0) <= UPPER_PAGES - NUM_PAG_DATA
    ensures InRange(op) && Step(cow, m, op).Some?
    ensures var ((r, o), (b, e)) := (Step(cow, m, op).value, UserStep(cow, a, op).value);
            Refines(r, b) && Promised(e, o) && |b.att| + |b.taken| <= n + if op.ShmAt? then 1 else 0
  {
    EnoughPages(a, op.p);
    EmptyAgree(m, a, op.p);
    StepStuckIff(cow, m, a, op);
    StepRefines(cow, m, a, op);
    PagesInUse(cow, a, op);
  }

  /** On such a run the specification is the same for both settings, and promises
      every answer unless a fork has failed before. */
  lemma {:induction false} SpecAgrees(a: User, ops: seq<Op>)
    requires UserShape(a) && |a.att| + |a.taken| + Attaches(ops) <= UPPER_PAGES - NUM_PAG_DATA
    ensures UserRun(true, a, ops) == UserRun(false, a, ops)
    ensures UserRun(true, a, ops).Some? && a.taken == {} ==>
              forall i :: 0 <= i < |UserRun(true, a, ops).value.1| ==> UserRun(true, a, ops).value.1[i].Some?
    decreases ops
  {
    if ops != [] && Enabled(a, ops[0]) {
      StepAgrees(a, ops[0], |a.att| + |a.taken|);
      if UserStep(true, a, ops[0]).Some? {
        SpecAgrees(UserStep(true, a, ops[0]).value.0, ops[1..]);
      }
    }
  }

  lemma StepAgrees(a: User, op: Op, n: nat)
    requires UserShape(a) && Enabled(a, op)
    requires |a.att| + |a.taken| == n && n + (if op.ShmAt? then 1 else 0) <= UPPER_PAGES - NUM_PAG_DATA
    ensures UserStep(true, a, op) == UserStep(false, a, op)
    ensures var s := UserStep(true, a, op);
            s.Some? ==> s.value.0.taken == a.taken && (a.taken == {} ==> s.value.1.Some?) &&
                        |s.value.0.att| + |a.taken| <= n + if op.ShmAt? then 1 else 0
  {
    EnoughPages(a, op.p);
    if UserStep(true, a, op).Some? {
      PagesInUse(true, a, op);
    }
  }

  /** `USE_COW` picks one of two implementations of the same thing. */
  lemma LazyEagerAgree(m: Mem, n: Mem, a: User, ops: seq<Op>)
    requires Refines(m, a) && Refines(n, a) && UserRun(true, a, ops).Some? && a.taken == {}
    requires |a.att| + Attaches(ops) <= UPPER_PAGES - NUM_PAG_DATA
    ensures Run(true, m, ops).Some? && Run(false, n, ops).Some?
    ensures Run(true, m, ops).value.1 == Run(false, n, ops).value.1
  {
    SpecAgrees(a, ops);
    RunSucceeds(true, m, a, ops);
    RunSucceeds(false, n, a, ops);
    var es := UserRun(true, a, ops).value.1;
    var os, os' := Run(true, m, ops).value.1, Run(false, n, ops).value.1;
    forall i | 0 <= i < |es|
      ensures os[i] == os'[i]
    {
      assert Promised(es[i], os[i]) && Promised(es[i], os'[i]);
    }
  }

  const UPPER_PAGES := TOTAL_PAGES - USER_LAST_PAGE

  function Attaches(ops: seq<Op>): nat {
    if ops == [] then 0 else (if ops[0].ShmAt? then 1 else 0) + Attaches(ops[1..])
  }

  /** A step that fits takes one page at most, by attaching one. */
  lemma PagesInUse(cow: bool, a: User, op: Op)
    requires UserShape(a) && Enabled(a, op) && UserStep(cow, a, op).Some? && (op.Fork? ==> ForkFits(cow, a, op.p))
    ensures var b := UserStep(cow, a, op).value.0;
            b.taken == a.taken && |b.att| <= |a.att| + if op.ShmAt? then 1 else 0
  {
    match op
    case ShmAt(p, id, addr) => AttachTakesOne(a, p, id, addr);
    case ShmDt(p, addr) => DetachShrinks(a, p, addr);
    case _ =>
  }

  lemma AttachTakesOne(a: User, p: nat, id: int, addr: nat)
    requires UserShape(a) && p < NR_TASKS && addr / PAGE_SIZE < TOTAL_PAGES
    ensures |UserAttach(a, p, id, addr).0.att| <= |a.att| + 1
  {
    var b := UserAttach(a, p, id, addr).0;
    if b.att != a.att {
      MapGrows(a.att, (p, UserAttach(a, p, id, addr).1 / PAGE_SIZE), id);
    }
  }

  lemma DetachShrinks(a: User, p: nat, addr: nat)
    requires UserShape(a) && p < NR_TASKS && addr / PAGE_SIZE < TOTAL_PAGES
    ensures |UserDetach(a, p, addr).0.att| <= |a.att|
  {
    var b := UserDetach(a, p, addr).0;
    if b.att != a.att {
      MapShrinks(a.att, (p, addr / PAGE_SIZE));
    }
  }

  lemma MapGrows<K, V>(m: map<K, V>, k: K, v: V)
    ensures |m[k := v]| <= |m| + 1
  {
    assert m[k := v].Keys == m.Keys + {k};
    assert |m[k := v]| == |m[k := v].Keys| && |m| == |m.Keys|;
  }

  lemma MapShrinks<K, V>(m: map<K, V>, k: K)
    ensures |m - {k}| <= |m|
  {
    SubsetSize((m - {k}).Keys, m.Keys);
    assert |m - {k}| == |(m - {k}).Keys| && |m| == |m.Keys|;
  }

  /** Every page in use is a logical page of one process. */
  lemma EnoughPages(a: User, p: nat)
    requires UserShape(a)
    ensures |EmptyPages(a, p)| + |a.att| + |a.taken| >= UPPER_PAGES
  {
    var free := EmptyPages(a, p);
    var all := Range(USER_LAST_PAGE, UPPER_PAGES);
    var used := all - free;
    assert all == used + free;
    TakenBound(a.att.Keys + a.taken, p, used);
    assert |a.att.Keys| == |a.att|;
  }

  lemma TakenBound(pages: set<(nat, nat)>, p: nat, used: set<nat>)
    requires forall pg :: pg in used ==> (p, pg) in pages
    ensures |used| <= |pages|
  {
    var pairs := set pg: nat | pg in used :: (p, pg);
    PairsSize(p, used);
    SubsetSize(pairs, pages);
  }

  lemma {:induction false} PairsSize(p: nat, s: set<nat>)
    ensures |set pg: nat | pg in s :: (p, pg)| == |s|
  {
    if x :| x in s {
      PairsSize(p, s - {x});
      assert (set pg: nat | pg in s :: (p, pg)) == (set pg: nat | pg in s - {x} :: (p, pg)) + {(p, x)};
    }
  }

  // ---- what holds in every reachable state ---------------------------------------------

  /** Reference conservation, byte safety, and the frame bound, in every state a
      run can reach from one the specification describes. */
  lemma ReachableCounts(cow: bool, m: Mem, a: User, ops: seq<Op>, f: nat)
    requires Refines(m, a) && Behaved(cow, a, ops)
    requires Run(cow, m, ops).Some? && NUM_PAG_KERNEL <= f < TOTAL_PAGES
    ensures var r := Run(cow, m, ops).value.0;
            && Shape(r)
            && r.refs[f] == (if exists k :: 0 <= k < NUM_SHARED_PAGES && r.shared[k].frame == f then 1 else 0)
                            + (if exists j :: 0 <= j < NUM_PAG_CODE && CodeFrame(j) == f then 1 else 0)
                            + |Mappers(r, f)|
            && 0 <= r.refs[f] <= 9
            && |UsedFrames(r)| <= 198
            && FirstFree(r.refs, NUM_PAG_KERNEL) != -1
  {
    RunRefines(cow, m, a, ops);
    var r := Run(cow, m, ops).value.0;
    RefsFitByte(r, f);
    FramesInUse(r);
    AllocSucceeds(r);
    FixedRefsMean(r, f);
  }

  lemma FixedRefsMean(m: Mem, f: nat)
    requires Shape(m) && Frozen(m)
    ensures FixedRefs(f) == (if exists k :: 0 <= k < NUM_SHARED_PAGES && m.shared[k].frame == f then 1 else 0)
                            + (if exists j :: 0 <= j < NUM_PAG_CODE && CodeFrame(j) == f then 1 else 0)
  {
    if NUM_PAG_KERNEL <= f < FIRST_DATA_FRAME && f % 2 == 0 {
      var k := (f - NUM_PAG_KERNEL) / 2;
      if k < NUM_SHARED_PAGES {
        assert m.shared[k].frame == f;
      } else {
        assert CodeFrame(k - NUM_SHARED_PAGES) == f;
      }
    }
  }

  /** Writable means exclusive, in every reachable state. */
  lemma ReachableExclusive(cow: bool, m: Mem, a: User, ops: seq<Op>, p: nat, i: nat, q: nat, j: nat)
    requires Refines(m, a) && Behaved(cow, a, ops)
    requires Run(cow, m, ops).Some? && Slot(p, i) && Slot(q, j)
    ensures var r := Run(cow, m, ops).value.0;
            && Shape(r)
            && (Mapped(r, p, i) && Mapped(r, q, j) && Entry(r, p, i).frame == Entry(r, q, j).frame ==>
                  i == j && (Entry(r, p, i).rw ==> p == q && r.refs[Entry(r, p, i).frame] == 1))
  {
    RunRefines(cow, m, a, ops);
    var r := Run(cow, m, ops).value.0;
    if Mapped(r, p, i) && Entry(r, p, i).rw {
      var f := Entry(r, p, i).frame;
      assert Mappers(r, f) == {(p, i)} by {
        assert (p, i) in Slots();
        forall x | x in Mappers(r, f)
          ensures x == (p, i)
        {
          assert Slot(x.0, x.1) && Mapped(r, x.0, x.1);
        }
      }
    }
  }

  /** Isolation, exactly: what `p` stores in its user image is invisible to another
      live process precisely when it stores in a data page. A code page has one
      frame for everybody and a count of one, so the handler hands it out. */
  lemma StoreIsolatedIff(m: Mem, a: User, p: nat, q: nat, pg: nat, off: nat, v: byte)
    requires Refines(m, a) && Enabled(a, Store(p, pg, off, v)) && q in a.priv && q != p && DATA <= pg < USER_LAST_PAGE
    requires StoreByte(m, p, pg, off, v).Some? && Task(q) && m.tables[q][pg].frame < TOTAL_PAGES
    requires m.ram[m.tables[q][pg].frame][off] != v
    ensures var r := StoreByte(m, p, pg, off, v).value;
            r.tables[q][pg].frame < TOTAL_PAGES &&
            (r.ram[r.tables[q][pg].frame] == m.ram[m.tables[q][pg].frame] <==> pg < CODE)
  {
    var r := StoreByte(m, p, pg, off, v).value;
    StoreSim(m, r, a, p, pg, off, v);
    AccessSim(m, a, q, pg);
    AccessSim(m, a, p, pg);
    AccessSim(r, Written(a, p, pg, Seen(a, p, pg)[off := v]), q, pg);
  }
}

/** The eager fork: its reservation loop, its copy loop, and exactly when it succeeds. */
module PagingEager {
  import opened Common
  import opened Paging
  import opened PagingInvariant
  import opened PagingSteps

  /** The empty logical pages above the user image. */
  ghost function FreePages(t: Table): set<nat>
    requires |t| == TOTAL_PAGES
  {
    set pg: nat | USER_LAST_PAGE <= pg < TOTAL_PAGES && t[pg] == NO_ENTRY
  }

  /** The reservation loop after `k` rounds: the child maps `k` new frames, and the
      parent maps the same ones at `pages`. */
  ghost predicate ReservedUpTo(m: Mem, r: Mem, pages: seq<nat>, p: nat, c: nat, k: nat)
    requires Shape(m) && Task(p) && Task(c)
  {
    && Shape(r) && r.ram == m.ram && r.shared == m.shared && |pages| == k <= NUM_PAG_DATA
    && ReservedData(m, r, c, k)
    && ReservedPages(m, r, pages, p, c)
    && (forall q :: Task(q) && q != p && q != c ==> r.tables[q] == m.tables[q])
    && (forall pg :: 0 <= pg < TOTAL_PAGES && !(DATA <= pg < DATA + k) ==> r.tables[c][pg] == m.tables[c][pg])
  }

  ghost predicate ReservedData(m: Mem, r: Mem, c: nat, k: nat)
    requires Shape(m) && Shape(r) && Task(c)
  {
    && (forall q, j :: Slot(q, j) && !(q == c && j < k) ==> Entry(r, q, j) == Entry(m, q, j))
    && (forall j :: Slot(c, j) && j < k ==>
          Mapped(r, c, j) && Entry(r, c, j) == UserPte(Entry(r, c, j).frame) && NobodyMaps(m, Entry(r, c, j).frame))
  }

  ghost predicate NobodyMaps(m: Mem, f: nat)
    requires Shape(m)
  {
    forall q, j :: Slot(q, j) && Mapped(m, q, j) ==> Entry(m, q, j).frame != f
  }

  ghost predicate ReservedPages(m: Mem, r: Mem, pages: seq<nat>, p: nat, c: nat)
    requires Shape(m) && Shape(r) && Task(p) && Task(c) && |pages| <= NUM_PAG_DATA
  {
    && (forall j :: 0 <= j < |pages| ==>
          USER_LAST_PAGE <= pages[j] < TOTAL_PAGES && m.tables[p][pages[j]] == NO_ENTRY &&
          r.tables[p][pages[j]] == Entry(r, c, j))
    && (forall i, j :: 0 <= i < j < |pages| ==> pages[i] != pages[j])
    && (forall pg :: 0 <= pg < TOTAL_PAGES && pg !in pages ==> r.tables[p][pg] == m.tables[p][pg])
  }

  /** One successful round, as a description of the new state. */
  ghost predicate RoundReserved(m: Mem, r: Mem, p: nat, c: nat, i: nat, fp: nat, f: nat)
    requires Shape(m) && Task(p) && Slot(c, i)
  {
    && Shape(r) && USER_LAST_PAGE <= fp < TOTAL_PAGES && f < TOTAL_PAGES
    && m.tables[p][fp] == NO_ENTRY
    && r.ram == m.ram && r.shared == m.shared && r.refs == m.refs[f := (m.refs[f] + 1) % 256]
    && r.tables == m.tables[p := m.tables[p][fp := UserPte(f)]][c := m.tables[c][DATA + i := UserPte(f)]]
  }

  lemma ReserveOneRound(m: Mem, pages: seq<nat>, p: nat, c: nat, i: nat)
    requires Core(m) && Task(p) && Slot(c, i) && p != c
    requires ReservedShape(Reserved(m, pages, Going))
    ensures var r := ReserveOne(m, pages, p, c, i);
            var f := FirstFree(m.refs, NUM_PAG_KERNEL);
            var fp := FreePage(m.tables[p]);
            && r.status != NoFrame
            && (r.status == Going <==> FreePages(m.tables[p]) != {})
            && (r.status == NoPage ==> r.m == m && r.pages == pages)
            && (r.status == Going ==> 0 <= f && 0 <= fp && r.pages == pages + [fp] && RoundReserved(m, r.m, p, c, i, fp, f))
  {
    AllocSucceeds(m);
    FreePageRange(m.tables[p], USER_LAST_PAGE);
    var fp := FreePage(m.tables[p]);
    if fp >= 0 {
      assert fp in FreePages(m.tables[p]);
    }
  }

  lemma RoundCore(m: Mem, r: Mem, p: nat, c: nat, i: nat, fp: nat, f: nat)
    requires Core(m) && Task(p) && Slot(c, i) && p != c && c != IDLE && !Mapped(m, c, i)
    requires RoundReserved(m, r, p, c, i, fp, f)
    requires FIRST_DATA_FRAME <= f < TOTAL_PAGES && f % 2 == 0 && m.refs[f] == 0 && Mappers(m, f) == {}
    ensures Core(r) && NobodyMaps(m, f)
    ensures forall q, j :: Slot(q, j) ==> Entry(r, q, j) == if (q, j) == (c, i) then UserPte(f) else Entry(m, q, j)
  {
    Unmapped(m, f);
    forall q, j | Slot(q, j)
      ensures Entry(r, q, j) == if (q, j) == (c, i) then UserPte(f) else Entry(m, q, j)
    {
    }
    CountsMove(m, r, c, i);
    ExclusiveKept(m, r, c, i);
  }

  lemma RoundExtends(m: Mem, a: Mem, r: Mem, pages: seq<nat>, p: nat, c: nat, k: nat, fp: nat, f: nat)
    requires Shape(m) && Task(p) && Task(c) && p != c && k < NUM_PAG_DATA
    requires ReservedUpTo(m, a, pages, p, c, k) && RoundReserved(a, r, p, c, k, fp, f) && f != 0
    requires NobodyMaps(a, f)
    requires Clean(m, c)
    requires forall j :: Slot(c, j) && j < k ==> a.tables[p][pages[j]] != NO_ENTRY
    ensures ReservedUpTo(m, r, pages + [fp], p, c, k + 1)
  {
    forall q, j | Slot(q, j)
      ensures Entry(r, q, j) == if (q, j) == (c, k) then UserPte(f) else Entry(a, q, j)
    {
    }
    assert ReservedData(m, r, c, k + 1) by {
      assert NobodyMaps(m, f) by {
        forall q, j | Slot(q, j) && Mapped(m, q, j)
          ensures Entry(m, q, j).frame != f
        {
          assert q != c;
          assert Mapped(a, q, j);
        }
      }
    }
    var pages' := pages + [fp];
    assert fp !in pages by {
      forall j | 0 <= j < |pages|
        ensures pages[j] != fp
      {
        assert Slot(c, j);
      }
    }
    assert ReservedPages(m, r, pages', p, c) by {
      forall j | 0 <= j < |pages'|
        ensures r.tables[p][pages'[j]] == Entry(r, c, j) && m.tables[p][pages'[j]] == NO_ENTRY
      {
        if j < k {
          assert pages'[j] == pages[j] != fp;
        }
      }
    }
  }

  /** Where the reservation loop stands after `k` rounds: still going, or stopped
      because the parent has no empty page left. */
  ghost predicate ReserveAt(m: Mem, r: Reserved, p: nat, c: nat, k: nat)
    requires Shape(m) && Task(p) && Task(c)
  {
    && r.status != NoFrame && |r.pages| <= k
    && (r.status == Going <==> k <= |FreePages(m.tables[p])|)
    && (r.status == Going ==> |r.pages| == k)
    && Core(r.m) && ReservedUpTo(m, r.m, r.pages, p, c, |r.pages|)
    && |FreePages(r.m.tables[p])| == |FreePages(m.tables[p])| - |r.pages|
    && (r.status == NoPage ==> FreePages(r.m.tables[p]) == {})
  }

  lemma ReserveStep(m: Mem, a: Reserved, p: nat, c: nat, k: nat)
    requires Core(m) && Task(p) && Task(c) && p != c && c != IDLE && Clean(m, c) && k < NUM_PAG_DATA
    requires ReservedShape(a) && a.status == Going && ReserveAt(m, a, p, c, k)
    ensures ReserveAt(m, ReserveOne(a.m, a.pages, p, c, k), p, c, k + 1)
  {
    assert Slot(c, k);
    ReserveOneRound(a.m, a.pages, p, c, k);
    var r := ReserveOne(a.m, a.pages, p, c, k);
    if r.status == Going {
      AllocSucceeds(a.m);
      ReserveStepGoing(m, a, r, p, c, k, FreePage(a.m.tables[p]), FirstFree(a.m.refs, NUM_PAG_KERNEL));
    }
  }

  lemma ReserveStepGoing(m: Mem, a: Reserved, r: Reserved, p: nat, c: nat, k: nat, fp: nat, f: nat)
    requires Core(m) && Task(p) && Task(c) && p != c && c != IDLE && Clean(m, c) && k < NUM_PAG_DATA
    requires a.status == Going && ReserveAt(m, a, p, c, k)
    requires r.status == Going && r.pages == a.pages + [fp] && RoundReserved(a.m, r.m, p, c, k, fp, f)
    requires FIRST_DATA_FRAME <= f < TOTAL_PAGES && f % 2 == 0 && a.m.refs[f] == 0 && Mappers(a.m, f) == {}
    requires FreePages(a.m.tables[p]) != {}
    ensures ReserveAt(m, r, p, c, k + 1)
  {
    assert Slot(c, k) && Entry(a.m, c, k) == Entry(m, c, k);
    RoundCore(a.m, r.m, p, c, k, fp, f);
    assert forall j :: Slot(c, j) && j < k ==> a.m.tables[p][a.pages[j]] != NO_ENTRY;
    RoundExtends(m, a.m, r.m, a.pages, p, c, k, fp, f);
    PageTaken(a.m, r.m, p, c, k, fp, f);
  }

  /** A round takes one empty page from the parent. */
  lemma PageTaken(m: Mem, r: Mem, p: nat, c: nat, i: nat, fp: nat, f: nat)
    requires Shape(m) && Task(p) && Slot(c, i) && p != c && RoundReserved(m, r, p, c, i, fp, f)
    ensures |FreePages(r.tables[p])| == |FreePages(m.tables[p])| - 1
  {
    assert fp in FreePages(m.tables[p]);
    assert FreePages(r.tables[p]) == FreePages(m.tables[p]) - {fp};
  }

  lemma ReserveStays(m: Mem, a: Reserved, p: nat, c: nat, k: nat)
    requires Shape(m) && Task(p) && Task(c) && a.status != Going && ReserveAt(m, a, p, c, k)
    ensures ReserveAt(m, a, p, c, k + 1)
  {
  }

  /** The reservation loop goes on as long as the parent has empty pages; it never
      runs out of frames. */
  lemma {:induction false} ReserveRounds(m: Mem, p: nat, c: nat, k: nat)
    requires Core(m) && Task(p) && Task(c) && p != c && c != IDLE && Clean(m, c) && k <= NUM_PAG_DATA
    ensures ReserveAt(m, Reserve(m, p, c, k), p, c, k)
  {
    if k == 0 {
      assert Reserve(m, p, c, 0).pages == [];
    } else {
      ReserveRounds(m, p, c, k - 1);
      var a := Reserve(m, p, c, k - 1);
      if a.status == Going {
        ReserveStep(m, a, p, c, k - 1);
      } else {
        ReserveStays(m, a, p, c, k - 1);
      }
    }
  }

  // ---- the copy loop -------------------------------------------------------------

  /** The copy loop after `k` rounds: `k` pages copied, their temporary mappings gone. */
  ghost predicate CopiedUpTo(b: Mem, r: Mem, pages: seq<nat>, p: nat, c: nat, k: nat)
    requires Shape(b) && Task(p) && Task(c) && k <= |pages| == NUM_PAG_DATA
  {
    && Shape(r) && r.refs == b.refs && r.shared == b.shared
    && (forall q :: Task(q) && q != p ==> r.tables[q] == b.tables[q])
    && (forall pg :: 0 <= pg < TOTAL_PAGES ==> r.tables[p][pg] == if pg in pages[..k] then NO_ENTRY else b.tables[p][pg])
    && (forall j :: Slot(c, j) && j < k ==> r.ram[Entry(b, c, j).frame] == b.ram[Entry(b, p, j).frame])
    && (forall f :: 0 <= f < TOTAL_PAGES && (forall j :: Slot(c, j) ==> Entry(b, c, j).frame != f) ==> r.ram[f] == b.ram[f])
  }

  /** What the copy loop starts from. */
  ghost predicate ReadyToCopy(b: Mem, pages: seq<nat>, p: nat, c: nat)
    requires Shape(b) && Task(p) && Task(c)
  {
    && |pages| == NUM_PAG_DATA
    && (forall j :: 0 <= j < |pages| ==> USER_LAST_PAGE <= pages[j] < TOTAL_PAGES && b.tables[p][pages[j]] == Entry(b, c, j))
    && (forall i, j :: 0 <= i < j < |pages| ==> pages[i] != pages[j])
    && (forall i, j :: Slot(c, i) && Slot(c, j) && i != j ==> Entry(b, c, i).frame != Entry(b, c, j).frame)
    && (forall i, j :: Slot(p, i) && Slot(c, j) ==> Entry(b, p, i).frame != Entry(b, c, j).frame)
  }

  lemma {:induction false} CopyRounds(b: Mem, pages: seq<nat>, p: nat, c: nat, k: nat)
    requires Shape(b) && Task(p) && Task(c) && p != c && ReadyToCopy(b, pages, p, c) && k <= NUM_PAG_DATA
    ensures CopiedUpTo(b, CopyAll(b, p, pages, k), pages, p, c, k)
  {
    if k == 0 {
      assert pages[..0] == [];
    } else {
      CopyRounds(b, pages, p, c, k - 1);
      CopyStep(b, CopyAll(b, p, pages, k - 1), CopyAll(b, p, pages, k), pages, p, c, k - 1);
    }
  }

  lemma CopyStep(b: Mem, a: Mem, r: Mem, pages: seq<nat>, p: nat, c: nat, k: nat)
    requires Shape(b) && Task(p) && Task(c) && p != c && ReadyToCopy(b, pages, p, c) && k < NUM_PAG_DATA
    requires CopiedUpTo(b, a, pages, p, c, k) && r == CopyOne(a, p, pages[k], k)
    ensures CopiedUpTo(b, r, pages, p, c, k + 1)
  {
    assert Slot(c, k) && Slot(p, k);
    assert forall j :: 0 <= j < k ==> pages[..k][j] != pages[k];
    assert a.tables[p][pages[k]] == Entry(b, c, k);
    assert DATA + k !in pages[..k];
    assert pages[..k + 1] == pages[..k] + [pages[k]];
    assert a.ram[Entry(b, p, k).frame] == b.ram[Entry(b, p, k).frame];
  }

  // ---- the whole fork --------------------------------------------------------------

  /** A fork of `p` into `c` that went well, eager or lazy: the child's data
      pages hold what the parent's hold, and nobody else's memory changed. */
  ghost predicate Forked(m: Mem, r: Mem, p: nat, c: nat)
    requires Shape(m) && Task(p) && Task(c)
  {
    && Core(r) && r.shared == m.shared && FixedRamKept(m, r) && OthersKept(m, r, c)
    && (forall i :: Slot(c, i) ==> Mapped(r, c, i) && r.ram[Entry(r, c, i).frame] == m.ram[Entry(m, p, i).frame])
    && (forall pg :: 0 <= pg < TOTAL_PAGES && !(DATA <= pg < CODE) ==>
          r.tables[c][pg] == if pg < USER_LAST_PAGE then m.tables[p][pg] else m.tables[c][pg])
    && (forall q, pg :: Task(q) && q != c && 0 <= pg < TOTAL_PAGES && !(DATA <= pg < CODE) ==>
          r.tables[q][pg] == m.tables[q][pg])
    && (forall q, j :: Slot(q, j) && q != p && q != c ==> Entry(r, q, j) == Entry(m, q, j))
  }

  /** A fork of `p` into `c` that ran out of logical pages: every empty page of the
      parent now maps the frame of a writable data page of the child. */
  ghost predicate ForkFailed(m: Mem, r: Mem, p: nat, c: nat)
    requires Shape(m) && Task(p) && Task(c)
  {
    && Core(r) && r.shared == m.shared && r.ram == m.ram
    && (forall q, j :: Slot(q, j) && q != c ==> Entry(r, q, j) == Entry(m, q, j))
    && (forall q, pg :: Task(q) && 0 <= pg < DATA ==> r.tables[q][pg] == m.tables[if q == c then p else q][pg])
    && (forall q, pg :: Task(q) && q != c && CODE <= pg < USER_LAST_PAGE ==> r.tables[q][pg] == m.tables[q][pg])
    && (forall q, pg :: Task(q) && q != p && USER_LAST_PAGE <= pg < TOTAL_PAGES ==> r.tables[q][pg] == m.tables[q][pg])
    && (forall pg :: USER_LAST_PAGE <= pg < TOTAL_PAGES ==>
          if m.tables[p][pg] == NO_ENTRY then LeakedTo(r, c, r.tables[p][pg]) else r.tables[p][pg] == m.tables[p][pg])
  }

  /** The entry is that of a writable data page of `c`. */
  ghost predicate LeakedTo(m: Mem, c: nat, e: Pte)
    requires Shape(m) && Task(c)
  {
    e == UserPte(e.frame) && exists i :: Slot(c, i) && Entry(m, c, i) == e
  }

  /** An eager fork succeeds exactly when the parent has twenty empty logical
      pages. Then it forks, and the parent's page table comes back exactly. Otherwise
      the pages reserved so far - all the parent had - stay mapped. */
  lemma EagerFork(m: Mem, p: nat, c: nat)
    requires Core(m) && Task(p) && Task(c) && p != c && c != IDLE && Full(m, p) && Clean(m, c)
    ensures var (r, status) := ForkEager(m, p, c);
            && (status == Going <==> NUM_PAG_DATA <= |FreePages(m.tables[p])|)
            && (status == Going ==> Forked(m, r, p, c) && r.tables[p] == m.tables[p])
            && (status != Going ==> status == NoPage && ForkFailed(m, r, p, c))
  {
    var m1 := CopyKernelCode(m, p, c);
    CopyKernelCodeCore(m, p, c);
    assert Clean(m1, c);
    ReserveRounds(m1, p, c, NUM_PAG_DATA);
    var a := Reserve(m1, p, c, NUM_PAG_DATA);
    if a.status == Going {
      EagerReady(m1, a.m, a.pages, p, c);
      CopyRounds(a.m, a.pages, p, c, NUM_PAG_DATA);
      EagerDone(m, m1, a.m, CopyAll(a.m, p, a.pages, NUM_PAG_DATA), a.pages, p, c);
    } else {
      EagerFailed(m, m1, a.m, a.pages, p, c);
    }
  }

  lemma EagerFailed(m: Mem, m1: Mem, r: Mem, pages: seq<nat>, p: nat, c: nat)
    requires Core(m) && Core(m1) && Core(r) && Task(p) && Task(c) && p != c && |pages| <= NUM_PAG_DATA
    requires m1 == CopyKernelCode(m, p, c) && ReservedUpTo(m1, r, pages, p, c, |pages|)
    requires FreePages(r.tables[p]) == {}
    ensures ForkFailed(m, r, p, c)
  {
    CopyKernelCodeCore(m, p, c);
    forall q, j | Slot(q, j) && q != c
      ensures Entry(r, q, j) == Entry(m, q, j)
    {
      assert Entry(m1, q, j) == Entry(m, q, j);
    }
    forall pg | USER_LAST_PAGE <= pg < TOTAL_PAGES
      ensures if m.tables[p][pg] == NO_ENTRY then LeakedTo(r, c, r.tables[p][pg]) else r.tables[p][pg] == m.tables[p][pg]
    {
      if m.tables[p][pg] == NO_ENTRY {
        TakenLeaks(m1, r, pages, p, c, pg);
      }
    }
  }

  lemma TakenLeaks(m: Mem, r: Mem, pages: seq<nat>, p: nat, c: nat, pg: nat)
    requires Shape(m) && Task(p) && Task(c) && |pages| <= NUM_PAG_DATA && ReservedUpTo(m, r, pages, p, c, |pages|)
    requires FreePages(r.tables[p]) == {} && USER_LAST_PAGE <= pg < TOTAL_PAGES && m.tables[p][pg] == NO_ENTRY
    ensures LeakedTo(r, c, r.tables[p][pg])
  {
    assert pg !in FreePages(r.tables[p]);
    assert r.tables[p][pg] != NO_ENTRY;
    var j :| 0 <= j < |pages| && pages[j] == pg;
    assert Slot(c, j) && Entry(r, c, j) == r.tables[p][pg];
  }

  lemma EagerReady(m: Mem, b: Mem, pages: seq<nat>, p: nat, c: nat)
    requires Core(m) && Core(b) && Task(p) && Task(c) && p != c && ReservedUpTo(m, b, pages, p, c, NUM_PAG_DATA)
    requires forall i :: Slot(p, i) ==> Mapped(m, p, i)
    ensures ReadyToCopy(b, pages, p, c)
  {
    forall i, j | Slot(p, i) && Slot(c, j)
      ensures Entry(b, p, i).frame != Entry(b, c, j).frame
    {
      assert NobodyMaps(m, Entry(b, c, j).frame);
      assert Mapped(m, p, i);
    }
  }

  lemma EagerDone(m: Mem, m1: Mem, b: Mem, r: Mem, pages: seq<nat>, p: nat, c: nat)
    requires Core(m) && Core(m1) && Core(b) && Task(p) && Task(c) && p != c && Full(m, p) && Clean(m, c)
    requires m1 == CopyKernelCode(m, p, c) && ReservedUpTo(m1, b, pages, p, c, NUM_PAG_DATA)
    requires ReadyToCopy(b, pages, p, c)
    requires CopiedUpTo(b, r, pages, p, c, NUM_PAG_DATA)
    ensures Forked(m, r, p, c) && r.tables[p] == m.tables[p]
  {
    CopyKernelCodeCore(m, p, c);
    assert pages[..NUM_PAG_DATA] == pages;
    assert r.tables[p] == m.tables[p];
    forall q, j | Slot(q, j)
      ensures Entry(r, q, j) == Entry(b, q, j)
    {
    }
    SameEntries(b, r);
    forall q, j | Slot(q, j) && q != c
      ensures Entry(r, q, j) == Entry(m, q, j)
      ensures Mapped(m, q, j) ==> r.ram[Entry(m, q, j).frame] == m.ram[Entry(m, q, j).frame]
    {
      assert Entry(b, q, j) == Entry(m1, q, j);
      if Mapped(m, q, j) {
        forall i | Slot(c, i)
          ensures Entry(b, c, i).frame != Entry(m, q, j).frame
        {
          assert NobodyMaps(m1, Entry(b, c, i).frame);
          assert Mapped(m1, q, j);
        }
      }
    }
    forall i | Slot(c, i)
      ensures Mapped(r, c, i) && r.ram[Entry(r, c, i).frame] == m.ram[Entry(m, p, i).frame]
    {
      assert Slot(p, i);
    }
    forall f | 0 <= f < FIRST_DATA_FRAME
      ensures r.ram[f] == m.ram[f]
    {
      assert forall i :: Slot(c, i) ==> Mapped(b, c, i);
    }
  }

  lemma CopiedKernelCode(m: Mem, m1: Mem, p: nat, c: nat)
    requires Shape(m) && Shape(m1) && Task(p) && Task(c) && Full(m, p) && Clean(m, c) && m1.tables[p] == m.tables[p]
    requires forall q, i :: Slot(q, i) ==> Entry(m1, q, i) == Entry(m, q, i)
    ensures Full(m1, p) && Clean(m1, c)
  {
    CodeKept(m, p, m1, p);
    forall q, i | Slot(q, i)
      ensures Mapped(m1, q, i) <==> Mapped(m, q, i)
    {
    }
  }

  /** A lazy fork always succeeds, and forks. */
  lemma LazyFork(m: Mem, p: nat, c: nat)
    requires Core(m) && Task(p) && Task(c) && p != c && c != IDLE && Full(m, p) && Clean(m, c)
    ensures Forked(m, ForkLazy(m, p, c), p, c)
  {
    var m1 := CopyKernelCode(m, p, c);
    CopyKernelCodeCore(m, p, c);
    CopiedKernelCode(m, m1, p, c);
    ShareDataCore(m1, p, c, NUM_PAG_DATA);
    var r := ForkLazy(m, p, c);
    forall q | Task(q) && q != c
      ensures DataKept(m, r, q)
    {
      assert DataKept(m1, r, q);
      forall j | Slot(q, j) ensures Entry(m1, q, j) == Entry(m, q, j) {}
    }
    forall i | Slot(c, i)
      ensures Mapped(r, c, i) && r.ram[Entry(r, c, i).frame] == m.ram[Entry(m, p, i).frame]
    {
      assert Slot(p, i) && Entry(m1, p, i) == Entry(m, p, i);
    }
  }
}

/** Every loop round and every operation on memory keeps the core invariant;
    along the way, what each leaves alone. */
module PagingSteps {
  import opened Common
  import opened Paging
  import opened PagingInvariant

  /** Only data entries changed. */
  ghost predicate OutsideKept(m: Mem, r: Mem)
    requires Shape(m) && Shape(r)
  {
    forall q, pg :: Task(q) && 0 <= pg < TOTAL_PAGES && !(DATA <= pg < CODE) ==> r.tables[q][pg] == m.tables[q][pg]
  }

  /** Task `q` maps the same frames for its data pages, and they hold what they held. */
  ghost predicate DataKept(m: Mem, r: Mem, q: nat)
    requires Shape(m) && Shape(r) && Task(q)
  {
    forall j :: Slot(q, j) ==>
      (Mapped(m, q, j) <==> Mapped(r, q, j)) &&
      Entry(m, q, j).frame == Entry(r, q, j).frame &&
      (Mapped(m, q, j) ==> r.ram[Entry(r, q, j).frame] == m.ram[Entry(m, q, j).frame])
  }

  ghost predicate OthersKept(m: Mem, r: Mem, c: nat)
    requires Shape(m) && Shape(r)
  {
    forall q :: Task(q) && q != c ==> DataKept(m, r, q)
  }

  /** Frames that are no data frames hold what they held. */
  ghost predicate FixedRamKept(m: Mem, r: Mem)
    requires Shape(m) && Shape(r)
  {
    forall f :: 0 <= f < FIRST_DATA_FRAME ==> r.ram[f] == m.ram[f]
  }

  lemma SameEntries(m: Mem, r: Mem)
    requires Core(m) && Shape(r) && r.refs == m.refs
    requires forall p, i :: Slot(p, i) ==> Entry(r, p, i) == Entry(m, p, i)
    ensures Core(r)
  {
    forall f: nat
      ensures Mappers(r, f) == Mappers(m, f)
    {
      forall x | x in Slots()
        ensures x in Mappers(r, f) <==> x in Mappers(m, f)
      {
        assert Slot(x.0, x.1);
      }
    }
  }

  function Maps(m: Mem, p: nat, i: nat, f: nat): nat
    requires Shape(m) && Slot(p, i)
  {
    if Entry(m, p, i) != NO_ENTRY && Entry(m, p, i).frame == f then 1 else 0
  }

  /** Conservation survives a move of one entry whose references move along. */
  lemma CountsMove(m: Mem, r: Mem, c: nat, i: nat)
    requires Shape(m) && Shape(r) && Counts(m) && Slot(c, i) && FramesKept(m, r, c, i)
    requires forall f: nat :: NUM_PAG_KERNEL <= f < TOTAL_PAGES ==> r.refs[f] == m.refs[f] + Maps(r, c, i, f) - Maps(m, c, i, f)
    ensures Counts(r)
  {
    MappersMove(m, r, c, i);
    forall f: nat | NUM_PAG_KERNEL <= f < TOTAL_PAGES
      ensures r.refs[f] == FixedRefs(f) + |Mappers(r, f)|
    {
    }
  }

  /** An entry that moves to a frame of its own, or goes, keeps exclusiveness. */
  lemma ExclusiveKept(m: Mem, r: Mem, c: nat, i: nat)
    requires Shape(m) && Shape(r) && Exclusive(m) && Slot(c, i)
    requires forall q, j :: Slot(q, j) && (q, j) != (c, i) ==> Entry(r, q, j) == Entry(m, q, j)
    requires Mapped(r, c, i) ==>
               forall q, j :: Slot(q, j) && (q, j) != (c, i) && Mapped(m, q, j) ==> Entry(m, q, j).frame != Entry(r, c, i).frame
    ensures Exclusive(r)
  {
  }

  // ---- lazy fork -----------------------------------------------------------------

  lemma CopyKernelCodeCore(m: Mem, p: nat, c: nat)
    requires Core(m) && Task(p) && Task(c) && p != c
    ensures var r := CopyKernelCode(m, p, c);
            && Core(r) && r.ram == m.ram && r.shared == m.shared
            && (forall q, i :: Slot(q, i) ==> Entry(r, q, i) == Entry(m, q, i))
            && (forall q :: Task(q) && q != c ==> r.tables[q] == m.tables[q])
            && r.tables[c][..DATA] == m.tables[p][..DATA]
            && r.tables[c][CODE..USER_LAST_PAGE] == m.tables[p][CODE..USER_LAST_PAGE]
            && r.tables[c][USER_LAST_PAGE..] == m.tables[c][USER_LAST_PAGE..]
  {
    var r := CopyKernelCode(m, p, c);
    forall q, i | Slot(q, i)
      ensures Entry(r, q, i) == Entry(m, q, i)
    {
    }
    SameEntries(m, r);
  }

  lemma ShareOneCore(m: Mem, p: nat, c: nat, i: nat)
    requires Core(m) && Slot(p, i) && Slot(c, i) && p != c && c != IDLE
    requires Mapped(m, p, i) && !Mapped(m, c, i)
    ensures var r := ShareOne(m, p, c, i);
            && Core(r) && r.ram == m.ram && r.shared == m.shared && OutsideKept(m, r) && FramesKept(m, r, c, i)
            && Mapped(r, c, i) && Entry(r, c, i).frame == Entry(m, p, i).frame
            && !Entry(r, p, i).rw && !Entry(r, c, i).rw
            && (forall q, j :: Slot(q, j) && (j != i || (q != p && q != c)) ==> Entry(r, q, j) == Entry(m, q, j))
  {
    var r := ShareOne(m, p, c, i);
    RefsFitByte(m, Entry(m, p, i).frame);
    ShareOneEntries(m, p, c, i);
    CountsMove(m, r, c, i);
    ShareOneExclusive(m, p, c, i);
  }

  lemma ShareOneEntries(m: Mem, p: nat, c: nat, i: nat)
    requires Shape(m) && Slot(p, i) && Slot(c, i) && p != c && Mapped(m, p, i)
    requires forall q, j :: Slot(q, j) && Mapped(m, q, j) ==> FIRST_DATA_FRAME <= Entry(m, q, j).frame
    ensures var r := ShareOne(m, p, c, i);
            && OutsideKept(m, r) && FramesKept(m, r, c, i)
            && (forall q, j :: Slot(q, j) ==>
                  Entry(r, q, j) == if (q, j) == (c, i) || (q, j) == (p, i) then Entry(m, p, i).(rw := false) else Entry(m, q, j))
  {
  }

  lemma ShareOneExclusive(m: Mem, p: nat, c: nat, i: nat)
    requires Core(m) && Slot(p, i) && Slot(c, i) && p != c && Mapped(m, p, i) && !Mapped(m, c, i)
    ensures Exclusive(ShareOne(m, p, c, i))
  {
    var r := ShareOne(m, p, c, i);
    ShareOneEntries(m, p, c, i);
    forall q, j, s, k | Slot(q, j) && Slot(s, k) && Mapped(r, q, j) && Mapped(r, s, k) && Entry(r, q, j).frame == Entry(r, s, k).frame
      ensures j == k && (Entry(r, q, j).rw ==> q == s)
    {
      var q' := if (q, j) == (c, i) then p else q;
      var s' := if (s, k) == (c, i) then p else s;
      assert Mapped(m, q', j) && Mapped(m, s', k);
    }
  }

  /** The copy-on-write loop after `k` rounds. */
  ghost predicate SharedUpTo(m: Mem, r: Mem, p: nat, c: nat, k: nat)
    requires Shape(m) && Shape(r) && Task(p) && Task(c)
  {
    && r.ram == m.ram && r.shared == m.shared && OutsideKept(m, r) && OthersKept(m, r, c)
    && (forall q, j :: Slot(q, j) && q != p && q != c ==> Entry(r, q, j) == Entry(m, q, j))
    && (forall i :: Slot(c, i) ==>
          if i < k then Mapped(r, c, i) && Entry(r, c, i).frame == Entry(m, p, i).frame && !Entry(r, c, i).rw && !Entry(r, p, i).rw
          else !Mapped(r, c, i))
  }

  lemma {:induction false} ShareDataCore(m: Mem, p: nat, c: nat, k: nat)
    requires Core(m) && Task(p) && Task(c) && p != c && c != IDLE && k <= NUM_PAG_DATA
    requires Full(m, p) && Clean(m, c)
    ensures Core(ShareData(m, p, c, k)) && SharedUpTo(m, ShareData(m, p, c, k), p, c, k)
  {
    if k > 0 {
      ShareDataCore(m, p, c, k - 1);
      ShareAnother(m, ShareData(m, p, c, k - 1), ShareData(m, p, c, k), p, c, k - 1);
    }
  }

  lemma ShareAnother(m: Mem, a: Mem, r: Mem, p: nat, c: nat, k: nat)
    requires Shape(m) && Core(a) && Slot(p, k) && Slot(c, k) && p != c && c != IDLE && Full(m, p)
    requires SharedUpTo(m, a, p, c, k) && r == ShareOne(a, p, c, k)
    ensures Core(r) && SharedUpTo(m, r, p, c, k + 1)
  {
    assert DataKept(m, a, p);
    ShareOneCore(a, p, c, k);
    ShareExtends(m, a, r, p, c, k);
  }

  lemma ShareExtends(m: Mem, a: Mem, r: Mem, p: nat, c: nat, k: nat)
    requires Shape(m) && Shape(a) && Shape(r) && Slot(p, k) && Slot(c, k) && p != c && SharedUpTo(m, a, p, c, k)
    requires r.ram == a.ram && r.shared == a.shared && OutsideKept(a, r) && FramesKept(a, r, c, k)
    requires Mapped(r, c, k) && Entry(r, c, k).frame == Entry(a, p, k).frame && !Entry(r, p, k).rw && !Entry(r, c, k).rw
    requires forall q, j :: Slot(q, j) && (j != k || (q != p && q != c)) ==> Entry(r, q, j) == Entry(a, q, j)
    ensures SharedUpTo(m, r, p, c, k + 1)
  {
    assert DataKept(m, a, p);
    forall q | Task(q) && q != c
      ensures DataKept(m, r, q)
    {
      assert DataKept(m, a, q);
      forall j | Slot(q, j)
        ensures (Mapped(m, q, j) <==> Mapped(r, q, j)) && Entry(m, q, j).frame == Entry(r, q, j).frame
      {
        assert (q, j) != (c, k);
      }
    }
    forall i | Slot(c, i)
      ensures if i < k + 1 then Mapped(r, c, i) && Entry(r, c, i).frame == Entry(m, p, i).frame && !Entry(r, c, i).rw && !Entry(r, p, i).rw
              else !Mapped(r, c, i)
    {
      assert Slot(p, i);
    }
  }

  // ---- exit ----------------------------------------------------------------------

  lemma FreeOneCore(m: Mem, p: nat, i: nat)
    requires Core(m) && Slot(p, i)
    ensures var r := FreeOne(m, p, i);
            && Core(r) && r.ram == m.ram && r.shared == m.shared && OutsideKept(m, r) && FramesKept(m, r, p, i)
            && !Mapped(r, p, i)
  {
    var r := FreeOne(m, p, i);
    FreeOneEntries(m, p, i);
    if Mapped(m, p, i) {
      RefsFitByte(m, Entry(m, p, i).frame);
      assert (p, i) in Slots() && (p, i) in Mappers(m, Entry(m, p, i).frame);
    }
    CountsMove(m, r, p, i);
    ExclusiveKept(m, r, p, i);
  }

  lemma FreeOneEntries(m: Mem, p: nat, i: nat)
    requires Shape(m) && Slot(p, i)
    ensures var r := FreeOne(m, p, i);
            && OutsideKept(m, r) && FramesKept(m, r, p, i)
            && (forall q, j :: Slot(q, j) ==> Entry(r, q, j) == if (q, j) == (p, i) then NO_ENTRY else Entry(m, q, j))
  {
  }

  lemma {:induction false} FreeDataCore(m: Mem, p: nat, k: nat)
    requires Core(m) && Task(p) && k <= NUM_PAG_DATA
    ensures Core(FreeData(m, p, k)) && FreedUpTo(m, FreeData(m, p, k), p, k)
  {
    if k > 0 {
      FreeDataCore(m, p, k - 1);
      FreeAnother(m, FreeData(m, p, k - 1), FreeData(m, p, k), p, k - 1);
    }
  }

  /** `free_user_pages` after `k` rounds. */
  ghost predicate FreedUpTo(m: Mem, r: Mem, p: nat, k: nat)
    requires Shape(m) && Shape(r)
  {
    && r.ram == m.ram && r.shared == m.shared && OutsideKept(m, r)
    && (forall q, i :: Slot(q, i) ==> Entry(r, q, i) == if q == p && i < k then NO_ENTRY else Entry(m, q, i))
  }

  lemma FreeAnother(m: Mem, a: Mem, r: Mem, p: nat, k: nat)
    requires Shape(m) && Core(a) && Slot(p, k) && FreedUpTo(m, a, p, k) && r == FreeOne(a, p, k)
    ensures Core(r) && FreedUpTo(m, r, p, k + 1)
  {
    FreeOneCore(a, p, k);
    FreeOneEntries(a, p, k);
  }

  // ---- page fault ------------------------------------------------------------------

  /** Page `i` of task `p` became writable with its contents kept; no other
      entry and no frame anyone else maps was touched. */
  ghost predicate MadeWritable(m: Mem, r: Mem, p: nat, i: nat)
    requires Shape(m) && Slot(p, i)
  {
    && Core(r) && r.shared == m.shared && OutsideKept(m, r) && FixedRamKept(m, r)
    && (forall q, j :: Slot(q, j) && (q, j) != (p, i) ==> Entry(r, q, j) == Entry(m, q, j))
    && Mapped(r, p, i) && Entry(r, p, i).rw
    && r.ram[Entry(r, p, i).frame] == m.ram[Entry(m, p, i).frame]
    && (forall q, j :: Slot(q, j) && Mapped(m, q, j) ==> r.ram[Entry(m, q, j).frame] == m.ram[Entry(m, q, j).frame])
  }

  lemma FaultCore(m: Mem, r: Mem, p: nat, i: nat)
    requires Core(m) && Slot(p, i) && Fault(m, p, DATA + i) == Some(r)
    ensures MadeWritable(m, r, p, i)
  {
    FaultEntries(m, r, p, i);
    var g := Entry(m, p, i).frame;
    if m.refs[g] == 1 {
      FaultSole(m, r, p, i);
    } else {
      AllocSucceeds(m);
      FaultCopy(m, r, p, i, FirstFree(m.refs, NUM_PAG_KERNEL));
    }
  }

  /** What the handler wrote, entry by entry. */
  lemma FaultEntries(m: Mem, r: Mem, p: nat, i: nat)
    requires Shape(m) && Slot(p, i) && Fault(m, p, DATA + i) == Some(r)
    ensures Mapped(m, p, i)
    ensures var g := Entry(m, p, i).frame;
            if m.refs[g] == 1 then Rewritten(m, r, p, i, Entry(m, p, i).(rw := true)) && r.ram == m.ram && r.refs == m.refs
            else PageCopied(m, r, p, i, FirstFree(m.refs, NUM_PAG_KERNEL))
  {
    FreePageRange(m.tables[p], USER_LAST_PAGE);
    FirstFreeRange(m.refs, NUM_PAG_KERNEL);
    if m.refs[Entry(m, p, i).frame] != 1 {
      CopiedEntries(m, r, p, i, FreePage(m.tables[p]), FirstFree(m.refs, NUM_PAG_KERNEL));
    }
  }

  /** The temporary mapping comes and goes. */
  lemma CopiedEntries(m: Mem, r: Mem, p: nat, i: nat, fp: nat, f: nat)
    requires Shape(m) && Slot(p, i) && USER_LAST_PAGE <= fp < TOTAL_PAGES && f < TOTAL_PAGES && m.tables[p][fp] == NO_ENTRY
    requires var e := Entry(m, p, i);
             && e.frame < TOTAL_PAGES
             && r == SetPte(SetPte(Release(CopyFrame(SetPte(Retain(m, f), p, fp, UserPte(f)), e.frame, f), e.frame), p, DATA + i, UserPte(f)), p, fp, NO_ENTRY)
    ensures PageCopied(m, r, p, i, f)
  {
    assert r.tables[p] == m.tables[p][DATA + i := UserPte(f)];
  }

  ghost predicate Rewritten(m: Mem, r: Mem, p: nat, i: nat, e: Pte)
    requires Shape(m) && Slot(p, i)
  {
    && Shape(r) && r.shared == m.shared && OutsideKept(m, r)
    && (forall q, j :: Slot(q, j) ==> Entry(r, q, j) == if (q, j) == (p, i) then e else Entry(m, q, j))
  }

  ghost predicate PageCopied(m: Mem, r: Mem, p: nat, i: nat, f: int)
    requires Shape(m) && Slot(p, i)
  {
    var g := Entry(m, p, i).frame;
    && 0 <= f < TOTAL_PAGES
    && Rewritten(m, r, p, i, UserPte(f)) && r.ram == m.ram[f := m.ram[g]]
    && r.refs == (var a := m.refs[f := (m.refs[f] + 1) % 256]; a[g := (a[g] - 1) % 256])
  }

  lemma FaultSole(m: Mem, r: Mem, p: nat, i: nat)
    requires Core(m) && Slot(p, i) && Mapped(m, p, i) && m.refs[Entry(m, p, i).frame] == 1
    requires Rewritten(m, r, p, i, Entry(m, p, i).(rw := true)) && r.ram == m.ram && r.refs == m.refs
    ensures MadeWritable(m, r, p, i)
  {
    SoleMapper(m, p, i);
    CountsMove(m, r, p, i);
    ExclusiveKept(m, r, p, i);
  }

  lemma FaultCopy(m: Mem, r: Mem, p: nat, i: nat, f: nat)
    requires Core(m) && Slot(p, i) && Mapped(m, p, i)
    requires FIRST_DATA_FRAME <= f < TOTAL_PAGES && f % 2 == 0 && m.refs[f] == 0 && Mappers(m, f) == {}
    requires PageCopied(m, r, p, i, f)
    ensures MadeWritable(m, r, p, i)
  {
    Unmapped(m, f);
    CopyCounts(m, r, p, i, f);
    ExclusiveKept(m, r, p, i);
  }

  lemma CopyCounts(m: Mem, r: Mem, p: nat, i: nat, f: nat)
    requires Core(m) && Slot(p, i) && Mapped(m, p, i)
    requires FIRST_DATA_FRAME <= f < TOTAL_PAGES && m.refs[f] == 0 && Mappers(m, f) == {}
    requires PageCopied(m, r, p, i, f)
    ensures Counts(r)
  {
    var g := Entry(m, p, i).frame;
    RefsFitByte(m, g);
    assert (p, i) in Slots() && (p, i) in Mappers(m, g);
    CountsMove(m, r, p, i);
  }

  /** A frame with no mappers is the frame of no entry. */
  lemma Unmapped(m: Mem, f: nat)
    requires Shape(m) && Mappers(m, f) == {}
    ensures forall q, j :: Slot(q, j) && Mapped(m, q, j) ==> Entry(m, q, j).frame != f
  {
    forall q, j | Slot(q, j) && Mapped(m, q, j)
      ensures Entry(m, q, j).frame != f
    {
      assert (q, j) in Slots() && (q, j) !in Mappers(m, f);
    }
  }

  /** A data frame with one reference is mapped by one entry. */
  lemma SoleMapper(m: Mem, p: nat, i: nat)
    requires Core(m) && Slot(p, i) && Mapped(m, p, i) && m.refs[Entry(m, p, i).frame] == 1
    ensures forall q, j :: Slot(q, j) && Mapped(m, q, j) && Entry(m, q, j).frame == Entry(m, p, i).frame ==> (q, j) == (p, i)
  {
    var f := Entry(m, p, i).frame;
    assert (p, i) in Slots() && (p, i) in Mappers(m, f);
    forall q, j | Slot(q, j) && Mapped(m, q, j) && Entry(m, q, j).frame == f
      ensures (q, j) == (p, i)
    {
      assert (q, j) in Slots() && (q, j) in Mappers(m, f);
      SubsetSize({(p, i), (q, j)}, Mappers(m, f));
    }
  }
}

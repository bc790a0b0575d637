/** What every kernel operation keeps true of frames, reference counts and page
    tables, one round of one loop at a time. */
module PagingInvariant {
  import opened Common
  import opened Paging

  function SharedFrame(k: nat): nat { NUM_PAG_KERNEL + 2 * k }

  function CodeFrame(j: nat): nat { SharedFrame(NUM_SHARED_PAGES) + 2 * j }

  /** The first frame that can hold private data. */
  const FIRST_DATA_FRAME := 292

  ghost predicate Slot(p: int, i: int) { 0 <= p < NR_TASKS && 0 <= i < NUM_PAG_DATA }

  /** The page-table entry of data page `i` of task `p`. */
  function Entry(m: Mem, p: nat, i: nat): Pte
    requires Shape(m) && Slot(p, i)
  {
    m.tables[p][DATA + i]
  }

  ghost predicate Mapped(m: Mem, p: nat, i: nat)
    requires Shape(m) && Slot(p, i)
  {
    Entry(m, p, i) != NO_ENTRY
  }

  /** All (task, data page) pairs. */
  ghost function Slots(): set<(nat, nat)> {
    set p: nat, i: nat | p < NR_TASKS && i < NUM_PAG_DATA :: (p, i)
  }

  /** The data entries, over all ten page tables, that map frame `f`. */
  ghost function Mappers(m: Mem, f: nat): set<(nat, nat)>
    requires Shape(m)
  {
    set x | x in Slots() && Entry(m, x.0, x.1) != NO_ENTRY && Entry(m, x.0, x.1).frame == f
  }

  /** The references a frame has besides data entries: one if it is a shared page
      or a code frame. */
  function FixedRefs(f: nat): nat {
    if NUM_PAG_KERNEL <= f < FIRST_DATA_FRAME && f % 2 == 0 then 1 else 0
  }

  /** Reference conservation. */
  ghost predicate Counts(m: Mem)
    requires Shape(m)
  {
    forall f: nat :: NUM_PAG_KERNEL <= f < TOTAL_PAGES ==> m.refs[f] == FixedRefs(f) + |Mappers(m, f)|
  }

  /** Data entries are user entries on frames `alloc_frame` hands out, and the
      idle task has none. */
  ghost predicate DataFrames(m: Mem)
    requires Shape(m)
  {
    && (forall p, i :: Slot(p, i) && Mapped(m, p, i) ==>
          var e := Entry(m, p, i);
          e.user && e.present && FIRST_DATA_FRAME <= e.frame && e.frame % 2 == 0)
    && (forall i :: Slot(IDLE, i) ==> !Mapped(m, IDLE, i))
  }

  /** Two entries on one frame belong to the same logical page, and neither is
      writable unless they are the same entry. */
  ghost predicate Exclusive(m: Mem)
    requires Shape(m)
  {
    forall p, i, q, j ::
      Slot(p, i) && Slot(q, j) && Mapped(m, p, i) && Mapped(m, q, j) && Entry(m, p, i).frame == Entry(m, q, j).frame ==>
        i == j && (Entry(m, p, i).rw ==> p == q)
  }

  ghost predicate Core(m: Mem) {
    Shape(m) && Counts(m) && DataFrames(m) && Exclusive(m)
  }

  /** Below the data pages every table maps the kernel onto itself, page 0
      excepted; the shared-page frames are the first ten the allocator gave out. */
  ghost predicate Frozen(m: Mem)
    requires Shape(m)
  {
    && (forall p, pg :: Task(p) && 0 <= pg < DATA ==> m.tables[p][pg] == KernelPte(pg))
    && SharedFrames(m)
  }

  ghost predicate SharedFrames(m: Mem)
    requires Shape(m)
  {
    forall k :: 0 <= k < NUM_SHARED_PAGES ==> m.shared[k].frame == SharedFrame(k)
  }

  function KernelPte(pg: nat): Pte { if pg == 0 then NO_ENTRY else Pte(pg, true, false, true) }

  /** Every data and code page of `p` is mapped, the code pages on the common code frames. */
  ghost predicate Full(m: Mem, p: nat)
    requires Shape(m) && Task(p)
  {
    && (forall i :: Slot(p, i) ==> Mapped(m, p, i))
    && HasCode(m, p)
  }

  /** The page-table entry of code page `j` of task `p`. */
  function CodeEntry(m: Mem, p: nat, j: nat): Pte
    requires Shape(m) && Task(p) && j < NUM_PAG_CODE
  {
    m.tables[p][CODE + j]
  }

  ghost predicate HasCode(m: Mem, p: nat)
    requires Shape(m) && Task(p)
  {
    forall j: nat :: j < NUM_PAG_CODE ==>
      CodeEntry(m, p, j).frame == CodeFrame(j) && CodeEntry(m, p, j).user && CodeEntry(m, p, j).present
  }

  /** Task `c` of `r` maps its code pages as task `p` of `m` does, write bits aside. */
  ghost predicate CodeAlike(m: Mem, p: nat, r: Mem, c: nat)
    requires Shape(m) && Task(p) && Shape(r) && Task(c)
  {
    forall pg :: CODE <= pg < USER_LAST_PAGE ==> r.tables[c][pg].(rw := m.tables[p][pg].rw) == m.tables[p][pg]
  }

  lemma CodeKept(m: Mem, p: nat, r: Mem, c: nat)
    requires Shape(m) && Task(p) && Shape(r) && Task(c) && CodeAlike(m, p, r, c)
    ensures HasCode(m, p) ==> HasCode(r, c)
  {
    if HasCode(m, p) {
      forall j: nat | j < NUM_PAG_CODE
        ensures CodeEntry(r, c, j).frame == CodeFrame(j) && CodeEntry(r, c, j).user && CodeEntry(r, c, j).present
      {
        assert r.tables[c][CODE + j].(rw := m.tables[p][CODE + j].rw) == m.tables[p][CODE + j];
        assert CodeEntry(m, p, j).frame == CodeFrame(j);
      }
    }
  }

  ghost predicate Clean(m: Mem, p: nat)
    requires Shape(m) && Task(p)
  {
    forall i :: Slot(p, i) ==> !Mapped(m, p, i)
  }

  // ---- counting ----------------------------------------------------------------

  /** No data entry changed its frame except the one of task `c`, page `i`. */
  ghost predicate FramesKept(m: Mem, r: Mem, c: nat, i: nat)
    requires Shape(m) && Shape(r)
  {
    forall p, j :: Slot(p, j) && (p, j) != (c, i) ==>
      (Mapped(m, p, j) <==> Mapped(r, p, j)) && Entry(m, p, j).frame == Entry(r, p, j).frame
  }

  /** Moving one data entry from frame `f` to frame `g` moves it between their mapper sets. */
  lemma MappersMove(m: Mem, r: Mem, c: nat, i: nat)
    requires Shape(m) && Shape(r) && Slot(c, i) && FramesKept(m, r, c, i)
    ensures forall f: nat :: Mappers(r, f) ==
              if Mapped(r, c, i) && Entry(r, c, i).frame == f then Mappers(m, f) + {(c, i)} else Mappers(m, f) - {(c, i)}
    ensures forall f: nat :: (c, i) in Mappers(m, f) <==> Mapped(m, c, i) && Entry(m, c, i).frame == f
  {
    assert (c, i) in Slots();
    forall f: nat
      ensures Mappers(r, f) ==
              if Mapped(r, c, i) && Entry(r, c, i).frame == f then Mappers(m, f) + {(c, i)} else Mappers(m, f) - {(c, i)}
    {
      forall x | x in Slots() && x != (c, i)
        ensures x in Mappers(r, f) <==> x in Mappers(m, f)
      {
        assert Slot(x.0, x.1) && (x.0, x.1) != (c, i);
      }
    }
  }

  /** Entries on one frame sit in distinct tasks other than idle, so there are at most nine. */
  lemma MappersBound(m: Mem, f: nat)
    requires Shape(m) && DataFrames(m) && Exclusive(m)
    ensures |Mappers(m, f)| <= NR_TASKS - 1
  {
    var ms := Mappers(m, f);
    if x :| x in ms {
      var col := Column(NR_TASKS - 1, x.1);
      assert ms <= col by {
        forall y | y in ms ensures y in col {
          assert Slot(x.0, x.1) && Slot(y.0, y.1) && Mapped(m, x.0, x.1) && Mapped(m, y.0, y.1);
        }
      }
      ColumnSize(NR_TASKS - 1, x.1);
      SubsetSize(ms, col);
    }
  }

  ghost function Column(n: nat, i: nat): set<(nat, nat)> { set p: nat | p < n :: (p, i) }

  lemma {:induction false} ColumnSize(n: nat, i: nat)
    ensures |Column(n, i)| == n
  {
    if n > 0 {
      ColumnSize(n - 1, i);
      assert Column(n, i) == Column(n - 1, i) + {(n - 1, i)};
    }
  }

  lemma {:induction false} SlotsSize(n: nat)
    ensures |set p: nat, i: nat | p < n && i < NUM_PAG_DATA :: (p, i)| == NUM_PAG_DATA * n
  {
    var all := set p: nat, i: nat | p < n && i < NUM_PAG_DATA :: (p, i);
    if n == 0 {
      assert all == {};
    } else {
      SlotsSize(n - 1);
      RowSize(n - 1, NUM_PAG_DATA);
      var rest := set p: nat, i: nat | p < n - 1 && i < NUM_PAG_DATA :: (p, i);
      assert all == rest + Row(n - 1, NUM_PAG_DATA);
      assert rest !! Row(n - 1, NUM_PAG_DATA);
    }
  }

  ghost function Row(p: nat, k: nat): set<(nat, nat)> { set i: nat | i < k :: (p, i) }

  lemma {:induction false} RowSize(p: nat, k: nat)
    ensures |Row(p, k)| == k
  {
    if k > 0 {
      RowSize(p, k - 1);
      assert Row(p, k) == Row(p, k - 1) + {(p, k - 1)};
    }
  }

  /** The frames at or above 256 with a reference. */
  ghost function UsedFrames(m: Mem): set<nat>
    requires Shape(m)
  {
    set f: nat | NUM_PAG_KERNEL <= f < TOTAL_PAGES && m.refs[f] != 0
  }

  ghost function EvenFrames(n: nat): set<nat> {
    set f: nat | NUM_PAG_KERNEL <= f < NUM_PAG_KERNEL + 2 * n && f % 2 == 0
  }

  lemma {:induction false} EvenFramesSize(n: nat)
    ensures |EvenFrames(n)| == n
  {
    if n == 0 {
      assert EvenFrames(n) == {};
    } else {
      EvenFramesSize(n - 1);
      assert EvenFrames(n) == EvenFrames(n - 1) + {NUM_PAG_KERNEL + 2 * (n - 1)};
    }
  }

  /** Frames that each have an entry in `es` are no more than the entries. */
  lemma {:induction false} FramesAtMostEntries(m: Mem, fs: set<nat>, es: set<(nat, nat)>)
    requires Shape(m)
    requires forall f :: f in fs ==> Mappers(m, f) * es != {}
    ensures |fs| <= |es|
  {
    if f :| f in fs {
      var x :| x in Mappers(m, f) * es;
      forall g | g in fs - {f}
        ensures Mappers(m, g) * (es - {x}) != {}
      {
        var y :| y in Mappers(m, g) * es;
        assert y != x;
        assert y in Mappers(m, g) * (es - {x});
      }
      FramesAtMostEntries(m, fs - {f}, es - {x});
    }
  }

  /** Ten shared pages, eight code pages and twenty data pages for each of nine
      tasks are all the frames that can be in use. */
  lemma FramesInUse(m: Mem)
    requires Core(m)
    ensures |UsedFrames(m)| <= NUM_SHARED_PAGES + NUM_PAG_CODE + NUM_PAG_DATA * (NR_TASKS - 1)
  {
    var fixed := EvenFrames(NUM_SHARED_PAGES + NUM_PAG_CODE);
    var data := UsedFrames(m) - fixed;
    var es := set p: nat, i: nat | p < NR_TASKS - 1 && i < NUM_PAG_DATA :: (p, i);
    forall f | f in data
      ensures Mappers(m, f) * es != {}
    {
      assert FixedRefs(f) == 0;
      assert |Mappers(m, f)| != 0;
      var x :| x in Mappers(m, f);
      assert Slot(x.0, x.1) && Mapped(m, x.0, x.1);
      assert x in es;
      assert x in Mappers(m, f) * es;
    }
    FramesAtMostEntries(m, data, es);
    SlotsSize(NR_TASKS - 1);
    EvenFramesSize(NUM_SHARED_PAGES + NUM_PAG_CODE);
    SubsetSize(UsedFrames(m), data + fixed);
  }

  /** Frames never run out: `alloc_frame` finds one in every state, and it is a
      data frame nobody maps. */
  lemma AllocSucceeds(m: Mem)
    requires Core(m)
    ensures var f := FirstFree(m.refs, NUM_PAG_KERNEL);
            FIRST_DATA_FRAME <= f < TOTAL_PAGES && f % 2 == 0 && m.refs[f] == 0 && Mappers(m, f) == {}
  {
    var f := FirstFree(m.refs, NUM_PAG_KERNEL);
    FirstFreeRange(m.refs, NUM_PAG_KERNEL);
    if f < 0 {
      var n := (TOTAL_PAGES - NUM_PAG_KERNEL) / 2;
      forall g | g in EvenFrames(n)
        ensures g in UsedFrames(m)
      {
        assert (g - NUM_PAG_KERNEL) % 2 == 0;
      }
      EvenFramesSize(n);
      SubsetSize(EvenFrames(n), UsedFrames(m));
      FramesInUse(m);
    }
  }

  /** Counts stay inside the Byte that holds them. */
  lemma RefsFitByte(m: Mem, f: nat)
    requires Core(m) && NUM_PAG_KERNEL <= f < TOTAL_PAGES
    ensures 0 <= m.refs[f] <= NR_TASKS - 1
  {
    MappersBound(m, f);
    if x :| x in Mappers(m, f) {
      assert Slot(x.0, x.1) && Mapped(m, x.0, x.1);
    }
  }
}

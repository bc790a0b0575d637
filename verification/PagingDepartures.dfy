/** Runs from boot that show where the memory side of the kernel departs from its
    purpose. */
module PagingDepartures {
  import opened Common
  import opened Paging
  import opened PagingBoot
  import opened UserMemory
  import opened PagingRefinement
  import opened PagingRuns

  /** The run of `ops` goes through and gives the answers `os`. */
  ghost predicate Gives(cow: bool, m: Mem, ops: seq<Op>, os: seq<int>) {
    Shape(m) && Run(cow, m, ops).Some? && Run(cow, m, ops).value.1 == os
  }

  /** `op` answers `o` and leads to `r`. */
  ghost predicate Goes(cow: bool, m: Mem, op: Op, r: Mem, o: int) {
    Shape(m) && InRange(op) && Step(cow, m, op) == Some((r, o))
  }

  lemma GivesMore(cow: bool, m: Mem, op: Op, r: Mem, o: int, rest: seq<Op>, os: seq<int>)
    requires Goes(cow, m, op, r, o) && Gives(cow, r, rest, os)
    ensures Gives(cow, m, [op] + rest, [o] + os)
  {
    assert ([op] + rest)[1..] == rest;
  }

  lemma GivesNothing(cow: bool, m: Mem)
    requires Shape(m)
    ensures Gives(cow, m, [], [])
  {
  }

  // ---- page 0 --------------------------------------------------------------------------

  /** The page `sys_shmat` picks for process 1 at boot. */
  const FIRST_FREE := USER_LAST_PAGE * PAGE_SIZE

  lemma AttachZero(cow: bool, m: Mem, a: User, p: nat, pg: nat) returns (r: Mem, b: User)
    requires Refines(m, a) && p in a.priv && FreeFrom(a, p, USER_LAST_PAGE) == pg
    ensures Goes(cow, m, ShmAt(p, 0, 0), r, pg * PAGE_SIZE)
    ensures Refines(r, b) && p in b.priv && pg < TOTAL_PAGES && (p, pg) in b.att && b.att[(p, pg)] == 0
  {
    FreeFromRange(a, p, USER_LAST_PAGE);
    StepRefines(cow, m, a, ShmAt(p, 0, 0));
    r := Shmat(m, p, 0, 0).0;
    b := UserAttach(a, p, 0, 0).0;
  }

  lemma DetachZero(cow: bool, m: Mem, a: User, p: nat, pg: nat) returns (r: Mem)
    requires Refines(m, a) && p in a.priv && 0 < pg < TOTAL_PAGES && (p, pg) in a.att && a.att[(p, pg)] == 0
    ensures Goes(cow, m, ShmDt(p, pg * PAGE_SIZE), r, -ENOSHR) && Shape(r)
  {
    StepRefines(cow, m, a, ShmDt(p, pg * PAGE_SIZE));
    r := Shmdt(m, p, pg * PAGE_SIZE).0;
  }

  /** Every live process with an empty page can attach shared page 0, and is told of
      what it got that it is not shared. */
  lemma AttachedPageZeroStays(cow: bool, m: Mem, a: User, p: nat, pg: nat)
    requires Refines(m, a) && p in a.priv && FreeFrom(a, p, USER_LAST_PAGE) == pg
    ensures Gives(cow, m, [ShmAt(p, 0, 0), ShmDt(p, pg * PAGE_SIZE)], [pg * PAGE_SIZE, -ENOSHR])
  {
    FreeFromRange(a, p, USER_LAST_PAGE);
    var r, b := AttachZero(cow, m, a, p, pg);
    var q := DetachZero(cow, r, b, p, pg);
    GivesNothing(cow, q);
    GivesMore(cow, r, ShmDt(p, pg * PAGE_SIZE), q, -ENOSHR, [], []);
    GivesMore(cow, m, ShmAt(p, 0, 0), r, pg * PAGE_SIZE, [ShmDt(p, pg * PAGE_SIZE)] + [], [-ENOSHR] + []);
    assert [ShmAt(p, 0, 0)] + ([ShmDt(p, pg * PAGE_SIZE)] + []) == [ShmAt(p, 0, 0), ShmDt(p, pg * PAGE_SIZE)];
    assert [pg * PAGE_SIZE] + ([-ENOSHR] + []) == [pg * PAGE_SIZE, -ENOSHR];
  }

  /** Process 1 can do so right after boot. */
  lemma PageZeroStays(cow: bool, ram: seq<Page>)
    requires |ram| == TOTAL_PAGES
    ensures Gives(cow, BootMem(ram), [ShmAt(TASK1, 0, 0), ShmDt(TASK1, FIRST_FREE)], [FIRST_FREE, -ENOSHR])
  {
    BootRefines(ram);
    AttachedPageZeroStays(cow, BootMem(ram), BootUser(ram), TASK1, USER_LAST_PAGE);
  }

  // ---- a fork that fails -----------------------------------------------------------------

  /** `n` attachments of shared page 1 wherever there is room, and a fork. */
  function AttachThenFork(p: nat, c: nat, n: nat): (ops: seq<Op>)
    ensures |ops| == n + 1
  {
    if n == 0 then [Fork(p, c)] else [ShmAt(p, 1, 0)] + AttachThenFork(p, c, n - 1)
  }

  /** Attaching takes an empty page. */
  lemma AttachFills(a: User, p: nat)
    requires UserShape(a) && p < NR_TASKS && EmptyPages(a, p) != {}
    ensures var b := UserAttach(a, p, 1, 0).0;
            |EmptyPages(b, p)| == |EmptyPages(a, p)| - 1 && b.priv == a.priv && b.lost == a.lost
  {
    FreeFromRange(a, p, USER_LAST_PAGE);
    var x :| x in EmptyPages(a, p);
    var pg: nat := FreeFrom(a, p, USER_LAST_PAGE);
    assert pg in EmptyPages(a, p);
    assert EmptyPages(UserAttach(a, p, 1, 0).0, p) == EmptyPages(a, p) - {pg};
  }

  /** `p` can fork into `c`, and has `n` empty pages. */
  ghost predicate CanFork(m: Mem, a: User, p: nat, c: nat, n: nat) {
    Refines(m, a) && Enabled(a, Fork(p, c)) && |EmptyPages(a, p)| == n
  }

  lemma AttachOne(m: Mem, a: User, p: nat, c: nat, n: nat) returns (r: Mem, b: User, o: int)
    requires CanFork(m, a, p, c, n) && n > 0
    ensures Goes(false, m, ShmAt(p, 1, 0), r, o) && CanFork(r, b, p, c, n - 1)
  {
    AttachFills(a, p);
    StepRefines(false, m, a, ShmAt(p, 1, 0));
    r, o := Shmat(m, p, 1, 0).0, Shmat(m, p, 1, 0).1;
    b := UserAttach(a, p, 1, 0).0;
  }

  lemma FullFork(m: Mem, a: User, p: nat, c: nat)
    requires Refines(m, a) && Enabled(a, Fork(p, c)) && |EmptyPages(a, p)| < NUM_PAG_DATA
    ensures Gives(false, m, AttachThenFork(p, c, 0), [-ENOMEM])
  {
    ForkRefines(false, m, a, p, c);
    var r := Step(false, m, Fork(p, c)).value.0;
    GivesNothing(false, r);
    GivesMore(false, m, Fork(p, c), r, -ENOMEM, [], []);
    assert [Fork(p, c)] + [] == AttachThenFork(p, c, 0) && [-ENOMEM] + [] == [-ENOMEM];
  }

  /** The last answer is that memory has run out. */
  ghost predicate EndsFull(m: Mem, p: nat, c: nat, n: nat, os: seq<int>) {
    Gives(false, m, AttachThenFork(p, c, n), os) && |os| == n + 1 && os[n] == -ENOMEM
  }

  lemma {:induction false} AttachThenForkFails(m: Mem, a: User, p: nat, c: nat, n: nat, k: nat) returns (os: seq<int>)
    requires CanFork(m, a, p, c, k) && n <= k < n + NUM_PAG_DATA
    ensures EndsFull(m, p, c, n, os)
    decreases n
  {
    if n == 0 {
      FullFork(m, a, p, c);
      os := [-ENOMEM];
    } else {
      var r, b, o := AttachOne(m, a, p, c, k);
      var rest := AttachThenForkFails(r, b, p, c, n - 1, k - 1);
      os := [o] + rest;
      AttachGoesFirst(m, r, p, c, n, o, rest);
    }
  }

  lemma AttachGoesFirst(m: Mem, r: Mem, p: nat, c: nat, n: nat, o: int, rest: seq<int>)
    requires n > 0 && Goes(false, m, ShmAt(p, 1, 0), r, o) && EndsFull(r, p, c, n - 1, rest)
    ensures EndsFull(m, p, c, n, [o] + rest)
  {
    GivesMore(false, m, ShmAt(p, 1, 0), r, o, AttachThenFork(p, c, n - 1), rest);
  }

  /** Process 1 can bring it about: with 721 of its 740 pages attached its fork fails. */
  lemma ForkFailsFromBoot(ram: seq<Page>) returns (os: seq<int>)
    requires |ram| == TOTAL_PAGES
    ensures Gives(false, BootMem(ram), AttachThenFork(TASK1, 7, 721), os) && |os| == 722 && os[721] == -ENOMEM
  {
    BootRefines(ram);
    var a := BootUser(ram);
    assert EmptyPages(a, TASK1) == Range(USER_LAST_PAGE, UPPER_PAGES);
    os := AttachThenForkFails(BootMem(ram), a, TASK1, 7, 721, UPPER_PAGES);
  }

  // ---- code pages --------------------------------------------------------------------------

  /** A process forks and stores a byte in its first code page, and the child finds it
      there. */
  lemma CodeStoreShared(cow: bool, m: Mem, a: User, p: nat, c: nat, v: byte)
    requires Refines(m, a) && Enabled(a, Fork(p, c)) && |a.att| + |a.taken| <= UPPER_PAGES - NUM_PAG_DATA
    ensures Gives(cow, m, [Fork(p, c), Store(p, CODE, 0, v), Load(c, CODE, 0)], [0, 0, v as int])
  {
    var r1, b1 := ForkGoes(cow, m, a, p, c);
    var r2, b2 := CodeStoreGoes(cow, r1, b1, p, v);
    var r3 := CodeLoadGoes(cow, r2, b2, c, v);
    var s, l := Store(p, CODE, 0, v), Load(c, CODE, 0);
    GivesNothing(cow, r3);
    GivesMore(cow, r2, l, r3, v as int, [], []);
    GivesMore(cow, r1, s, r2, 0, [l] + [], [v as int] + []);
    GivesMore(cow, m, Fork(p, c), r1, 0, [s] + ([l] + []), [0] + ([v as int] + []));
    assert [Fork(p, c)] + ([s] + ([l] + [])) == [Fork(p, c), s, l];
    assert [0] + ([0] + ([v as int] + [])) == [0, 0, v as int];
  }

  lemma ForkGoes(cow: bool, m: Mem, a: User, p: nat, c: nat) returns (r: Mem, b: User)
    requires Refines(m, a) && Enabled(a, Fork(p, c)) && |a.att| + |a.taken| <= UPPER_PAGES - NUM_PAG_DATA
    ensures Goes(cow, m, Fork(p, c), r, 0) && Refines(r, b) && p in b.priv && c in b.priv
  {
    EnoughPages(a, p);
    ForkRefines(cow, m, a, p, c);
    r := Step(cow, m, Fork(p, c)).value.0;
    b := UserStep(cow, a, Fork(p, c)).value.0;
  }

  lemma CodeStoreGoes(cow: bool, m: Mem, a: User, p: nat, v: byte) returns (r: Mem, b: User)
    requires Refines(m, a) && p in a.priv
    ensures Goes(cow, m, Store(p, CODE, 0, v), r, 0) && Refines(r, b) && b.priv == a.priv && b.code[0][0] == v
  {
    var op := Store(p, CODE, 0, v);
    StepStuckIff(cow, m, a, op);
    StepRefines(cow, m, a, op);
    r := Step(cow, m, op).value.0;
    b := UserStep(cow, a, op).value.0;
  }

  lemma CodeLoadGoes(cow: bool, m: Mem, a: User, c: nat, v: byte) returns (r: Mem)
    requires Refines(m, a) && c in a.priv && a.code[0][0] == v
    ensures Goes(cow, m, Load(c, CODE, 0), r, v as int) && Shape(r)
  {
    AccessSim(m, a, c, CODE);
    r := m;
  }

  /** It happens from boot. */
  lemma CodeStoreSeen(cow: bool, ram: seq<Page>, v: byte)
    requires |ram| == TOTAL_PAGES
    ensures Gives(cow, BootMem(ram), [Fork(TASK1, 7), Store(TASK1, CODE, 0, v), Load(7, CODE, 0)], [0, 0, v as int])
  {
    BootRefines(ram);
    CodeStoreShared(cow, BootMem(ram), BootUser(ram), TASK1, 7, v);
  }
}

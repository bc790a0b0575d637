/** What user programs are promised: private data pages per process, one code
    image, ten shared pages. No frames, no reference counts, no write bits. A fork
    that fails for want of logical pages costs a task slot and every empty logical
    page of the caller. */
module UserMemory {
  import opened Common
  import opened Paging

  datatype User = User(
    priv: map<nat, seq<Page>>,     // the twenty data pages of each live process
    code: seq<Page>,               // the code image, common to all
    shm: seq<Page>,                // the shared pages by id
    att: map<(nat, nat), nat>,     // which id is attached at (task, logical page)
    clear: seq<bool>,              // shared pages marked by shmrm
    lost: set<nat>,                // task slots a failed fork did not give back
    taken: set<(nat, nat)>)        // logical pages a failed fork left mapped

  /** One step of the kernel on memory, or one user access. */
  datatype Op =
    | Fork(p: nat, c: nat)
    | Exit(p: nat)
    | Load(p: nat, pg: nat, off: nat)
    | Store(p: nat, pg: nat, off: nat, v: byte)
    | ShmAt(p: nat, id: int, addr: nat)
    | ShmDt(p: nat, addr: nat)
    | ShmRm(p: nat, id: int)

  /** Attachments of shared page `id`, over all page tables. */
  ghost function Attached(a: User, id: nat): set<(nat, nat)> {
    set x | x in a.att && a.att[x] == id
  }

  predicate Used(a: User, p: nat, pg: nat) {
    (p, pg) in a.att || (p, pg) in a.taken
  }

  function FreeFrom(a: User, p: nat, pg: nat): int
    decreases TOTAL_PAGES - pg
  {
    if pg >= TOTAL_PAGES then -1 else if !Used(a, p, pg) then pg else FreeFrom(a, p, pg + 1)
  }

  /** The empty logical pages of `p` above its image. */
  ghost function EmptyPages(a: User, p: nat): set<nat> {
    set pg: nat | USER_LAST_PAGE <= pg < TOTAL_PAGES && !Used(a, p, pg)
  }

  ghost predicate UserShape(a: User) {
    && (forall p :: p in a.priv ==> p < IDLE && |a.priv[p]| == NUM_PAG_DATA)
    && |a.code| == NUM_PAG_CODE && |a.shm| == |a.clear| == NUM_SHARED_PAGES
    && (forall x :: x in a.att ==> x.0 < NR_TASKS && USER_LAST_PAGE <= x.1 < TOTAL_PAGES && a.att[x] < NUM_SHARED_PAGES)
    && (forall x :: x in a.taken ==> x.0 < NR_TASKS && USER_LAST_PAGE <= x.1 < TOTAL_PAGES && x !in a.att)
    && (forall c :: c in a.lost ==> c < IDLE && c !in a.priv)
  }

  /** Only live processes act; a fork takes a free task slot; addresses lie under
      the one page table a process has. */
  ghost predicate Enabled(a: User, op: Op) {
    op.p in a.priv &&
    match op
    case Fork(p, c) => c < IDLE && c !in a.priv && c !in a.lost
    case Exit(_) => true
    case Load(_, pg, off) => pg < TOTAL_PAGES && off < PAGE_SIZE
    case Store(_, pg, off, _) => pg < TOTAL_PAGES && off < PAGE_SIZE
    case ShmAt(_, _, addr) => addr / PAGE_SIZE < TOTAL_PAGES
    case ShmDt(_, addr) => addr / PAGE_SIZE < TOTAL_PAGES
    case ShmRm(_, _) => true
  }

  ghost predicate Accessible(a: User, p: nat, pg: nat) {
    DATA <= pg < USER_LAST_PAGE || (p, pg) in a.att
  }

  /** The page a process sees at a logical page. */
  ghost function Seen(a: User, p: nat, pg: nat): Page
    requires UserShape(a) && p in a.priv && Accessible(a, p, pg)
  {
    if DATA <= pg < CODE then a.priv[p][pg - DATA]
    else if CODE <= pg < USER_LAST_PAGE then a.code[pg - CODE]
    else a.shm[a.att[(p, pg)]]
  }

  ghost function Written(a: User, p: nat, pg: nat, page: Page): (r: User)
    requires UserShape(a) && p in a.priv && Accessible(a, p, pg)
    ensures UserShape(r)
  {
    if DATA <= pg < CODE then
      var pages: seq<Page> := a.priv[p][pg - DATA := page];
      a.(priv := a.priv[p := pages])
    else if CODE <= pg < USER_LAST_PAGE then a.(code := a.code[pg - CODE := page])
    else a.(shm := a.shm[a.att[(p, pg)] := page])
  }

  /** The specification both forks implement: the new state and the answer, which is
      None where nothing is promised of it - a load from a page a failed fork left
      behind. The whole is None when an access has no page to go to. */
  ghost function UserStep(cow: bool, a: User, op: Op): (r: Option<(User, Option<int>)>)
    requires UserShape(a) && Enabled(a, op)
    ensures r.Some? ==> UserShape(r.value.0)
  {
    match op
    case Fork(p, c) =>
      if ForkFits(cow, a, p) then Some((a.(priv := a.priv[c := a.priv[p]]), Some(0)))
      else Some((Given(a, p, c), Some(-ENOMEM)))
    case Exit(p) => Some((a.(priv := a.priv - {p}), Some(0)))
    case Load(p, pg, off) =>
      if Accessible(a, p, pg) then Some((a, Some(Seen(a, p, pg)[off] as int)))
      else if (p, pg) in a.taken then Some((a, None)) else None
    case Store(p, pg, off, v) =>
      if Accessible(a, p, pg) then Some((Written(a, p, pg, Seen(a, p, pg)[off := v]), Some(0)))
      else if (p, pg) in a.taken then Some((a, Some(0))) else None
    case ShmAt(p, id, addr) => var (b, o) := UserAttach(a, p, id, addr); Some((b, Some(o)))
    case ShmDt(p, addr) => var (b, o) := UserDetach(a, p, addr); Some((b, Some(o)))
    case ShmRm(_, id) =>
      if 0 <= id < NUM_SHARED_PAGES then Some((a.(clear := a.clear[id := true]), Some(0))) else Some((a, Some(-ENOSHR)))
  }

  /** Copy-on-write needs no logical pages; a fork that copies at once needs twenty. */
  ghost predicate ForkFits(cow: bool, a: User, p: nat) {
    cow || NUM_PAG_DATA <= |EmptyPages(a, p)|
  }

  /** What a failed fork of `p` into the slot `c` costs. */
  ghost function Given(a: User, p: nat, c: nat): (r: User)
    requires UserShape(a) && p in a.priv && c < IDLE && c !in a.priv
    ensures UserShape(r)
  {
    a.(lost := a.lost + {c}, taken := a.taken + set pg | pg in EmptyPages(a, p) :: (p, pg))
  }

  /** Whether an answer is the promised one. */
  predicate Promised(e: Option<int>, o: int) {
    e.Some? ==> e.value == o
  }

  /** Attaching never disturbs what is already mapped. */
  ghost function UserAttach(a: User, p: nat, id: int, addr: nat): (r: (User, int))
    requires UserShape(a) && p < NR_TASKS && addr / PAGE_SIZE < TOTAL_PAGES
    ensures UserShape(r.0)
  {
    FreeFromRange(a, p, USER_LAST_PAGE);
    var asked := addr / PAGE_SIZE;
    var pg := if USER_LAST_PAGE <= asked && !Used(a, p, asked) then asked else FreeFrom(a, p, USER_LAST_PAGE);
    if !(0 <= id < NUM_SHARED_PAGES) then (a, -ENOSHR)
    else if addr % PAGE_SIZE != 0 then (a, -EFAULT)
    else if pg == -1 then (a, -ENOMEM)
    else (a.(att := a.att[(p, pg) := id as nat]), pg * PAGE_SIZE)
  }

  /** Detaching the last attachment of a page marked for removal clears it. Page 0
      answers as if it were not attached. */
  ghost function UserDetach(a: User, p: nat, addr: nat): (r: (User, int))
    requires UserShape(a) && p < NR_TASKS && addr / PAGE_SIZE < TOTAL_PAGES
    ensures UserShape(r.0)
  {
    var x := (p, addr / PAGE_SIZE);
    if addr == 0 then (a, -EINVAL)
    else if addr % PAGE_SIZE != 0 then (a, -EFAULT)
    else if x !in a.att || a.att[x] == 0 then (a, -ENOSHR)
    else
      var id := a.att[x];
      var last := Attached(a, id) == {x};
      (a.(att := a.att - {x}, shm := if last && a.clear[id] then a.shm[id := ZeroPage()] else a.shm), 0)
  }

  lemma {:induction false} FreeFromRange(a: User, p: nat, pg: nat)
    ensures var r := FreeFrom(a, p, pg);
            if r < 0 then r == -1 && (forall q :: pg <= q < TOTAL_PAGES ==> Used(a, p, q))
            else pg <= r < TOTAL_PAGES && !Used(a, p, r)
    decreases TOTAL_PAGES - pg
  {
    if pg < TOTAL_PAGES && Used(a, p, pg) {
      FreeFromRange(a, p, pg + 1);
    }
  }
}

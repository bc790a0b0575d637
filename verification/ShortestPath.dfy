/** `dijkstra` of zeos/pacman.c as a function, on its own queue, which loses entries,
    or on an exact one: what it gets right on every map and when it is exact. */
module ShortestPath {
  import opened Common
  import opened GridMap
  import opened Discovery

  // ---- the search as a function ------------------------------------------------------------

  /** The cells found so far, and the queue from `front` to `rear` as positions
      among them. */
  datatype Search = Search(f: Found, w: seq<nat>)

  function Upto(a: nat, b: nat): (r: seq<nat>)
    requires a <= b
    ensures |r| == b - a && forall i :: 0 <= i < |r| ==> r[i] == a + i
  {
    seq(b - a, i requires 0 <= i => a + i)
  }

  /** The queue once its first entry is taken. An exact queue loses that entry; the
      one of the game also skips the second and doubles the last. */
  function Rest(w: seq<nat>, exact: bool): (r: seq<nat>)
    requires w != []
    ensures |r| == |w| - 1
    ensures forall i :: 0 <= i < |r| ==> r[i] in w
  {
    if exact || |w| == 1 then w[1..] else w[2..] + [w[|w| - 1]]
  }

  /** One round of the outer loop. */
  function After(g: Grid, s: Search, exact: bool): (r: Search)
    requires Columns(s.f) && s.w != [] && s.w[0] < |s.f.q|
    ensures Columns(r.f) && Longer(s.f, r.f) && |r.f.q| - |r.w| == |s.f.q| - |s.w| + 1
  {
    var f := Expanded(g, s.f, s.w[0], 4);
    Search(f, Rest(s.w, exact) + Upto(|s.f.q|, |f.q|))
  }

  // ---- what every round keeps ----------------------------------------------------------------

  /** Distances count steps from the start, in the order of discovery, and none is
      more than one beyond the cell at position `c`. */
  ghost predicate Growing(g: Grid, f: Found, start: Point, c: nat) {
    FoundShape(f, start) && c < |f.q| && Tree(g, f, start) && Ordered(f, start, f.dist[c] + 1)
  }

  /** The queue is in order of discovery, so its first entry has the least priority. */
  ghost predicate Queued(s: Search) {
    && |s.w| <= |s.f.q|
    && (forall i :: 0 <= i < |s.w| ==> s.w[i] < |s.f.q|)
    && (forall i, j :: 0 <= i <= j < |s.w| ==> s.w[i] <= s.w[j])
  }

  ghost predicate Ok(g: Grid, s: Search, start: Point) {
    Queued(s) && s.f.q != [] && Growing(g, s.f, start, if s.w == [] then |s.f.q| - 1 else s.w[0])
  }

  lemma TryKeeps(g: Grid, f: Found, start: Point, c: nat, v: Point)
    requires Growing(g, f, start, c) && v in Moves(f.q[c])
    ensures Growing(g, TryMove(g, f, c, v), start, c)
    ensures IsValidMove(g, v) ==> v in TryMove(g, f, c, v).q
  {
    MovesAreNeighbours(g, f.q[c], v);
    if IsValidMove(g, v) && v !in f.q {
      var r := Grown(f, v, f.dist[c] + 1, c);
      GrownTree(g, f, r, start, v, c);
      assert r.q[|f.q|] == v;
    }
  }

  lemma {:induction false} ExpandedKeeps(g: Grid, f: Found, start: Point, c: nat, n: nat)
    requires Growing(g, f, start, c) && n <= 4
    ensures Growing(g, Expanded(g, f, c, n), start, c)
    ensures Tried(g, Expanded(g, f, c, n), f.q[c], n)
  {
    if n > 0 {
      ExpandedKeeps(g, f, start, c, n - 1);
      var a := Expanded(g, f, c, n - 1);
      var v := Moves(f.q[c])[n - 1];
      assert a.q[c] == f.q[c];
      TryKeeps(g, a, start, c, v);
      TriedOneMore(g, a, TryMove(g, a, c, v), f.q[c], n - 1);
    }
  }

  lemma RestSorted(w: seq<nat>, exact: bool)
    requires w != [] && forall i, j :: 0 <= i <= j < |w| ==> w[i] <= w[j]
    ensures var r := Rest(w, exact);
            && (forall i, j :: 0 <= i <= j < |r| ==> r[i] <= r[j])
            && (forall i :: 0 <= i < |r| ==> w[0] <= r[i])
  {
  }

  lemma AfterQueued(g: Grid, s: Search, exact: bool)
    requires Columns(s.f) && Queued(s) && s.w != []
    ensures var r := After(g, s, exact);
            Queued(r) && forall i :: 0 <= i < |r.w| ==> s.w[0] <= r.w[i]
  {
    RestSorted(s.w, exact);
  }

  lemma AfterKeeps(g: Grid, s: Search, start: Point, exact: bool)
    requires Ok(g, s, start) && s.w != []
    ensures Ok(g, After(g, s, exact), start)
    ensures Growing(g, After(g, s, exact).f, start, s.w[0])
  {
    var c := s.w[0];
    var r := After(g, s, exact);
    ExpandedKeeps(g, s.f, start, c, 4);
    AfterQueued(g, s, exact);
    var d := if r.w == [] then |r.f.q| - 1 else r.w[0];
    assert c <= d && r.f.dist[c] <= r.f.dist[d];
  }

  // ---- whole searches ------------------------------------------------------------------------

  function Initial(start: Point): Search {
    Search(Found([start], [0], [0]), [0])
  }

  lemma InitialOk(g: Grid, start: Point)
    requires InMap(start)
    ensures Ok(g, Initial(start), start)
  {
  }

  /** The search from `s` on: what has been found when the target is taken off the
      queue, and its position; None when the queue runs empty first. */
  ghost function Run(g: Grid, s: Search, start: Point, target: Point, exact: bool): (r: Option<(Found, nat)>)
    requires Ok(g, s, start)
    ensures r.Some? ==> Growing(g, r.value.0, start, r.value.1) && r.value.0.q[r.value.1] == target
    decreases CELLS - |s.f.q| + |s.w|
  {
    if s.w == [] then None
    else if s.f.q[s.w[0]] == target then Some((s.f, s.w[0]))
    else
      AfterKeeps(g, s, start, exact);
      QueueFits(After(g, s, exact).f.q);
      Run(g, After(g, s, exact), start, target, exact)
  }

  /** The answer of a search from `s`. */
  ghost function AnswerFrom(g: Grid, s: Search, start: Point, target: Point, exact: bool): Direction
    requires Ok(g, s, start) && start != target
  {
    var r := Run(g, s, start, target, exact);
    if r.None? then NONE
    else
      var (f, c) := r.value;
      DetermineDirection(start, f.q[FirstStep(f, c)])
  }

  /** What `dijkstra` answers, with its own queue or with an exact one. */
  ghost function Answer(g: Grid, start: Point, target: Point, exact: bool): Direction
    requires InMap(start) && start != target
  {
    InitialOk(g, start);
    AnswerFrom(g, Initial(start), start, target, exact)
  }

  /** A round that does not meet the target leaves the answer as it is. */
  lemma AnswerAfter(g: Grid, s: Search, start: Point, target: Point)
    requires Ok(g, s, start) && start != target && s.w != [] && s.f.q[s.w[0]] != target
    requires Ok(g, After(g, s, false), start)
    ensures AnswerFrom(g, s, start, target, false) == AnswerFrom(g, After(g, s, false), start, target, false)
  {
    QueueFits(After(g, s, false).f.q);
  }

  // ---- every direction is the start of a way -----------------------------------------------------

  /** The first step of a way over free cells, not always a shortest one. */
  ghost predicate Leads(g: Grid, start: Point, target: Point, dir: Direction) {
    exists path :: Connects(g, path, start, target) && |path| > 1 && dir == DetermineDirection(start, path[1])
  }

  /** However many entries the queue loses, a direction is the first step of a real
      way to the target. */
  lemma AnswerLeads(g: Grid, start: Point, target: Point, exact: bool)
    requires InMap(start) && start != target
    ensures var dir := Answer(g, start, target, exact);
            dir != NONE ==> Leads(g, start, target, dir)
  {
    InitialOk(g, start);
    var r := Run(g, Initial(start), start, target, exact);
    if r.Some? {
      var path := Route(g, r.value.0, start, r.value.1);
    }
  }

  // ---- when it is exact ------------------------------------------------------------------------------

  /** Never more than two entries wait when one is taken. */
  ghost predicate Narrow(g: Grid, s: Search, start: Point, target: Point)
    requires Ok(g, s, start)
    decreases CELLS - |s.f.q| + |s.w|
  {
    s.w == [] || s.f.q[s.w[0]] == target ||
    (|s.w| <= 2 &&
     (AfterKeeps(g, s, start, false);
      QueueFits(After(g, s, false).f.q);
      Narrow(g, After(g, s, false), start, target)))
  }

  ghost predicate AlwaysNarrow(g: Grid, start: Point, target: Point)
    requires InMap(start)
  {
    InitialOk(g, start);
    Narrow(g, Initial(start), start, target)
  }

  /** On a queue of different entries taking one loses nothing exactly when at most
      two wait. */
  lemma RestIff(w: seq<nat>)
    requires w != [] && forall i, j :: 0 <= i < j < |w| ==> w[i] < w[j]
    ensures Rest(w, false) == Rest(w, true) <==> |w| <= 2
  {
    if |w| > 2 {
      assert Rest(w, false)[0] == w[2] && Rest(w, true)[0] == w[1];
    }
  }

  /** Nothing has been lost: exactly the cells from `front` on wait, and those
      before it are done and were not the target. */
  ghost predicate InOrder(g: Grid, s: Search, start: Point, target: Point, front: nat) {
    Ahead(g, s.f, start, target, front) && s.w == Upto(front, |s.f.q|)
  }

  lemma RoundInOrder(g: Grid, s: Search, start: Point, target: Point, exact: bool, front: nat)
    requires s.w != [] && InOrder(g, s, start, target, front) && s.f.q[front] != target && (exact || |s.w| <= 2)
    ensures InOrder(g, After(g, s, exact), start, target, front + 1)
  {
    AheadNext(g, s.f, Expanded(g, s.f, front, 4), start, target, front);
    RoundQueue(g, s, exact, front);
  }

  lemma RoundQueue(g: Grid, s: Search, exact: bool, front: nat)
    requires Columns(s.f) && front < |s.f.q| && s.w == Upto(front, |s.f.q|) && (exact || |s.w| <= 2)
    ensures var r := After(g, s, exact);
            r.w == Upto(front + 1, |r.f.q|)
  {
    assert Rest(s.w, exact) == Upto(front + 1, |s.f.q|);
  }

  lemma RunAfter(g: Grid, s: Search, r: Search, start: Point, target: Point, exact: bool)
    requires Ok(g, s, start) && s.w != [] && s.f.q[s.w[0]] != target && r == After(g, s, exact) && Ok(g, r, start)
    ensures Run(g, s, start, target, exact) == Run(g, r, start, target, exact)
    ensures CELLS - |r.f.q| + |r.w| < CELLS - |s.f.q| + |s.w| && |r.f.q| <= CELLS
  {
    QueueFits(r.f.q);
  }

  /** The search has ended in order: with the target taken off the queue, or with
      nothing left and no way to it. */
  ghost predicate EndsInOrder(g: Grid, start: Point, target: Point, r: Option<(Found, nat)>) {
    match r
    case None => !Reachable(g, start, target)
    case Some((f, c)) => Expanding(g, f, start, c)
  }

  /** A search that loses nothing takes a reachable target off the queue at its true
      distance, and runs empty only when there is no way. */
  lemma {:induction false} RunExact(g: Grid, s: Search, start: Point, target: Point, exact: bool, front: nat)
    requires Ok(g, s, start) && InOrder(g, s, start, target, front) && (exact || Narrow(g, s, start, target))
    ensures EndsInOrder(g, start, target, Run(g, s, start, target, exact))
    decreases CELLS - |s.f.q| + |s.w|
  {
    if s.w == [] {
      NothingLeft(g, s, start, target, front);
    } else if s.f.q[s.w[0]] != target {
      var r := After(g, s, exact);
      NextInOrder(g, s, r, start, target, exact, front);
      RunAfter(g, s, r, start, target, exact);
      RunExact(g, r, start, target, exact, front + 1);
    }
  }

  lemma NextInOrder(g: Grid, s: Search, r: Search, start: Point, target: Point, exact: bool, front: nat)
    requires Ok(g, s, start) && InOrder(g, s, start, target, front) && (exact || Narrow(g, s, start, target))
    requires s.w != [] && s.f.q[s.w[0]] != target && r == After(g, s, exact)
    ensures Ok(g, r, start) && InOrder(g, r, start, target, front + 1) && (exact || Narrow(g, r, start, target))
  {
    RoundInOrder(g, s, start, target, exact, front);
    AfterKeeps(g, s, start, exact);
  }

  lemma NothingLeft(g: Grid, s: Search, start: Point, target: Point, front: nat)
    requires s.w == [] && InOrder(g, s, start, target, front)
    ensures !Reachable(g, start, target)
  {
    if Reachable(g, start, target) {
      AllFound(g, s.f, start, target);
    }
  }

  /** With an exact queue on every map, and as written whenever no more than two
      entries wait, `dijkstra` answers what breadth-first search should: the first step
      of a shortest way - the first such step in the order left, right, up, down - and
      NONE exactly when there is none. */
  lemma AnswerExact(g: Grid, start: Point, target: Point, exact: bool)
    requires InMap(start) && start != target && (exact || AlwaysNarrow(g, start, target))
    ensures ExactFirst(g, start, target, Answer(g, start, target, exact)) && Exact(g, start, target, Answer(g, start, target, exact))
  {
    var s := Initial(start);
    InitialOk(g, start);
    SearchedFirst(g, start);
    assert s.w == Upto(0, 1);
    RunExact(g, s, start, target, exact, 0);
    var r := Run(g, s, start, target, exact);
    if r.Some? {
      EndedExact(g, r.value.0, start, target, r.value.1);
    }
  }

  lemma EndedExact(g: Grid, f: Found, start: Point, target: Point, c: nat)
    requires Expanding(g, f, start, c) && f.q[c] == target && start != target
    ensures var dir := DetermineDirection(start, f.q[FirstStep(f, c)]);
            ExactFirst(g, start, target, dir) && Exact(g, start, target, dir)
  {
    FirstStepFirst(g, f, start, c);
    BeginsNeighbour(g, start, target, f.q[FirstStep(f, c)]);
  }
}

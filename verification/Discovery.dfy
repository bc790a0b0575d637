/** What a breadth-first search has found: cells in the order of discovery, their
    distances, and where each was found from. */
module Discovery {
  import opened Common
  import opened Lists
  import opened GridMap

  // ---- the state of the search ------------------------------------------------------------

  /** Cells enqueued so far with their distances and the positions of the cells
      they were reached from. */
  datatype Found = Found(q: seq<Point>, dist: seq<nat>, from: seq<nat>)

  predicate Columns(f: Found) { |f.q| == |f.dist| == |f.from| }

  ghost predicate FoundShape(f: Found, start: Point) {
    && |f.q| == |f.dist| == |f.from| > 0
    && f.q[0] == start && f.dist[0] == 0
    && Distinct(f.q) && (forall i :: 0 <= i < |f.q| ==> InMap(f.q[i]))
  }

  /** The cell at position `i` was reached from another, a step nearer. */
  ghost predicate Linked(g: Grid, f: Found, i: nat) {
    && Columns(f) && i < |f.q| && f.from[i] < |f.q|
    && Adjacent(f.q[f.from[i]], f.q[i]) && IsValidMove(g, f.q[i])
    && f.dist[i] == f.dist[f.from[i]] + 1
  }

  /** Every cell but the first was reached from an earlier one. */
  ghost predicate Tree(g: Grid, f: Found, start: Point)
    requires FoundShape(f, start)
  {
    && (forall i :: 0 < i < |f.q| ==> f.from[i] < i)
    && (forall i: nat {:trigger Linked(g, f, i)} :: 0 < i < |f.q| ==> Linked(g, f, i))
  }

  /** The queue is in order of distance, and spans at most one step beyond `top`. */
  ghost predicate Ordered(f: Found, start: Point, top: nat)
    requires FoundShape(f, start)
  {
    && (forall i, j :: 0 <= i <= j < |f.q| ==> f.dist[i] <= f.dist[j])
    && (forall i :: 0 <= i < |f.q| ==> f.dist[i] <= top)
  }

  /** Cell `v` has been found within distance `d`. */
  ghost predicate FoundBy(f: Found, start: Point, v: Point, d: nat)
    requires FoundShape(f, start)
  {
    exists j :: 0 <= j < |f.q| && f.q[j] == v && f.dist[j] <= d
  }

  /** Cells were found from the earliest cell next to them. */
  ghost predicate FoundEarly(f: Found) {
    && Columns(f)
    && (forall i, j :: 0 < i <= j < |f.q| ==> f.from[i] <= f.from[j])
    && (forall i, j :: 0 < i < |f.q| && 0 <= j < f.from[i] && j < |f.q| ==> !Adjacent(f.q[j], f.q[i]))
  }

  /** Cells found from one cell were found in the order its neighbours are tried. */
  ghost predicate Ranked(f: Found) {
    Columns(f) && forall i, j :: 0 < i < j < |f.q| && f.from[i] == f.from[j] ==> RankOf(f, i) < RankOf(f, j)
  }

  ghost predicate Breadth(f: Found, start: Point)
    requires FoundShape(f, start)
  {
    FoundEarly(f) && Ranked(f)
  }

  /** Where the cell at position `i` comes among the neighbours of the one it was
      found from. */
  function RankOf(f: Found, i: nat): nat
    requires Columns(f) && i < |f.q|
  {
    if f.from[i] < |f.q| then Rank(DetermineDirection(f.q[f.from[i]], f.q[i])) else 0
  }

  /** The cells found so far from the one at position `c` come before its move `n`. */
  ghost predicate Sprouted(f: Found, c: nat, n: nat) {
    Columns(f) && c < |f.q| && forall i :: 0 < i < |f.q| && f.from[i] == c ==> RankOf(f, i) < n
  }

  /** All free neighbours of the first `front` cells have been found, a step away. */
  ghost predicate Closed(g: Grid, f: Found, start: Point, front: nat)
    requires FoundShape(f, start)
  {
    forall i, v :: 0 <= i < front && i < |f.q| && Adjacent(f.q[i], v) && IsValidMove(g, v) ==>
      FoundBy(f, start, v, f.dist[i] + 1)
  }

  // ---- what the state says about paths -------------------------------------------------------

  /** Along a path from the start, every cell nearer than an unprocessed one has
      been found at least as near. */
  lemma {:induction false} PathFound(g: Grid, f: Found, start: Point, front: nat, path: seq<Point>, i: nat)
    requires FoundShape(f, start) && Closed(g, f, start, front) && (forall a, b :: 0 <= a <= b < |f.q| ==> f.dist[a] <= f.dist[b])
    requires IsPath(g, path) && path[0] == start && i < |path| && front <= |f.q|
    requires front < |f.q| ==> i <= f.dist[front]
    ensures FoundBy(f, start, path[i], i)
  {
    if i == 0 {
      assert f.q[0] == path[0];
    } else {
      PathFound(g, f, start, front, path, i - 1);
      var j :| 0 <= j < |f.q| && f.q[j] == path[i - 1] && f.dist[j] <= i - 1;
      assert j < front;
      assert FoundBy(f, start, path[i], f.dist[j] + 1);
    }
  }

  /** No path is shorter than the distance of a cell just taken off the queue. */
  lemma NoShorter(g: Grid, f: Found, start: Point, front: nat, path: seq<Point>)
    requires FoundShape(f, start) && Closed(g, f, start, front) && (forall a, b :: 0 <= a <= b < |f.q| ==> f.dist[a] <= f.dist[b])
    requires front < |f.q| && Connects(g, path, start, f.q[front])
    ensures f.dist[front] + 1 <= |path|
  {
    if |path| - 1 < f.dist[front] {
      PathFound(g, f, start, front, path, |path| - 1);
    }
  }

  /** When the queue is empty every reachable cell has been found. */
  lemma AllFound(g: Grid, f: Found, start: Point, target: Point)
    requires FoundShape(f, start) && Closed(g, f, start, |f.q|) && (forall a, b :: 0 <= a <= b < |f.q| ==> f.dist[a] <= f.dist[b])
    requires Reachable(g, start, target)
    ensures target in f.q
  {
    var path :| Connects(g, path, start, target);
    PathFound(g, f, start, |f.q|, path, |path| - 1);
  }

  // ---- capacity --------------------------------------------------------------------------------

  function Code(p: Point): nat { p.y * MAP_WIDTH + p.x }

  ghost function Codes(q: seq<Point>): set<nat> { set i | 0 <= i < |q| :: Code(q[i]) }

  lemma CodesDiffer(u: Point, v: Point)
    requires InMap(u) && InMap(v) && u != v
    ensures Code(u) != Code(v)
  {
  }

  lemma {:induction false} CodesSize(q: seq<Point>)
    requires Distinct(q) && (forall i :: 0 <= i < |q| ==> InMap(q[i]))
    ensures |Codes(q)| == |q|
  {
    if q != [] {
      var n := |q| - 1;
      CodesSize(q[..n]);
      assert Codes(q) == Codes(q[..n]) + {Code(q[n])};
      forall i | 0 <= i < n
        ensures Code(q[i]) != Code(q[n])
      {
        CodesDiffer(q[i], q[n]);
      }
      assert Code(q[n]) !in Codes(q[..n]);
    }
  }

  /** Each cell is enqueued at most once, so a queue of one entry per cell is enough. */
  lemma QueueFits(q: seq<Point>)
    requires Distinct(q) && (forall i :: 0 <= i < |q| ==> InMap(q[i]))
    ensures |q| <= CELLS
  {
    CodesSize(q);
    forall i | 0 <= i < |q|
      ensures Code(q[i]) < CELLS
    {
    }
    SubsetSize(Codes(q), Range(0, CELLS));
  }

  // ---- bfs -------------------------------------------------------------------------------------

  function Grown(f: Found, v: Point, d: nat, c: nat): Found {
    Found(f.q + [v], f.dist + [d], f.from + [c])
  }

  /** What holds while the cell at position `c` is being expanded. */
  ghost predicate Expanding(g: Grid, f: Found, start: Point, c: nat) {
    && FoundShape(f, start) && c < |f.q|
    && Tree(g, f, start) && Ordered(f, start, f.dist[c] + 1) && Closed(g, f, start, c)
    && Breadth(f, start) && (forall i :: 0 < i < |f.q| ==> f.from[i] <= c)
  }

  /** More cells were found behind those of `f`. */
  ghost predicate Extends(f: Found, r: Found) {
    |f.q| <= |r.q| && forall j :: 0 <= j < |f.q| ==> r.q[j] == f.q[j]
  }

  /** The same cells with more behind them. */
  predicate Longer(f: Found, r: Found) {
    f.q <= r.q && f.dist <= r.dist && f.from <= r.from
  }

  lemma ClosedGrows(g: Grid, f: Found, r: Found, start: Point, front: nat)
    requires FoundShape(f, start) && FoundShape(r, start) && Longer(f, r) && front <= |f.q| && Closed(g, f, start, front)
    ensures Closed(g, r, start, front)
  {
    forall i, v | 0 <= i < front && i < |r.q| && Adjacent(r.q[i], v) && IsValidMove(g, v)
      ensures FoundBy(r, start, v, r.dist[i] + 1)
    {
      assert FoundBy(f, start, v, f.dist[i] + 1);
      var j :| 0 <= j < |f.q| && f.q[j] == v && f.dist[j] <= f.dist[i] + 1;
      assert r.q[j] == v && r.dist[j] == f.dist[j];
    }
  }

  lemma EnqueueKeeps(g: Grid, f: Found, r: Found, start: Point, c: nat, v: Point, n: nat)
    requires Expanding(g, f, start, c) && Sprouted(f, c, n) && n < 4 && v == Moves(f.q[c])[n]
    requires IsValidMove(g, v) && v !in f.q && r == Grown(f, v, f.dist[c] + 1, c)
    ensures Expanding(g, r, start, c) && Sprouted(r, c, n + 1)
  {
    MovesAreNeighbours(g, f.q[c], v);
    GrownTree(g, f, r, start, v, c);
    ClosedGrows(g, f, r, start, c);
    EarlyGrows(g, f, r, start, c, v);
    MoveRank(g, f.q[c], n);
    RankedGrows(f, r, v, c, n);
  }

  lemma GrownTree(g: Grid, f: Found, r: Found, start: Point, v: Point, c: nat)
    requires FoundShape(f, start) && Tree(g, f, start) && c < |f.q| && Ordered(f, start, f.dist[c] + 1)
    requires Adjacent(f.q[c], v) && IsValidMove(g, v) && v !in f.q && r == Grown(f, v, f.dist[c] + 1, c)
    ensures FoundShape(r, start) && Tree(g, r, start) && Ordered(r, start, r.dist[c] + 1)
  {
    GrownShape(f, start, v, f.dist[c] + 1, c);
    forall i: nat | 0 < i < |r.q|
      ensures Linked(g, r, i)
    {
      if i < |f.q| {
        assert Linked(g, f, i);
      }
    }
  }

  lemma NeighbourFound(g: Grid, f: Found, start: Point, c: nat, j: nat, v: Point)
    requires FoundShape(f, start) && Closed(g, f, start, c) && j < c && j < |f.q| && Adjacent(f.q[j], v) && IsValidMove(g, v)
    ensures v in f.q
  {
    assert FoundBy(f, start, v, f.dist[j] + 1);
  }

  /** A cell found just now has no neighbour among the cells done before. */
  lemma EarlyGrows(g: Grid, f: Found, r: Found, start: Point, c: nat, v: Point)
    requires FoundShape(f, start) && FoundEarly(f) && Closed(g, f, start, c) && c < |f.q|
    requires IsValidMove(g, v) && v !in f.q && (forall i :: 0 < i < |f.q| ==> f.from[i] <= c)
    requires r == Grown(f, v, f.dist[c] + 1, c)
    ensures FoundEarly(r) && forall i :: 0 < i < |r.q| ==> r.from[i] <= c
  {
    forall j | 0 <= j < c
      ensures !Adjacent(f.q[j], v)
    {
      if Adjacent(f.q[j], v) {
        NeighbourFound(g, f, start, c, j, v);
      }
    }
  }

  lemma RankedGrows(f: Found, r: Found, v: Point, c: nat, n: nat)
    requires Ranked(f) && Sprouted(f, c, n) && Rank(DetermineDirection(f.q[c], v)) == n
    requires (forall i :: 0 < i < |f.q| ==> f.from[i] <= c) && r == Grown(f, v, f.dist[c] + 1, c)
    ensures Ranked(r) && Sprouted(r, c, n + 1)
  {
    assert RankOf(r, |f.q|) == n;
    forall i | 0 < i < |f.q|
      ensures RankOf(r, i) == RankOf(f, i)
    {
      assert f.from[i] <= c;
    }
  }

  lemma GrownShape(f: Found, start: Point, v: Point, d: nat, c: nat)
    requires FoundShape(f, start) && InMap(v) && v !in f.q
    ensures FoundShape(Grown(f, v, d, c), start)
  {
  }

  /** The first `n` moves from `p` have been looked at. */
  ghost predicate Tried(g: Grid, f: Found, p: Point, n: nat) {
    n <= 4 && forall k :: 0 <= k < n && IsValidMove(g, Moves(p)[k]) ==> Moves(p)[k] in f.q
  }

  lemma TriedOneMore(g: Grid, f: Found, r: Found, p: Point, n: nat)
    requires Tried(g, f, p, n) && n < 4 && Extends(f, r) && (IsValidMove(g, Moves(p)[n]) ==> Moves(p)[n] in r.q)
    ensures Tried(g, r, p, n + 1)
  {
    forall k | 0 <= k < n && IsValidMove(g, Moves(p)[k])
      ensures Moves(p)[k] in r.q
    {
      var j :| 0 <= j < |f.q| && f.q[j] == Moves(p)[k];
      assert r.q[j] == Moves(p)[k];
    }
  }

  /** Once all four moves have been tried, one more cell is closed. */
  lemma ExpandedCloses(g: Grid, f: Found, start: Point, c: nat)
    requires Expanding(g, f, start, c)
    requires Tried(g, f, f.q[c], 4)
    ensures Closed(g, f, start, c + 1)
    ensures c + 1 < |f.q| ==> Expanding(g, f, start, c + 1) && Sprouted(f, c + 1, 0)
  {
    forall i, v | 0 <= i < c + 1 && i < |f.q| && Adjacent(f.q[i], v) && IsValidMove(g, v)
      ensures FoundBy(f, start, v, f.dist[i] + 1)
    {
      if i == c {
        MovesAreNeighbours(g, f.q[c], v);
        assert v in f.q;
        var j :| 0 <= j < |f.q| && f.q[j] == v;
        assert f.dist[j] <= f.dist[c] + 1;
      }
    }
  }

  function TryMove(g: Grid, f: Found, c: nat, v: Point): (r: Found)
    requires Columns(f) && c < |f.q|
    ensures Columns(r) && Longer(f, r)
  {
    if IsValidMove(g, v) && v !in f.q then Grown(f, v, f.dist[c] + 1, c) else f
  }

  /** The cells found once the first `n` moves from the cell at position `c` are tried. */
  function Expanded(g: Grid, f: Found, c: nat, n: nat): (r: Found)
    requires Columns(f) && c < |f.q| && n <= 4
    ensures Columns(r) && Longer(f, r)
  {
    if n == 0 then f else TryMove(g, Expanded(g, f, c, n - 1), c, Moves(f.q[c])[n - 1])
  }

  /** The cell at position `c` is being expanded and its first `n` moves are done. */
  ghost predicate Halfway(g: Grid, f: Found, start: Point, c: nat, n: nat) {
    Expanding(g, f, start, c) && Sprouted(f, c, n) && Tried(g, f, f.q[c], n)
  }

  /** Trying the moves in order keeps everything. */
  lemma {:induction false} ExpandedExpands(g: Grid, f: Found, r: Found, start: Point, c: nat, n: nat)
    requires Halfway(g, f, start, c, 0) && n <= 4 && r == Expanded(g, f, c, n)
    ensures Halfway(g, r, start, c, n)
    decreases n
  {
    if n > 0 {
      var a := Expanded(g, f, c, n - 1);
      ExpandedExpands(g, f, a, start, c, n - 1);
      assert a.q[c] == f.q[c];
      TryKeepsAll(g, a, r, start, c, n - 1);
    }
  }

  lemma TryKeepsAll(g: Grid, f: Found, r: Found, start: Point, c: nat, n: nat)
    requires Halfway(g, f, start, c, n) && n < 4 && r == TryMove(g, f, c, Moves(f.q[c])[n])
    ensures Halfway(g, r, start, c, n + 1)
  {
    var v := Moves(f.q[c])[n];
    TryTries(g, f, r, c, v, n);
    if IsValidMove(g, v) && v !in f.q {
      EnqueueKeeps(g, f, r, start, c, v, n);
    }
  }

  lemma TryTries(g: Grid, f: Found, r: Found, c: nat, v: Point, n: nat)
    requires Columns(f) && c < |f.q| && Tried(g, f, f.q[c], n) && n < 4 && v == Moves(f.q[c])[n] && r == TryMove(g, f, c, v)
    ensures Tried(g, r, r.q[c], n + 1)
  {
    if IsValidMove(g, v) && v !in f.q {
      assert r.q[|f.q|] == v;
    }
    TriedOneMore(g, f, r, f.q[c], n);
  }

  /** What holds between two rounds of a search. */
  ghost predicate Searched(g: Grid, f: Found, start: Point, front: nat) {
    && FoundShape(f, start) && front <= |f.q| && Tree(g, f, start) && Closed(g, f, start, front)
    && (forall i, j :: 0 <= i <= j < |f.q| ==> f.dist[i] <= f.dist[j])
    && (front < |f.q| ==> Expanding(g, f, start, front) && Sprouted(f, front, 0))
  }

  lemma SearchedFirst(g: Grid, start: Point)
    requires InMap(start)
    ensures Searched(g, Found([start], [0], [0]), start, 0)
  {
  }

  lemma SearchedNext(g: Grid, f: Found, r: Found, start: Point, front: nat)
    requires Searched(g, f, start, front) && front < |f.q| && r == Expanded(g, f, front, 4)
    ensures Searched(g, r, start, front + 1)
  {
    ExpandedExpands(g, f, r, start, front, 4);
    assert r.q[front] == f.q[front];
    ExpandedCloses(g, r, start, front);
  }

  /** A search that has not met its target. */
  ghost predicate Ahead(g: Grid, f: Found, start: Point, target: Point, front: nat) {
    Searched(g, f, start, front) && forall j :: 0 <= j < front ==> f.q[j] != target
  }

  lemma AheadNext(g: Grid, f: Found, r: Found, start: Point, target: Point, front: nat)
    requires Ahead(g, f, start, target, front) && front < |f.q| && f.q[front] != target && r == Expanded(g, f, front, 4)
    ensures Ahead(g, r, start, target, front + 1)
  {
    SearchedNext(g, f, r, start, front);
  }

  // ---- where a cell was found from -----------------------------------------------------------

  /** Backtracking: the ancestor of position `c` that was reached from the start. */
  function FirstStep(f: Found, c: nat): (k: nat)
    requires Columns(f) && 0 < c < |f.q| && forall i :: 0 < i < |f.q| ==> f.from[i] < i
    ensures 0 < k <= c && f.from[k] == 0
  {
    if f.from[c] == 0 then c else FirstStep(f, f.from[c])
  }

  /** The way the search took to the cell at position `c`. */
  lemma {:induction false} Route(g: Grid, f: Found, start: Point, c: nat) returns (path: seq<Point>)
    requires FoundShape(f, start) && Tree(g, f, start) && 0 < c < |f.q|
    ensures Connects(g, path, start, f.q[c]) && |path| == f.dist[c] + 1 && |path| > 1
    ensures path[1] == f.q[FirstStep(f, c)]
    decreases c
  {
    assert Linked(g, f, c);
    if f.from[c] == 0 {
      path := [start, f.q[c]];
    } else {
      var p := Route(g, f, start, f.from[c]);
      path := p + [f.q[c]];
      forall i | 0 < i < |path|
        ensures Adjacent(path[i - 1], path[i]) && IsValidMove(g, path[i])
      {
        if i < |p| {
          assert path[i] == p[i] && path[i - 1] == p[i - 1];
        }
      }
    }
  }

  lemma RouteIsShortest(g: Grid, f: Found, start: Point, c: nat, path: seq<Point>)
    requires Expanding(g, f, start, c) && Connects(g, path, start, f.q[c]) && |path| == f.dist[c] + 1
    ensures Shortest(g, path, start, f.q[c])
  {
    forall other | Connects(g, other, start, f.q[c])
      ensures |path| <= |other|
    {
      NoShorter(g, f, start, c, other);
    }
  }

  // ---- the first step ---------------------------------------------------------------------------

  /** Of two cells at the same distance the one found first goes back to the first
      step found first. */
  lemma {:induction false} StepsInOrder(g: Grid, f: Found, start: Point, i: nat, j: nat)
    requires FoundShape(f, start) && Tree(g, f, start) && Breadth(f, start)
    requires 0 < i <= j < |f.q| && f.dist[i] == f.dist[j]
    ensures FirstStep(f, i) <= FirstStep(f, j)
    decreases j
  {
    NearStart(g, f, start, i);
    NearStart(g, f, start, j);
    assert Linked(g, f, i) && Linked(g, f, j);
    if f.from[i] > 0 {
      StepsInOrder(g, f, start, f.from[i], f.from[j]);
    }
  }

  lemma NearStart(g: Grid, f: Found, start: Point, i: nat)
    requires FoundShape(f, start) && Tree(g, f, start) && 0 < i < |f.q|
    ensures f.from[i] == 0 <==> f.dist[i] == 1
  {
    assert Linked(g, f, i);
    if f.from[i] > 0 {
      assert Linked(g, f, f.from[i]);
    }
  }

  lemma Splice(g: Grid, a: seq<Point>, b: seq<Point>, start: Point, mid: Point, target: Point)
    requires Connects(g, a, start, mid) && Connects(g, b, mid, target)
    ensures Connects(g, a + b[1..], start, target)
  {
    var r := a + b[1..];
    forall i | 0 < i < |r|
      ensures Adjacent(r[i - 1], r[i]) && IsValidMove(g, r[i])
    {
      if i >= |a| {
        assert r[i] == b[i - |a| + 1] && r[i - 1] == b[i - |a|];
      }
    }
  }

  /** On a shortest way every cell is as far as it comes. */
  lemma NotNearer(g: Grid, f: Found, start: Point, target: Point, path: seq<Point>, i: nat, k: nat)
    requires FoundShape(f, start) && Tree(g, f, start) && Shortest(g, path, start, target)
    requires i < |path| && k < |f.q| && f.q[k] == path[i]
    ensures i <= f.dist[k]
  {
    var rest := path[i..];
    forall j | 0 < j < |rest|
      ensures Adjacent(rest[j - 1], rest[j]) && IsValidMove(g, rest[j])
    {
      assert rest[j] == path[i + j] && rest[j - 1] == path[i + j - 1];
    }
    assert Connects(g, rest, path[i], target);
    var way := [start];
    if k > 0 {
      way := Route(g, f, start, k);
    }
    assert Connects(g, way, start, path[i]) && |way| == f.dist[k] + 1;
    Splice(g, way, rest, start, path[i], target);
  }

  /** On a shortest way the cell after `i` steps has been found at distance `i`. */
  lemma PlaceOnWay(g: Grid, f: Found, start: Point, c: nat, path: seq<Point>, i: nat) returns (k: nat)
    requires FoundShape(f, start) && Tree(g, f, start) && Closed(g, f, start, c) && c < |f.q|
    requires forall a, b :: 0 <= a <= b < |f.q| ==> f.dist[a] <= f.dist[b]
    requires Shortest(g, path, start, f.q[c]) && |path| <= f.dist[c] + 1 && 0 < i < |path|
    ensures 0 < k < |f.q| && f.q[k] == path[i] && f.dist[k] == i
  {
    k := FoundOnWay(g, f, start, c, path, i);
    NotNearer(g, f, start, f.q[c], path, i, k);
  }

  lemma FoundOnWay(g: Grid, f: Found, start: Point, c: nat, path: seq<Point>, i: nat) returns (k: nat)
    requires FoundShape(f, start) && Closed(g, f, start, c) && (forall a, b :: 0 <= a <= b < |f.q| ==> f.dist[a] <= f.dist[b])
    requires IsPath(g, path) && path[0] == start && c < |f.q| && |path| <= f.dist[c] + 1 && i < |path|
    ensures k < |f.q| && f.q[k] == path[i] && f.dist[k] <= i
  {
    PathFound(g, f, start, c, path, i);
    k := PlaceOf(f, start, path[i], i);
  }

  lemma PlaceOf(f: Found, start: Point, v: Point, d: nat) returns (k: nat)
    requires FoundShape(f, start) && FoundBy(f, start, v, d)
    ensures k < |f.q| && f.q[k] == v && f.dist[k] <= d
  {
    k :| 0 <= k < |f.q| && f.q[k] == v && f.dist[k] <= d;
  }

  /** Along a shortest way: the cell after `i` steps goes back to a first step found no
      later than that of the way. */
  lemma {:induction false} StepsAlong(g: Grid, f: Found, start: Point, c: nat, path: seq<Point>, i: nat, k: nat) returns (first: nat)
    requires Expanding(g, f, start, c) && Shortest(g, path, start, f.q[c]) && |path| <= f.dist[c] + 1 && 0 < i < |path|
    requires 0 < k < |f.q| && f.q[k] == path[i] && f.dist[k] == i
    ensures 0 < first < |f.q| && f.q[first] == path[1] && f.from[first] == 0 && FirstStep(f, k) <= first
  {
    NearStart(g, f, start, k);
    if i == 1 {
      first := k;
    } else {
      var before := PlaceOnWay(g, f, start, c, path, i - 1);
      first := StepsAlong(g, f, start, c, path, i - 1, before);
      assert Adjacent(path[i - 1], path[i]);
      FoundEarlier(g, f, start, before, k);
    }
  }

  lemma FoundEarlier(g: Grid, f: Found, start: Point, j: nat, k: nat)
    requires FoundShape(f, start) && Tree(g, f, start) && Breadth(f, start) && 0 < j < |f.q| && 0 < k < |f.q|
    requires Adjacent(f.q[j], f.q[k]) && f.dist[k] == f.dist[j] + 1
    ensures FirstStep(f, k) <= FirstStep(f, j)
  {
    NearStart(g, f, start, k);
    NearStart(g, f, start, j);
    assert f.from[k] <= j;
    assert Linked(g, f, k) && Linked(g, f, j);
    StepsInOrder(g, f, start, f.from[k], j);
  }

  /** Going back from a cell taken off the queue ends at the first neighbour of the
      start, in the order of the search, that a shortest way starts with. */
  lemma FirstStepFirst(g: Grid, f: Found, start: Point, c: nat)
    requires Expanding(g, f, start, c) && 0 < c
    ensures BeginsFirst(g, start, f.q[c], f.q[FirstStep(f, c)])
  {
    var way := Route(g, f, start, c);
    RouteIsShortest(g, f, start, c, way);
    forall u | Begins(g, start, f.q[c], u)
      ensures Rank(DetermineDirection(start, f.q[FirstStep(f, c)])) <= Rank(DetermineDirection(start, u))
    {
      var path :| Shortest(g, path, start, f.q[c]) && |path| > 1 && path[1] == u;
      StepRanksFirst(g, f, start, c, path, way);
    }
  }

  lemma StepRanksFirst(g: Grid, f: Found, start: Point, c: nat, path: seq<Point>, way: seq<Point>)
    requires Expanding(g, f, start, c) && 0 < c && Shortest(g, path, start, f.q[c]) && |path| > 1
    requires Connects(g, way, start, f.q[c]) && |way| == f.dist[c] + 1
    ensures Rank(DetermineDirection(start, f.q[FirstStep(f, c)])) <= Rank(DetermineDirection(start, path[1]))
  {
    ShortestLength(g, f, start, c, path, way);
    var first := StepsAlong(g, f, start, c, path, |path| - 1, c);
    RanksInOrder(f, start, FirstStep(f, c), first);
  }

  lemma ShortestLength(g: Grid, f: Found, start: Point, c: nat, path: seq<Point>, way: seq<Point>)
    requires Expanding(g, f, start, c) && Shortest(g, path, start, f.q[c])
    requires Connects(g, way, start, f.q[c]) && |way| == f.dist[c] + 1
    ensures |path| == f.dist[c] + 1
  {
    assert |path| <= |way|;
    NoShorter(g, f, start, c, path);
  }

  lemma RanksInOrder(f: Found, start: Point, i: nat, j: nat)
    requires FoundShape(f, start) && Breadth(f, start) && 0 < i <= j < |f.q| && f.from[i] == f.from[j] == 0
    ensures Rank(DetermineDirection(start, f.q[i])) <= Rank(DetermineDirection(start, f.q[j]))
  {
    if i < j {
      assert RankOf(f, i) < RankOf(f, j);
    }
  }
}

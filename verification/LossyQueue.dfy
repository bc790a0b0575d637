/** What the queue of the game, which loses entries, makes of `dijkstra`: where it
    goes wrong, and on which maps it never does. */
module LossyQueue {
  import opened Common
  import opened GridMap
  import opened Discovery
  import opened ShortestPath

  // ---- a target next to the start --------------------------------------------------------------

  /** The free cells among the first `n` moves, in the order they are tried. */
  function Free(g: Grid, p: Point, n: nat): (r: seq<Point>)
    requires n <= 4
    ensures |r| <= n
  {
    if n == 0 then []
    else Free(g, p, n - 1) + if IsValidMove(g, Moves(p)[n - 1]) then [Moves(p)[n - 1]] else []
  }

  lemma {:induction false} FreeAreMoves(g: Grid, p: Point, n: nat)
    requires n <= 4
    ensures forall u :: u in Free(g, p, n) ==> u in Moves(p)[..n]
  {
    if n > 0 {
      FreeAreMoves(g, p, n - 1);
      assert Moves(p)[..n] == Moves(p)[..n - 1] + [Moves(p)[n - 1]];
    }
  }

  lemma MovesDiffer(p: Point, n: nat)
    requires InMap(p) && n < 4
    ensures Moves(p)[n] != p && Moves(p)[n] !in Moves(p)[..n]
  {
  }

  /** The first round finds the free neighbours, all from the start. */
  lemma {:induction false} FirstRound(g: Grid, start: Point, n: nat)
    requires InMap(start) && n <= 4
    ensures var f := Expanded(g, Initial(start).f, 0, n);
            f.q == [start] + Free(g, start, n) && forall i :: 0 <= i < |f.from| ==> f.from[i] == 0
  {
    if n > 0 {
      FirstRound(g, start, n - 1);
      FreeAreMoves(g, start, n - 1);
      MovesDiffer(start, n - 1);
    }
  }

  /** A cell that has been found and does not wait is never taken. */
  lemma {:induction false} NeverTaken(g: Grid, s: Search, start: Point, j: nat)
    requires Ok(g, s, start) && j < |s.f.q| && j !in s.w
    ensures Run(g, s, start, s.f.q[j], false).None?
    decreases CELLS - |s.f.q| + |s.w|
  {
    if s.w != [] {
      assert s.w[0] in s.w;
      AfterKeeps(g, s, start, false);
      var r := After(g, s, false);
      RunAfter(g, s, r, start, s.f.q[j], false);
      assert r.f.q[j] == s.f.q[j];
      NeverTaken(g, r, start, j);
    }
  }

  /** The search takes the cell at position `j`. */
  ghost predicate Takes(g: Grid, s: Search, start: Point, j: nat)
    requires Ok(g, s, start) && j < |s.f.q|
  {
    var r := Run(g, s, start, s.f.q[j], false);
    r.Some? && r.value.1 == j && r.value.0.from[j] == s.f.from[j]
  }

  lemma TakesNow(g: Grid, s: Search, start: Point, j: nat)
    requires Ok(g, s, start) && s.w != [] && j < |s.f.q| && s.w[0] == j
    ensures Takes(g, s, start, j)
  {
  }

  lemma TakesLater(g: Grid, s: Search, start: Point, j: nat)
    requires Ok(g, s, start) && s.w != [] && j < |s.f.q| && s.w[0] != j
    requires Ok(g, After(g, s, false), start) && Takes(g, After(g, s, false), start, j)
    ensures Takes(g, s, start, j)
  {
    assert After(g, s, false).f.q[j] == s.f.q[j];
    QueueFits(After(g, s, false).f.q);
  }

  lemma TakesNext(g: Grid, s: Search, start: Point, j: nat)
    requires Ok(g, s, start) && s.w != [] && j < |s.f.q| && s.w[0] != j
    requires if |s.w| == 2 then s.w[1] == j else |s.w| > 2 && s.w[2] == j
    ensures Takes(g, s, start, j)
  {
    AfterKeeps(g, s, start, false);
    assert Rest(s.w, false)[0] == j;
    assert After(g, s, false).w[0] == j;
    assert After(g, s, false).f.q[j] == s.f.q[j];
    TakesLater(g, s, start, j);
  }

  /** Of four waiting cells the last is taken third. */
  lemma TakesFourth(g: Grid, s: Search, start: Point, j: nat)
    requires Ok(g, s, start) && |s.w| == 4 && j < |s.f.q| && s.w[3] == j && s.w[0] != j && s.w[2] != j
    ensures Takes(g, s, start, j)
  {
    AfterKeeps(g, s, start, false);
    var r := After(g, s, false);
    assert Rest(s.w, false) == [s.w[2], j, j];
    assert r.w[0] == s.w[2] && r.w[2] == j;
    TakesNext(g, r, start, j);
    TakesLater(g, s, start, j);
  }

  /** What becomes of the neighbour number `i` of `n`: the second of three or more is
      lost and every other one is taken. */
  ghost predicate Fate(g: Grid, s: Search, start: Point, n: nat, i: nat)
    requires Ok(g, s, start) && i + 1 < |s.f.q|
  {
    if n >= 3 && i == 1 then Run(g, s, start, s.f.q[i + 1], false).None? else Takes(g, s, start, i + 1)
  }

  /** After the first round the neighbours wait in order. */
  lemma NeighbourTaken(g: Grid, s: Search, start: Point, n: nat, i: nat)
    requires Ok(g, s, start) && |s.f.q| == n + 1 && s.w == Upto(1, n + 1) && i < n <= 4
    ensures Fate(g, s, start, n, i)
  {
    if i == 0 {
      TakesNow(g, s, start, 1);
    } else if n >= 3 && i == 1 {
      SecondIsLost(g, s, start, n);
    } else if i == 3 {
      TakesFourth(g, s, start, i + 1);
    } else {
      TakesNext(g, s, start, i + 1);
    }
  }

  lemma SecondIsLost(g: Grid, s: Search, start: Point, n: nat)
    requires Ok(g, s, start) && |s.f.q| == n + 1 && s.w == Upto(1, n + 1) && 3 <= n <= 4
    ensures Run(g, s, start, s.f.q[2], false).None?
  {
    AfterKeeps(g, s, start, false);
    var r := After(g, s, false);
    assert 2 !in Rest(s.w, false);
    assert 2 !in r.w;
    assert r.f.q[2] == s.f.q[2] && s.f.q[1] != s.f.q[2];
    QueueFits(r.f.q);
    NeverTaken(g, r, start, 2);
  }

  /** For a target next to the start `dijkstra` answers its direction - unless the
      start has three or more free neighbours and the target is the second of them
      in the order left, right, up, down: then it answers NONE. */
  lemma NextToTheStart(g: Grid, start: Point, i: nat)
    requires InMap(start) && i < |Free(g, start, 4)|
    ensures var n := |Free(g, start, 4)|;
            var target := Free(g, start, 4)[i];
            && target != start && Reachable(g, start, target)
            && Answer(g, start, target, false) == (if n >= 3 && i == 1 then NONE else DetermineDirection(start, target))
            && DetermineDirection(start, target) != NONE
  {
    InitialOk(g, start);
    AfterKeeps(g, Initial(start), start, false);
    FirstRound(g, start, 4);
    FreeIsNear(g, start, i);
    FromFirstRound(g, start, After(g, Initial(start), false), |Free(g, start, 4)|, i);
  }

  lemma FreeIsNear(g: Grid, start: Point, i: nat)
    requires InMap(start) && i < |Free(g, start, 4)|
    ensures var target := Free(g, start, 4)[i];
            Reachable(g, start, target) && target != start && DetermineDirection(start, target) != NONE
  {
    var target := Free(g, start, 4)[i];
    FreeAreMoves(g, start, 4);
    FreeAreFree(g, start, 4);
    assert Moves(start)[..4] == Moves(start);
    MovesAreNeighbours(g, start, target);
    var two := [start, target];
    assert two[0] == start && two[1] == target && Adjacent(two[0], two[1]);
    assert Connects(g, two, start, target);
  }

  lemma {:induction false} FreeAreFree(g: Grid, p: Point, n: nat)
    requires n <= 4
    ensures forall u :: u in Free(g, p, n) ==> IsValidMove(g, u)
  {
    if n > 0 {
      FreeAreFree(g, p, n - 1);
    }
  }

  lemma FromFirstRound(g: Grid, start: Point, s: Search, n: nat, i: nat)
    requires InMap(start) && Ok(g, s, start) && Ok(g, Initial(start), start) && s == After(g, Initial(start), false)
    requires i < n <= 4 && |s.f.q| == n + 1 && s.f.q[i + 1] != start && s.f.from[i + 1] == 0
    ensures var target := s.f.q[i + 1];
            Answer(g, start, target, false) == (if n >= 3 && i == 1 then NONE else DetermineDirection(start, target))
  {
    assert s.w == Upto(1, n + 1);
    NeighbourTaken(g, s, start, n, i);
    QueueFits(s.f.q);
    AnswerAfter(g, Initial(start), start, s.f.q[i + 1]);
  }

  // ---- maps on which nothing is ever lost ----------------------------------------------------------

  /** Every free cell has at most two free neighbours. */
  ghost predicate Corridors(g: Grid) {
    forall p :: IsValidMove(g, p) ==> |Free(g, p, 4)| <= 2
  }

  lemma {:induction false} FreeComplete(g: Grid, p: Point, n: nat, k: nat)
    requires k < n <= 4 && IsValidMove(g, Moves(p)[k])
    ensures Moves(p)[k] in Free(g, p, n)
  {
    if k < n - 1 {
      FreeComplete(g, p, n - 1, k);
    }
  }

  lemma {:induction false} ExpandedCount(g: Grid, f: Found, c: nat, n: nat)
    requires Columns(f) && c < |f.q| && n <= 4
    ensures |Expanded(g, f, c, n).q| <= |f.q| + |Free(g, f.q[c], n)|
  {
    if n > 0 {
      ExpandedCount(g, f, c, n - 1);
    }
  }

  /** A neighbour that was found before is not found again. */
  lemma {:induction false} ExpandedCountLess(g: Grid, f: Found, c: nat, n: nat, u: Point)
    requires Columns(f) && c < |f.q| && n <= 4 && u in f.q && u in Free(g, f.q[c], n)
    ensures |Expanded(g, f, c, n).q| < |f.q| + |Free(g, f.q[c], n)|
  {
    if u in Free(g, f.q[c], n - 1) {
      ExpandedCountLess(g, f, c, n - 1, u);
    } else {
      ExpandedCount(g, f, c, n - 1);
      assert u == Moves(f.q[c])[n - 1];
      var a := Expanded(g, f, c, n - 1);
      assert f.q <= a.q;
      var i :| 0 <= i < |f.q| && f.q[i] == u;
      assert a.q[i] == u;
    }
  }

  /** The cell a cell was found from is one of its free neighbours. */
  lemma ParentIsFree(g: Grid, f: Found, start: Point, c: nat)
    requires FoundShape(f, start) && Tree(g, f, start) && IsValidMove(g, start) && 0 < c < |f.q|
    ensures IsValidMove(g, f.q[c]) && f.q[f.from[c]] in f.q && f.q[f.from[c]] in Free(g, f.q[c], 4)
  {
    assert Linked(g, f, c);
    var u := f.q[f.from[c]];
    if f.from[c] > 0 {
      assert Linked(g, f, f.from[c]);
    }
    MovesAreNeighbours(g, f.q[c], u);
    var k :| 0 <= k < 4 && Moves(f.q[c])[k] == u;
    FreeComplete(g, f.q[c], 4, k);
  }

  /** At most two cells wait: a cell in a corridor has at most one new neighbour. */
  ghost predicate Slim(s: Search, front: nat) {
    |s.w| <= 2 && (front == 0 ==> |s.f.q| == 1)
  }

  lemma SlimNext(g: Grid, s: Search, start: Point, target: Point, front: nat)
    requires Corridors(g) && IsValidMove(g, start) && InOrder(g, s, start, target, front) && s.w != [] && Slim(s, front)
    ensures Slim(After(g, s, false), front + 1)
  {
    assert s.w[0] == front;
    if front == 0 {
      ExpandedCount(g, s.f, 0, 4);
    } else {
      ParentIsFree(g, s.f, start, front);
      ExpandedCountLess(g, s.f, front, 4, s.f.q[s.f.from[front]]);
    }
  }

  lemma {:induction false} SlimIsNarrow(g: Grid, s: Search, start: Point, target: Point, front: nat)
    requires Ok(g, s, start) && Corridors(g) && IsValidMove(g, start) && InOrder(g, s, start, target, front) && Slim(s, front)
    ensures Narrow(g, s, start, target)
    decreases CELLS - |s.f.q| + |s.w|
  {
    if s.w != [] && s.f.q[s.w[0]] != target {
      SlimNext(g, s, start, target, front);
      RoundInOrder(g, s, start, target, false, front);
      AfterKeeps(g, s, start, false);
      QueueFits(After(g, s, false).f.q);
      SlimIsNarrow(g, After(g, s, false), start, target, front + 1);
    }
  }

  lemma CorridorsExact(g: Grid, start: Point, target: Point)
    requires Corridors(g) && IsValidMove(g, start) && start != target
    ensures Exact(g, start, target, Answer(g, start, target, false))
  {
    InitialOk(g, start);
    SearchedFirst(g, start);
    assert Initial(start).w == Upto(0, 1);
    SlimIsNarrow(g, Initial(start), start, target, 0);
    AnswerExact(g, start, target, false);
  }

  /** A free cell with three free neighbours has one `dijkstra` finds no way to. */
  lemma CrossingFails(g: Grid, p: Point)
    requires IsValidMove(g, p) && |Free(g, p, 4)| > 2
    ensures var target := Free(g, p, 4)[1];
            target != p && !Exact(g, p, target, Answer(g, p, target, false))
  {
    NextToTheStart(g, p, 1);
    var target := Free(g, p, 4)[1];
    if Exact(g, p, target, NONE) {
      var u :| Begins(g, p, target, u) && NONE == DetermineDirection(p, u);
      BeginsNeighbour(g, p, target, u);
    }
  }

  /** As written `dijkstra` is right for all starts and targets on exactly the maps
      without crossings: those where no free cell has more than two free neighbours. */
  lemma DijkstraExactIff(g: Grid)
    ensures (forall start, target :: IsValidMove(g, start) && start != target ==> Exact(g, start, target, Answer(g, start, target, false)))
            <==> Corridors(g)
  {
    if Corridors(g) {
      forall start, target | IsValidMove(g, start) && start != target
        ensures Exact(g, start, target, Answer(g, start, target, false))
      {
        CorridorsExact(g, start, target);
      }
    } else {
      var p :| IsValidMove(g, p) && |Free(g, p, 4)| > 2;
      CrossingFails(g, p);
    }
  }

  // ---- a way that is not the shortest ---------------------------------------------------------------

  /** Two rows: a dead end, the start, its right neighbour and the target below; three
      cells above. */
  function DetourMap(): (g: Grid)
    ensures forall p :: IsValidMove(g, p) <==> (p.y == 1 && 2 <= p.x <= 4) || (p.y == 2 && 1 <= p.x <= 4)
  {
    seq(MAP_HEIGHT, y requires 0 <= y < MAP_HEIGHT =>
      seq(MAP_WIDTH + 1, x requires 0 <= x < MAP_WIDTH + 1 => if (y == 1 && 2 <= x <= 4) || (y == 2 && 1 <= x <= 4) then ' ' else '#'))
  }

  /** Of the first `n` moves from the cell at position `c` only `k` leads to a new cell. */
  ghost predicate OnlyNew(g: Grid, f: Found, c: nat, k: nat, n: nat) {
    && Columns(f) && c < |f.q| && n <= 4
    && (k < n ==> IsValidMove(g, Moves(f.q[c])[k]) && Moves(f.q[c])[k] !in f.q)
    && (forall i :: 0 <= i < n && i != k ==> !IsValidMove(g, Moves(f.q[c])[i]) || Moves(f.q[c])[i] in f.q)
  }

  lemma {:induction false} ExpandsOne(g: Grid, f: Found, c: nat, k: nat, n: nat)
    requires OnlyNew(g, f, c, k, n)
    ensures Expanded(g, f, c, n) == if k < n then Grown(f, Moves(f.q[c])[k], f.dist[c] + 1, c) else f
  {
    if n > 0 {
      ExpandsOne(g, f, c, k, n - 1);
      assert forall u :: u in f.q ==> u in Expanded(g, f, c, n - 1).q;
    }
  }

  const START := Point(2, 2)
  const DEAD_END := Point(1, 2)
  const RIGHT_WAY := Point(3, 2)
  const WAY_UP := Point(2, 1)
  const GOAL := Point(4, 2)

  /** What has been found after the first round, and once the way round has been taken
      one, two and three steps further. */
  function DetourFound(n: nat): (f: Found)
    requires n <= 3
    ensures Columns(f) && |f.q| == n + 4
  {
    if n == 0 then Found([START, DEAD_END, RIGHT_WAY, WAY_UP], [0, 1, 1, 1], [0, 0, 0, 0])
    else if n == 1 then Grown(DetourFound(0), Point(3, 1), 2, 3)
    else if n == 2 then Grown(DetourFound(1), Point(4, 1), 3, 4)
    else Grown(DetourFound(2), GOAL, 4, 5)
  }

  /** `r` follows `s` in the search for the goal. */
  ghost predicate Next(g: Grid, s: Search, r: Search) {
    Columns(s.f) && s.w != [] && s.w[0] < |s.f.q| && s.f.q[s.w[0]] != GOAL && After(g, s, false) == r
  }

  lemma FirstDetour(g: Grid)
    requires g == DetourMap()
    ensures Next(g, Initial(START), Search(DetourFound(0), [1, 2, 3]))
  {
    var f := Initial(START).f;
    assert Moves(START) == [DEAD_END, RIGHT_WAY, WAY_UP, Point(2, 3)];
    assert Expanded(g, f, 0, 1) == Found([START, DEAD_END], [0, 1], [0, 0]);
    assert Expanded(g, f, 0, 2) == Found([START, DEAD_END, RIGHT_WAY], [0, 1, 1], [0, 0, 0]);
    assert Expanded(g, f, 0, 3) == DetourFound(0);
    assert Expanded(g, f, 0, 4) == DetourFound(0);
  }

  /** A round that finds nothing: the dead end, and a cell that was in the queue twice. */
  lemma IdleRound(g: Grid, f: Found, w: seq<nat>, w': seq<nat>)
    requires w != [] && OnlyNew(g, f, w[0], 4, 4) && f.q[w[0]] != GOAL && w' == Rest(w, false)
    ensures Next(g, Search(f, w), Search(f, w'))
  {
    ExpandsOne(g, f, w[0], 4, 4);
    assert w' + Upto(|f.q|, |f.q|) == w';
  }

  /** A round that finds one cell. */
  lemma FindingRound(g: Grid, f: Found, w: seq<nat>, k: nat, v: Point, w': seq<nat>)
    requires w != [] && k < 4 && OnlyNew(g, f, w[0], k, 4) && f.q[w[0]] != GOAL && Moves(f.q[w[0]])[k] == v
    requires w' == Rest(w, false) + [|f.q|]
    ensures Next(g, Search(f, w), Search(Grown(f, v, f.dist[w[0]] + 1, w[0]), w'))
  {
    ExpandsOne(g, f, w[0], k, 4);
    assert Upto(|f.q|, |f.q| + 1) == [|f.q|];
  }

  lemma DetourCells()
    ensures DetourFound(0).q == [START, DEAD_END, RIGHT_WAY, WAY_UP]
    ensures DetourFound(1).q == [START, DEAD_END, RIGHT_WAY, WAY_UP, Point(3, 1)]
    ensures DetourFound(2).q == [START, DEAD_END, RIGHT_WAY, WAY_UP, Point(3, 1), Point(4, 1)]
  {
  }

  lemma SecondRound(g: Grid, f: Found)
    requires g == DetourMap() && f == DetourFound(0)
    ensures Next(g, Search(f, [1, 2, 3]), Search(f, [3, 3]))
  {
    DetourCells();
    InTheMoves();
    assert f.q[0] == START && f.q[1] == DEAD_END;
    IdleRound(g, f, [1, 2, 3], [3, 3]);
  }

  lemma ThirdRound(g: Grid, f: Found)
    requires g == DetourMap() && f == DetourFound(0)
    ensures Next(g, Search(f, [3, 3]), Search(DetourFound(1), [3, 4]))
  {
    DetourCells();
    InTheMoves();
    assert f.q[0] == START && f.q[3] == WAY_UP;
    FindingRound(g, f, [3, 3], 1, Point(3, 1), [3, 4]);
  }

  lemma FourthRound(g: Grid, f: Found)
    requires g == DetourMap() && f == DetourFound(1)
    ensures Next(g, Search(f, [3, 4]), Search(f, [4]))
  {
    DetourCells();
    InTheMoves();
    assert f.q[0] == START && f.q[3] == WAY_UP && f.q[4] == Point(3, 1);
    IdleRound(g, f, [3, 4], [4]);
  }

  lemma FifthRound(g: Grid, f: Found)
    requires g == DetourMap() && f == DetourFound(1)
    ensures Next(g, Search(f, [4]), Search(DetourFound(2), [5]))
  {
    DetourCells();
    InTheMoves();
    assert f.q[2] == RIGHT_WAY && f.q[3] == WAY_UP && f.q[4] == Point(3, 1);
    FindingRound(g, f, [4], 1, Point(4, 1), [5]);
  }

  lemma SixthRound(g: Grid, f: Found)
    requires g == DetourMap() && f == DetourFound(2)
    ensures Next(g, Search(f, [5]), Search(DetourFound(3), [6]))
  {
    DetourCells();
    InTheMoves();
    assert f.q[4] == Point(3, 1) && f.q[5] == Point(4, 1);
    FindingRound(g, f, [5], 3, GOAL, [6]);
  }

  lemma InTheMoves()
    ensures Moves(DEAD_END) == [Point(0, 2), START, Point(1, 1), Point(1, 3)]
    ensures Moves(WAY_UP) == [Point(1, 1), Point(3, 1), Point(2, 0), START]
    ensures Moves(Point(3, 1)) == [WAY_UP, Point(4, 1), Point(3, 0), RIGHT_WAY]
    ensures Moves(Point(4, 1)) == [Point(3, 1), Point(5, 1), Point(4, 0), GOAL]
  {
  }

  lemma NextRuns(g: Grid, s: Search, r: Search)
    requires Ok(g, s, START) && Next(g, s, r)
    ensures Ok(g, r, START) && AnswerFrom(g, s, START, GOAL, false) == AnswerFrom(g, r, START, GOAL, false)
  {
    AfterKeeps(g, s, START, false);
    AnswerAfter(g, s, START, GOAL);
  }

  /** Three rounds on, with the cell above the start in the queue twice. */
  lemma DetourBegins(g: Grid)
    requires g == DetourMap()
    ensures Ok(g, Initial(START), START) && Ok(g, Search(DetourFound(1), [3, 4]), START)
    ensures AnswerFrom(g, Initial(START), START, GOAL, false) == AnswerFrom(g, Search(DetourFound(1), [3, 4]), START, GOAL, false)
  {
    InitialOk(g, START);
    FirstDetour(g);
    SecondRound(g, DetourFound(0));
    ThirdRound(g, DetourFound(0));
    NextRuns(g, Initial(START), Search(DetourFound(0), [1, 2, 3]));
    NextRuns(g, Search(DetourFound(0), [1, 2, 3]), Search(DetourFound(0), [3, 3]));
    NextRuns(g, Search(DetourFound(0), [3, 3]), Search(DetourFound(1), [3, 4]));
  }

  lemma DetourEnds(g: Grid)
    requires g == DetourMap() && Ok(g, Search(DetourFound(1), [3, 4]), START)
    ensures AnswerFrom(g, Search(DetourFound(1), [3, 4]), START, GOAL, false) == UP
  {
    FourthRound(g, DetourFound(1));
    FifthRound(g, DetourFound(1));
    SixthRound(g, DetourFound(2));
    NextRuns(g, Search(DetourFound(1), [3, 4]), Search(DetourFound(1), [4]));
    NextRuns(g, Search(DetourFound(1), [4]), Search(DetourFound(2), [5]));
    NextRuns(g, Search(DetourFound(2), [5]), Search(DetourFound(3), [6]));
    GoalReached(g);
  }

  /** On this map `dijkstra` sends its caller up and round the corner to a target that
      is two steps to the right. */
  lemma DetourTaken(g: Grid)
    requires g == DetourMap()
    ensures Answer(g, START, GOAL, false) == UP && !Exact(g, START, GOAL, UP)
  {
    DetourBegins(g);
    DetourEnds(g);
    NotUp(g);
  }

  lemma GoalReached(g: Grid)
    requires Ok(g, Search(DetourFound(3), [6]), START)
    ensures AnswerFrom(g, Search(DetourFound(3), [6]), START, GOAL, false) == UP
  {
    var f := DetourFound(3);
    assert f.q[6] == GOAL && f.q[3] == WAY_UP;
    assert f.from[6] == 5 && f.from[5] == 4 && f.from[4] == 3 && f.from[3] == 0;
    assert FirstStep(f, 4) == 3 && FirstStep(f, 5) == 3 && FirstStep(f, 6) == 3;
  }

  lemma NotUp(g: Grid)
    requires g == DetourMap()
    ensures !Exact(g, START, GOAL, UP)
  {
    TwoSteps(g);
    if Exact(g, START, GOAL, UP) {
      var p :| Begins(g, START, GOAL, p) && UP == DetermineDirection(START, p);
      UpIsNoBeginning(g, p);
    }
  }

  lemma TwoSteps(g: Grid)
    requires g == DetourMap()
    ensures Connects(g, [START, RIGHT_WAY, GOAL], START, GOAL)
    ensures Reachable(g, START, GOAL)
  {
    var way := [START, RIGHT_WAY, GOAL];
    assert Adjacent(way[0], way[1]) && Adjacent(way[1], way[2]) && IsValidMove(g, way[1]) && IsValidMove(g, way[2]);
    assert Connects(g, way, START, GOAL);
  }

  lemma UpIsNoBeginning(g: Grid, p: Point)
    requires Connects(g, [START, RIGHT_WAY, GOAL], START, GOAL) && Begins(g, START, GOAL, p)
    ensures DetermineDirection(START, p) != UP
  {
    BeginsNeighbour(g, START, GOAL, p);
    if p == WAY_UP {
      var path :| Shortest(g, path, START, GOAL) && |path| > 1 && path[1] == p;
      assert |path| <= |[START, RIGHT_WAY, GOAL]|;
      UpIsLonger(g, path);
    }
  }

  lemma UpIsLonger(g: Grid, path: seq<Point>)
    requires Connects(g, path, START, GOAL) && |path| > 1 && path[1] == WAY_UP
    ensures |path| > 3
  {
    if |path| >= 3 {
      assert Adjacent(path[1], path[2]);
    }
  }
}

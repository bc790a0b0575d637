/** `bfs` of zeos/pacman.c, on the fixed-size arrays of the game. */
module GridSearch {
  import opened Lists
  import opened GridMap
  import opened Discovery

  ghost predicate Cells(f: Found) {
    && Columns(f) && f.q != [] && (forall i :: 0 <= i < |f.q| ==> InMap(f.q[i]))
    && (forall i :: 0 < i < |f.q| ==> f.from[i] < i)
  }

  /** The arrays of the search hold what has been found. */
  ghost predicate Holds(f: Found, visited: array2<bool>, previous: array2<Point>, queue: array<Point>, rear: nat)
    reads visited, previous, queue
  {
    && visited.Length0 == previous.Length0 == MAP_HEIGHT && visited.Length1 == previous.Length1 == MAP_WIDTH
    && Cells(f) && queue.Length == CELLS && rear == |f.q| <= CELLS && queue[..rear] == f.q
    && (forall p: Point :: InMap(p) ==> (visited[p.y, p.x] <==> p in f.q))
    && (forall i :: 0 < i < |f.q| ==> previous[f.q[i].y, f.q[i].x] == f.q[f.from[i]])
  }

  /** Enqueues a cell, and notes that and from where it was found. */
  method Visit(next: Point, current: Point, visited: array2<bool>, previous: array2<Point>, queue: array<Point>, rear: nat,
               ghost f: Found, ghost d: nat, ghost c: nat)
    requires Holds(f, visited, previous, queue, rear) && rear < CELLS
    requires InMap(next) && next !in f.q && c < |f.q| && f.q[c] == current
    modifies visited, previous, queue
    ensures Holds(Grown(f, next, d, c), visited, previous, queue, rear + 1)
  {
    ghost var r := Grown(f, next, d, c);
    queue[rear] := next;
    visited[next.y, next.x] := true;
    previous[next.y, next.x] := current;
    assert queue[..rear + 1] == r.q;
    forall p: Point | InMap(p)
      ensures visited[p.y, p.x] <==> p in r.q
    {
      assert p in r.q <==> p in f.q || p == next;
    }
    forall i | 0 < i < |r.q|
      ensures previous[r.q[i].y, r.q[i].x] == r.q[r.from[i]]
    {
      if i < |f.q| {
        assert f.q[i] in f.q;
      }
    }
  }

  /** One round of the inner loop: enqueue `next` if it is free and new. */
  method Try(g: Grid, next: Point, current: Point, visited: array2<bool>, previous: array2<Point>, queue: array<Point>, rear: nat,
             ghost f: Found, ghost c: nat)
    returns (rear': nat)
    requires Holds(f, visited, previous, queue, rear) && Distinct(f.q) && c < |f.q| && f.q[c] == current
    modifies visited, previous, queue
    ensures Holds(TryMove(g, f, c, next), visited, previous, queue, rear')
  {
    rear' := rear;
    if IsValidMove(g, next) && !visited[next.y, next.x] {
      QueueFits(f.q + [next]);
      Visit(next, current, visited, previous, queue, rear, f, f.dist[c] + 1, c);
      rear' := rear + 1;
    }
  }

  /** The inner loop: the four moves from `current`, the cell at position `c`. */
  method Expand(g: Grid, current: Point, visited: array2<bool>, previous: array2<Point>, queue: array<Point>, rear: nat,
                ghost f: Found, ghost c: nat)
    returns (rear': nat)
    requires Holds(f, visited, previous, queue, rear) && Distinct(f.q) && c < |f.q| && f.q[c] == current
    modifies visited, previous, queue
    ensures Holds(Expanded(g, f, c, 4), visited, previous, queue, rear')
  {
    rear' := rear;
    var moves := Moves(current);
    var i := 0;
    ghost var r := f;
    while i < 4
      invariant 0 <= i <= 4 && r == Expanded(g, f, c, i) && r.q[c] == current
      invariant Holds(r, visited, previous, queue, rear') && Distinct(r.q)
    {
      rear' := Try(g, moves[i], current, visited, previous, queue, rear', r, c);
      r := TryMove(g, r, c, moves[i]);
      i := i + 1;
    }
  }

  /** The backtracking loop: from the target towards the start, to the cell next to it. */
  method Backtrack(start: Point, target: Point, previous: array2<Point>, ghost f: Found, ghost c: nat)
    returns (pos: Point)
    requires Cells(f) && Distinct(f.q) && f.q[0] == start && 0 < c < |f.q| && f.q[c] == target
    requires previous.Length0 == MAP_HEIGHT && previous.Length1 == MAP_WIDTH
    requires forall i :: 0 < i < |f.q| ==> previous[f.q[i].y, f.q[i].x] == f.q[f.from[i]]
    ensures pos == f.q[FirstStep(f, c)]
  {
    pos := target;
    ghost var k := c;
    while previous[pos.y, pos.x] != start
      invariant 0 < k < |f.q| && f.q[k] == pos && FirstStep(f, k) == FirstStep(f, c)
      decreases k
    {
      pos := previous[pos.y, pos.x];
      k := f.from[k];
    }
    assert f.q[f.from[k]] == f.q[0];
  }

  /** What the search does when it takes the target off the queue. */
  method Arrive(g: Grid, start: Point, target: Point, previous: array2<Point>, ghost f: Found, ghost c: nat)
    returns (dir: Direction)
    requires Searched(g, f, start, c) && Cells(f) && c < |f.q| && f.q[c] == target && start != target
    requires previous.Length0 == MAP_HEIGHT && previous.Length1 == MAP_WIDTH
    requires forall i :: 0 < i < |f.q| ==> previous[f.q[i].y, f.q[i].x] == f.q[f.from[i]]
    ensures Answers(g, start, target, dir)
  {
    var pos := Backtrack(start, target, previous, f, c);
    StepAnswers(g, f, start, target, c);
    dir := DetermineDirection(pos, target);
  }

  lemma StepAnswers(g: Grid, f: Found, start: Point, target: Point, c: nat)
    requires Searched(g, f, start, c) && 0 < c < |f.q| && f.q[c] == target
    ensures Answers(g, start, target, DetermineDirection(f.q[FirstStep(f, c)], target))
  {
    FirstStepFirst(g, f, start, c);
    BeginsNeighbour(g, start, target, f.q[FirstStep(f, c)]);
  }

  /** The arrays of a search that has found its start. */
  method Begin(start: Point) returns (visited: array2<bool>, previous: array2<Point>, queue: array<Point>)
    requires InMap(start)
    ensures fresh(visited) && fresh(previous) && fresh(queue)
    ensures Holds(Found([start], [0], [0]), visited, previous, queue, 1)
  {
    visited := new bool[MAP_HEIGHT, MAP_WIDTH]((_, _) => false);
    queue := new Point[CELLS](_ => start);
    previous := new Point[MAP_HEIGHT, MAP_WIDTH]((_, _) => start);
    queue[0] := start;
    visited[start.y, start.x] := true;
  }

  /** `bfs`, as written: the answer points from the first step towards the target,
      not from the start towards the first step. */
  method Bfs(g: Grid, start: Point, target: Point) returns (dir: Direction)
    requires InMap(start) && start != target
    ensures Answers(g, start, target, dir)
  {
    var visited, previous, queue := Begin(start);
    var front: nat, rear: nat := 0, 1;
    ghost var f := Found([start], [0], [0]);
    SearchedFirst(g, start);

    while front < rear
      invariant Holds(f, visited, previous, queue, rear) && Ahead(g, f, start, target, front)
      invariant fresh(visited) && fresh(previous) && fresh(queue)
      decreases CELLS - front
    {
      var current := queue[front];
      assert f.q[front] == current;
      if current == target {
        dir := Arrive(g, start, target, previous, f, front);
        return;
      }
      rear := Expand(g, current, visited, previous, queue, rear, f, front);
      ghost var before := f;
      f := Expanded(g, f, front, 4);
      AheadNext(g, before, f, start, target, front);
      front := front + 1;
    }
    NoWay(g, f, start, target);
    dir := NONE;
  }

  lemma NoWay(g: Grid, f: Found, start: Point, target: Point)
    requires Ahead(g, f, start, target, |f.q|)
    ensures Answers(g, start, target, NONE)
  {
    if Reachable(g, start, target) {
      AllFound(g, f, start, target);
    }
  }

  /** What `bfs` promises: NONE when there is no way, and otherwise the direction
      from the first step of a shortest way to the target - of the first such step in
      the order left, right, up, down. */
  ghost predicate Answers(g: Grid, start: Point, target: Point, dir: Direction) {
    if Reachable(g, start, target) then exists p :: BeginsFirst(g, start, target, p) && dir == DetermineDirection(p, target)
    else dir == NONE
  }

  // ---- what the answer is worth ------------------------------------------------------------------

  /** NONE means "no way" - except for a target next to the start, where it is the
      answer too. */
  lemma NoneIff(g: Grid, start: Point, target: Point, dir: Direction)
    requires Answers(g, start, target, dir) && start != target
    ensures dir == NONE <==> !Reachable(g, start, target) || Adjacent(start, target)
  {
    if Reachable(g, start, target) {
      var p :| BeginsFirst(g, start, target, p) && dir == DetermineDirection(p, target);
      BeginsNeighbour(g, start, target, p);
      if Adjacent(start, target) {
        AdjacentBegins(g, start, target, p);
      }
    }
  }

  /** To a target next to the start there is one shortest way. */
  lemma AdjacentBegins(g: Grid, start: Point, target: Point, p: Point)
    requires Adjacent(start, target) && Begins(g, start, target, p)
    ensures p == target
  {
    var path :| Shortest(g, path, start, target) && |path| > 1 && path[1] == p;
    var two := [start, target];
    assert IsValidMove(g, path[|path| - 1]);
    assert Connects(g, two, start, target);
  }

  /** Round the corner of a wall the answer leads into the wall: in every map with a
      wall below the start and the two cells past the corner free, `bfs` says DOWN. */
  lemma IntoTheWall(g: Grid, start: Point, dir: Direction)
    requires var side, target := Point(start.x + 1, start.y), Point(start.x + 1, start.y + 1);
             IsValidMove(g, side) && IsValidMove(g, target) && Answers(g, start, target, dir)
    requires !IsValidMove(g, Point(start.x, start.y + 1))
    ensures dir == DOWN
  {
    var side, target := Point(start.x + 1, start.y), Point(start.x + 1, start.y + 1);
    var three := [start, side, target];
    assert Connects(g, three, start, target);
    var p :| BeginsFirst(g, start, target, p) && dir == DetermineDirection(p, target);
    var path :| Shortest(g, path, start, target) && |path| > 1 && path[1] == p;
    BeginsNeighbour(g, start, target, p);
    assert |path| <= 3;
    if |path| == 3 {
      assert Adjacent(path[1], path[2]);
    }
  }

  /** With the direction taken from the start to the first step, as `dijkstra` takes
      it, the answer is exact. */
  lemma RepairedExact(g: Grid, start: Point, target: Point, p: Point)
    requires BeginsFirst(g, start, target, p)
    ensures ExactFirst(g, start, target, DetermineDirection(start, p)) && Exact(g, start, target, DetermineDirection(start, p))
  {
    BeginsNeighbour(g, start, target, p);
  }

  /** A shortest way starts in direction `d`. */
  ghost predicate Starts(g: Grid, start: Point, target: Point, d: Direction) {
    exists p :: Begins(g, start, target, p) && DetermineDirection(start, p) == d
  }

  /** Up or down, whichever leads to the row of the target. */
  function Vertical(start: Point, target: Point): Direction {
    if target.y > start.y then DOWN else UP
  }

  /** When the direction from the first step to the target is one to take. */
  ghost predicate DirectionHelps(g: Grid, start: Point, target: Point) {
    var left, right := Starts(g, start, target, LEFT), Starts(g, start, target, RIGHT);
    var turn := target.y != start.y && Starts(g, start, target, Vertical(start, target));
    if target.x > start.x + 1 then right
    else if target.x + 1 < start.x then left
    else if target.x > start.x then right && (left || turn)
    else if target.x < start.x then left && turn
    else if left || right then left && right
    else if Starts(g, start, target, UP) then target.y + 1 < start.y || (turn && target.y > start.y)
    else target.y > start.y + 1
  }

  /** The answer is the first step of a shortest way, or NONE for want of a way,
      exactly when there is no way or the direction helps. Two columns off or more it
      is RIGHT or LEFT whatever the map. */
  lemma BfsExactIff(g: Grid, start: Point, target: Point, dir: Direction)
    requires Answers(g, start, target, dir) && start != target
    ensures Exact(g, start, target, dir) <==> !Reachable(g, start, target) || DirectionHelps(g, start, target)
    ensures Reachable(g, start, target) && target.x > start.x + 1 ==> dir == RIGHT
    ensures Reachable(g, start, target) && target.x + 1 < start.x ==> dir == LEFT
  {
    if Reachable(g, start, target) {
      var p :| BeginsFirst(g, start, target, p) && dir == DetermineDirection(p, target);
      BeginsNeighbour(g, start, target, p);
      ExactIsStarts(g, start, target, dir);
      FirstStarts(g, start, target, p);
    }
  }

  lemma ExactIsStarts(g: Grid, start: Point, target: Point, dir: Direction)
    requires Reachable(g, start, target)
    ensures Exact(g, start, target, dir) <==> Starts(g, start, target, dir)
  {
  }

  /** No shortest way starts in a direction that comes before that of the first step. */
  lemma FirstStarts(g: Grid, start: Point, target: Point, p: Point)
    requires BeginsFirst(g, start, target, p)
    ensures Starts(g, start, target, DetermineDirection(start, p)) && !Starts(g, start, target, NONE)
    ensures forall d :: Starts(g, start, target, d) ==> Rank(DetermineDirection(start, p)) <= Rank(d)
  {
    if u :| Begins(g, start, target, u) && DetermineDirection(start, u) == NONE {
      BeginsNeighbour(g, start, target, u);
    }
  }
}

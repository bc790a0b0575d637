/** The map of zeos/pacman.c, moves on it, and ways through it. */
module GridMap {
  import opened Common

  const MAP_HEIGHT := 24
  const MAP_WIDTH := 80
  const CELLS := MAP_HEIGHT * MAP_WIDTH

  /** Coordinates are unsigned: one less than 0 is 2^32 - 1. */
  datatype Point = Point(x: nat, y: nat)

  datatype Direction = UP | DOWN | RIGHT | LEFT | NONE

  type Grid = g: seq<string> | |g| == MAP_HEIGHT && forall y :: 0 <= y < MAP_HEIGHT ==> |g[y]| == MAP_WIDTH + 1
    witness seq(MAP_HEIGHT, _ => seq(MAP_WIDTH + 1, _ => ' '))

  predicate InMap(p: Point) { p.x < MAP_WIDTH && p.y < MAP_HEIGHT }

  /** `isValidMove` */
  predicate IsValidMove(g: Grid, p: Point) {
    InMap(p) && g[p.y][p.x] != '#'
  }

  /** `determineDirection` */
  function DetermineDirection(start: Point, next: Point): Direction {
    if next.x > start.x then RIGHT
    else if next.x < start.x then LEFT
    else if next.y > start.y then DOWN
    else if next.y < start.y then UP
    else NONE
  }

  /** The four cells the searches look at, in their order. */
  function Moves(p: Point): (r: seq<Point>)
    ensures |r| == 4
  {
    [Point((p.x + WORD - 1) % WORD, p.y), Point((p.x + 1) % WORD, p.y),
     Point(p.x, (p.y + WORD - 1) % WORD), Point(p.x, (p.y + 1) % WORD)]
  }

  // ---- paths ---------------------------------------------------------------------------

  predicate Adjacent(p: Point, q: Point) {
    (p.x == q.x && (p.y + 1 == q.y || q.y + 1 == p.y)) || (p.y == q.y && (p.x + 1 == q.x || q.x + 1 == p.x))
  }

  /** Unsigned wrap-around never lets the search leave the map at one side and
      come back at another. */
  lemma MovesAreNeighbours(g: Grid, p: Point, q: Point)
    requires InMap(p)
    ensures q in Moves(p) && IsValidMove(g, q) <==> Adjacent(p, q) && IsValidMove(g, q)
  {
    var m := Moves(p);
    assert q in m <==> q == m[0] || q == m[1] || q == m[2] || q == m[3];
  }

  /** A walk over free cells; where it starts does not matter. */
  ghost predicate IsPath(g: Grid, path: seq<Point>) {
    path != [] && forall i :: 0 < i < |path| ==> Adjacent(path[i - 1], path[i]) && IsValidMove(g, path[i])
  }

  ghost predicate Connects(g: Grid, path: seq<Point>, start: Point, target: Point) {
    IsPath(g, path) && path[0] == start && path[|path| - 1] == target
  }

  ghost predicate Shortest(g: Grid, path: seq<Point>, start: Point, target: Point) {
    Connects(g, path, start, target) && forall other :: Connects(g, other, start, target) ==> |path| <= |other|
  }

  ghost predicate Reachable(g: Grid, start: Point, target: Point) {
    exists path :: Connects(g, path, start, target)
  }

  // ---- first steps ---------------------------------------------------------------------

  /** Compared with the start, the first step gives a direction that leads to it. */
  function Neighbour(p: Point, dir: Direction): Point
    requires dir == LEFT ==> p.x > 0
    requires dir == UP ==> p.y > 0
  {
    match dir
    case RIGHT => Point(p.x + 1, p.y)
    case LEFT => Point(p.x - 1, p.y)
    case DOWN => Point(p.x, p.y + 1)
    case UP => Point(p.x, p.y - 1)
    case NONE => p
  }

  lemma FirstStepDirection(g: Grid, path: seq<Point>, start: Point, target: Point)
    requires Shortest(g, path, start, target) && |path| > 1
    ensures var dir := DetermineDirection(start, path[1]);
            && dir != NONE && (dir == LEFT ==> start.x > 0) && (dir == UP ==> start.y > 0)
            && Neighbour(start, dir) == path[1] && IsValidMove(g, Neighbour(start, dir))
  {
    assert Adjacent(path[0], path[1]) && IsValidMove(g, path[1]);
  }

  /** A shortest way to the target starts with a step to `p`. */
  ghost predicate Begins(g: Grid, start: Point, target: Point, p: Point) {
    exists path :: Shortest(g, path, start, target) && |path| > 1 && path[1] == p
  }

  /** The order in which the searches try the directions. */
  function Rank(d: Direction): nat {
    match d
    case LEFT => 0
    case RIGHT => 1
    case UP => 2
    case DOWN => 3
    case NONE => 4
  }

  /** `p` is the first neighbour, in that order, that a shortest way starts with. */
  ghost predicate BeginsFirst(g: Grid, start: Point, target: Point, p: Point) {
    && Begins(g, start, target, p)
    && (forall u :: Begins(g, start, target, u) ==> Rank(DetermineDirection(start, p)) <= Rank(DetermineDirection(start, u)))
  }

  lemma MoveRank(g: Grid, p: Point, n: nat)
    requires InMap(p) && n < 4 && IsValidMove(g, Moves(p)[n])
    ensures Rank(DetermineDirection(p, Moves(p)[n])) == n
  {
  }

  /** The first step of a shortest way, or NONE exactly when there is none. */
  ghost predicate Exact(g: Grid, start: Point, target: Point, dir: Direction) {
    if Reachable(g, start, target) then exists p :: Begins(g, start, target, p) && dir == DetermineDirection(start, p)
    else dir == NONE
  }

  /** The same, and the first such step in the order of the searches. */
  ghost predicate ExactFirst(g: Grid, start: Point, target: Point, dir: Direction) {
    if Reachable(g, start, target) then exists p :: BeginsFirst(g, start, target, p) && dir == DetermineDirection(start, p)
    else dir == NONE
  }

  /** The neighbour a shortest way starts with is the one its direction leads to. */
  lemma BeginsNeighbour(g: Grid, start: Point, target: Point, p: Point)
    requires Begins(g, start, target, p)
    ensures var d := DetermineDirection(start, p);
            && d != NONE && (d == LEFT ==> start.x > 0) && (d == UP ==> start.y > 0)
            && Neighbour(start, d) == p && IsValidMove(g, p) && Adjacent(start, p) && Reachable(g, start, target)
  {
    var path :| Shortest(g, path, start, target) && |path| > 1 && path[1] == p;
    FirstStepDirection(g, path, start, target);
    assert Adjacent(path[0], path[1]) && Connects(g, path, start, target);
  }
}

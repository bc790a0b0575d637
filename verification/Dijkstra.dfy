/** `dijkstra` of zeos/pacman.c on its arrays, proved to compute the answer of the
    search as a function. */
module Dijkstra {
  import opened Common
  import opened GridMap
  import opened Discovery
  import opened PriorityQueue
  import opened ShortestPath

  const INFINITY := 2147483647

  /** `distances` and `previous` hold what has been found. */
  ghost predicate Stored(f: Found, start: Point, distances: array2<int>, previous: array2<Point>)
    requires FoundShape(f, start)
    reads distances, previous
  {
    && distances.Length0 == previous.Length0 == MAP_HEIGHT && distances.Length1 == previous.Length1 == MAP_WIDTH
    && (forall i :: 0 <= i < |f.q| ==> distances[f.q[i].y, f.q[i].x] == f.dist[i])
    && (forall i :: 0 < i < |f.q| && f.from[i] < i ==> previous[f.q[i].y, f.q[i].x] == f.q[f.from[i]])
    && (forall p: Point :: InMap(p) && p !in f.q ==> distances[p.y, p.x] == INFINITY)
  }

  ghost predicate Positions(f: Found, w: seq<nat>) {
    Columns(f) && forall i :: 0 <= i < |w| ==> w[i] < |f.q|
  }

  /** The queue entries that `w` stands for. */
  ghost function Entries(f: Found, w: seq<nat>): (r: seq<PriorityNode>)
    requires Positions(f, w)
    ensures |r| == |w| && forall i :: 0 <= i < |r| ==> r[i] == PriorityNode(f.q[w[i]], f.dist[w[i]])
  {
    seq(|w|, i requires 0 <= i < |w| => PriorityNode(f.q[w[i]], f.dist[w[i]]))
  }

  /** The queue holds them from `front` to `rear`. */
  ghost predicate Waiting(f: Found, w: seq<nat>, queue: array<PriorityNode>, front: nat, rear: nat)
    reads queue
  {
    && queue.Length == CELLS && front <= rear == |f.q| <= CELLS
    && Positions(f, w) && queue[front..rear] == Entries(f, w)
  }

  lemma EntriesGrow(f: Found, w: seq<nat>, v: Point, d: nat, c: nat)
    requires Positions(f, w)
    ensures var r := Grown(f, v, d, c);
            Positions(r, w + [|f.q|]) && Entries(r, w + [|f.q|]) == Entries(f, w) + [PriorityNode(v, d)]
  {
  }

  lemma UptoNext(w: seq<nat>, a: nat, b: nat)
    requires a <= b
    ensures w + Upto(a, b + 1) == w + Upto(a, b) + [b]
    ensures w + Upto(a, a) == w
  {
  }

  lemma {:induction false} DistanceSmall(g: Grid, f: Found, start: Point, i: nat)
    requires FoundShape(f, start) && Tree(g, f, start) && i < |f.q|
    ensures f.dist[i] <= i
  {
    if i > 0 {
      assert Linked(g, f, i);
      DistanceSmall(g, f, start, f.from[i]);
    }
  }

  /** The code asks whether the new distance is less than the stored one, and it is
      exactly for cells not found yet: none is ever found again. */
  lemma NearerIffNew(g: Grid, f: Found, start: Point, c: nat, v: Point, distances: array2<int>, previous: array2<Point>)
    requires Growing(g, f, start, c) && Stored(f, start, distances, previous) && InMap(v)
    ensures InMap(f.q[c]) && distances[f.q[c].y, f.q[c].x] == f.dist[c]
    ensures distances[v.y, v.x] > f.dist[c] + 1 <==> v !in f.q
  {
    QueueFits(f.q);
    DistanceSmall(g, f, start, c);
    if v in f.q {
      var j :| 0 <= j < |f.q| && f.q[j] == v;
      assert f.dist[j] <= f.dist[c] + 1;
    }
  }

  /** What the body of the inner loop stores for a new cell. */
  method Note(next: Point, pos: Point, d: nat, distances: array2<int>, previous: array2<Point>, ghost f: Found, ghost start: Point, ghost c: nat)
    requires FoundShape(f, start) && Stored(f, start, distances, previous) && InMap(next) && next !in f.q
    requires c < |f.q| && f.q[c] == pos && (forall i :: 0 < i < |f.q| ==> f.from[i] < i)
    modifies distances, previous
    ensures FoundShape(Grown(f, next, d, c), start) && Stored(Grown(f, next, d, c), start, distances, previous)
  {
    ghost var r := Grown(f, next, d, c);
    distances[next.y, next.x] := d;
    previous[next.y, next.x] := pos;
    forall i | 0 <= i < |r.q|
      ensures distances[r.q[i].y, r.q[i].x] == r.dist[i]
      ensures 0 < i && r.from[i] < i ==> previous[r.q[i].y, r.q[i].x] == r.q[r.from[i]]
    {
      if i < |f.q| {
        assert f.q[i] in f.q;
      }
    }
    forall p: Point | InMap(p) && p !in r.q
      ensures distances[p.y, p.x] == INFINITY
    {
      assert r.q[|f.q|] == next && p !in f.q;
    }
  }

  /** The body of the inner loop. */
  method AddCell(next: Point, pos: Point, d: nat, distances: array2<int>, previous: array2<Point>, queue: array<PriorityNode>,
                 ghost front: nat, rear: nat, ghost f: Found, ghost r: Found, ghost w: seq<nat>, ghost w': seq<nat>, ghost start: Point, ghost c: nat)
    returns (rear': nat)
    requires r == Grown(f, next, d, c) && w' == w + [|f.q|]
    requires FoundShape(f, start) && Stored(f, start, distances, previous) && InMap(next) && next !in f.q
    requires c < |f.q| && f.q[c] == pos && (forall i :: 0 < i < |f.q| ==> f.from[i] < i)
    requires Waiting(f, w, queue, front, rear) && rear < CELLS
    modifies distances, previous, queue
    ensures FoundShape(r, start) && Stored(r, start, distances, previous)
    ensures Waiting(r, w', queue, front, rear')
  {
    Note(next, pos, d, distances, previous, f, start, c);
    rear' := AddEntry(next, d, queue, front, rear, f, w, c);
  }

  method AddEntry(next: Point, d: nat, queue: array<PriorityNode>, ghost front: nat, rear: nat, ghost f: Found, ghost w: seq<nat>, ghost c: nat)
    returns (rear': nat)
    requires Waiting(f, w, queue, front, rear) && rear < CELLS
    modifies queue
    ensures Waiting(Grown(f, next, d, c), w + [|f.q|], queue, front, rear')
  {
    EntriesGrow(f, w, next, d, c);
    ghost var e := queue[front..rear];
    rear' := Enqueue(queue, rear, next, d);
    assert queue[front..rear'] == e + [queue[rear]];
  }

  lemma NewCellFits(f: Found, start: Point, v: Point)
    requires FoundShape(f, start) && InMap(v) && v !in f.q
    ensures |f.q| < CELLS
  {
    QueueFits(f.q + [v]);
  }

  /** One round of the inner loop, the queue part of it given by `w` and the cells
      found from position `n` on. */
  method Relax(g: Grid, next: Point, pos: Point, distances: array2<int>, previous: array2<Point>, queue: array<PriorityNode>,
               ghost front: nat, rear: nat, ghost f: Found, ghost w: seq<nat>, ghost n: nat, ghost start: Point, ghost c: nat)
    returns (rear': nat, ghost f': Found)
    requires Growing(g, f, start, c) && f.q[c] == pos && next in Moves(pos) && n <= |f.q|
    requires Stored(f, start, distances, previous) && Waiting(f, w + Upto(n, |f.q|), queue, front, rear)
    modifies distances, previous, queue
    ensures f' == TryMove(g, f, c, next) && FoundShape(f', start) && Stored(f', start, distances, previous)
    ensures Waiting(f', w + Upto(n, |f'.q|), queue, front, rear')
  {
    rear', f' := rear, TryMove(g, f, c, next);
    if IsValidMove(g, next) {
      var nearer, d := IsNearer(g, next, pos, distances, previous, f, start, c);
      if nearer {
        NewCellFits(f, start, next);
        UptoNext(w, n, |f.q|);
        ghost var before, after := w + Upto(n, |f.q|), w + Upto(n, |f'.q|);
        assert after == before + [|f.q|];
        rear' := AddCell(next, pos, d, distances, previous, queue, front, rear, f, f', before, after, start, c);
      }
    }
  }

  /** The test of the inner loop, and the new distance. */
  method IsNearer(g: Grid, next: Point, pos: Point, distances: array2<int>, previous: array2<Point>,
                  ghost f: Found, ghost start: Point, ghost c: nat)
    returns (nearer: bool, d: int)
    requires Growing(g, f, start, c) && f.q[c] == pos && InMap(next) && Stored(f, start, distances, previous)
    ensures (nearer <==> next !in f.q) && d == f.dist[c] + 1
  {
    NearerIffNew(g, f, start, c, next, distances, previous);
    d := distances[pos.y, pos.x] + 1;
    nearer := distances[next.y, next.x] > d;
  }

  /** The first waiting cell is nearest. */
  ghost predicate FirstNearest(f: Found, w: seq<nat>) {
    Positions(f, w) && w != [] && forall i :: 0 <= i < |w| ==> f.dist[w[0]] <= f.dist[w[i]]
  }

  /** The queue of the search is sorted, so `dequeue` takes its first entry. */
  lemma FirstIsLeast(f: Found, w: seq<nat>)
    requires FirstNearest(f, w)
    ensures MinIndex(Entries(f, w), |w|) == 0
  {
    var e := Entries(f, w);
    var m := MinIndex(e, |e|);
    assert e[m].priority == f.dist[w[m]] && e[0].priority == f.dist[w[0]];
  }

  lemma RemainingIsRest(f: Found, w: seq<nat>)
    requires Positions(f, w) && w != []
    ensures Positions(f, Rest(w, false)) && Remaining(Entries(f, w), 0) == Entries(f, Rest(w, false))
  {
  }

  /** The first entry of the queue, and what is left of it. */
  method TakeFirst(queue: array<PriorityNode>, front: nat, rear: nat, ghost f: Found, ghost w: seq<nat>)
    returns (node: PriorityNode, front': nat)
    requires FirstNearest(f, w) && Waiting(f, w, queue, front, rear)
    modifies queue
    ensures node.position == f.q[w[0]] && front' == front + 1
    ensures Waiting(f, Rest(w, false), queue, front', rear)
  {
    FirstIsLeast(f, w);
    RemainingIsRest(f, w);
    node, front' := Dequeue(queue, front, rear);
  }

  /** The four moves. */
  method RelaxAll(g: Grid, pos: Point, distances: array2<int>, previous: array2<Point>, queue: array<PriorityNode>,
                  ghost front: nat, rear: nat, ghost s: Search, ghost start: Point)
    returns (rear': nat, ghost s': Search)
    requires Ok(g, s, start) && s.w != [] && s.f.q[s.w[0]] == pos
    requires Stored(s.f, start, distances, previous) && Waiting(s.f, Rest(s.w, false), queue, front, rear)
    modifies distances, previous, queue
    ensures s' == After(g, s, false) && State(g, s', start, distances, previous, queue, front, rear')
  {
    ghost var c := s.w[0];
    ghost var w := Rest(s.w, false);
    ghost var f := s.f;
    rear' := rear;
    var moves := Moves(pos);
    var i := 0;
    UptoNext(w, |f.q|, |f.q|);
    while i < 4
      invariant 0 <= i <= 4 && f == Expanded(g, s.f, c, i) && f.q[c] == pos
      invariant Growing(g, f, start, c) && Stored(f, start, distances, previous)
      invariant Waiting(f, w + Upto(|s.f.q|, |f.q|), queue, front, rear')
    {
      TryKeeps(g, f, start, c, moves[i]);
      rear', f := Relax(g, moves[i], pos, distances, previous, queue, front, rear', f, w, |s.f.q|, start, c);
      i := i + 1;
    }
    s' := Search(f, w + Upto(|s.f.q|, |f.q|));
    AfterKeeps(g, s, start, false);
  }

  /** Backtracking from the target. */
  method BackToStart(g: Grid, start: Point, target: Point, distances: array2<int>, previous: array2<Point>, ghost f: Found, ghost c: nat)
    returns (pos: Point)
    requires FoundShape(f, start) && Tree(g, f, start) && Stored(f, start, distances, previous)
    requires 0 < c < |f.q| && f.q[c] == target
    ensures pos == f.q[FirstStep(f, c)]
  {
    pos := target;
    ghost var k := c;
    while previous[pos.y, pos.x] != start
      invariant 0 < k < |f.q| && f.q[k] == pos && FirstStep(f, k) == FirstStep(f, c)
      decreases k
    {
      pos := previous[pos.y, pos.x];
      k := f.from[k];
    }
    assert f.q[f.from[k]] == f.q[0];
  }

  /** The search and its arrays between two rounds. */
  ghost predicate State(g: Grid, s: Search, start: Point, distances: array2<int>, previous: array2<Point>,
                        queue: array<PriorityNode>, front: nat, rear: nat)
    reads distances, previous, queue
  {
    Ok(g, s, start) && Stored(s.f, start, distances, previous) && Waiting(s.f, s.w, queue, front, rear)
  }

  method Begin(g: Grid, start: Point)
    returns (distances: array2<int>, previous: array2<Point>, queue: array<PriorityNode>, rear: nat)
    requires InMap(start)
    ensures fresh(distances) && fresh(previous) && fresh(queue)
    ensures State(g, Initial(start), start, distances, previous, queue, 0, rear)
  {
    distances := new int[MAP_HEIGHT, MAP_WIDTH]((_, _) => INFINITY);
    previous := new Point[MAP_HEIGHT, MAP_WIDTH]((_, _) => Point(WORD - 1, WORD - 1));
    queue := new PriorityNode[CELLS](_ => PriorityNode(start, 0));
    distances[start.y, start.x] := 0;
    rear := Enqueue(queue, 0, start, 0);
    InitialOk(g, start);
    assert queue[0..rear] == [queue[0]];
  }

  /** The direction found when the first entry of the queue is the target. */
  ghost predicate Arrived(s: Search, start: Point, target: Point, dir: Direction) {
    && Columns(s.f) && s.w != [] && 0 < s.w[0] < |s.f.q| && (forall i :: 0 < i < |s.f.q| ==> s.f.from[i] < i)
    && s.f.q[s.w[0]] == target && dir == DetermineDirection(start, s.f.q[FirstStep(s.f, s.w[0])])
  }

  ghost predicate Follows(g: Grid, s: Search, r: Search, target: Point) {
    Columns(s.f) && s.w != [] && s.w[0] < |s.f.q| && s.f.q[s.w[0]] != target && r == After(g, s, false)
  }

  method Arrive(g: Grid, start: Point, target: Point, distances: array2<int>, previous: array2<Point>, ghost s: Search)
    returns (dir: Direction)
    requires FoundShape(s.f, start) && Tree(g, s.f, start) && Stored(s.f, start, distances, previous)
    requires s.w != [] && 0 < s.w[0] < |s.f.q| && s.f.q[s.w[0]] == target
    ensures Arrived(s, start, target, dir)
  {
    var pos := BackToStart(g, start, target, distances, previous, s.f, s.w[0]);
    dir := DetermineDirection(start, pos);
  }

  /** The search with its first entry taken off the queue. */
  ghost predicate Taken(g: Grid, s: Search, start: Point, distances: array2<int>, previous: array2<Point>,
                        queue: array<PriorityNode>, front: nat, rear: nat)
    reads distances, previous, queue
  {
    && Ok(g, s, start) && Stored(s.f, start, distances, previous)
    && s.w != [] && Waiting(s.f, Rest(s.w, false), queue, front, rear)
  }

  /** The target is reached, or its free neighbours are looked at. */
  method Proceed(g: Grid, start: Point, target: Point, pos: Point, distances: array2<int>, previous: array2<Point>,
                 queue: array<PriorityNode>, ghost front: nat, rear: nat, ghost s: Search)
    returns (answer: Option<Direction>, rear': nat, ghost s': Search)
    requires start != target && Taken(g, s, start, distances, previous, queue, front, rear) && pos == s.f.q[s.w[0]]
    modifies distances, previous, queue
    ensures answer.Some? ==> Arrived(s, start, target, answer.value)
    ensures answer.None? ==> Follows(g, s, s', target) && State(g, s', start, distances, previous, queue, front, rear')
  {
    rear', s' := rear, s;
    if pos == target {
      var dir := Arrive(g, start, target, distances, previous, s);
      answer := Some(dir);
    } else {
      rear', s' := RelaxAll(g, pos, distances, previous, queue, front, rear, s, start);
      answer := None;
    }
  }

  /** One round. */
  method Round(g: Grid, start: Point, target: Point, distances: array2<int>, previous: array2<Point>,
               queue: array<PriorityNode>, front: nat, rear: nat, ghost s: Search)
    returns (answer: Option<Direction>, front': nat, rear': nat, ghost s': Search)
    requires start != target && front < rear && State(g, s, start, distances, previous, queue, front, rear)
    modifies distances, previous, queue
    ensures front' == front + 1
    ensures answer.Some? ==> Arrived(s, start, target, answer.value)
    ensures answer.None? ==> Follows(g, s, s', target) && State(g, s', start, distances, previous, queue, front', rear')
  {
    var node;
    node, front' := TakeFirst(queue, front, rear, s.f, s.w);
    answer, rear', s' := Proceed(g, start, target, node.position, distances, previous, queue, front', rear, s);
  }

  /** The states of a search, up to `s`. */
  ghost predicate Trail(g: Grid, t: seq<Search>, s: Search, target: Point) {
    t != [] && t[|t| - 1] == s &&
    (|t| == 1 || (Trail(g, t[..|t| - 1], t[|t| - 2], target) && Follows(g, t[|t| - 2], s, target)))
  }

  lemma TrailGrows(g: Grid, t: seq<Search>, s: Search, r: Search, target: Point)
    requires Trail(g, t, s, target) && Follows(g, s, r, target)
    ensures Trail(g, t + [r], r, target) && (t + [r])[0] == t[0]
  {
    assert (t + [r])[..|t|] == t;
  }

  /** The search is over with the answer `dir`. */
  ghost predicate Ended(s: Search, start: Point, target: Point, dir: Direction) {
    Arrived(s, start, target, dir) || (s.w == [] && dir == NONE)
  }

  lemma RanEmpty(g: Grid, s: Search, start: Point, target: Point, queue: array<PriorityNode>, front: nat, rear: nat)
    requires Ok(g, s, start) && Waiting(s.f, s.w, queue, front, rear) && front >= rear
    ensures Ended(s, start, target, NONE)
  {
  }

  /** The outer loop. */
  method Rounds(g: Grid, start: Point, target: Point, distances: array2<int>, previous: array2<Point>,
                queue: array<PriorityNode>, last: nat, ghost s0: Search)
    returns (dir: Direction, ghost t: seq<Search>, ghost s: Search)
    requires start != target && State(g, s0, start, distances, previous, queue, 0, last)
    modifies distances, previous, queue
    ensures Trail(g, t, s, target) && t[0] == s0 && Ended(s, start, target, dir)
  {
    var front: nat, rear := 0, last;
    s, t := s0, [s0];
    while front < rear
      invariant State(g, s, start, distances, previous, queue, front, rear) && front <= CELLS
      invariant Trail(g, t, s, target) && t[0] == s0
      decreases CELLS - front
    {
      var answer;
      ghost var s';
      answer, front, rear, s' := Round(g, start, target, distances, previous, queue, front, rear, s);
      if answer.Some? {
        return answer.value, t, s;
      }
      TrailGrows(g, t, s, s', target);
      s, t := s', t + [s'];
    }
    RanEmpty(g, s, start, target, queue, front, rear);
    dir := NONE;
  }

  lemma {:induction false} TrailAnswer(g: Grid, t: seq<Search>, s: Search, start: Point, target: Point)
    requires start != target && Trail(g, t, s, target) && Ok(g, t[0], start)
    ensures Ok(g, s, start) && AnswerFrom(g, t[0], start, target, false) == AnswerFrom(g, s, start, target, false)
  {
    if |t| > 1 {
      var a := t[|t| - 2];
      TrailAnswer(g, t[..|t| - 1], a, start, target);
      AfterKeeps(g, a, start, false);
      AnswerAfter(g, a, start, target);
    }
  }

  lemma EndedAnswer(g: Grid, s: Search, start: Point, target: Point, dir: Direction)
    requires start != target && Ok(g, s, start) && Ended(s, start, target, dir)
    ensures AnswerFrom(g, s, start, target, false) == dir
  {
  }

  /** `dijkstra`, as written. Every cell is enqueued at most once even so, and the
      queue of one entry per cell is enough. */
  method Dijkstra(g: Grid, start: Point, target: Point) returns (dir: Direction)
    requires InMap(start) && start != target
    ensures dir == Answer(g, start, target, false)
  {
    var distances, previous, queue, rear := Begin(g, start);
    ghost var t, s;
    dir, t, s := Rounds(g, start, target, distances, previous, queue, rear, Initial(start));
    InitialOk(g, start);
    TrailAnswer(g, t, s, start, target);
    EndedAnswer(g, s, start, target, dir);
  }
}

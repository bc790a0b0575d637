/** The priority queue of zeos/pacman.c: an array between two indices, searched for
    its least entry. */
module PriorityQueue {
  import opened GridMap

  datatype PriorityNode = PriorityNode(position: Point, priority: int)

  /** `enqueue` */
  method Enqueue(queue: array<PriorityNode>, rear: nat, position: Point, priority: int) returns (rear': nat)
    requires rear < queue.Length
    modifies queue
    ensures rear' == rear + 1 && queue[rear] == PriorityNode(position, priority)
    ensures forall k :: 0 <= k < queue.Length && k != rear ==> queue[k] == old(queue[k])
  {
    queue[rear] := PriorityNode(position, priority);
    rear' := rear + 1;
  }

  /** Position of the first least priority among the first `n`. */
  function MinIndex(w: seq<PriorityNode>, n: nat): (m: nat)
    requires 0 < n <= |w|
    ensures m < n && (forall i :: 0 <= i < n ==> w[m].priority <= w[i].priority)
    ensures forall i :: 0 <= i < m ==> w[m].priority < w[i].priority
  {
    if n == 1 then 0
    else
      var m := MinIndex(w, n - 1);
      if w[n - 1].priority < w[m].priority then n - 1 else m
  }

  /** Everything behind position `m` moves one place forward; the last entry also
      stays in its place. */
  function Shifted(w: seq<PriorityNode>, m: nat): (r: seq<PriorityNode>)
    requires m < |w|
    ensures |r| == |w| && forall k :: 0 <= k < |w| ==> r[k] == if m <= k < |w| - 1 then w[k + 1] else w[k]
  {
    seq(|w|, k requires 0 <= k < |w| => if m <= k < |w| - 1 then w[k + 1] else w[k])
  }

  /** What stays queued after `dequeue` takes the entry at position `m`: the front
      moves past the first of the shifted entries. */
  function Remaining(w: seq<PriorityNode>, m: nat): seq<PriorityNode>
    requires m < |w|
  {
    Shifted(w, m)[1..]
  }

  /** The first loop of `dequeue`. */
  method FindMin(queue: array<PriorityNode>, front: nat, rear: nat) returns (minIndex: nat)
    requires front < rear <= queue.Length
    ensures front <= minIndex < rear && minIndex - front == MinIndex(queue[front..rear], |queue[front..rear]|)
  {
    ghost var w := queue[front..rear];
    minIndex := front;
    var i := front + 1;
    while i < rear
      invariant front < i <= rear && front <= minIndex < i
      invariant minIndex - front == MinIndex(w, i - front)
    {
      if queue[i].priority < queue[minIndex].priority {
        minIndex := i;
      }
      i := i + 1;
    }
  }

  /** The second loop of `dequeue`. */
  method ShiftDown(queue: array<PriorityNode>, ghost front: nat, minIndex: nat, rear: nat)
    requires front <= minIndex < rear <= queue.Length
    modifies queue
    ensures queue[front..rear] == Shifted(old(queue[front..rear]), minIndex - front)
    ensures forall k :: 0 <= k < queue.Length && !(front <= k < rear) ==> queue[k] == old(queue[k])
  {
    ghost var all := queue[..];
    ghost var w := queue[front..rear];
    var i := minIndex;
    while i < rear - 1
      invariant minIndex <= i <= rear - 1
      invariant forall k :: minIndex <= k < i ==> queue[k] == all[k + 1]
      invariant forall k :: 0 <= k < queue.Length && !(minIndex <= k < i) ==> queue[k] == all[k]
    {
      queue[i] := queue[i + 1];
      i := i + 1;
    }
    ghost var now := queue[front..rear];
    ghost var s := Shifted(w, minIndex - front);
    forall j | 0 <= j < rear - front
      ensures now[j] == s[j]
    {
      assert now[j] == queue[front + j];
      assert w[j] == all[front + j] && (j + 1 < |w| ==> w[j + 1] == all[front + j + 1]);
    }
  }

  lemma SliceTail(s: seq<PriorityNode>, a: nat, b: nat)
    requires a < b <= |s|
    ensures s[a + 1..b] == s[a..b][1..]
  {
  }

  /** `dequeue` */
  method Dequeue(queue: array<PriorityNode>, front: nat, rear: nat) returns (node: PriorityNode, front': nat)
    requires front < rear <= queue.Length
    modifies queue
    ensures var w := old(queue[front..rear]);
            var m := MinIndex(w, |w|);
            node == w[m] && front' == front + 1 && queue[front'..rear] == Remaining(w, m)
    ensures forall k :: 0 <= k < queue.Length && !(front <= k < rear) ==> queue[k] == old(queue[k])
  {
    ghost var w := queue[front..rear];
    var minIndex := FindMin(queue, front, rear);
    node := queue[minIndex];
    assert node == w[minIndex - front];
    ShiftDown(queue, front, minIndex, rear);
    front' := front + 1;
    SliceTail(queue[..], front, rear);
  }

  lemma BagOfThree(a: seq<PriorityNode>, x: PriorityNode, b: seq<PriorityNode>)
    ensures multiset(a + ([x] + b)) == multiset(a) + multiset{x} + multiset(b)
  {
  }

  /** As bags: the entry taken goes, the last entry is doubled. */
  lemma ShiftedBag(w: seq<PriorityNode>, m: nat)
    requires m < |w|
    ensures multiset(Shifted(w, m)) == multiset(w) - multiset{w[m]} + multiset{w[|w| - 1]}
  {
    var a, b, last := w[..m], w[m + 1..], w[|w| - 1];
    assert w == a + ([w[m]] + b);
    BagOfThree(a, w[m], b);
    ShiftedParts(w, m);
    BagOfParts(a, b, last);
  }

  lemma ShiftedParts(w: seq<PriorityNode>, m: nat)
    requires m < |w|
    ensures Shifted(w, m) == w[..m] + (w[m + 1..] + [w[|w| - 1]])
  {
  }

  lemma BagOfParts(a: seq<PriorityNode>, b: seq<PriorityNode>, x: PriorityNode)
    ensures multiset(a + (b + [x])) == multiset(a) + multiset(b) + multiset{x}
  {
  }

  /** What stays queued is everything but the node returned, exactly when the entry
      the front moves past equals the last one: always with one or two entries, and
      beyond that only if the first survivor and the last entry are the same. */
  lemma DequeueExactIff(w: seq<PriorityNode>, m: nat)
    requires m < |w|
    ensures multiset(Remaining(w, m)) == multiset(w) - multiset{w[m]} <==>
            |w| == 1 || w[if m == 0 then 1 else 0] == w[|w| - 1]
  {
    ShiftedBag(w, m);
    BagTail(Shifted(w, m), multiset(w) - multiset{w[m]}, w[|w| - 1]);
  }

  lemma BagTail(s: seq<PriorityNode>, rest: multiset<PriorityNode>, last: PriorityNode)
    requires s != [] && multiset(s) == rest + multiset{last}
    ensures multiset(s[1..]) == rest <==> s[0] == last
  {
    assert s == [s[0]] + s[1..];
    assert multiset(s) == multiset{s[0]} + multiset(s[1..]);
    if s[0] == last {
      assert multiset(s) - multiset{last} == rest;
      assert multiset(s) - multiset{last} == multiset(s[1..]);
    } else {
      assert multiset(s)[last] == multiset(s[1..])[last] == rest[last] + 1;
    }
  }

  /** With three different entries, nearest first, the second is lost and the third
      is there twice. */
  lemma DequeueLoses(a: PriorityNode, b: PriorityNode, c: PriorityNode)
    requires a.priority < b.priority <= c.priority
    ensures MinIndex([a, b, c], 3) == 0 && Remaining([a, b, c], 0) == [c, c]
  {
    assert Remaining([a, b, c], 0) == [c, c];
  }
}

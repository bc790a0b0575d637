/** zeos/list.c: intrusive circular doubly linked lists, at pointer level. */
module Ring {
  import opened Lists

  /** `struct list_head`. `owner` stands for the address of the structure it is
      embedded in, which `list_head_to_task_struct` recovers by masking. */
  class ListHead {
    var next: ListHead?
    var prev: ListHead?
    const owner: nat

    /** Zero-initialised static storage. */
    constructor (owner: nat)
      ensures next == null && prev == null && this.owner == owner
    {
      next, prev, this.owner := null, null, owner;
    }

    /** `INIT_LIST_HEAD` */
    method Init()
      modifies this
      ensures IsRing(this, [])
    {
      next := this;
      prev := this;
    }
  }

  function After(i: nat, n: nat): nat { if i + 1 == n then 0 else i + 1 }

  /** Following `next` goes once around `c` and `prev` goes back. */
  ghost predicate Cycle(c: seq<ListHead>)
    reads c
  {
    && |c| > 0 && Distinct(c)
    && (forall i :: 0 <= i < |c| ==> c[i].next == c[After(i, |c|)])
    && (forall i :: 0 <= i < |c| ==> c[After(i, |c|)].prev == c[i])
  }

  /** The list anchored at `head` holds the entries `s`, in order. */
  ghost predicate IsRing(head: ListHead, s: seq<ListHead>)
    reads head, s
  {
    Cycle([head] + s)
  }

  lemma InsertedDistinct(c: seq<ListHead>, k: nat, entry: ListHead)
    requires Distinct(c) && entry !in c && k < |c|
    ensures Distinct(Inserted(c, k, entry))
  {
  }

  /** `__list_add`, between two neighbours of a cycle. */
  method AddBetween(entry: ListHead, prev: ListHead, next: ListHead, ghost c: seq<ListHead>, ghost k: nat)
    requires Cycle(c) && entry !in c && k < |c| && prev == c[k] && next == c[After(k, |c|)]
    modifies entry, prev, next
    ensures Cycle(Inserted(c, k, entry))
  {
    InsertedDistinct(c, k, entry);
    next.prev := entry;
    entry.next := next;
    entry.prev := prev;
    prev.next := entry;
    ghost var r := Inserted(c, k, entry);
    forall i | 0 <= i < |r|
      ensures r[i].next == r[After(i, |r|)] && r[After(i, |r|)].prev == r[i]
    {
      if i < k {
        assert r[i] == c[i] && c[i] != c[k];
        assert c[After(i, |c|)] == c[i + 1];
      } else if i > k + 1 {
        assert r[i] == c[i - 1];
        assert c[i - 1].next == c[After(i - 1, |c|)];
      }
    }
  }

  /** `__list_del`, around the entry at position `k`. */
  method RemoveBetween(prev: ListHead, next: ListHead, ghost c: seq<ListHead>, ghost k: nat)
    requires Cycle(c) && 0 < k < |c| && prev == c[k - 1] && next == c[After(k, |c|)]
    modifies prev, next
    ensures Cycle(Removed(c, k))
  {
    next.prev := prev;
    prev.next := next;
    ghost var r := Removed(c, k);
    forall i | 0 <= i < |r|
      ensures r[i].next == r[After(i, |r|)] && r[After(i, |r|)].prev == r[i]
    {
      if i < k - 1 {
        assert c[i].next == c[After(i, |c|)] && c[After(i, |c|)].prev == c[i];
      } else if i >= k {
        assert c[i + 1].next == c[After(i + 1, |c|)] && c[After(i + 1, |c|)].prev == c[i + 1];
      }
    }
  }

  /** `list_add`: prepend. */
  method Add(entry: ListHead, head: ListHead, ghost s: seq<ListHead>)
    requires IsRing(head, s) && entry !in [head] + s
    modifies entry, head, s
    ensures IsRing(head, [entry] + s)
  {
    ghost var c := [head] + s;
    assert c[0].next == c[After(0, |c|)];
    AddBetween(entry, head, head.next, c, 0);
    assert Inserted(c, 0, entry) == [head] + ([entry] + s);
  }

  /** `list_add_tail`: append. */
  method AddTail(entry: ListHead, head: ListHead, ghost s: seq<ListHead>)
    requires IsRing(head, s) && entry !in [head] + s
    modifies entry, head, s
    ensures IsRing(head, s + [entry])
  {
    ghost var c := [head] + s;
    assert c[After(|c| - 1, |c|)].prev == c[|c| - 1];
    AddBetween(entry, head.prev, head, c, |c| - 1);
    assert Inserted(c, |c| - 1, entry) == [head] + (s + [entry]);
  }

  /** `list_add` or `list_add_tail`. */
  method AddEither(entry: ListHead, head: ListHead, front: bool, ghost s: seq<ListHead>)
    requires IsRing(head, s) && entry !in [head] + s
    modifies entry, head, s
    ensures IsRing(head, if front then [entry] + s else s + [entry])
  {
    if front {
      Add(entry, head, s);
    } else {
      AddTail(entry, head, s);
    }
  }

  lemma Neighbours(c: seq<ListHead>, k: nat)
    requires Cycle(c) && 0 < k < |c|
    ensures c[k].prev == c[k - 1] && c[k].next == c[After(k, |c|)]
  {
    assert c[After(k - 1, |c|)].prev == c[k - 1];
  }

  lemma RemovedLacks(c: seq<ListHead>, k: nat)
    requires Distinct(c) && k < |c|
    ensures c[k] !in Removed(c, k)
  {
  }

  /** `list_del`: remove, and leave the entry unlinked. */
  method Del(entry: ListHead, ghost head: ListHead, ghost s: seq<ListHead>, ghost k: nat)
    requires IsRing(head, s) && k < |s| && entry == s[k]
    modifies head, s
    ensures IsRing(head, Removed(s, k))
    ensures entry.next == null && entry.prev == null
  {
    ghost var c := [head] + s;
    assert c[k + 1] == entry;
    Neighbours(c, k + 1);
    RemovedLacks(c, k + 1);
    RemovedTail(head, s, k);
    RemoveBetween(entry.prev, entry.next, c, k + 1);
    Poison(entry, Removed(c, k + 1));
  }

  lemma RemovedTail(head: ListHead, s: seq<ListHead>, k: nat)
    requires k < |s|
    ensures Removed([head] + s, k + 1) == [head] + Removed(s, k)
  {
  }

  /** The end of `list_del`. */
  method Poison(entry: ListHead, ghost c: seq<ListHead>)
    requires Cycle(c) && entry !in c
    modifies entry
    ensures Cycle(c) && entry.next == null && entry.prev == null
  {
    entry.next := null;
    entry.prev := null;
  }

  /** `list_empty` */
  method IsEmpty(head: ListHead, ghost s: seq<ListHead>) returns (b: bool)
    requires IsRing(head, s)
    ensures b <==> s == []
  {
    ghost var c := [head] + s;
    assert c[0].next == c[After(0, |c|)];
    b := head.next == head;
  }

  /** `list_first` */
  method First(head: ListHead, ghost s: seq<ListHead>) returns (e: ListHead)
    requires IsRing(head, s) && s != []
    ensures e == s[0]
  {
    ghost var c := [head] + s;
    assert c[0].next == c[After(0, |c|)];
    e := head.next;
  }

  /** `list_size`: the walk ends, and has counted every entry. */
  method Size(head: ListHead?, ghost s: seq<ListHead>) returns (n: nat)
    requires head != null ==> IsRing(head, s)
    ensures n == if head == null then 0 else |s|
  {
    n := 0;
    if head == null {
      return;
    }
    var empty := IsEmpty(head, s);
    if empty {
      return;
    }
    ghost var c := [head] + s;
    assert c[0].next == c[After(0, |c|)];
    var pos := head.next;
    while pos != head
      invariant 0 <= n <= |s| && pos == c[After(n, |c|)]
      decreases |s| - n
    {
      n := n + 1;
      assert c[n].next == c[After(n, |c|)];
      pos := pos.next;
    }
  }

  // ---- rings as sequences ------------------------------------------------------------

  /** The pointers determine the list. */
  lemma {:induction false} RingUnique(head: ListHead, s: seq<ListHead>, t: seq<ListHead>)
    requires IsRing(head, s) && IsRing(head, t)
    ensures s == t
    decreases |s| > |t|
  {
    if |s| <= |t| {
      PrefixAgrees(head, s, t, |s|);
      var c, d := [head] + s, [head] + t;
      assert c[|s|] == d[|s|] by {
        if s != [] { assert s[..|s|][|s| - 1] == t[..|s|][|s| - 1]; }
      }
      assert c[|s|].next == c[After(|s|, |c|)] && d[|s|].next == d[After(|s|, |d|)];
      assert After(|s|, |c|) == 0 && c[0] == head == d[0];
      assert |s| == |t|;
      assert s == s[..|s|] && t == t[..|t|];
    } else {
      RingUnique(head, t, s);
    }
  }

  lemma {:induction false} PrefixAgrees(head: ListHead, s: seq<ListHead>, t: seq<ListHead>, k: nat)
    requires IsRing(head, s) && IsRing(head, t) && k <= |s| <= |t|
    ensures s[..k] == t[..k]
  {
    if k > 0 {
      PrefixAgrees(head, s, t, k - 1);
      var c, d := [head] + s, [head] + t;
      assert c[k - 1] == d[k - 1] by {
        if k > 1 { assert s[..k - 1][k - 2] == t[..k - 1][k - 2]; }
      }
      assert c[k - 1].next == c[After(k - 1, |c|)] && d[k - 1].next == d[After(k - 1, |d|)];
    }
  }

  /** Seen from one of its entries a ring is the ring of all the others and the
      head: why `numbros` may start from the process itself. */
  lemma RingRotates(head: ListHead, s: seq<ListHead>, k: nat)
    requires IsRing(head, s) && k < |s|
    ensures IsRing(s[k], s[k + 1..] + [head] + s[..k])
  {
    var c := [head] + s;
    var d := [s[k]] + (s[k + 1..] + [head] + s[..k]);
    forall i | 0 <= i < |c|
      ensures d[i] == c[Turned(i, k + 1, |c|)]
    {
    }
    CycleTurns(c, d, k + 1);
  }

  function Turned(i: nat, k: nat, n: nat): nat { if i + k < n then i + k else i + k - n }

  lemma CycleTurns(c: seq<ListHead>, d: seq<ListHead>, k: nat)
    requires Cycle(c) && |d| == |c| && k < |c| && (forall i :: 0 <= i < |c| ==> d[i] == c[Turned(i, k, |c|)])
    ensures Cycle(d)
  {
    var n := |c|;
    assert Distinct(d);
    forall i | 0 <= i < n
      ensures d[i].next == d[After(i, n)] && d[After(i, n)].prev == d[i]
    {
      var j := Turned(i, k, n);
      assert c[j].next == c[After(j, n)] && c[After(j, n)].prev == c[j];
      assert After(j, n) == Turned(After(i, n), k, n);
    }
  }
}

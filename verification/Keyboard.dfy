/** zeos/circular.c, the keyboard interrupt and sys_read: a bounded FIFO. */
module Keyboard {
  import opened Common

  const MAX_BUFF_SIZE := 32

  /** What is waiting after one more key: a full buffer drops it. */
  function Accept(q: string, c: char): string {
    if |q| == MAX_BUFF_SIZE - 1 then q else q + [c]
  }

  type int32 = x: int | -0x8000_0000 <= x < 0x8000_0000

  /** `num_chars < maxchars` compares unsigned: a negative count asks for everything. */
  function Limit(maxchars: int32): (n: int)
    ensures n == if 0 <= maxchars then maxchars else maxchars + 0x1_0000_0000
  {
    maxchars % WORD
  }

  function Min(a: int, b: int): int { if a < b then a else b }

  class CircularBuffer {
    const keys: array<char>
    var writeIdx: nat
    var readIdx: nat

    ghost predicate Valid()
      reads this
    {
      keys.Length == MAX_BUFF_SIZE && writeIdx < MAX_BUFF_SIZE && readIdx < MAX_BUFF_SIZE
    }

    /** The characters waiting, oldest first. */
    ghost function Waiting(): (q: string)
      requires Valid()
      reads this, keys
      ensures |q| < MAX_BUFF_SIZE
    {
      if readIdx <= writeIdx then keys[readIdx..writeIdx] else keys[readIdx..] + keys[..writeIdx]
    }

    /** `init` */
    constructor ()
      ensures Valid() && Waiting() == ""
    {
      keys := new char[MAX_BUFF_SIZE](_ => '\0');
      writeIdx, readIdx := 0, 0;
    }

    /** `is_full` */
    predicate IsFull()
      requires Valid()
      reads this, keys
      ensures IsFull() <==> |Waiting()| == MAX_BUFF_SIZE - 1
    {
      (writeIdx + 1) % MAX_BUFF_SIZE == readIdx
    }

    /** `is_empty` */
    predicate IsEmpty()
      requires Valid()
      reads this, keys
      ensures IsEmpty() <==> Waiting() == ""
    {
      readIdx == writeIdx
    }

    /** `put` */
    method Put(item: char) returns (ok: bool)
      requires Valid()
      modifies this, keys
      ensures Valid() && Waiting() == Accept(old(Waiting()), item)
      ensures ok <==> |old(Waiting())| < 31
      ensures Waiting() == if ok then old(Waiting()) + [item] else old(Waiting())
    {
      ghost var q := Waiting();
      if IsFull() {
        return false;
      }
      keys[writeIdx] := item;
      writeIdx := (writeIdx + 1) % MAX_BUFF_SIZE;
      assert Waiting() == q + [item];
      ok := true;
    }

    /** `get` */
    method Get() returns (ok: bool, item: char)
      requires Valid()
      modifies this
      ensures Valid() && (ok <==> old(Waiting()) != "")
      ensures ok ==> [item] + Waiting() == old(Waiting())
      ensures !ok ==> Waiting() == ""
    {
      if IsEmpty() {
        return false, '\0';
      }
      ghost var q := Waiting();
      item := keys[readIdx];
      assert item == q[0];
      readIdx := (readIdx + 1) % MAX_BUFF_SIZE;
      assert Waiting() == q[1..];
      ok := true;
    }

    /** The loop of `sys_read`: it never fills the 512-byte kernel buffer, so one
        copy to the caller at the end delivers everything. */
    method Read(maxchars: int32, b: array<char>) returns (n: nat)
      requires Valid() && b != keys && (0 <= maxchars <= b.Length || 31 <= b.Length)
      modifies this, b
      ensures Valid() && n == if 0 <= maxchars < |old(Waiting())| then maxchars else |old(Waiting())|
      ensures b[..n] == old(Waiting())[..n] && b[n..] == old(b[n..])
      ensures Waiting() == old(Waiting())[n..]
    {
      ghost var q := Waiting();
      n := 0;
      var limit := Limit(maxchars);
      var more := !IsEmpty();
      while more && n < limit
        invariant Valid() && 0 <= n <= |q| && n <= limit
        invariant Waiting() == q[n..] && (more <==> n < |q|)
        invariant b[..n] == q[..n] && forall k :: n <= k < b.Length ==> b[k] == old(b[k])
        decreases |q| - n
      {
        more := ReadOne(b, n, q);
        assert q[..n] + [q[n]] == q[..n + 1];
        n := n + 1;
      }
    }

    /** One character more, and whether there are others. */
    method ReadOne(b: array<char>, n: nat, ghost q: string) returns (more: bool)
      requires Valid() && b != keys && n < |q| && n < b.Length && Waiting() == q[n..]
      modifies this, b
      ensures Valid() && Waiting() == q[n + 1..] && (more <==> n + 1 < |q|)
      ensures b[..n + 1] == old(b[..n]) + [q[n]] && forall k :: n < k < b.Length ==> b[k] == old(b[k])
    {
      var ok, c := Get();
      ghost var rest := Waiting();
      TakeOne(q, n, c, rest);
      b[n] := c;
      assert Waiting() == rest;
      more := !IsEmpty();
    }
  }

  lemma TakeOne(q: string, n: nat, c: char, rest: string)
    requires n < |q| && [c] + rest == q[n..]
    ensures c == q[n] && rest == q[n + 1..] && q[..n] + [c] == q[..n + 1]
    ensures rest == "" <==> n + 1 == |q|
  {
    assert q[n..][1..] == q[n + 1..];
    assert ([c] + rest)[1..] == rest;
  }

  // ---- any interleaving of keys and reads ------------------------------------------------

  datatype Event = Key(c: char) | Fetch(maxchars: int32)

  /** What a run of keys and reads has seen: the characters `put` accepted, those
      reads returned, and those still waiting. */
  datatype History = History(accepted: string, returned: string, waiting: string)

  function After(h: History, e: Event): (r: History)
    requires |h.waiting| < MAX_BUFF_SIZE
    ensures |r.waiting| < MAX_BUFF_SIZE
  {
    match e
    case Key(c) =>
      var q := Accept(h.waiting, c);
      h.(waiting := q, accepted := if q == h.waiting then h.accepted else h.accepted + [c])
    case Fetch(maxchars) =>
      var n := Min(Limit(maxchars), |h.waiting|);
      h.(returned := h.returned + h.waiting[..n], waiting := h.waiting[n..])
  }

  /** A key is accepted exactly while fewer than 31 characters wait; a full buffer
      drops it. */
  lemma KeyTaken(h: History, c: char)
    requires |h.waiting| < MAX_BUFF_SIZE
    ensures After(h, Key(c)) ==
              if |h.waiting| < 31 then History(h.accepted + [c], h.returned, h.waiting + [c]) else h
  {
  }

  /** A read delivers exactly the smaller of what it asks for and what waits, oldest
      first, and a read with a negative count everything. */
  lemma FetchDelivers(h: History, maxchars: int32)
    requires |h.waiting| < MAX_BUFF_SIZE
    ensures var n := if 0 <= maxchars < |h.waiting| then maxchars else |h.waiting|;
            After(h, Fetch(maxchars)) == History(h.accepted, h.returned + h.waiting[..n], h.waiting[n..])
  {
  }

  /** An event on the real buffer does to it what the history says. */
  method Handle(b: CircularBuffer, e: Event, out: array<char>, ghost h: History) returns (n: nat, ghost h': History)
    requires b.Valid() && out != b.keys && 31 <= out.Length && h.waiting == b.Waiting()
    modifies b, b.keys, out
    ensures b.Valid() && h' == After(h, e) && h'.waiting == b.Waiting()
    ensures n <= out.Length && h'.returned == h.returned + out[..n]
  {
    n := 0;
    h' := After(h, e);
    match e {
      case Key(c) =>
        KeyTaken(h, c);
        var ok := b.Put(c);
        assert out[..0] == "";
      case Fetch(maxchars) =>
        FetchDelivers(h, maxchars);
        n := b.Read(maxchars, out);
    }
  }

  function AfterAll(h: History, es: seq<Event>): (r: History)
    requires |h.waiting| < MAX_BUFF_SIZE
    ensures |r.waiting| < MAX_BUFF_SIZE
    decreases es
  {
    if es == [] then h else AfterAll(After(h, es[0]), es[1..])
  }

  /** First in, first out, over every interleaving: what has been accepted is what
      reads have returned, in order, followed by what still waits; at most 31
      characters wait. */
  lemma {:induction false} FirstInFirstOut(h: History, es: seq<Event>)
    requires |h.waiting| < MAX_BUFF_SIZE && h.accepted == h.returned + h.waiting
    ensures var r := AfterAll(h, es);
            r.accepted == r.returned + r.waiting && r.returned <= r.accepted && |r.waiting| <= 31
    decreases es
  {
    if es != [] {
      var r := After(h, es[0]);
      match es[0]
      case Key(c) =>
        assert h.returned + (h.waiting + [c]) == (h.returned + h.waiting) + [c];
        FirstInFirstOut(r, es[1..]);
      case Fetch(maxchars) =>
        var n := Min(Limit(maxchars), |h.waiting|);
        assert h.waiting == h.waiting[..n] + h.waiting[n..];
        FirstInFirstOut(r, es[1..]);
    }
  }
}

/** zeos/utils.c: block copy and clear, four bytes at a time and then one. */
module Blocks {

  /** The byte at `k` once `size` bytes at `from` are copied to `to`. */
  function CopiedAt<T>(mem: seq<T>, from: nat, to: nat, size: nat, k: nat): T
    requires from + size <= |mem| && to + size <= |mem| && k < |mem|
  {
    if to <= k < to + size then mem[from + (k - to)] else mem[k]
  }

  /** Memory once `size` bytes at `from` are copied to `to`. */
  function Copied<T>(mem: seq<T>, from: nat, to: nat, size: nat): (r: seq<T>)
    requires from + size <= |mem| && to + size <= |mem|
    ensures |r| == |mem|
    ensures forall k :: 0 <= k < |mem| ==> r[k] == CopiedAt(mem, from, to, size, k)
  {
    seq(|mem|, k requires 0 <= k < |mem| => CopiedAt(mem, from, to, size, k))
  }

  /** The destination holds the source, and nothing else moved. */
  lemma CopiedBlocks<T>(mem: seq<T>, from: nat, to: nat, size: nat)
    requires from + size <= |mem| && to + size <= |mem|
    ensures var r := Copied(mem, from, to, size);
            r == mem[..to] + mem[from..from + size] + mem[to + size..]
  {
  }

  /** Where a copy is exact: the blocks do not overlap, or the destination comes
      first. The copy goes upwards. */
  predicate CopyOrder(start: nat, dest: nat, size: nat) {
    dest <= start || start + size <= dest
  }

  /** Where the next byte is read, the copy has not written yet. */
  lemma Unwritten<T>(was: seq<T>, start: nat, dest: nat, n: nat, i: nat)
    requires CopyOrder(start, dest, n + i + 1) && start + n + i < |was| && dest + n + i < |was|
    ensures Copied(was, start, dest, n)[start + n + i] == was[start + n + i]
  {
    assert Copied(was, start, dest, n)[start + n + i] == CopiedAt(was, start, dest, n, start + n + i);
  }

  /** The next byte of the copy, wherever the caller found its value. */
  lemma NextByte<T>(was: seq<T>, m: seq<T>, start: nat, dest: nat, n: nat, q: nat, v: T)
    requires start + n < |was| && q == dest + n < |was|
    requires m == Copied(was, start, dest, n) && v == was[start + n]
    ensures m[q := v] == Copied(was, start, dest, n + 1)
  {
    CopiedGrows(was, start, dest, n);
  }

  /** Four bytes read together and then written together. */
  lemma WordGrows<T>(was: seq<T>, m: seq<T>, start: nat, dest: nat, n: nat, p: nat, q: nat)
    requires CopyOrder(start, dest, n + 4) && p == start + n && q == dest + n && p + 4 <= |was| && q + 4 <= |was|
    requires m == Copied(was, start, dest, n)
    ensures m[q := m[p]][q + 1 := m[p + 1]][q + 2 := m[p + 2]][q + 3 := m[p + 3]] == Copied(was, start, dest, n + 4)
  {
    Unwritten(was, start, dest, n, 0);
    Unwritten(was, start, dest, n, 1);
    Unwritten(was, start, dest, n, 2);
    Unwritten(was, start, dest, n, 3);
    var m1 := m[q := m[p]];
    NextByte(was, m, start, dest, n, q, m[p]);
    var m2 := m1[q + 1 := m[p + 1]];
    NextByte(was, m1, start, dest, n + 1, q + 1, m[p + 1]);
    var m3 := m2[q + 2 := m[p + 2]];
    NextByte(was, m2, start, dest, n + 2, q + 2, m[p + 2]);
    NextByte(was, m3, start, dest, n + 3, q + 3, m[p + 3]);
  }

  method CopyWord<T>(mem: array<T>, p: nat, q: nat)
    requires p + 4 <= mem.Length && q + 4 <= mem.Length
    modifies mem
    ensures var m := old(mem[..]);
            mem[..] == m[q := m[p]][q + 1 := m[p + 1]][q + 2 := m[p + 2]][q + 3 := m[p + 3]]
  {
    mem[q], mem[q + 1], mem[q + 2], mem[q + 3] := mem[p], mem[p + 1], mem[p + 2], mem[p + 3];
  }

  lemma CopiedGrows<T>(was: seq<T>, start: nat, dest: nat, n: nat)
    requires start + n < |was| && dest + n < |was|
    ensures Copied(was, start, dest, n)[dest + n := was[start + n]] == Copied(was, start, dest, n + 1)
  {
  }

  method CopyByte<T>(mem: array<T>, p: nat, q: nat, ghost was: seq<T>, ghost start: nat, ghost dest: nat, ghost n: nat)
    requires CopyOrder(start, dest, n + 1) && p == start + n && q == dest + n && p < mem.Length && q < mem.Length
    requires |was| == mem.Length && mem[..] == Copied(was, start, dest, n)
    modifies mem
    ensures mem[..] == Copied(was, start, dest, n + 1)
  {
    Unwritten(was, start, dest, n, 0);
    assert mem[p] == mem[..][p];
    mem[q] := mem[p];
    CopiedGrows(was, start, dest, n);
  }

  /** `copy_data`, over the memory the two pointers point into. A negative size
      copies nothing. */
  method CopyData<T>(mem: array<T>, start: nat, dest: nat, size: int)
    requires size > 0 ==> start + size <= mem.Length && dest + size <= mem.Length && CopyOrder(start, dest, size)
    modifies mem
    ensures mem[..] == if size <= 0 then old(mem[..]) else Copied(old(mem[..]), start, dest, size)
  {
    if size <= 0 {
      return;
    }
    ghost var was := mem[..];
    var p, q, left := start, dest, size;
    while left > 4
      invariant 0 < left <= size && p == start + (size - left) && q == dest + (size - left)
      invariant mem[..] == Copied(was, start, dest, size - left)
    {
      WordGrows(was, mem[..], start, dest, size - left, p, q);
      CopyWord(mem, p, q);
      p, q, left := p + 4, q + 4, left - 4;
    }
    while left > 0
      invariant 0 <= left <= size && p == start + (size - left) && q == dest + (size - left)
      invariant mem[..] == Copied(was, start, dest, size - left)
    {
      CopyByte(mem, p, q, was, start, dest, size - left);
      p, q, left := p + 1, q + 1, left - 1;
    }
  }

  /** Memory with `size` bytes at `to` set to `v`. */
  function Filled<T>(mem: seq<T>, to: nat, size: nat, v: T): (r: seq<T>)
    requires to + size <= |mem|
    ensures |r| == |mem| && (forall k :: 0 <= k < |mem| ==> r[k] == if to <= k < to + size then v else mem[k])
  {
    seq(|mem|, k requires 0 <= k < |mem| => if to <= k < to + size then v else mem[k])
  }

  /** `zero_out` */
  method ZeroOut<T>(mem: array<T>, dest: nat, size: int, zero: T)
    requires size > 0 ==> dest + size <= mem.Length
    modifies mem
    ensures mem[..] == if size <= 0 then old(mem[..]) else Filled(old(mem[..]), dest, size, zero)
  {
    if size <= 0 {
      return;
    }
    ghost var was := mem[..];
    var q, left := dest, size;
    while left > 4
      invariant 0 < left <= size && q == dest + (size - left)
      invariant mem[..] == Filled(was, dest, size - left, zero)
    {
      mem[q], mem[q + 1], mem[q + 2], mem[q + 3] := zero, zero, zero, zero;
      q, left := q + 4, left - 4;
    }
    while left > 0
      invariant 0 <= left <= size && q == dest + (size - left)
      invariant mem[..] == Filled(was, dest, size - left, zero)
    {
      mem[q] := zero;
      q, left := q + 1, left - 1;
    }
  }
}

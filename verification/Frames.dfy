/** Physical memory as bytes and as frames: what `copy_data` and `zero_out` of a page
    do to the frames. */
module Frames {
  import opened Paging
  import opened Blocks

  const BYTES := TOTAL_PAGES * PAGE_SIZE

  /** The frames of a memory of bytes. */
  function FramesOf(mem: seq<byte>): (r: seq<Page>)
    requires |mem| == BYTES
    ensures |r| == TOTAL_PAGES && forall f :: 0 <= f < TOTAL_PAGES ==> r[f] == mem[f * PAGE_SIZE..f * PAGE_SIZE + PAGE_SIZE]
  {
    seq(TOTAL_PAGES, f requires 0 <= f < TOTAL_PAGES => mem[f * PAGE_SIZE..f * PAGE_SIZE + PAGE_SIZE])
  }

  /** Bytes of one frame are none of another. */
  lemma FramesApart(f: nat, g: nat, k: nat)
    requires f != g && g * PAGE_SIZE <= k < g * PAGE_SIZE + PAGE_SIZE
    ensures k < f * PAGE_SIZE || f * PAGE_SIZE + PAGE_SIZE <= k
  {
  }

  /** Copying the bytes of one frame over those of another copies the frame. */
  lemma CopiedFrame(mem: seq<byte>, from: nat, to: nat)
    requires |mem| == BYTES && from < TOTAL_PAGES && to < TOTAL_PAGES
    ensures FramesOf(Copied(mem, from * PAGE_SIZE, to * PAGE_SIZE, PAGE_SIZE)) == FramesOf(mem)[to := FramesOf(mem)[from]]
  {
    var r := Copied(mem, from * PAGE_SIZE, to * PAGE_SIZE, PAGE_SIZE);
    forall f | 0 <= f < TOTAL_PAGES
      ensures FramesOf(r)[f] == if f == to then FramesOf(mem)[from] else FramesOf(mem)[f]
    {
      forall k | 0 <= k < PAGE_SIZE
        ensures FramesOf(r)[f][k] == (if f == to then FramesOf(mem)[from] else FramesOf(mem)[f])[k]
      {
        assert FramesOf(r)[f][k] == r[f * PAGE_SIZE + k];
        if f != to {
          FramesApart(to, f, f * PAGE_SIZE + k);
        }
      }
    }
  }

  /** Clearing the bytes of a frame clears the frame. */
  lemma FilledFrame(mem: seq<byte>, f: nat)
    requires |mem| == BYTES && f < TOTAL_PAGES
    ensures FramesOf(Filled(mem, f * PAGE_SIZE, PAGE_SIZE, 0)) == FramesOf(mem)[f := ZeroPage()]
  {
    var r := Filled(mem, f * PAGE_SIZE, PAGE_SIZE, 0);
    forall g | 0 <= g < TOTAL_PAGES
      ensures FramesOf(r)[g] == if g == f then ZeroPage() else FramesOf(mem)[g]
    {
      forall k | 0 <= k < PAGE_SIZE
        ensures FramesOf(r)[g][k] == (if g == f then ZeroPage() else FramesOf(mem)[g])[k]
      {
        assert FramesOf(r)[g][k] == r[g * PAGE_SIZE + k];
        if g != f {
          FramesApart(f, g, g * PAGE_SIZE + k);
        }
      }
    }
  }

  /** `copy_data` of a page is the frame copy of fork and of the fault handler. */
  method CopyPageBytes(mem: array<byte>, from: nat, to: nat)
    requires mem.Length == BYTES && from < TOTAL_PAGES && to < TOTAL_PAGES
    modifies mem
    ensures FramesOf(mem[..]) == FramesOf(old(mem[..]))[to := FramesOf(old(mem[..]))[from]]
  {
    CopiedFrame(mem[..], from, to);
    CopyData(mem, from * PAGE_SIZE, to * PAGE_SIZE, PAGE_SIZE);
  }

  /** `zero_out` of a page is the clearing of `sys_shmdt`. */
  method ClearPageBytes(mem: array<byte>, f: nat)
    requires mem.Length == BYTES && f < TOTAL_PAGES
    modifies mem
    ensures FramesOf(mem[..]) == FramesOf(old(mem[..]))[f := ZeroPage()]
  {
    FilledFrame(mem[..], f);
    ZeroOut(mem, f * PAGE_SIZE, PAGE_SIZE, 0);
  }
}

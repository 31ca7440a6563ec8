/** What each call makes of the memory in use, by the sizes of blocks alone. */
module HeapCalls {
  import opened HeapLayout
  import opened HeapLaws
  import opened HeapInterrupt

  /** Extent g at the start of the free block i is given out for `need` bytes; no free block before it
      has room. */
  predicate GivenOut(bs: seq<Block>, after: seq<Block>, size: nat, need: nat, i: nat, g: Extent)
    requires i < |bs|
  {
    && !bs[i].used && g.0 == bs[i].start && g !in UsedExtents(bs, size)
    && UsedExtents(after, size) == UsedExtents(bs, size) + {g}
    && (forall k :: 0 <= k < i && !bs[k].used ==> Room(bs, size, k) < need)
    && HEADER + need <= g.1 - g.0 < HEADER + need + HEADER + MIN_SIZE
  }

  /** mem_malloc changes nothing if the request is empty or larger than the heap, or no free block has
      room; in all other cases it gives out one more extent, in the first free block that has. */
  lemma MallocEffect(bs: seq<Block>, size: nat, request: nat) returns (i: nat, g: Extent)
    requires WellFormed(bs, size) && size <= 64000 && Legal(Malloc(request), bs)
    ensures var (need, after) := (Rounded(request), Apply(Malloc(request), bs, size));
            if request == 0 || need > size || forall k :: 0 <= k < |bs| && !bs[k].used ==> Room(bs, size, k) < need
            then after == bs else i < |bs| && GivenOut(bs, after, size, need, i, g)
  {
    var need := Rounded(request);
    i, g := FirstFit(bs, size, need), (0, 0);
    RoundedCovers(request);
    forall k | 0 <= k < i && !bs[k].used ensures Room(bs, size, k) < need { assert !Fits(bs, size, k, need); }
    if request != 0 && need <= size && i < |bs| {
      assert Fits(bs, size, i, need);
      g := HeapLaws.Granted(bs, size, i, need);
      MarkLaws(bs, size, i, need);
    }
  }

  /** mem_free takes exactly the block's extent out of use. */
  lemma FreeEffect(bs: seq<Block>, size: nat, start: nat)
    requires WellFormed(bs, size) && Legal(Free(start), bs)
    ensures var (i, after) := (IndexOf(bs, start), Apply(Free(start), bs, size));
            && WellFormed(after, size) && (start, End(bs, size, i)) in UsedExtents(bs, size)
            && UsedExtents(after, size) == UsedExtents(bs, size) - {(start, End(bs, size, i))}
  {
    var i := IndexOf(bs, start);
    ReleaseLaws(bs, size, i);
    ExtentOfUsedBlock(bs, size, i);
  }

  /** mem_trim below the size of the block cuts its extent down to what was asked for, unless a used
      block or the end follows and the surplus is too small for a block of its own; then, and for any
      other size, it changes nothing. */
  lemma ShrinkEffect(bs: seq<Block>, size: nat, start: nat, newsize: nat)
    requires WellFormed(bs, size) && size <= 64000 && Legal(Shrink(start, newsize), bs)
    ensures var (i, after, need) := (IndexOf(bs, start), Apply(Shrink(start, newsize), bs, size), Rounded(newsize));
            var (x: Extent, room) := ((start, End(bs, size, i)), Room(bs, size, i));
            && WellFormed(after, size) && x in UsedExtents(bs, size)
            && if need < room && ((i + 1 < |bs| && !bs[i + 1].used) || room - need >= HEADER + MIN_SIZE) then
                 UsedExtents(after, size) == UsedExtents(bs, size) - {x} + {(start, start + HEADER + need)}
               else after == bs
  {
    var (i, need) := (IndexOf(bs, start), Rounded(newsize));
    RoundedCovers(newsize);
    ExtentOfUsedBlock(bs, size, i);
    assert Room(bs, size, i) <= size by { SplitAt(bs, size, i); }
    if need < Room(bs, size, i) { TrimLaws(bs, size, i, need); }
  }

  /** The calls of other contexts. */
  function CallOf(c: Interrupt): Call {
    match c
    case FreeCall(start) => Free(start)
    case TrimCall(start, newsize) => Shrink(start, newsize)
  }

  /** A call that interrupts mem_malloc does what it always does. It raises mem_free_count if it is a
      mem_free, or a mem_trim below the size of the block. */
  lemma InterruptIsCall(c: Interrupt, st: State, size: nat, ours: set<nat>, cap: nat)
    requires Shared(st, size, ours, cap) && Allowed(c, st) && size <= 64000
    ensures Legal(CallOf(c), st.bs)
    ensures var (end, raised) := Interrupted(c, st, size);
            && end.bs == Apply(CallOf(c), st.bs, size) && end.phase == st.phase
            && end.held == (if c.FreeCall? then st.held - {c.start} else st.held)
            && (raised <==> c.FreeCall? || Rounded(c.newsize) < Room(st.bs, size, IndexOf(st.bs, c.start)))
  {
    var i := HeldIsLive(st, size, ours, cap, c.start);
    SplitAt(st.bs, size, i);
  }
}

/** The heap of mem.c itself: headers and user data in one byte array, the `lfree` cache and the
    `used` statistic, rewritten in place and proved against the abstract heap of HeapLayout. */
module Heap {
  import opened HeapLayout
  import opened HeapLaws
  import opened Octets

  datatype Header = Header(next: nat, prev: nat, used: bool)

  /** A pointer argument, as an offset from `ram`. */
  datatype Pointer = Null | Ram(offset: int)

  // ----- Reading headers out of bytes -----------------------------------------------------

  predicate InRam(r: seq<Byte>, p: int) { 0 <= p && p + HEADER <= |r| }

  function HeaderIn(r: seq<Byte>, p: nat): Header
    requires InRam(r, p)
  {
    Header(r[p] as int + 0x100 * r[p + 1] as int, r[p + 2] as int + 0x100 * r[p + 3] as int, r[p + 4] != 0)
  }

  /** The header block i of the chain must have. */
  function Expected(bs: seq<Block>, size: nat, i: nat): Header
    requires i < |bs|
  {
    Header(End(bs, size, i), if i == 0 then 0 else bs[i - 1].start, bs[i].used)
  }

  predicate SpelledAt(r: seq<Byte>, bs: seq<Block>, size: nat, i: nat)
    requires i < |bs|
  {
    InRam(r, bs[i].start) && HeaderIn(r, bs[i].start) == Expected(bs, size, i)
  }

  /** The headers in `r` spell out the chain `bs`; the sentinel's `prev` is not maintained. */
  predicate Spells(r: seq<Byte>, bs: seq<Block>, size: nat) {
    && |r| == size + HEADER
    && HeaderIn(r, size).used && HeaderIn(r, size).next == size
    && (forall i :: 0 <= i < |bs| ==> SpelledAt(r, bs, size, i))
  }

  /** Byte k is user data of a live block. */
  ghost predicate Owned(bs: seq<Block>, size: nat, k: int) {
    exists x :: x in UsedExtents(bs, size) && x.0 + HEADER <= k < x.1
  }

  /** Live user data is the same in both. */
  ghost predicate DataKept(r: seq<Byte>, s: seq<Byte>, bs: seq<Block>, size: nat) {
    |r| == |s| && forall k :: 0 <= k < |r| && Owned(bs, size, k) ==> r[k] == s[k]
  }

  lemma DataKeptOnward(r: seq<Byte>, s: seq<Byte>, t: seq<Byte>, bs: seq<Block>, cs: seq<Block>, size: nat)
    requires DataKept(r, s, bs, size) && DataKept(s, t, cs, size)
    requires UsedExtents(cs, size) <= UsedExtents(bs, size)
    ensures DataKept(r, t, cs, size)
  {
  }

  /** All bytes outside the headers at p, q and e are kept. */
  predicate Patch(r: seq<Byte>, t: seq<Byte>, p: nat, q: nat, e: nat) {
    && |r| == |t|
    && (forall k :: 0 <= k < |r| && !(p <= k < p + HEADER) && !(q <= k < q + HEADER) && !(e <= k < e + HEADER)
          ==> t[k] == r[k])
  }

  lemma HeaderKept(r: seq<Byte>, t: seq<Byte>, p: nat, q: nat, e: nat, h: nat)
    requires Patch(r, t, p, q, e) && InRam(r, h)
    requires h + HEADER <= p || p + HEADER <= h
    requires h + HEADER <= q || q + HEADER <= h
    requires h + HEADER <= e || e + HEADER <= h
    ensures HeaderIn(t, h) == HeaderIn(r, h)
  {
  }

  /** Headers are at least HEADER + MIN_SIZE apart. */
  lemma Apart(bs: seq<Block>, size: nat, i: nat, j: nat)
    requires Tiles(bs, size) && i < |bs| && j < |bs|
    ensures bs[i].start + HEADER + MIN_SIZE <= size
    ensures i < j ==> bs[i].start + HEADER + MIN_SIZE <= bs[j].start
    ensures j < i ==> bs[j].start + HEADER + MIN_SIZE <= bs[i].start
  {
    if i < j { StartsAscend(bs, size, i, j); } else if j < i { StartsAscend(bs, size, j, i); }
    SplitAt(bs, size, i);
  }

  /** Where the header with index i lies; past the chain, the end sentinel. */
  function Place(bs: seq<Block>, size: nat, i: nat): nat { if i < |bs| then bs[i].start else size }

  /** Writes into headers of the chain, or into the end sentinel, touch no live user data. */
  lemma PatchKeepsData(r: seq<Byte>, t: seq<Byte>, bs: seq<Block>, size: nat, i: nat, j: nat, k: nat)
    requires Tiles(bs, size)
    requires Patch(r, t, Place(bs, size, i), Place(bs, size, j), Place(bs, size, k))
    ensures DataKept(r, t, bs, size)
  {
    forall x, b | x in UsedExtents(bs, size) && x.0 + HEADER <= b < x.1 && b < |r| ensures r[b] == t[b] {
      ExtentsInside(bs, size);
      NotInPayload(bs, size, x, i);
      NotInPayload(bs, size, x, j);
      NotInPayload(bs, size, x, k);
    }
  }

  lemma NotInPayload(bs: seq<Block>, size: nat, x: Extent, i: nat)
    requires Tiles(bs, size) && x in UsedExtents(bs, size)
    ensures Place(bs, size, i) <= x.0 || x.1 <= Place(bs, size, i)
  {
    ExtentsInside(bs, size);
    if i < |bs| {
      var j := BlockOfExtent(bs, size, x);
      if i < j { StartsAscend(bs, size, i, j); } else if j < i { StartsAscend(bs, size, j, i); }
    }
  }

  /** The piece f of a chain is replaced by m, with the same first offset; t has the headers of m,
      and the header behind m points back to the last of m. */
  predicate Respelled(r: seq<Byte>, t: seq<Byte>, a: seq<Block>, f: seq<Block>, m: seq<Block>,
                      b: seq<Block>, size: nat)
  {
    var last := |a| + |m| - 1;
    && f != [] && 1 <= |m| <= 2 && f[0].start == m[0].start
    && Tiles(a + f + b, size) && Tiles(a + m + b, size)
    && Patch(r, t, m[0].start, m[|m| - 1].start, Next(b, size))
    && SpelledAt(t, a + m + b, size, |a|) && SpelledAt(t, a + m + b, size, last)
    && InRam(r, Next(b, size))
    && HeaderIn(t, Next(b, size)).used == HeaderIn(r, Next(b, size)).used
    && HeaderIn(t, Next(b, size)).next == HeaderIn(r, Next(b, size)).next
    && (b != [] ==> HeaderIn(t, b[0].start).prev == m[|m| - 1].start)
  }

  lemma RespelledBefore(r: seq<Byte>, t: seq<Byte>, a: seq<Block>, f: seq<Block>, m: seq<Block>,
                        b: seq<Block>, size: nat, k: nat)
    requires Respelled(r, t, a, f, m, b, size) && Spells(r, a + f + b, size) && k < |a|
    ensures SpelledAt(t, a + m + b, size, k)
  {
    var cs, bs, n := a + m + b, a + f + b, |a| + |m|;
    assert cs[k] == bs[k] && SpelledAt(r, bs, size, k);
    Apart(cs, size, k, |a|);
    Apart(cs, size, k, n - 1);
    if n < |cs| { Apart(cs, size, k, n); }
    HeaderKept(r, t, m[0].start, m[|m| - 1].start, Next(b, size), cs[k].start);
    assert k + 1 < |a| ==> cs[k + 1] == bs[k + 1];
    assert k > 0 ==> cs[k - 1] == bs[k - 1];
  }

  lemma RespelledBehind(r: seq<Byte>, t: seq<Byte>, a: seq<Block>, f: seq<Block>, m: seq<Block>,
                        b: seq<Block>, size: nat, k: nat)
    requires Respelled(r, t, a, f, m, b, size) && Spells(r, a + f + b, size) && |a| + |m| <= k < |a + m + b|
    ensures SpelledAt(t, a + m + b, size, k)
  {
    var cs, bs, n := a + m + b, a + f + b, |a| + |m|;
    var j := k - |m| + |f|;
    assert cs[k] == bs[j] && SpelledAt(r, bs, size, j);
    Apart(cs, size, k, |a|);
    Apart(cs, size, k, n - 1);
    Apart(cs, size, k, n);
    if k != n { HeaderKept(r, t, m[0].start, m[|m| - 1].start, Next(b, size), cs[k].start); }
    assert k + 1 < |cs| ==> cs[k + 1] == bs[j + 1];
    assert k != n ==> cs[k - 1] == bs[j - 1];
  }

  lemma RespelledAt(r: seq<Byte>, t: seq<Byte>, a: seq<Block>, f: seq<Block>, m: seq<Block>,
                    b: seq<Block>, size: nat, k: nat)
    requires Respelled(r, t, a, f, m, b, size) && Spells(r, a + f + b, size) && k < |a + m + b|
    ensures SpelledAt(t, a + m + b, size, k)
  {
    if k < |a| {
      RespelledBefore(r, t, a, f, m, b, size, k);
    } else if |a| + |m| <= k {
      RespelledBehind(r, t, a, f, m, b, size, k);
    }
  }

  lemma RespelledChain(r: seq<Byte>, t: seq<Byte>, a: seq<Block>, f: seq<Block>, m: seq<Block>,
                       b: seq<Block>, size: nat)
    requires Respelled(r, t, a, f, m, b, size) && Spells(r, a + f + b, size)
    ensures Spells(t, a + m + b, size) && DataKept(r, t, a + m + b, size)
  {
    var cs, n := a + m + b, |a| + |m|;
    PatchKeepsData(r, t, cs, size, |a|, n - 1, n);
    forall k | 0 <= k < |cs| ensures SpelledAt(t, cs, size, k) { RespelledAt(r, t, a, f, m, b, size, k); }
    if b != [] {
      Apart(cs, size, |a|, |a|);
      Apart(cs, size, n - 1, n);
      Apart(cs, size, n, n);
      HeaderKept(r, t, m[0].start, m[|m| - 1].start, Next(b, size), size);
    }
  }

  lemma JoinPlaces(r: seq<Byte>, bs: seq<Block>, size: nat, i: nat)
    requires Tiles(bs, size) && Spells(r, bs, size) && i + 1 < |bs|
    ensures InRam(r, bs[i].start) && InRam(r, bs[i + 1].start) && InRam(r, End(bs, size, i + 1))
    ensures HeaderIn(r, bs[i + 1].start).next == End(bs, size, i + 1)
    ensures bs[i].start + HEADER <= bs[i + 1].start && bs[i + 1].start + HEADER <= End(bs, size, i + 1) <= size
  {
    Apart(bs, size, i, i + 1);
    SplitAt(bs, size, i + 1);
    assert SpelledAt(r, bs, size, i) && SpelledAt(r, bs, size, i + 1);
  }

  lemma JoinSpelled(r: seq<Byte>, t: seq<Byte>, bs: seq<Block>, size: nat, i: nat)
    requires Tiles(bs, size) && Spells(r, bs, size) && i + 1 < |bs| && !bs[i].used && !bs[i + 1].used
    requires InRam(r, bs[i].start) && InRam(r, End(bs, size, i + 1))
    requires var (m, e) := (bs[i].start, End(bs, size, i + 1));
             && Patch(r, t, m, m, e)
             && HeaderIn(t, m) == HeaderIn(r, m).(next := e) && HeaderIn(t, e) == HeaderIn(r, e).(prev := m)
    ensures Tiles(Join(bs, i), size) && Spells(t, Join(bs, i), size) && DataKept(r, t, Join(bs, i), size)
  {
    var a, f, b := bs[..i], bs[i..i + 2], bs[i + 2..];
    assert bs == a + f + b && Join(bs, i) == a + [bs[i]] + b;
    assert SpelledAt(r, bs, size, i);
    JoinLaws(bs, size, i);
    RespelledChain(r, t, a, f, [bs[i]], b, size);
  }

  /** A write of one header's fields keeps everything else. */
  predicate OnlyHeader(r: seq<Byte>, t: seq<Byte>, p: nat) { Patch(r, t, p, p, p) }

  // ----- The heap ---------------------------------------------------------------------------

  class RamHeap {
    const size: nat               // MEM_SIZE_ALIGNED; also the offset of ram_end
    const ram: array<Byte>
    var lfree: nat
    var usedStat: int             // lwip_stats.mem.used
    var errStat: nat              // lwip_stats.mem.err
    var illegalStat: nat          // lwip_stats.mem.illegal
    ghost var blocks: seq<Block>

    ghost predicate Linked()
      reads this, ram
    {
      HeapSize(size) && blocks != [] && blocks[0].start == 0 && Tiles(blocks, size)
      && Spells(ram[..], blocks, size)
    }

    ghost predicate Valid()
      reads this, ram
    {
      && Linked() && NoHoles(blocks)
      && lfree == LowestFree(blocks, size)
      && usedStat == UsedBytes(blocks, size)
    }

    function At(p: nat): Header
      requires p + HEADER <= ram.Length
      reads ram
    {
      HeaderIn(ram[..], p)
    }

    predicate InHeap(p: Pointer) { p.Ram? && 0 <= p.offset < size }

    method SetNext(p: nat, v: nat)
      requires p + HEADER <= ram.Length && v < U16_RANGE
      modifies ram
      ensures At(p) == old(At(p)).(next := v) && OnlyHeader(old(ram[..]), ram[..], p)
    {
      ram[p], ram[p + 1] := v % 0x100, v / 0x100;
    }

    method SetPrev(p: nat, v: nat)
      requires p + HEADER <= ram.Length && v < U16_RANGE
      modifies ram
      ensures At(p) == old(At(p)).(prev := v) && OnlyHeader(old(ram[..]), ram[..], p)
    {
      ram[p + 2], ram[p + 3] := v % 0x100, v / 0x100;
    }

    method SetUsed(p: nat, v: bool)
      requires p + HEADER <= ram.Length
      modifies ram
      ensures At(p) == old(At(p)).(used := v) && OnlyHeader(old(ram[..]), ram[..], p)
    {
      ram[p + 4] := if v then 1 else 0;
    }

    /** mem_init. */
    constructor (size: nat)
      requires HeapSize(size)
      ensures Valid() && blocks == Initial() && this.size == size && fresh(ram)
    {
      this.size := size;
      ram := new Byte[size + HEADER](_ => 0);
      lfree, usedStat, errStat, illegalStat := 0, 0, 0, 0;
      blocks := Initial();
      new;
      SetNext(0, size);
      SetPrev(0, 0);
      SetUsed(0, false);
      SetUsed(size, true);
      SetNext(size, size);
      SetPrev(size, size);
      InitialIsWellFormed(size);
    }

    /** The statements both halves of plug_holes share: the header at n is absorbed by its free
        neighbour m in front of it. */
    method Combine(m: nat, n: nat, ghost i: nat)
      requires Linked() && i + 1 < |blocks| && blocks[i] == Block(m, false) && blocks[i + 1] == Block(n, false)
      modifies this`blocks, ram
      ensures Linked() && blocks == Join(old(blocks), i)
      ensures DataKept(old(ram[..]), ram[..], blocks, size)
    {
      JoinPlaces(ram[..], blocks, size, i);
      var e := At(n).next;
      SetNext(m, e);
      SetPrev(e, m);
      JoinSpelled(old(ram[..]), ram[..], blocks, size, i);
      blocks := Join(blocks, i);
    }

    /** The forward half of plug_holes, on the free block i. */
    method PlugForward(mem: nat, ghost i: nat)
      requires Linked() && i < |blocks| && blocks[i] == Block(mem, false) && lfree == LowestFree(blocks, size)
      modifies this`blocks, this`lfree, ram
      ensures Linked() && lfree == LowestFree(blocks, size) && DataKept(old(ram[..]), ram[..], blocks, size)
      ensures UsedExtents(blocks, size) == UsedExtents(old(blocks), size)
      ensures blocks == if FreeAhead(old(blocks), i) then Join(old(blocks), i) else old(blocks)
    {
      Neighbours(ram[..], blocks, size, i);
      var nmem := At(mem).next;
      if mem != nmem && !At(nmem).used && nmem != size {
        ghost var low := lfree;
        if lfree == nmem {
          lfree := mem;
        }
        LowestAtMost(blocks, size, i);
        assert lfree == low;  // mem is free and below nmem, so lfree was not nmem
        JoinLaws(blocks, size, i);
        Combine(mem, nmem, i);
      }
    }

    /** The backward half. */
    method PlugBackward(mem: nat, ghost i: nat)
      requires Linked() && i < |blocks| && blocks[i] == Block(mem, false) && lfree == LowestFree(blocks, size)
      modifies this`blocks, this`lfree, ram
      ensures Linked() && lfree == LowestFree(blocks, size) && DataKept(old(ram[..]), ram[..], blocks, size)
      ensures UsedExtents(blocks, size) == UsedExtents(old(blocks), size)
      ensures blocks == if FreeBehind(old(blocks), i) then Join(old(blocks), i - 1) else old(blocks)
    {
      Neighbours(ram[..], blocks, size, i);
      var pmem := At(mem).prev;
      if pmem != mem && !At(pmem).used {
        ghost var low := lfree;
        if lfree == mem {
          lfree := pmem;
        }
        LowestAtMost(blocks, size, i - 1);
        assert lfree == low;  // likewise
        JoinLaws(blocks, size, i - 1);
        Combine(pmem, mem, i - 1);
      }
    }

    /** plug_holes, called on block i of a chain without holes whose used flag was just cleared. */
    method PlugHoles(mem: nat, ghost i: nat, ghost was: seq<Block>)
      requires i < |was| && was[i] == Block(mem, true)
      requires Linked() && blocks == was[i := Block(mem, false)] && lfree == LowestFree(blocks, size)
      modifies this`blocks, this`lfree, ram
      ensures Linked() && blocks == Release(was, i) && lfree == LowestFree(blocks, size)
      ensures DataKept(old(ram[..]), ram[..], blocks, size)
    {
      ReleaseInSteps(was, i);
      PlugForward(mem, i);
      ghost var (r, bs) := (ram[..], blocks);
      PlugBackward(mem, i);
      DataKeptOnward(old(ram[..]), r, ram[..], bs, blocks, size);
    }

    /** mem_free. A pointer into the heap must be one some caller holds. */
    method Free(rmem: Pointer)
      requires Valid()
      requires InHeap(rmem) ==> Live(blocks, rmem.offset - HEADER)
      modifies this`blocks, this`lfree, this`usedStat, this`illegalStat, ram
      ensures Valid() && DataKept(old(ram[..]), ram[..], blocks, size)
      ensures blocks == if InHeap(rmem) then Apply(HeapLayout.Free(rmem.offset - HEADER), old(blocks), size)
                        else old(blocks)
      ensures illegalStat == old(illegalStat) + if rmem.Ram? && !InHeap(rmem) then 1 else 0
    {
      if rmem.Null? {
        return;
      }
      if !InHeap(rmem) {
        illegalStat := illegalStat + 1;
        return;
      }
      var mem := rmem.offset - HEADER;
      ghost var was, i := blocks, IndexOf(blocks, mem);
      ClearUsed(mem, i);
      ghost var cleared := ram[..];
      PlugHoles(mem, i, was);
      ClearLaws(was, size, i);
      ReleaseLaws(was, size, i);
      DataKeptOnward(old(ram[..]), cleared, ram[..], was, blocks, size);
    }

    /** mem_free up to plug_holes. */
    method ClearUsed(mem: nat, ghost i: nat)
      requires Valid() && i < |blocks| && blocks[i] == Block(mem, true)
      modifies this`blocks, this`lfree, this`usedStat, ram
      ensures Linked() && blocks == Flagged(old(blocks), i, false)
      ensures lfree == LowestFree(blocks, size) && usedStat == UsedBytes(blocks, size)
      ensures DataKept(old(ram[..]), ram[..], old(blocks), size)
    {
      Neighbours(ram[..], blocks, size, i);
      ClearLaws(blocks, size, i);
      ClearLowest(blocks, size, i);
      SetUsed(mem, false);
      if mem < lfree {
        lfree := mem;
      }
      usedStat := usedStat - (At(mem).next - mem);
      FlagSpelled(old(ram[..]), ram[..], blocks, size, i, false);
      PatchKeepsData(old(ram[..]), ram[..], blocks, size, i, i, i);
      blocks := Flagged(blocks, i, false);
    }

    /** The statements that mem_malloc and both branches of mem_trim share: write a new free
        header at ptr2 and link it between ptr and next. */
    method LinkBehind(ptr: nat, ptr2: nat, next: nat)
      requires HeapSize(size) && ram.Length == size + HEADER
      requires ptr + HEADER <= ptr2 && ptr2 + HEADER <= next <= size
      modifies ram
      ensures Patch(old(ram[..]), ram[..], ptr, ptr2, next)
      ensures At(ptr) == old(At(ptr)).(next := ptr2) && At(ptr2) == Header(next, ptr, false)
      ensures At(next) == if next == size then old(At(next)) else old(At(next)).(prev := ptr2)
    {
      SetUsed(ptr2, false);
      SetNext(ptr2, next);
      SetPrev(ptr2, ptr);
      SetNext(ptr, ptr2);
      if next != size {
        SetPrev(next, ptr2);
      }
    }

    /** mem_trim moves the header of the free block behind, at mem2, down to ptr2. */
    method MoveHeader(ptr: nat, ptr2: nat, mem2: nat, need: nat, room: nat, ghost i: nat)
      requires Valid() && i < |blocks| && blocks[i] == Block(ptr, true) && FreeAhead(blocks, i)
      requires room == Room(blocks, size, i) && MIN_SIZE <= need < room && need % ALIGNMENT == 0
      requires ptr2 == ptr + HEADER + need && mem2 == blocks[i + 1].start
      modifies this`blocks, this`lfree, this`usedStat, ram
      ensures Valid() && blocks == HeapLayout.Trim(old(blocks), size, i, need)
      ensures DataKept(old(ram[..]), ram[..], blocks, size)
    {
      ghost var (was, r, after) := (blocks, ram[..], HeapLayout.Trim(blocks, size, i, need));
      TrimBooks(r, was, size, i, need);
      var next := At(mem2).next;
      if lfree == mem2 {
        lfree := ptr2;
      }
      LinkBehind(ptr, ptr2, next);
      usedStat := usedStat - (room - need);
      TrimSpelled(r, ram[..], was, size, i, need);
      blocks := after;
    }

    /** mem_trim splits the block, there being room for another one behind. */
    method SplitRest(ptr: nat, ptr2: nat, mem2: nat, need: nat, room: nat, ghost i: nat)
      requires Valid() && i < |blocks| && blocks[i] == Block(ptr, true) && !FreeAhead(blocks, i)
      requires room == Room(blocks, size, i) && MIN_SIZE <= need && need % ALIGNMENT == 0
      requires need + HEADER + MIN_SIZE <= room && ptr2 == ptr + HEADER + need && mem2 == End(blocks, size, i)
      modifies this`blocks, this`lfree, this`usedStat, ram
      ensures Valid() && blocks == HeapLayout.Trim(old(blocks), size, i, need)
      ensures DataKept(old(ram[..]), ram[..], blocks, size)
    {
      ghost var (was, r, after) := (blocks, ram[..], HeapLayout.Trim(blocks, size, i, need));
      TrimBooks(r, was, size, i, need);
      if ptr2 < lfree {
        lfree := ptr2;
      }
      LinkBehind(ptr, ptr2, mem2);
      usedStat := usedStat - (room - need);
      TrimSpelled(r, ram[..], was, size, i, need);
      blocks := after;
    }

    /** The part of mem_trim that runs under the heap lock. */
    method CutBack(ptr: nat, need: nat, room: nat, ghost i: nat)
      requires Valid() && i < |blocks| && blocks[i] == Block(ptr, true)
      requires room == Room(blocks, size, i) && MIN_SIZE <= need < room && need % ALIGNMENT == 0
      modifies this`blocks, this`lfree, this`usedStat, ram
      ensures Valid() && blocks == HeapLayout.Trim(old(blocks), size, i, need)
      ensures DataKept(old(ram[..]), ram[..], blocks, size)
    {
      Neighbours(ram[..], blocks, size, i);
      var ptr2 := ptr + HEADER + need;
      var mem2 := At(ptr).next;
      if !At(mem2).used {
        MoveHeader(ptr, ptr2, mem2, need, room, i);
      } else if need + HEADER + MIN_SIZE <= room {
        SplitRest(ptr, ptr2, mem2, need, room, i);
      }
    }

    /** mem_trim. */
    method Trim(rmem: Pointer, newsize: nat) returns (result: Pointer)
      requires Valid() && newsize < U16_RANGE
      requires InHeap(rmem) ==> Live(blocks, rmem.offset - HEADER)
      modifies this`blocks, this`lfree, this`usedStat, this`illegalStat, ram
      ensures Valid() && DataKept(old(ram[..]), ram[..], blocks, size)
      ensures blocks == if InHeap(rmem) then Apply(Shrink(rmem.offset - HEADER, newsize), old(blocks), size)
                        else old(blocks)
      ensures illegalStat == old(illegalStat) + if Rounded(newsize) <= size && !InHeap(rmem) then 1 else 0
      ensures result == if Rounded(newsize) > size then Null
                        else if InHeap(rmem)
                             && Rounded(newsize) > Room(old(blocks), size, IndexOf(old(blocks), rmem.offset - HEADER))
                        then Null else rmem
    {
      var need := Rounded(newsize);
      if need > size {
        return Null;
      }
      if !InHeap(rmem) {
        illegalStat := illegalStat + 1;
        return rmem;
      }
      var ptr := rmem.offset - HEADER;
      ghost var i := IndexOf(blocks, ptr);
      Neighbours(ram[..], blocks, size, i);
      RoundedCovers(newsize);
      var room := At(ptr).next - ptr - HEADER;
      if need > room {
        return Null;
      }
      if need == room {
        return rmem;
      }
      CutBack(ptr, need, room, i);
      return rmem;
    }

    /** mem_malloc's bookkeeping once the search has found block i. */
    method Claim(mem: nat, need: nat, ghost i: nat)
      requires Valid() && i < |blocks| && blocks[i].start == mem && Fits(blocks, size, i, need)
      requires MIN_SIZE <= need && need % ALIGNMENT == 0
      modifies this`blocks, this`lfree, this`usedStat, ram
      ensures Valid() && blocks == Mark(old(blocks), size, i, need)
      ensures DataKept(old(ram[..]), ram[..], blocks, size)
    {
      MarkPlaces(ram[..], blocks, size, i, need);
      MarkAndSplit(mem, need, i);
      if mem == lfree {
        AdjustLowest(i);
      }
    }

    method MarkAndSplit(mem: nat, need: nat, ghost i: nat)
      requires Valid() && i < |blocks| && blocks[i].start == mem && Fits(blocks, size, i, need)
      requires MIN_SIZE <= need && need % ALIGNMENT == 0
      modifies this`blocks, this`usedStat, ram
      ensures Linked() && blocks == Mark(old(blocks), size, i, need)
      ensures usedStat == UsedBytes(blocks, size)
      ensures DataKept(old(ram[..]), ram[..], blocks, size)
    {
      MarkPlaces(ram[..], blocks, size, i, need);
      var next := At(mem).next;
      if next - (mem + HEADER) >= need + HEADER + MIN_SIZE {
        SplitOff(mem, mem + HEADER + need, next, i);
        usedStat := usedStat + (need + HEADER);
      } else {
        SetUsed(mem, true);
        usedStat := usedStat + (next - mem);
        FlagSpelled(old(ram[..]), ram[..], blocks, size, i, true);
        blocks := blocks[i := Block(mem, true)];
      }
    }

    method SplitOff(mem: nat, ptr2: nat, next: nat, ghost i: nat)
      requires Linked() && i < |blocks| && blocks[i].start == mem && next == Place(blocks, size, i + 1)
      requires mem + HEADER <= ptr2 && ptr2 + HEADER <= next <= size
      requires Tiles(blocks[..i] + [Block(mem, true), Block(ptr2, false)] + blocks[i + 1..], size)
      modifies this`blocks, ram
      ensures Linked() && blocks == old(blocks[..i] + [Block(mem, true), Block(ptr2, false)] + blocks[i + 1..])
      ensures DataKept(old(ram[..]), ram[..], blocks, size)
    {
      LinkBehind(mem, ptr2, next);
      SetUsed(mem, true);
      SplitSpelled(old(ram[..]), ram[..], blocks, size, i, i + 1, ptr2);
      blocks := blocks[..i] + [Block(mem, true), Block(ptr2, false)] + blocks[i + 1..];
    }

    /** Walk on from a block just taken to the next free one, or to the end. */
    method AdjustLowest(ghost i: nat)
      requires Linked() && i < |blocks| && blocks[i].start == lfree
      modifies this`lfree
      ensures lfree == LowestFree(blocks[i..], size)
    {
      var cur := lfree;
      ghost var j := i;
      Neighbours(ram[..], blocks, size, i);
      while At(cur).used && cur != size
        invariant i <= j <= |blocks| && cur == Place(blocks, size, j)
        invariant InRam(ram[..], cur)
        invariant LowestFree(blocks[i..], size) == LowestFree(blocks[j..], size)
        decreases |blocks| - j
      {
        if j < |blocks| { Neighbours(ram[..], blocks, size, j); }
        assert blocks[j..][1..] == blocks[j + 1..];
        cur := At(cur).next;
        j := j + 1;
      }
      if j < |blocks| { Neighbours(ram[..], blocks, size, j); }
      lfree := cur;
    }

    /** The scan of mem_malloc: from `lfree` up to the early bound, yet the same as first fit. */
    method Search(need: nat) returns (found: bool, ptr: nat)
      requires Valid() && need <= size
      ensures var i := FirstFit(blocks, size, need);
              found == (i < |blocks|) && (found ==> ptr == blocks[i].start)
    {
      ptr := lfree;
      ghost var k := LowestIsPlace(blocks, size);
      while ptr < size - need
        invariant k <= |blocks| && ptr == Place(blocks, size, k)
        invariant forall j :: 0 <= j < k ==> !Fits(blocks, size, j, need)
        decreases |blocks| - k
      {
        Neighbours(ram[..], blocks, size, k);
        if !At(ptr).used && At(ptr).next - (ptr + HEADER) >= need {
          assert Fits(blocks, size, k, need);
          return true, ptr;
        }
        ptr := At(ptr).next;
        k := k + 1;
      }
      NoFitFrom(blocks, size, need, k);
      return false, ptr;
    }

    /** mem_malloc. */
    method Malloc(request: nat) returns (result: Pointer)
      requires Valid() && request < U16_RANGE
      modifies this`blocks, this`lfree, this`usedStat, this`errStat, ram
      ensures Valid() && DataKept(old(ram[..]), ram[..], blocks, size)
      ensures blocks == Apply(HeapLayout.Malloc(request), old(blocks), size)
      ensures var i := FirstFit(old(blocks), size, Rounded(request));
              var refused := request == 0 || Rounded(request) > size;
              && result == (if refused || i == |old(blocks)| then Null else Ram(old(blocks)[i].start + HEADER))
              && errStat == old(errStat) + if !refused && i == |old(blocks)| then 1 else 0
    {
      if request == 0 {
        return Null;
      }
      var need := Rounded(request);
      if need > size {
        return Null;
      }
      RoundedCovers(request);
      var found, ptr := Search(need);
      if !found {
        errStat := errStat + 1;
        return Null;
      }
      Claim(ptr, need, FirstFit(blocks, size, need));
      return Ram(ptr + HEADER);
    }

    /** A caller writes to memory it holds. */
    method Store(x: nat, value: Byte)
      requires Valid() && Owned(blocks, size, x)
      modifies ram
      ensures Valid() && x < ram.Length && ram[..] == old(ram[..])[x := value]
    {
      OwnedBytes(blocks, size, x);
      ram[x] := value;
      StoreSpelled(old(ram[..]), ram[..], blocks, size, x);
    }
  }

  /** What a block's own header says about its neighbours. */
  lemma Neighbours(r: seq<Byte>, bs: seq<Block>, size: nat, i: nat)
    requires Tiles(bs, size) && Spells(r, bs, size) && i < |bs| && bs[0].start == 0
    ensures InRam(r, bs[i].start)
    ensures var h := HeaderIn(r, bs[i].start);
            && h == Expected(bs, size, i)
            && bs[i].start + HEADER + MIN_SIZE <= h.next <= size && InRam(r, h.next)
            && (i + 1 < |bs| ==> bs[i + 1] == Block(h.next, HeaderIn(r, h.next).used) && h.next < size)
            && (i + 1 == |bs| ==> h.next == size && HeaderIn(r, h.next).used)
            && InRam(r, h.prev)
            && (i > 0 ==> h.prev < bs[i].start && bs[i - 1] == Block(h.prev, HeaderIn(r, h.prev).used))
            && (i == 0 ==> h.prev == bs[i].start == 0)
  {
    assert SpelledAt(r, bs, size, i);
    SplitAt(bs, size, i);
    if i + 1 < |bs| { assert SpelledAt(r, bs, size, i + 1); Apart(bs, size, i, i + 1); }
    if i > 0 { assert SpelledAt(r, bs, size, i - 1); Apart(bs, size, i - 1, i); }
  }

  lemma NextHeaderKept(r: seq<Byte>, t: seq<Byte>, bs: seq<Block>, size: nat, i: nat)
    requires Tiles(bs, size) && Spells(r, bs, size) && i < |bs|
    requires InRam(r, bs[i].start) && OnlyHeader(r, t, bs[i].start)
    ensures var e := Place(bs, size, i + 1);
            && e == End(bs, size, i) == Next(bs[i + 1..], size)
            && InRam(r, e) && HeaderIn(t, e) == HeaderIn(r, e)
            && (i + 1 < |bs| ==> HeaderIn(r, e).prev == bs[i].start)
  {
    Apart(bs, size, i, i);
    if i + 1 < |bs| {
      assert SpelledAt(r, bs, size, i + 1);
      Apart(bs, size, i, i + 1);
    }
    HeaderKept(r, t, bs[i].start, bs[i].start, bs[i].start, Place(bs, size, i + 1));
  }

  /** Block i, and the free block behind it when to == i + 2, become a used block up to ptr2 and
      a free one behind it. */
  lemma SplitSpelled(r: seq<Byte>, t: seq<Byte>, bs: seq<Block>, size: nat, i: nat, to: nat, ptr2: nat)
    requires Tiles(bs, size) && Spells(r, bs, size) && i < to <= |bs| && to <= i + 2
    requires var cs := bs[..i] + [Block(bs[i].start, true), Block(ptr2, false)] + bs[to..];
             var (s, n) := (bs[i].start, Place(bs, size, to));
             && Tiles(cs, size) && InRam(r, s) && InRam(r, n) && InRam(r, ptr2)
             && Patch(r, t, s, ptr2, n)
             && HeaderIn(t, s) == HeaderIn(r, s).(next := ptr2, used := true)
             && HeaderIn(t, ptr2) == Header(n, s, false)
             && HeaderIn(t, n) == if n == size then HeaderIn(r, n) else HeaderIn(r, n).(prev := ptr2)
    ensures var cs := bs[..i] + [Block(bs[i].start, true), Block(ptr2, false)] + bs[to..];
            Spells(t, cs, size) && DataKept(r, t, cs, size)
  {
    var a, f, m, b := bs[..i], bs[i..to], [Block(bs[i].start, true), Block(ptr2, false)], bs[to..];
    assert bs == a + f + b;
    assert SpelledAt(r, bs, size, i);
    if to < |bs| { Apart(bs, size, to, to); }
    RespelledChain(r, t, a, f, m, b, size);
  }

  /** Everything mem_trim relies on when it shrinks block i. */
  lemma TrimPlaces(r: seq<Byte>, bs: seq<Block>, size: nat, i: nat, need: nat)
    requires WellFormed(bs, size) && Spells(r, bs, size) && i < |bs| && bs[i].used
    requires MIN_SIZE <= need < Room(bs, size, i) && need % ALIGNMENT == 0
    ensures InRam(r, bs[i].start)
    ensures var (h, t, ptr2) := (HeaderIn(r, bs[i].start), Trim(bs, size, i, need), bs[i].start + HEADER + need);
            var to := if FreeAhead(bs, i) then i + 2 else i + 1;
            && h.used && h.next == End(bs, size, i) && InRam(r, h.next)
            && (FreeAhead(bs, i) <==> !HeaderIn(r, h.next).used)
            && (FreeAhead(bs, i) ==> HeaderIn(r, h.next).next == Place(bs, size, to) && bs[i + 1].start == h.next)
            && (!FreeAhead(bs, i) ==> h.next == Place(bs, size, to))
            && WellFormed(t, size)
            && (t != bs ==>
                  && t == bs[..i] + [Block(bs[i].start, true), Block(ptr2, false)] + bs[to..]
                  && UsedBytes(t, size) == UsedBytes(bs, size) - (Room(bs, size, i) - need)
                  && ptr2 + HEADER <= Place(bs, size, to) <= size)
            && LowestFree(t, size) ==
               (if FreeAhead(bs, i) then (if LowestFree(bs, size) == h.next then ptr2 else LowestFree(bs, size))
                else if t != bs && ptr2 < LowestFree(bs, size) then ptr2 else LowestFree(bs, size))
  {
    Neighbours(r, bs, size, i);
    if i + 1 < |bs| { Neighbours(r, bs, size, i + 1); }
    TrimLaws(bs, size, i, need);
    TrimLowest(bs, size, i, need);
  }

  /** The header behind the block once it is trimmed. */
  function TrimNext(bs: seq<Block>, size: nat, i: nat): nat
    requires i < |bs|
  {
    if FreeAhead(bs, i) then End(bs, size, i + 1) else End(bs, size, i)
  }

  /** What mem_trim reads, and the books it keeps. */
  lemma TrimBooks(r: seq<Byte>, bs: seq<Block>, size: nat, i: nat, need: nat)
    requires WellFormed(bs, size) && Spells(r, bs, size) && i < |bs| && bs[i].used
    requires MIN_SIZE <= need < Room(bs, size, i) && need % ALIGNMENT == 0
    ensures InRam(r, bs[i].start)
    ensures var (h, t) := (HeaderIn(r, bs[i].start), Trim(bs, size, i, need));
            var (ptr2, n) := (bs[i].start + HEADER + need, TrimNext(bs, size, i));
            && h.used && h.next == End(bs, size, i) && InRam(r, h.next)
            && (FreeAhead(bs, i) ==> HeaderIn(r, h.next).next == n)
            && WellFormed(t, size)
            && (t != bs ==>
                  && UsedBytes(t, size) == UsedBytes(bs, size) - (Room(bs, size, i) - need)
                  && ptr2 + HEADER <= n <= size)
            && LowestFree(t, size) ==
               (if FreeAhead(bs, i) then (if LowestFree(bs, size) == h.next then ptr2 else LowestFree(bs, size))
                else if t != bs && ptr2 < LowestFree(bs, size) then ptr2 else LowestFree(bs, size))
  {
    TrimPlaces(r, bs, size, i, need);
  }

  /** The headers mem_trim writes spell out the trimmed chain. */
  lemma TrimSpelled(r: seq<Byte>, t: seq<Byte>, bs: seq<Block>, size: nat, i: nat, need: nat)
    requires WellFormed(bs, size) && Spells(r, bs, size) && i < |bs| && bs[i].used
    requires MIN_SIZE <= need < Room(bs, size, i) && need % ALIGNMENT == 0
    requires FreeAhead(bs, i) || need + HEADER + MIN_SIZE <= Room(bs, size, i)
    requires var (s, ptr2, n) := (bs[i].start, bs[i].start + HEADER + need, TrimNext(bs, size, i));
             && InRam(r, s) && InRam(r, n) && InRam(r, ptr2) && Patch(r, t, s, ptr2, n)
             && HeaderIn(t, s) == HeaderIn(r, s).(next := ptr2)
             && HeaderIn(t, ptr2) == Header(n, s, false)
             && HeaderIn(t, n) == if n == size then HeaderIn(r, n) else HeaderIn(r, n).(prev := ptr2)
    ensures Spells(t, Trim(bs, size, i, need), size) && DataKept(r, t, Trim(bs, size, i, need), size)
  {
    TrimPlaces(r, bs, size, i, need);
    SplitSpelled(r, t, bs, size, i, if FreeAhead(bs, i) then i + 2 else i + 1, bs[i].start + HEADER + need);
  }

  /** Everything mem_malloc relies on when it takes block i. */
  lemma MarkPlaces(r: seq<Byte>, bs: seq<Block>, size: nat, i: nat, need: nat)
    requires WellFormed(bs, size) && Spells(r, bs, size) && i < |bs| && Fits(bs, size, i, need)
    requires MIN_SIZE <= need && need % ALIGNMENT == 0
    ensures InRam(r, bs[i].start)
    ensures var (h, m, s) := (HeaderIn(r, bs[i].start), Mark(bs, size, i, need), bs[i].start);
            var split := h.next - (s + HEADER) >= need + HEADER + MIN_SIZE;
            && !h.used && h.next == End(bs, size, i) == Place(bs, size, i + 1) && h.next <= size
            && InRam(r, h.next) && WellFormed(m, size)
            && m[..i] == bs[..i] && i < |m| && m[i].start == s
            && (split ==> m == bs[..i] + [Block(s, true), Block(s + HEADER + need, false)] + bs[i + 1..])
            && (!split ==> m == bs[i := Block(s, true)])
            && UsedBytes(m, size) == UsedBytes(bs, size) + (if split then need + HEADER else h.next - s)
            && LowestFree(m, size) ==
               (if LowestFree(bs, size) == s then LowestFree(m[i..], size) else LowestFree(bs, size))
  {
    Neighbours(r, bs, size, i);
    MarkLaws(bs, size, i, need);
    MarkLowest(bs, size, i, need);
  }

  /** Chain bs with the flag of block i changed. */
  function Flagged(bs: seq<Block>, i: nat, used: bool): seq<Block>
    requires i < |bs|
  {
    bs[i := Block(bs[i].start, used)]
  }

  lemma FlagRespelled(r: seq<Byte>, t: seq<Byte>, bs: seq<Block>, size: nat, i: nat, used: bool)
    requires Tiles(bs, size) && Spells(r, bs, size) && i < |bs| && Tiles(Flagged(bs, i, used), size)
    requires InRam(r, bs[i].start) && OnlyHeader(r, t, bs[i].start)
    requires HeaderIn(t, bs[i].start) == HeaderIn(r, bs[i].start).(used := used)
    ensures var (a, b) := (bs[..i], bs[i + 1..]);
            && Respelled(r, t, a, [bs[i]], [Block(bs[i].start, used)], b, size)
            && a + [bs[i]] + b == bs && a + [Block(bs[i].start, used)] + b == Flagged(bs, i, used)
  {
    var (a, b, m, cs) := (bs[..i], bs[i + 1..], Block(bs[i].start, used), Flagged(bs, i, used));
    NextHeaderKept(r, t, bs, size, i);
    assert bs == a + [bs[i]] + b && cs == a + [m] + b;
    assert SpelledAt(r, bs, size, i);
    assert SpelledAt(t, cs, size, i);
  }

  /** Rewriting the flag of a header changes the flag in the chain. */
  lemma FlagSpelled(r: seq<Byte>, t: seq<Byte>, bs: seq<Block>, size: nat, i: nat, used: bool)
    requires Tiles(bs, size) && Spells(r, bs, size) && i < |bs| && Tiles(Flagged(bs, i, used), size)
    requires InRam(r, bs[i].start) && OnlyHeader(r, t, bs[i].start)
    requires HeaderIn(t, bs[i].start) == HeaderIn(r, bs[i].start).(used := used)
    ensures Spells(t, Flagged(bs, i, used), size) && DataKept(r, t, Flagged(bs, i, used), size)
  {
    var (a, b, m) := (bs[..i], bs[i + 1..], Block(bs[i].start, used));
    FlagRespelled(r, t, bs, size, i, used);
    RespelledChain(r, t, a, [bs[i]], [m], b, size);
  }

  /** Past the bound `size - need` no block has room, so the early stop loses nothing. */
  lemma NoFitFrom(bs: seq<Block>, size: nat, need: nat, k: nat)
    requires Tiles(bs, size) && k <= |bs| && Place(bs, size, k) >= size - need
    requires forall j :: 0 <= j < k ==> !Fits(bs, size, j, need)
    ensures FirstFit(bs, size, need) == |bs|
  {
    var i := FirstFit(bs, size, need);
    if i < |bs| {
      Apart(bs, size, k, i);
      SplitAt(bs, size, i);
    }
  }

  lemma OwnedBytes(bs: seq<Block>, size: nat, k: int)
    requires Tiles(bs, size) && Owned(bs, size, k)
    ensures HEADER <= k < size
    ensures forall i :: 0 <= i < |bs| ==> k < bs[i].start || bs[i].start + HEADER <= k
  {
    ExtentsInside(bs, size);
    var x :| x in UsedExtents(bs, size) && x.0 + HEADER <= k < x.1;
    forall i | 0 <= i < |bs| ensures k < bs[i].start || bs[i].start + HEADER <= k {
      NotInPayload(bs, size, x, i);
    }
  }

  /** User data cannot be mistaken for headers: writing it keeps the chain. */
  lemma StoreSpelled(r: seq<Byte>, t: seq<Byte>, bs: seq<Block>, size: nat, k: nat)
    requires Tiles(bs, size) && Spells(r, bs, size) && Owned(bs, size, k) && k < |r|
    requires |t| == |r| && forall b :: 0 <= b < |r| && b != k ==> t[b] == r[b]
    ensures Spells(t, bs, size)
  {
    OwnedBytes(bs, size, k);
    forall i | 0 <= i < |bs| ensures SpelledAt(t, bs, size, i) { assert SpelledAt(r, bs, size, i); }
  }
}

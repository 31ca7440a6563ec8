/** The abstract heap of mem.c: what the chain of block headers inside `ram` stands for, the
    effect of mem_malloc, mem_free and mem_trim on it, and what those effects keep. */
module HeapLayout {

  // LWIP_MEM_ALIGN_SIZE(sizeof(struct mem)), MIN_SIZE_ALIGNED and MEM_ALIGNMENT as configured.
  const ALIGNMENT := 4
  const HEADER := 8
  const MIN_SIZE := 12
  const U16_RANGE := 0x1_0000

  /** A block header at offset `start`; the block runs up to the next header or to the end. */
  datatype Block = Block(start: nat, used: bool)

  type Extent = (nat, nat)

  /** Where the header following a chain prefix lies, when `rest` follows it. */
  function Next(rest: seq<Block>, size: nat): nat {
    if rest == [] then size else rest[0].start
  }

  function End(bs: seq<Block>, size: nat, i: nat): nat
    requires i < |bs|
  {
    if i + 1 < |bs| then bs[i + 1].start else size
  }

  /** Bytes of user data the block can hold. */
  function Room(bs: seq<Block>, size: nat, i: nat): int
    requires i < |bs|
  {
    End(bs, size, i) - bs[i].start - HEADER
  }

  /** The chain `bs` tiles [start of bs, size) with aligned blocks that can hold MIN_SIZE bytes. */
  predicate Tiles(bs: seq<Block>, size: nat) {
    && size % ALIGNMENT == 0
    && (bs != [] ==>
          && bs[0].start % ALIGNMENT == 0
          && Next(bs[1..], size) >= bs[0].start + HEADER + MIN_SIZE
          && Tiles(bs[1..], size))
  }

  /** plug_holes has left no free block in front of another free block. */
  predicate NoHoles(bs: seq<Block>) {
    |bs| >= 2 ==> (bs[0].used || bs[1].used) && NoHoles(bs[1..])
  }

  predicate WellFormed(bs: seq<Block>, size: nat) {
    bs != [] && bs[0].start == 0 && Tiles(bs, size) && NoHoles(bs)
  }

  function UsedExtents(bs: seq<Block>, size: nat): set<Extent> {
    if bs == [] then {}
    else
      (if bs[0].used then {(bs[0].start, Next(bs[1..], size))} else {}) + UsedExtents(bs[1..], size)
  }

  function UsedBytes(bs: seq<Block>, size: nat): int {
    if bs == [] then 0
    else
      (if bs[0].used then Next(bs[1..], size) - bs[0].start else 0) + UsedBytes(bs[1..], size)
  }

  /** The offset `lfree` must hold: the lowest free block, or the end sentinel. */
  function LowestFree(bs: seq<Block>, size: nat): nat {
    if bs == [] then size else if bs[0].used then LowestFree(bs[1..], size) else bs[0].start
  }

  // ----- The operations -------------------------------------------------------------------

  /** mem_init: one free block. */
  function Initial(): seq<Block> { [Block(0, false)] }

  /** The size rounding of mem_malloc and mem_trim in 16-bit arithmetic. */
  function Rounded(size: nat): nat {
    var aligned := (size + ALIGNMENT - 1) / ALIGNMENT * ALIGNMENT % U16_RANGE;
    if aligned < MIN_SIZE then MIN_SIZE else aligned
  }

  predicate Fits(bs: seq<Block>, size: nat, i: nat, need: nat)
    requires i < |bs|
  {
    !bs[i].used && Room(bs, size, i) >= need
  }

  /** Plain first fit over the blocks from `from` on; |bs| when no free block has room. */
  function FirstFit(bs: seq<Block>, size: nat, need: nat, from: nat := 0): (i: nat)
    requires from <= |bs|
    ensures from <= i <= |bs|
    ensures i < |bs| ==> Fits(bs, size, i, need)
    ensures forall k :: from <= k < i ==> !Fits(bs, size, k, need)
    decreases |bs| - from
  {
    if from == |bs| || Fits(bs, size, from, need) then from else FirstFit(bs, size, need, from + 1)
  }

  /** Give block i to a caller who needs `need` bytes, splitting it when the rest can be a block. */
  function Mark(bs: seq<Block>, size: nat, i: nat, need: nat): seq<Block>
    requires i < |bs|
  {
    var s := bs[i].start;
    if Room(bs, size, i) >= need + HEADER + MIN_SIZE then
      bs[..i] + [Block(s, true), Block(s + HEADER + need, false)] + bs[i + 1..]
    else
      bs[..i] + [Block(s, true)] + bs[i + 1..]
  }

  predicate FreeAhead(bs: seq<Block>, i: nat) { i + 1 < |bs| && !bs[i + 1].used }
  predicate FreeBehind(bs: seq<Block>, i: nat) { 0 < i <= |bs| && !bs[i - 1].used }

  /** The first and one past the last block that freeing block i joins together. */
  function JoinFrom(bs: seq<Block>, i: nat): nat { if FreeBehind(bs, i) then i - 1 else i }
  function JoinTo(bs: seq<Block>, i: nat): nat { if FreeAhead(bs, i) then i + 2 else i + 1 }

  /** Free block i and plug the holes around it. */
  function Release(bs: seq<Block>, i: nat): seq<Block>
    requires i < |bs|
  {
    bs[..JoinFrom(bs, i)] + [Block(bs[JoinFrom(bs, i)].start, false)] + bs[JoinTo(bs, i)..]
  }

  /** Shrink block i to `need` bytes. */
  function Trim(bs: seq<Block>, size: nat, i: nat, need: nat): seq<Block>
    requires i < |bs|
  {
    var cut := Block(bs[i].start + HEADER + need, false);
    if FreeAhead(bs, i) then
      bs[..i] + [bs[i], cut] + bs[i + 2..]
    else if need + HEADER + MIN_SIZE <= Room(bs, size, i) then
      bs[..i] + [bs[i], cut] + bs[i + 1..]
    else
      bs
  }

  // ----- Calls and runs -------------------------------------------------------------------

  /** The block with its header at `start`; |bs| if there is none. */
  function IndexOf(bs: seq<Block>, start: int): (i: nat)
    ensures i <= |bs|
    ensures i < |bs| ==> bs[i].start == start
    ensures i == |bs| ==> forall k :: 0 <= k < |bs| ==> bs[k].start != start
  {
    if bs == [] || bs[0].start == start then 0 else 1 + IndexOf(bs[1..], start)
  }

  /** `start` is the header of a block some caller holds. */
  predicate Live(bs: seq<Block>, start: int) {
    IndexOf(bs, start) < |bs| && bs[IndexOf(bs, start)].used
  }

  /** Pointers are named by the header offset of their block. */
  datatype Call = Malloc(request: nat) | Free(start: int) | Shrink(start: int, newsize: nat)

  /** What callers owe: 16-bit sizes, and only pointers they hold. */
  predicate Legal(c: Call, bs: seq<Block>) {
    match c
    case Malloc(request) => request < U16_RANGE
    case Free(start) => Live(bs, start)
    case Shrink(start, newsize) => Live(bs, start) && newsize < U16_RANGE
  }

  function Apply(c: Call, bs: seq<Block>, size: nat): seq<Block>
    requires Legal(c, bs)
  {
    match c
    case Malloc(request) =>
      var need := Rounded(request);
      var i := FirstFit(bs, size, need);
      if request == 0 || need > size || i == |bs| then bs else Mark(bs, size, i, need)
    case Free(start) => Release(bs, IndexOf(bs, start))
    case Shrink(start, newsize) =>
      var need := Rounded(newsize);
      var i := IndexOf(bs, start);
      if need > size || need >= Room(bs, size, i) then bs else Trim(bs, size, i, need)
  }

  predicate LegalRun(cs: seq<Call>, bs: seq<Block>, size: nat) {
    cs != [] ==> Legal(cs[0], bs) && LegalRun(cs[1..], Apply(cs[0], bs, size), size)
  }

  function Run(cs: seq<Call>, bs: seq<Block>, size: nat): seq<Block>
    requires LegalRun(cs, bs, size)
  {
    if cs == [] then bs else Run(cs[1..], Apply(cs[0], bs, size), size)
  }

  /** The sizes a heap may be configured with (mem.h: 16-bit offsets up to 64000 bytes). */
  predicate HeapSize(size: nat) {
    HEADER + MIN_SIZE <= size <= 64000 && size % ALIGNMENT == 0
  }
}

/** mem_malloc as built with LWIP_ALLOW_MEM_FREE_FROM_OTHER_CONTEXT: the search drops its
    protection at every block, and mem_free or mem_trim calls of other contexts slip in there.
    One step is one such gap followed by the protected code up to the next gap or the return. */
module HeapInterrupt {
  import opened HeapLayout
  import opened HeapLaws

  datatype Phase =
    | Scan(ptr: nat)               // in the gap of the search loop, at the header `ptr`
    | Adjust(mem: nat, cur: nat)   // `mem` is marked; in the gap of the lfree walk, at `cur`
    | Granted(mem: nat)
    | Refused

  /** `held` are the header offsets of the blocks other contexts hold. */
  datatype State = State(bs: seq<Block>, lfree: nat, held: set<nat>, phase: Phase)

  datatype Interrupt = FreeCall(start: nat) | TrimCall(start: nat, newsize: nat)

  function Min(a: nat, b: nat): nat { if a < b then a else b }

  // ----- One interrupting call ------------------------------------------------------------

  predicate Allowed(c: Interrupt, st: State) {
    c.start in st.held && (c.TrimCall? ==> c.newsize < U16_RANGE)
  }

  /** mem_free and plug_holes on the chain and on `lfree`, whatever `lfree` holds. */
  function FreedLfree(bs: seq<Block>, lfree: nat, i: nat): nat
    requires i < |bs|
  {
    var mem := bs[i].start;
    var l0 := if mem < lfree then mem else lfree;
    var l1 := if FreeAhead(bs, i) && l0 == bs[i + 1].start then mem else l0;
    if FreeBehind(bs, i) && l1 == mem then bs[i - 1].start else l1
  }

  function TrimmedLfree(bs: seq<Block>, size: nat, lfree: nat, i: nat, need: nat): nat
    requires i < |bs|
  {
    var cut := bs[i].start + HEADER + need;
    if FreeAhead(bs, i) then (if lfree == bs[i + 1].start then cut else lfree)
    else if need + HEADER + MIN_SIZE <= Room(bs, size, i) && cut < lfree then cut
    else lfree
  }

  /** The state after the call, and whether it raised mem_free_count. */
  function Interrupted(c: Interrupt, st: State, size: nat): (State, bool)
  {
    var i := IndexOf(st.bs, c.start);
    if !Allowed(c, st) || i == |st.bs| then (st, false)
    else match c
      case FreeCall(start) =>
        (st.(bs := Release(st.bs, i), lfree := FreedLfree(st.bs, st.lfree, i), held := st.held - {start}), true)
      case TrimCall(_, newsize) =>
        var need := Rounded(newsize);
        if need > size || need >= Room(st.bs, size, i) then (st, false)
        else (st.(bs := Trim(st.bs, size, i, need),
                  lfree := TrimmedLfree(st.bs, size, st.lfree, i, need)), true)
  }

  function Gap(cs: seq<Interrupt>, st: State, size: nat): (State, bool) {
    if cs == [] then (st, false)
    else
      var (mid, raised) := Interrupted(cs[0], st, size);
      var (end, more) := Gap(cs[1..], mid, size);
      (end, raised || more)
  }

  // ----- The protected code between gaps --------------------------------------------------

  /** The loop test of the search at header `ptr`. */
  function ScanFrom(st: State, size: nat, need: nat, ptr: nat): State {
    st.(phase := if ptr < size - need then Scan(ptr) else Refused)
  }

  /** Label mem_malloc_adjust_lfree. */
  function AdjustEntry(st: State, size: nat, mem: nat): State {
    if mem == st.lfree then AdjustFrom(st, size, mem, mem) else st.(phase := Granted(mem))
  }

  /** The loop test of the lfree walk at header `cur`. */
  function AdjustFrom(st: State, size: nat, mem: nat, cur: nat): State {
    var i := IndexOf(st.bs, cur);
    if i < |st.bs| && st.bs[i].used then st.(phase := Adjust(mem, cur))
    else st.(lfree := cur, phase := Granted(mem))
  }

  /** The body of the search loop at block i. */
  function Examine(st: State, size: nat, need: nat, i: nat): State
    requires i < |st.bs|
  {
    if Fits(st.bs, size, i, need)
    then AdjustEntry(st.(bs := Mark(st.bs, size, i, need)), size, st.bs[i].start)
    else ScanFrom(st, size, need, End(st.bs, size, i))
  }

  function Resume(st: State, size: nat, need: nat, raised: bool): State {
    match st.phase
    case Scan(ptr) =>
      var i := IndexOf(st.bs, ptr);
      if raised || i == |st.bs| then ScanFrom(st, size, need, st.lfree) else Examine(st, size, need, i)
    case Adjust(mem, cur) =>
      var i := IndexOf(st.bs, cur);
      if raised || i == |st.bs| then AdjustEntry(st, size, mem)
      else AdjustFrom(st, size, mem, End(st.bs, size, i))
    case _ => st
  }

  predicate Finished(st: State) { st.phase.Granted? || st.phase.Refused? }

  function Step(cs: seq<Interrupt>, st: State, size: nat, need: nat): State {
    if Finished(st) then st
    else
      var (mid, raised) := Gap(cs, st, size);
      Resume(mid, size, need, raised)
  }

  /** The call after n gaps, gap k letting in the calls plan(k). */
  function After(plan: nat -> seq<Interrupt>, st: State, size: nat, need: nat, n: nat): State {
    if n == 0 then st else Step(plan(n - 1), After(plan, st, size, need, n - 1), size, need)
  }

  // ----- What every gap keeps -------------------------------------------------------------

  function Starts(bs: seq<Block>, size: nat): set<nat> {
    set x | x in UsedExtents(bs, size) :: x.0
  }

  /** `ours` is the block being handed out, if any. The cached `lfree` may lag behind at `cap`,
      which is then our own block; otherwise it is the lowest free block. */
  predicate Shared(st: State, size: nat, ours: set<nat>, cap: nat) {
    && WellFormed(st.bs, size)
    && Starts(st.bs, size) == st.held + ours && st.held !! ours
    && st.lfree == Min(cap, LowestFree(st.bs, size))
    && (cap == size || cap in ours)
  }

  lemma StartsAfter(bs: seq<Block>, cs: seq<Block>, size: nat, x: Extent, add: set<Extent>)
    requires Tiles(bs, size) && x in UsedExtents(bs, size)
    requires UsedExtents(cs, size) == UsedExtents(bs, size) - {x} + add
    requires forall y :: y in add ==> y.0 == x.0
    ensures Starts(cs, size) == if add == {} then Starts(bs, size) - {x.0} else Starts(bs, size)
    ensures forall y :: y in UsedExtents(bs, size) && y.0 != x.0 ==> y in UsedExtents(cs, size)
  {
    var i := BlockOfExtent(bs, size, x);
    forall y | y in UsedExtents(bs, size) && y.0 == x.0 ensures y == x {
      var j := BlockOfExtent(bs, size, y);
      if i < j { StartsAscend(bs, size, i, j); } else if j < i { StartsAscend(bs, size, j, i); }
    }
  }

  lemma HeldIsLive(st: State, size: nat, ours: set<nat>, cap: nat, start: nat) returns (i: nat)
    requires Shared(st, size, ours, cap) && start in st.held + ours
    ensures i == IndexOf(st.bs, start) < |st.bs| && st.bs[i] == Block(start, true)
    ensures (start, End(st.bs, size, i)) in UsedExtents(st.bs, size)
  {
    var x :| x in UsedExtents(st.bs, size) && x.0 == start;
    i := BlockOfExtent(st.bs, size, x);
    IndexOfStart(st.bs, size, i);
  }

  lemma FreeKeeps(st: State, size: nat, ours: set<nat>, cap: nat, start: nat)
    requires Shared(st, size, ours, cap) && start in st.held
    ensures Shared(Interrupted(FreeCall(start), st, size).0, size, ours, cap)
    ensures forall y :: y in UsedExtents(st.bs, size) && y.0 in ours ==>
              y in UsedExtents(Interrupted(FreeCall(start), st, size).0.bs, size)
  {
    var i := HeldIsLive(st, size, ours, cap, start);
    ReleaseLaws(st.bs, size, i);
    ReleaseLowest(st.bs, size, i);
    StartsAfter(st.bs, Release(st.bs, i), size, (start, End(st.bs, size, i)), {});
    if FreeBehind(st.bs, i) { LowestAtMost(st.bs, size, i - 1); StartsAscend(st.bs, size, i - 1, i); }
    if FreeAhead(st.bs, i) { StartsAscend(st.bs, size, i, i + 1); }
  }

  lemma TrimKeeps(st: State, size: nat, ours: set<nat>, cap: nat, start: nat, newsize: nat)
    requires Shared(st, size, ours, cap) && start in st.held && newsize < U16_RANGE
    ensures Shared(Interrupted(TrimCall(start, newsize), st, size).0, size, ours, cap)
    ensures forall y :: y in UsedExtents(st.bs, size) && y.0 in ours ==>
              y in UsedExtents(Interrupted(TrimCall(start, newsize), st, size).0.bs, size)
  {
    var i := HeldIsLive(st, size, ours, cap, start);
    var need := Rounded(newsize);
    RoundedCovers(newsize);
    if need <= size && need < Room(st.bs, size, i) {
      TrimLaws(st.bs, size, i, need);
      TrimLowest(st.bs, size, i, need);
      StartsAfter(st.bs, Trim(st.bs, size, i, need), size, (start, End(st.bs, size, i)),
                  {Kept(st.bs, size, i, need)});
      TrimCap(st, size, ours, cap, i, need);
    }
  }

  /** The cached offset and the true lowest free block move together. */
  lemma TrimCap(st: State, size: nat, ours: set<nat>, cap: nat, i: nat, need: nat)
    requires Shared(st, size, ours, cap) && i < |st.bs| && st.bs[i].used && st.bs[i].start in st.held
    requires MIN_SIZE <= need < Room(st.bs, size, i)
    ensures TrimmedLfree(st.bs, size, st.lfree, i, need) ==
            Min(cap, LowestFree(Trim(st.bs, size, i, need), size))
  {
    TrimLowest(st.bs, size, i, need);
    LowestInside(st.bs, size);
    if FreeAhead(st.bs, i) {
      LowestAtMost(st.bs, size, i + 1);
      StartsAscend(st.bs, size, i, i + 1);
      if cap != size {
        var k := HeldIsLive(st, size, ours, cap, cap);
        if k < i { StartsAscend(st.bs, size, k, i); } else if i + 1 < k { StartsAscend(st.bs, size, i + 1, k); }
      }
    }
  }

  lemma {:induction false} GapKeeps(cs: seq<Interrupt>, st: State, size: nat, ours: set<nat>, cap: nat)
    requires Shared(st, size, ours, cap)
    ensures var (end, raised) := Gap(cs, st, size);
            && Shared(end, size, ours, cap) && end.phase == st.phase && end.held <= st.held
            && (!raised ==> end == st)
            && (forall y :: y in UsedExtents(st.bs, size) && y.0 in ours ==> y in UsedExtents(end.bs, size))
  {
    if cs != [] {
      var (mid, raised) := Interrupted(cs[0], st, size);
      if Allowed(cs[0], st) {
        match cs[0]
        case FreeCall(start) => FreeKeeps(st, size, ours, cap, start);
        case TrimCall(start, newsize) => TrimKeeps(st, size, ours, cap, start, newsize);
      }
      GapKeeps(cs[1..], mid, size, ours, cap);
    }
  }

  // ----- The invariant of the call --------------------------------------------------------

  predicate NoFitBefore(bs: seq<Block>, size: nat, need: nat, ptr: nat) {
    forall k :: 0 <= k < |bs| && bs[k].start < ptr ==> !Fits(bs, size, k, need)
  }

  ghost predicate Roomy(bs: seq<Block>, size: nat, mem: nat, need: nat) {
    exists e :: (mem, e) in UsedExtents(bs, size) && mem + HEADER + need <= e
  }

  ghost predicate Inv(st: State, size: nat, need: nat) {
    match st.phase
    case Scan(ptr) =>
      && Shared(st, size, {}, size) && IndexOf(st.bs, ptr) < |st.bs|
      && NoFitBefore(st.bs, size, need, ptr)
    case Adjust(mem, cur) =>
      && Shared(st, size, {mem}, mem) && Roomy(st.bs, size, mem, need)
      && IndexOf(st.bs, cur) < |st.bs| && mem <= cur < LowestFree(st.bs, size)
    case Granted(mem) =>
      Shared(st, size, {mem}, size) && Roomy(st.bs, size, mem, need)
    case Refused =>
      Shared(st, size, {}, size) && FirstFit(st.bs, size, need) == |st.bs|
  }

  lemma ScanFromInv(st: State, size: nat, need: nat, ptr: nat)
    requires Shared(st, size, {}, size) && NoFitBefore(st.bs, size, need, ptr)
    requires ptr == size || IndexOf(st.bs, ptr) < |st.bs|
    ensures Inv(ScanFrom(st, size, need, ptr), size, need)
  {
    var i := FirstFit(st.bs, size, need);
    if ptr >= size - need && i < |st.bs| { SplitAt(st.bs, size, i); }
  }

  /** A fresh search may start at lfree: everything below it is used. */
  lemma RestartInv(st: State, size: nat, need: nat)
    requires Shared(st, size, {}, size)
    ensures Inv(ScanFrom(st, size, need, st.lfree), size, need)
  {
    LowestInside(st.bs, size);
    var l := LowestIsPlace(st.bs, size);
    forall k | 0 <= k < |st.bs| && st.bs[k].start < st.lfree ensures !Fits(st.bs, size, k, need) {
      BlocksBelowLowestAreUsed(st.bs, size, k);
    }
    if l < |st.bs| { IndexOfStart(st.bs, size, l); }
    ScanFromInv(st, size, need, st.lfree);
  }

  lemma AdjustFromInv(st: State, size: nat, need: nat, mem: nat, cur: nat)
    requires Shared(st, size, {mem}, mem) && Roomy(st.bs, size, mem, need)
    requires st.lfree == mem <= cur <= LowestFree(st.bs, size)
    requires cur == size || IndexOf(st.bs, cur) < |st.bs|
    ensures Inv(AdjustFrom(st, size, mem, cur), size, need)
  {
    var i := IndexOf(st.bs, cur);
    LowestInside(st.bs, size);
    if i < |st.bs| {
      if st.bs[i].used {
        var l := LowestIsPlace(st.bs, size);
        if l < |st.bs| { IndexOfStart(st.bs, size, l); }
        SplitAt(st.bs, size, i);
      } else {
        LowestAtMost(st.bs, size, i);
      }
    }
  }

  lemma AdjustEntryInv(st: State, size: nat, need: nat, mem: nat)
    requires Shared(st, size, {mem}, mem) && Roomy(st.bs, size, mem, need)
    ensures Inv(AdjustEntry(st, size, mem), size, need)
  {
    var i := HeldIsLive(st, size, {mem}, mem, mem);
    LowestInside(st.bs, size);
    if mem == st.lfree { AdjustFromInv(st, size, need, mem, mem); }
  }

  lemma ExamineInv(st: State, size: nat, need: nat, i: nat)
    requires Shared(st, size, {}, size) && i < |st.bs| && NoFitBefore(st.bs, size, need, st.bs[i].start)
    requires MIN_SIZE <= need && need % ALIGNMENT == 0
    ensures Inv(Examine(st, size, need, i), size, need)
  {
    var mem := st.bs[i].start;
    LowestInside(st.bs, size);
    if Fits(st.bs, size, i, need) {
      var bs', g := Mark(st.bs, size, i, need), HeapLaws.Granted(st.bs, size, i, need);
      MarkLaws(st.bs, size, i, need);
      MarkLowest(st.bs, size, i, need);
      LowestAtMost(st.bs, size, i);
      FreeStartNotHeld(st.bs, size, i);
      assert Starts(bs', size) == Starts(st.bs, size) + {mem};
      if LowestFree(st.bs, size) == mem { LowestAboveUsedHead(bs', size, i); }
      AdjustEntryInv(st.(bs := bs'), size, need, mem);
    } else {
      var e := End(st.bs, size, i);
      forall k | 0 <= k < |st.bs| && st.bs[k].start < e ensures !Fits(st.bs, size, k, need) {
        if i < k { StartsAscend(st.bs, size, i, k); } else if k < i { StartsAscend(st.bs, size, k, i); }
      }
      if i + 1 < |st.bs| { IndexOfStart(st.bs, size, i + 1); }
      ScanFromInv(st, size, need, e);
    }
  }

  lemma FreeStartNotHeld(bs: seq<Block>, size: nat, i: nat)
    requires Tiles(bs, size) && i < |bs| && !bs[i].used
    ensures bs[i].start !in Starts(bs, size)
  {
    forall x | x in UsedExtents(bs, size) ensures x.0 != bs[i].start {
      var j := BlockOfExtent(bs, size, x);
      if i < j { StartsAscend(bs, size, i, j); } else if j < i { StartsAscend(bs, size, j, i); }
    }
  }

  lemma LowestAboveUsedHead(bs: seq<Block>, size: nat, i: nat)
    requires Tiles(bs, size) && i < |bs| && bs[i].used && LowestFree(bs, size) == LowestFree(bs[i..], size)
    ensures bs[i].start < LowestFree(bs, size)
  {
    TilesSuffix(bs, size, i);
    ExtentsInside(bs[i..], size);
    TilesSuffix(bs[i..], size, 1);
    LowestInside(bs[i..][1..], size);
  }

  lemma StepInv(cs: seq<Interrupt>, st: State, size: nat, need: nat)
    requires Inv(st, size, need) && MIN_SIZE <= need && need % ALIGNMENT == 0
    ensures Inv(Step(cs, st, size, need), size, need)
  {
    match st.phase
    case Scan(ptr) =>
      GapKeeps(cs, st, size, {}, size);
      var (mid, raised) := Gap(cs, st, size);
      if raised { RestartInv(mid, size, need); } else { ExamineInv(mid, size, need, IndexOf(st.bs, ptr)); }
    case Adjust(mem, cur) =>
      GapKeeps(cs, st, size, {mem}, mem);
      var (mid, raised) := Gap(cs, st, size);
      if raised { AdjustEntryInv(mid, size, need, mem); } else { WalkInv(st, size, need, mem, cur); }
    case _ =>
  }

  lemma WalkInv(st: State, size: nat, need: nat, mem: nat, cur: nat)
    requires st.phase == Adjust(mem, cur) && Inv(st, size, need)
    ensures Inv(AdjustFrom(st, size, mem, End(st.bs, size, IndexOf(st.bs, cur))), size, need)
  {
    var i := IndexOf(st.bs, cur);
    var l := LowestIsPlace(st.bs, size);
    SplitAt(st.bs, size, i);
    if l < |st.bs| && i < l { StartsAscend(st.bs, size, i, l); }
    if l < |st.bs| && l < i { StartsAscend(st.bs, size, l, i); }
    if i + 1 < |st.bs| { IndexOfStart(st.bs, size, i + 1); }
    AdjustFromInv(st, size, need, mem, End(st.bs, size, i));
  }

  // ----- Whole calls ----------------------------------------------------------------------

  /** mem_malloc taking the lock: the search is about to start at lfree. */
  function Begin(bs: seq<Block>, size: nat, need: nat): State {
    var low := LowestFree(bs, size);
    ScanFrom(State(bs, low, Starts(bs, size), Refused), size, need, low)
  }

  /** At every gap, under every plan of interrupting mem_free and mem_trim calls: the chain is well
      formed, `lfree` is the lowest free block or our own block below it, a granted block is held
      by nobody else and has room, and a refusal means that no free block then fits. */
  lemma {:induction false} SafeUnderInterrupts(plan: nat -> seq<Interrupt>, bs: seq<Block>, size: nat,
                                               request: nat, n: nat)
    requires WellFormed(bs, size) && 0 < request < U16_RANGE
    ensures Inv(After(plan, Begin(bs, size, Rounded(request)), size, Rounded(request), n), size, Rounded(request))
  {
    var need := Rounded(request);
    RoundedCovers(request);
    if n == 0 {
      LowestInside(bs, size);
      RestartInv(Begin(bs, size, need), size, need);
    } else {
      SafeUnderInterrupts(plan, bs, size, request, n - 1);
      StepInv(plan(n - 1), After(plan, Begin(bs, size, need), size, need, n - 1), size, need);
    }
  }

  /** The step that takes a block takes the first fit of the heap as it is then: a free block. */
  lemma TakesFirstFit(cs: seq<Interrupt>, st: State, size: nat, request: nat)
    requires 0 < request < U16_RANGE && Rounded(request) <= size
    requires st.phase.Scan? && Inv(st, size, Rounded(request))
    requires var p := Step(cs, st, size, Rounded(request)).phase; p.Adjust? || p.Granted?
    ensures var (end, was) := (Step(cs, st, size, Rounded(request)), Gap(cs, st, size).0.bs);
            var i := FirstFit(was, size, Rounded(request));
            && i < |was| && !was[i].used && end.phase.mem == was[i].start
            && end.bs == Apply(Malloc(request), was, size)
  {
    GapKeeps(cs, st, size, {}, size);
    var i, f := IndexOf(st.bs, st.phase.ptr), FirstFit(st.bs, size, Rounded(request));
    if f < i { StartsAscend(st.bs, size, f, i); } else if i < f { StartsAscend(st.bs, size, i, f); }
  }
}

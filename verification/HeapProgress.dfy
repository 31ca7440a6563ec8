/** When a mem_malloc that other contexts interrupt comes to an end. Each interruption sends the
    search, or the walk of `lfree`, back to its start. Those that change the chain are paid for by
    memory given back; a mem_trim that changes nothing is paid for by nobody. */
module HeapProgress {
  import opened Counting
  import opened HeapInterrupt
  import opened HeapLayout
  import opened HeapLaws

  /** Bounds the quiet gaps of the pass under way. */
  function Left(st: State, size: nat): int {
    match st.phase
    case Scan(ptr) => size + 1 + size - ptr
    case Adjust(_, cur) => size - cur
    case _ => 0
  }

  /** More gaps than any one pass has. */
  function PassLength(size: nat): nat { 2 * size + 2 }

  /** Bounds the gaps still to come if each further pass costs one unit of `credit`. */
  function Rank(credit: nat, st: State, size: nat): int {
    if Finished(st) then 0 else Times(credit, PassLength(size)) + Left(st, size)
  }

  lemma LeftBounds(st: State, size: nat, need: nat)
    requires Inv(st, size, need) && !Finished(st)
    ensures 0 < Left(st, size) < PassLength(size)
  {
    LowestInside(st.bs, size);
    if st.phase.Scan? { SplitAt(st.bs, size, IndexOf(st.bs, st.phase.ptr)); }
  }

  /** A pass that starts again after credit was spent leaves less to do. */
  lemma SpentRank(st: State, before: nat, end: State, after: nat, size: nat, need: nat)
    requires Inv(st, size, need) && !Finished(st) && Inv(end, size, need) && after < before
    ensures Rank(after, end, size) < Rank(before, st, size)
  {
    LeftBounds(st, size, need);
    if !Finished(end) {
      LeftBounds(end, size, need);
      TimesGrows(after, before, PassLength(size));
    }
  }

  /** The block being handed out, if any, and where the lfree walk caps `lfree`. */
  function Ours(st: State): set<nat> { if st.phase.Adjust? then {st.phase.mem} else {} }

  function Cap(st: State, size: nat): nat { if st.phase.Adjust? then st.phase.mem else size }

  // ----- Quiet gaps -----------------------------------------------------------------------

  lemma QuietScan(st: State, size: nat, need: nat, i: nat)
    requires st.phase.Scan? && i < |st.bs| && st.bs[i].start == st.phase.ptr
    requires st.phase.ptr < End(st.bs, size, i) <= size
    ensures var end := Examine(st, size, need, i);
            end.held == st.held && (Finished(end) || Left(end, size) < Left(st, size))
  {
  }

  lemma QuietStep(st: State, size: nat, need: nat)
    requires Inv(st, size, need) && !Finished(st)
    ensures var end := Resume(st, size, need, false);
            end.held == st.held && (Finished(end) || Left(end, size) < Left(st, size))
  {
    match st.phase
    case Scan(ptr) =>
      SplitAt(st.bs, size, IndexOf(st.bs, ptr));
      QuietScan(st, size, need, IndexOf(st.bs, ptr));
    case Adjust(_, cur) => SplitAt(st.bs, size, IndexOf(st.bs, cur));
  }

  // ----- Frees, paid for by blocks --------------------------------------------------------

  lemma {:induction false} SubsetSize(a: set<nat>, b: set<nat>)
    requires a <= b
    ensures |a| <= |b|
  {
    if a != {} {
      var x :| x in a;
      SubsetSize(a - {x}, b - {x});
    }
  }

  lemma {:induction false} FreesShrinkHeld(cs: seq<Interrupt>, st: State, size: nat, ours: set<nat>, cap: nat)
    requires Shared(st, size, ours, cap) && forall c :: c in cs ==> c.FreeCall?
    ensures var (end, raised) := Gap(cs, st, size);
            end.held <= st.held && (raised ==> |end.held| < |st.held|)
  {
    if cs != [] {
      var (mid, raised) := Interrupted(cs[0], st, size);
      if Allowed(cs[0], st) {
        FreeKeeps(st, size, ours, cap, cs[0].start);
        assert mid.held + {cs[0].start} == st.held || !raised;
      }
      FreesShrinkHeld(cs[1..], mid, size, ours, cap);
      SubsetSize(Gap(cs[1..], mid, size).0.held, mid.held);
    }
  }

  lemma RaisedKeepsHeld(mid: State, size: nat, need: nat)
    ensures Resume(mid, size, need, true).held == mid.held
  {
  }

  lemma FreesRank(cs: seq<Interrupt>, st: State, size: nat, need: nat)
    requires Inv(st, size, need) && MIN_SIZE <= need && need % ALIGNMENT == 0
    requires !Finished(st) && forall c :: c in cs ==> c.FreeCall?
    ensures var end := Step(cs, st, size, need); Rank(|end.held|, end, size) < Rank(|st.held|, st, size)
  {
    var end := Step(cs, st, size, need);
    GapKeeps(cs, st, size, Ours(st), Cap(st, size));
    LeftBounds(st, size, need);
    if Gap(cs, st, size).1 {
      FreesShrinkHeld(cs, st, size, Ours(st), Cap(st, size));
      RaisedKeepsHeld(Gap(cs, st, size).0, size, need);
      StepInv(cs, st, size, need);
      SpentRank(st, |st.held|, end, |end.held|, size, need);
    } else {
      QuietStep(st, size, need);
    }
  }

  /** The call has not returned after n gaps. */
  function Unfinished(plan: nat -> seq<Interrupt>, bs: seq<Block>, size: nat, request: nat): nat -> bool {
    var need := Rounded(request);
    (n: nat) => !Finished(After(plan, Begin(bs, size, need), size, need, n))
  }

  function HeldRanks(plan: nat -> seq<Interrupt>, bs: seq<Block>, size: nat, request: nat): nat -> int {
    var need := Rounded(request);
    (n: nat) =>
      var st := After(plan, Begin(bs, size, need), size, need, n);
      Rank(|st.held|, st, size)
  }

  lemma FreesGap(plan: nat -> seq<Interrupt>, bs: seq<Block>, size: nat, request: nat, n: nat)
    requires WellFormed(bs, size) && 0 < request < U16_RANGE
    requires forall c :: c in plan(n) ==> c.FreeCall?
    ensures Pays(HeldRanks(plan, bs, size, request), Unfinished(plan, bs, size, request), _ => false, 0, n)
  {
    var need := Rounded(request);
    var was := After(plan, Begin(bs, size, need), size, need, n);
    RoundedCovers(request);
    SafeUnderInterrupts(plan, bs, size, request, n);
    if !Finished(was) { FreesRank(plan(n), was, size, need); }
  }

  /** An unfinished call has something left to do, whatever pays for it. */
  lemma SomethingLeft(plan: nat -> seq<Interrupt>, bs: seq<Block>, size: nat, request: nat, n: nat, credit: nat)
    requires WellFormed(bs, size) && 0 < request < U16_RANGE
    ensures var end := After(plan, Begin(bs, size, Rounded(request)), size, Rounded(request), n);
            Finished(end) || Rank(credit, end, size) > 0
  {
    var need := Rounded(request);
    var end := After(plan, Begin(bs, size, need), size, need, n);
    SafeUnderInterrupts(plan, bs, size, request, n);
    if !Finished(end) { LeftBounds(end, size, need); }
  }

  /** When only mem_free interrupts, the call returns within Rank gaps: every restart is paid for
      by a block some other context gave up. */
  lemma EndsUnderFrees(plan: nat -> seq<Interrupt>, bs: seq<Block>, size: nat, request: nat, n: nat)
    requires WellFormed(bs, size) && 0 < request < U16_RANGE
    requires forall k, c :: c in plan(k) ==> c.FreeCall?
    ensures var need := Rounded(request);
            var (st, end) := (Begin(bs, size, need), After(plan, Begin(bs, size, need), size, need, n));
            && (Finished(end) || Rank(|end.held|, end, size) <= Rank(|st.held|, st, size) - n)
            && (n > Rank(|st.held|, st, size) ==> Finished(end))
  {
    var (open, rank) := (Unfinished(plan, bs, size, request), HeldRanks(plan, bs, size, request));
    if open(n) {
      FreesPaidFor(plan, bs, size, request, n);
      SomethingLeft(plan, bs, size, request, n,
                    |After(plan, Begin(bs, size, Rounded(request)), size, Rounded(request), n).held|);
    }
  }

  lemma FreesPaidFor(plan: nat -> seq<Interrupt>, bs: seq<Block>, size: nat, request: nat, n: nat)
    requires WellFormed(bs, size) && 0 < request < U16_RANGE
    requires forall k, c :: c in plan(k) ==> c.FreeCall?
    requires Unfinished(plan, bs, size, request)(n)
    ensures HeldRanks(plan, bs, size, request)(n) <= HeldRanks(plan, bs, size, request)(0) - n
  {
    var (open, rank) := (Unfinished(plan, bs, size, request), HeldRanks(plan, bs, size, request));
    var costly := (_: nat) => false;
    forall k: nat | k < n ensures Pays(rank, open, costly, 0, k) { FreesGap(plan, bs, size, request, k); }
    StepsArePaidFor(rank, open, costly, 0, n);
    NeverCounted(costly, n);
  }

  // ----- All interruptions, paid for by bytes ---------------------------------------------

  /** Bytes of the block being handed out. */
  function OwnBytes(st: State, size: nat): nat {
    if st.phase.Adjust? || st.phase.Granted? then
      var i := IndexOf(st.bs, st.phase.mem);
      if i < |st.bs| && End(st.bs, size, i) >= st.phase.mem then End(st.bs, size, i) - st.phase.mem else 0
    else 0
  }

  /** Bytes that other contexts hold, headers included. */
  function OthersBytes(st: State, size: nat): nat {
    var n := UsedBytes(st.bs, size) - OwnBytes(st, size);
    if n < 0 then 0 else n
  }

  lemma {:induction false} UsedBytesNotNegative(bs: seq<Block>, size: nat)
    requires Tiles(bs, size)
    ensures UsedBytes(bs, size) >= 0
  {
    if bs != [] { UsedBytesNotNegative(bs[1..], size); }
  }

  /** A block in use is part of the bytes in use. */
  lemma ExtentBytes(bs: seq<Block>, size: nat, x: Extent)
    requires Tiles(bs, size) && x in UsedExtents(bs, size)
    ensures var i := IndexOf(bs, x.0); i < |bs| && End(bs, size, i) == x.1
    ensures 0 <= x.1 - x.0 <= UsedBytes(bs, size)
  {
    var i := BlockOfExtent(bs, size, x);
    IndexOfStart(bs, size, i);
    SplitAt(bs, size, i);
    UsedBytesNotNegative(bs[..i], bs[i].start);
    UsedBytesNotNegative(bs[i + 1..], size);
  }

  lemma TrimGivesBack(bs: seq<Block>, size: nat, i: nat, need: nat)
    requires Tiles(bs, size) && i < |bs| && bs[i].used
    requires MIN_SIZE <= need < Room(bs, size, i) && need % ALIGNMENT == 0
    ensures var t := Trim(bs, size, i, need); t == bs || UsedBytes(t, size) < UsedBytes(bs, size)
  {
    if Trim(bs, size, i, need) != bs { TrimTiles(bs, size, i, need); }
  }

  /** One call either leaves the chain alone or gives bytes back; mem_free always does. */
  lemma CallGivesBack(c: Interrupt, st: State, size: nat, ours: set<nat>, cap: nat)
    requires Shared(st, size, ours, cap)
    ensures var (mid, raised) := Interrupted(c, st, size);
            && (mid.bs == st.bs || UsedBytes(mid.bs, size) < UsedBytes(st.bs, size))
            && (raised && c.FreeCall? ==> mid.bs != st.bs)
            && (mid.bs == st.bs ==> mid == st)
  {
    if Allowed(c, st) {
      var i := HeldIsLive(st, size, ours, cap, c.start);
      match c
      case FreeCall(_) =>
        ReleaseLaws(st.bs, size, i);
        assert st.bs[i].start < End(st.bs, size, i) by { SplitAt(st.bs, size, i); }
      case TrimCall(_, newsize) =>
        var need := Rounded(newsize);
        RoundedCovers(newsize);
        if need < Room(st.bs, size, i) {
          TrimGivesBack(st.bs, size, i, need);
          TrimsNothing(st.bs, size, i, need);
        }
    }
  }

  /** mem_trim leaves the chain alone exactly when the block behind is used and there is no room for
      another one. */
  lemma TrimsNothing(bs: seq<Block>, size: nat, i: nat, need: nat)
    requires Tiles(bs, size) && i < |bs| && bs[i].used && MIN_SIZE <= need < Room(bs, size, i)
    ensures Trim(bs, size, i, need) == bs
            <==> !FreeAhead(bs, i) && need + HEADER + MIN_SIZE > Room(bs, size, i)
  {
    var (cut, t) := (Block(bs[i].start + HEADER + need, false), Trim(bs, size, i, need));
    if FreeAhead(bs, i) {
      assert t[i + 1] == cut && bs[i + 1].start == End(bs, size, i);
    } else if need + HEADER + MIN_SIZE <= Room(bs, size, i) {
      assert |t| == |bs| + 1;
    }
  }

  lemma {:induction false} GapGivesBack(cs: seq<Interrupt>, st: State, size: nat, ours: set<nat>, cap: nat)
    requires Shared(st, size, ours, cap)
    ensures var end := Gap(cs, st, size).0;
            (end == st || UsedBytes(end.bs, size) < UsedBytes(st.bs, size)) && (end.bs == st.bs ==> end == st)
  {
    if cs != [] {
      var mid := Interrupted(cs[0], st, size).0;
      CallGivesBack(cs[0], st, size, ours, cap);
      CallKeeps(cs[0], st, size, ours, cap);
      GapGivesBack(cs[1..], mid, size, ours, cap);
    }
  }

  lemma CallKeeps(c: Interrupt, st: State, size: nat, ours: set<nat>, cap: nat)
    requires Shared(st, size, ours, cap)
    ensures Shared(Interrupted(c, st, size).0, size, ours, cap)
  {
    if Allowed(c, st) {
      match c
      case FreeCall(start) => FreeKeeps(st, size, ours, cap, start);
      case TrimCall(start, newsize) => TrimKeeps(st, size, ours, cap, start, newsize);
    }
  }

  /** The gap raised mem_free_count, and yet the chain is as it was. */
  predicate IdleGap(cs: seq<Interrupt>, st: State, size: nat) {
    var (end, raised) := Gap(cs, st, size);
    raised && end.bs == st.bs
  }

  /** A mem_trim of a held block that returns through the end of mem_trim without changing anything. */
  predicate IdleTrim(c: Interrupt, st: State, size: nat) {
    && c.TrimCall? && Allowed(c, st)
    && var (i, need) := (IndexOf(st.bs, c.start), Rounded(c.newsize));
       i < |st.bs| && need <= size && need < Room(st.bs, size, i) && Trim(st.bs, size, i, need) == st.bs
  }

  /** What happens in an idle gap is a mem_trim without effect. */
  lemma {:induction false} IdleGapHasIdleTrim(cs: seq<Interrupt>, st: State, size: nat, ours: set<nat>, cap: nat)
    returns (k: nat)
    requires Shared(st, size, ours, cap) && IdleGap(cs, st, size)
    ensures k < |cs| && IdleTrim(cs[k], st, size)
  {
    var (mid, raised) := Interrupted(cs[0], st, size);
    CallGivesBack(cs[0], st, size, ours, cap);
    CallKeeps(cs[0], st, size, ours, cap);
    GapGivesBack(cs[1..], mid, size, ours, cap);
    assert mid == st;
    if raised {
      k := 0;
    } else {
      var j := IdleGapHasIdleTrim(cs[1..], st, size, ours, cap);
      k := j + 1;
    }
  }

  // ----- The rank of a step ---------------------------------------------------------------

  /** Our own block does not change in a gap, so what is given back is the others'. */
  lemma GapOthers(cs: seq<Interrupt>, st: State, size: nat, need: nat)
    requires Inv(st, size, need) && !Finished(st)
    ensures var end := Gap(cs, st, size).0;
            end == st || (end.bs != st.bs && OthersBytes(end, size) < OthersBytes(st, size))
  {
    var end := Gap(cs, st, size).0;
    GapKeeps(cs, st, size, Ours(st), Cap(st, size));
    GapGivesBack(cs, st, size, Ours(st), Cap(st, size));
    if st.phase.Adjust? {
      var e :| (st.phase.mem, e) in UsedExtents(st.bs, size) && st.phase.mem + HEADER + need <= e;
      ExtentBytes(st.bs, size, (st.phase.mem, e));
      ExtentBytes(end.bs, size, (st.phase.mem, e));
    } else {
      UsedBytesNotNegative(end.bs, size);
    }
  }

  lemma RaisedKeepsOthers(mid: State, size: nat, need: nat)
    requires mid.phase.Scan? || mid.phase.Adjust?
    ensures OthersBytes(Resume(mid, size, need, true), size) == OthersBytes(mid, size)
  {
  }

  /** Marking a block adds to the used bytes what is our own. */
  lemma ExamineKeepsOthers(st: State, size: nat, need: nat, i: nat)
    requires WellFormed(st.bs, size) && st.phase.Scan? && i < |st.bs| && MIN_SIZE <= need && need % ALIGNMENT == 0
    ensures OthersBytes(Examine(st, size, need, i), size) == OthersBytes(st, size)
  {
    if Fits(st.bs, size, i, need) {
      var bs := Mark(st.bs, size, i, need);
      MarkLaws(st.bs, size, i, need);
      MarkedEnd(st.bs, size, i, need);
      assert bs[i] == Block(st.bs[i].start, true);
      IndexOfStart(bs, size, i);
      UsedBytesNotNegative(st.bs, size);
    }
  }

  lemma QuietKeepsOthers(st: State, size: nat, need: nat)
    requires Inv(st, size, need) && !Finished(st) && MIN_SIZE <= need && need % ALIGNMENT == 0
    ensures OthersBytes(Resume(st, size, need, false), size) == OthersBytes(st, size)
  {
    if st.phase.Scan? { ExamineKeepsOthers(st, size, need, IndexOf(st.bs, st.phase.ptr)); }
  }

  function BytesRank(st: State, size: nat): int { Rank(OthersBytes(st, size), st, size) }

  /** Every gap that is not idle brings the call nearer to its end; an idle one costs it a pass. */
  lemma StepRank(cs: seq<Interrupt>, st: State, size: nat, need: nat)
    requires Inv(st, size, need) && MIN_SIZE <= need && need % ALIGNMENT == 0 && !Finished(st)
    ensures BytesRank(Step(cs, st, size, need), size)
            < BytesRank(st, size) + if IdleGap(cs, st, size) then PassLength(size) else 0
  {
    var ((mid, raised), end) := (Gap(cs, st, size), Step(cs, st, size, need));
    GapKeeps(cs, st, size, Ours(st), Cap(st, size));
    GapOthers(cs, st, size, need);
    StepInv(cs, st, size, need);
    LeftBounds(st, size, need);
    if !raised {
      QuietStep(st, size, need);
      QuietKeepsOthers(st, size, need);
    } else {
      RaisedKeepsOthers(mid, size, need);
      if mid.bs != st.bs {
        SpentRank(st, OthersBytes(st, size), end, OthersBytes(end, size), size, need);
      } else if !Finished(end) {
        LeftBounds(end, size, need);
      }
    }
  }

  // ----- Whole calls ----------------------------------------------------------------------

  /** Gap n is met, and is idle. */
  function Idles(plan: nat -> seq<Interrupt>, bs: seq<Block>, size: nat, request: nat): nat -> bool {
    var need := Rounded(request);
    (n: nat) =>
      var st := After(plan, Begin(bs, size, need), size, need, n);
      !Finished(st) && IdleGap(plan(n), st, size)
  }

  /** Idle gaps among the first n gaps of the call. */
  function IdleGaps(plan: nat -> seq<Interrupt>, bs: seq<Block>, size: nat, request: nat, n: nat): nat {
    Count(Idles(plan, bs, size, request), n)
  }

  function BytesRanks(plan: nat -> seq<Interrupt>, bs: seq<Block>, size: nat, request: nat): nat -> int {
    var need := Rounded(request);
    (n: nat) => BytesRank(After(plan, Begin(bs, size, need), size, need, n), size)
  }

  lemma PaidGap(plan: nat -> seq<Interrupt>, bs: seq<Block>, size: nat, request: nat, n: nat)
    requires WellFormed(bs, size) && 0 < request < U16_RANGE
    ensures Pays(BytesRanks(plan, bs, size, request), Unfinished(plan, bs, size, request),
                 Idles(plan, bs, size, request), PassLength(size), n)
  {
    var need := Rounded(request);
    var was := After(plan, Begin(bs, size, need), size, need, n);
    RoundedCovers(request);
    SafeUnderInterrupts(plan, bs, size, request, n);
    if !Finished(was) { StepRank(plan(n), was, size, need); }
  }

  /** Under every plan of mem_free and mem_trim calls, an unfinished call has had no more gaps than
      the bytes other contexts hold and its idle gaps pay for. */
  lemma GapsArePaidFor(plan: nat -> seq<Interrupt>, bs: seq<Block>, size: nat, request: nat, n: nat)
    requires WellFormed(bs, size) && 0 < request < U16_RANGE
    ensures var need := Rounded(request);
            var (st, end) := (Begin(bs, size, need), After(plan, Begin(bs, size, need), size, need, n));
            Finished(end) ||
            (0 < BytesRank(end, size)
             <= BytesRank(st, size) - n + Times(IdleGaps(plan, bs, size, request, n), PassLength(size)))
  {
    var (open, rank) := (Unfinished(plan, bs, size, request), BytesRanks(plan, bs, size, request));
    var costly := Idles(plan, bs, size, request);
    forall k: nat | k < n ensures Pays(rank, open, costly, PassLength(size), k) {
      PaidGap(plan, bs, size, request, k);
    }
    if open(n) {
      StepsArePaidFor(rank, open, costly, PassLength(size), n);
      var end := After(plan, Begin(bs, size, Rounded(request)), size, Rounded(request), n);
      SomethingLeft(plan, bs, size, request, n, OthersBytes(end, size));
    }
  }

  /** Frees, and trims that have an effect, always let the call end, within a bound fixed when it
      starts. */
  lemma EndsWithoutIdleGaps(plan: nat -> seq<Interrupt>, bs: seq<Block>, size: nat, request: nat, n: nat)
    requires WellFormed(bs, size) && 0 < request < U16_RANGE
    requires IdleGaps(plan, bs, size, request, n) == 0
    requires n >= BytesRank(Begin(bs, size, Rounded(request)), size)
    ensures !Unfinished(plan, bs, size, request)(n)
  {
    GapsArePaidFor(plan, bs, size, request, n);
  }

  lemma {:induction false} FinishedStays(plan: nat -> seq<Interrupt>, st: State, size: nat, need: nat, m: nat, n: nat)
    requires m <= n && Finished(After(plan, st, size, need, m))
    ensures Finished(After(plan, st, size, need, n))
  {
    if m < n { FinishedStays(plan, st, size, need, m, n - 1); }
  }

  ghost predicate AtMostIdle(plan: nat -> seq<Interrupt>, bs: seq<Block>, size: nat, request: nat, bound: nat) {
    forall n: nat :: IdleGaps(plan, bs, size, request, n) <= bound
  }

  ghost predicate Ends(plan: nat -> seq<Interrupt>, bs: seq<Block>, size: nat, request: nat) {
    exists n: nat :: !Unfinished(plan, bs, size, request)(n)
  }

  lemma EndsIfFewIdle(plan: nat -> seq<Interrupt>, bs: seq<Block>, size: nat, request: nat, bound: nat)
    requires WellFormed(bs, size) && 0 < request < U16_RANGE && AtMostIdle(plan, bs, size, request, bound)
    ensures Ends(plan, bs, size, request)
  {
    var start := BytesRank(Begin(bs, size, Rounded(request)), size);
    var n := (if start < 0 then 0 else start) + Times(bound, PassLength(size));
    GapsArePaidFor(plan, bs, size, request, n);
    TimesGrows(IdleGaps(plan, bs, size, request, n), bound, PassLength(size));
    assert !Unfinished(plan, bs, size, request)(n);
  }

  lemma FewIdleIfEnds(plan: nat -> seq<Interrupt>, bs: seq<Block>, size: nat, request: nat, n: nat)
    requires !Unfinished(plan, bs, size, request)(n)
    ensures AtMostIdle(plan, bs, size, request, IdleGaps(plan, bs, size, request, n))
  {
    var (idle, need) := (Idles(plan, bs, size, request), Rounded(request));
    forall k: nat ensures Count(idle, k) <= Count(idle, n) {
      if k < n {
        CountGrows(idle, k, n);
      } else {
        forall j | n <= j < k ensures !idle(j) { FinishedStays(plan, Begin(bs, size, need), size, need, n, j); }
        CountGrows(idle, n, k);
      }
    }
  }

  /** Under a given plan the call ends if and only if it meets only finitely many idle gaps: a call
      that never ends lets mem_trim calls without effect in for ever. */
  lemma EndsExactlyWhen(plan: nat -> seq<Interrupt>, bs: seq<Block>, size: nat, request: nat)
    requires WellFormed(bs, size) && 0 < request < U16_RANGE
    ensures Ends(plan, bs, size, request) <==> exists bound: nat :: AtMostIdle(plan, bs, size, request, bound)
  {
    if n: nat :| !Unfinished(plan, bs, size, request)(n) { FewIdleIfEnds(plan, bs, size, request, n); }
    if bound: nat :| AtMostIdle(plan, bs, size, request, bound) { EndsIfFewIdle(plan, bs, size, request, bound); }
  }

  // ----- Which trims starve the call ------------------------------------------------------

  /** A held block can be trimmed without effect exactly if it has more than the minimum room and is
      not followed by a free block. */
  lemma CanBeTrimmedIdly(bs: seq<Block>, size: nat, i: nat)
    requires HeapSize(size) && WellFormed(bs, size) && i < |bs| && bs[i].used
    ensures var st := State(bs, LowestFree(bs, size), Starts(bs, size), Refused);
            (exists newsize: nat :: IdleTrim(TrimCall(bs[i].start, newsize), st, size))
            <==> Room(bs, size, i) > MIN_SIZE && !FreeAhead(bs, i)
  {
    var (st, room) := (State(bs, LowestFree(bs, size), Starts(bs, size), Refused), Room(bs, size, i));
    IndexOfStart(bs, size, i);
    if newsize: nat :| IdleTrim(TrimCall(bs[i].start, newsize), st, size) {
      RoundedCovers(newsize);
      TrimsNothing(bs, size, i, Rounded(newsize));
    }
    if room > MIN_SIZE && !FreeAhead(bs, i) {
      IdleTrimOf(st, size, i);
      assert IdleTrim(TrimCall(bs[i].start, room - 4), st, size);
    }
  }

  lemma HeldStart(bs: seq<Block>, size: nat, i: nat)
    requires Tiles(bs, size) && i < |bs| && bs[i].used
    ensures IndexOf(bs, bs[i].start) == i && bs[i].start in Starts(bs, size)
    ensures Room(bs, size, i) % ALIGNMENT == 0 && Room(bs, size, i) + HEADER <= size
  {
    IndexOfStart(bs, size, i);
    ExtentOfUsedBlock(bs, size, i);
    assert (bs[i].start, End(bs, size, i)) in UsedExtents(bs, size);
    assert bs[i].start % ALIGNMENT == 0 && End(bs, size, i) % ALIGNMENT == 0 && End(bs, size, i) <= size by {
      SplitAt(bs, size, i);
    }
  }

  lemma RoundedIsSame(n: nat)
    requires n % ALIGNMENT == 0 && MIN_SIZE <= n < 64000
    ensures Rounded(n) == n
  {
  }

  lemma IdleTrimOf(st: State, size: nat, i: nat)
    requires HeapSize(size) && WellFormed(st.bs, size) && i < |st.bs| && st.bs[i].used
    requires Starts(st.bs, size) == st.held
    requires Room(st.bs, size, i) > MIN_SIZE && !FreeAhead(st.bs, i)
    ensures var c := TrimCall(st.bs[i].start, Room(st.bs, size, i) - 4);
            IdleTrim(c, st, size) && Interrupted(c, st, size) == (st, true)
  {
    var room := Room(st.bs, size, i);
    HeldStart(st.bs, size, i);
    RoundedIsSame(room - 4);
    TrimsNothing(st.bs, size, i, room - 4);
  }

  lemma IdleTrimRepeats(bs: seq<Block>, size: nat, need: nat, i: nat)
    requires HeapSize(size) && WellFormed(bs, size) && i < |bs| && bs[i].used
    requires Room(bs, size, i) > MIN_SIZE && !FreeAhead(bs, i) && Begin(bs, size, need).phase.Scan?
    ensures var st := Begin(bs, size, need);
            Step([TrimCall(bs[i].start, Room(bs, size, i) - 4)], st, size, need) == st
  {
    var (st, cs) := (Begin(bs, size, need), [TrimCall(bs[i].start, Room(bs, size, i) - 4)]);
    IdleTrimOf(st, size, i);
    assert cs[1..] == [] && Gap([], st, size) == (st, false);
    assert Gap(cs, st, size) == (st, true);
  }

  /** Another context makes this call in every gap. */
  function Always(c: Interrupt): nat -> seq<Interrupt> { (_: nat) => [c] }

  lemma {:induction false} Repeats(c: Interrupt, st: State, size: nat, need: nat, n: nat)
    requires Step([c], st, size, need) == st
    ensures After(Always(c), st, size, need, n) == st
  {
    if n > 0 { Repeats(c, st, size, need, n - 1); }
  }

  /** Every such block starves every call that has to search: one that trims it by four bytes in
      each gap keeps the search where it began, for ever. */
  lemma IdleTrimsStarve(bs: seq<Block>, size: nat, request: nat, i: nat)
    requires HeapSize(size) && WellFormed(bs, size) && i < |bs| && bs[i].used
    requires Room(bs, size, i) > MIN_SIZE && !FreeAhead(bs, i)
    requires Begin(bs, size, Rounded(request)).phase.Scan?
    ensures !Ends(Always(TrimCall(bs[i].start, Room(bs, size, i) - 4)), bs, size, request)
  {
    var (c, need) := (TrimCall(bs[i].start, Room(bs, size, i) - 4), Rounded(request));
    IdleTrimRepeats(bs, size, need, i);
    forall n: nat ensures Unfinished(Always(c), bs, size, request)(n) {
      Repeats(c, Begin(bs, size, need), size, need, n);
    }
  }

  /** Such a heap: two used blocks in front of a free one. */
  function CrampedHeap(): seq<Block> { [Block(0, true), Block(24, true), Block(48, false)] }

  lemma CrampedHeapFacts()
    ensures var bs := CrampedHeap();
            WellFormed(bs, 100) && LowestFree(bs, 100) == 48 && Fits(bs, 100, 2, 12)
  {
    var bs := CrampedHeap();
    assert bs[1..] == [Block(24, true), Block(48, false)];
    assert bs[1..][1..] == [Block(48, false)];
    assert bs[1..][1..][1..] == [];
    assert Tiles(bs[1..][1..], 100);
  }

  /** On it a request for 12 bytes, which fits, is starved by trimming the first block from 16 to 12
      bytes in every gap. */
  lemma TrimsCanStarve()
    ensures WellFormed(CrampedHeap(), 100) && Fits(CrampedHeap(), 100, 2, Rounded(12))
    ensures !Ends(Always(TrimCall(0, 12)), CrampedHeap(), 100, 12)
  {
    CrampedHeapFacts();
    assert Rounded(12) == 12;
    IdleTrimsStarve(CrampedHeap(), 100, 12, 0);
    assert CrampedHeap()[0].start == 0 && Room(CrampedHeap(), 100, 0) == 16;
  }
}

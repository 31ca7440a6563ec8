/** What other contexts keep of their memory while the search of mem_malloc lets them in: a block that
    no interrupting call names keeps its extent, and one that is only trimmed keeps the bytes it was
    trimmed to, whatever happens to other blocks and whatever mem_malloc takes. */
module HeapHeld {
  import opened HeapLayout
  import opened HeapLaws
  import opened HeapInterrupt

  /** Byte b belongs to the block in use that begins at `start`. */
  ghost predicate Holds(bs: seq<Block>, size: nat, start: nat, b: nat) {
    exists e :: (start, e) in UsedExtents(bs, size) && start + HEADER <= b < e
  }

  /** The call is about another block, or a trim that leaves byte b in its block. */
  predicate Spares(c: Interrupt, start: nat, b: nat) {
    c.start != start || (c.TrimCall? && b < start + HEADER + Rounded(c.newsize))
  }

  // ----- One interrupting call ------------------------------------------------------------

  lemma CallKeepsOthers(c: Interrupt, st: State, size: nat, ours: set<nat>, cap: nat, x: Extent)
    requires Shared(st, size, ours, cap) && x in UsedExtents(st.bs, size) && c.start != x.0
    ensures x in UsedExtents(Interrupted(c, st, size).0.bs, size)
  {
    if Allowed(c, st) {
      var i := HeldIsLive(st, size, ours, cap, c.start);
      var y: Extent := (c.start, End(st.bs, size, i));
      match c
      case FreeCall(_) =>
        ReleaseLaws(st.bs, size, i);
      case TrimCall(_, newsize) =>
        var need := Rounded(newsize);
        RoundedCovers(newsize);
        if need <= size && need < Room(st.bs, size, i) { TrimLaws(st.bs, size, i, need); }
    }
  }

  lemma TrimKeepsBytes(c: Interrupt, st: State, size: nat, ours: set<nat>, cap: nat, b: nat)
    requires Shared(st, size, ours, cap) && c.TrimCall? && Holds(st.bs, size, c.start, b)
    requires b < c.start + HEADER + Rounded(c.newsize)
    ensures Holds(Interrupted(c, st, size).0.bs, size, c.start, b)
  {
    if Allowed(c, st) {
      var i := HeldIsLive(st, size, ours, cap, c.start);
      var need := Rounded(c.newsize);
      RoundedCovers(c.newsize);
      if need <= size && need < Room(st.bs, size, i) {
        TrimLaws(st.bs, size, i, need);
        var y := Kept(st.bs, size, i, need);
        assert (c.start, y.1) in UsedExtents(Trim(st.bs, size, i, need), size);
      }
    }
  }

  lemma CallKeepsShared(c: Interrupt, st: State, size: nat, ours: set<nat>, cap: nat)
    requires Shared(st, size, ours, cap)
    ensures Shared(Interrupted(c, st, size).0, size, ours, cap)
  {
    if Allowed(c, st) {
      match c
      case FreeCall(start) => FreeKeeps(st, size, ours, cap, start);
      case TrimCall(start, newsize) => TrimKeeps(st, size, ours, cap, start, newsize);
    }
  }

  lemma CallSpares(c: Interrupt, st: State, size: nat, ours: set<nat>, cap: nat, start: nat, b: nat)
    requires Shared(st, size, ours, cap) && Holds(st.bs, size, start, b) && Spares(c, start, b)
    ensures Holds(Interrupted(c, st, size).0.bs, size, start, b)
  {
    if c.start == start {
      TrimKeepsBytes(c, st, size, ours, cap, b);
    } else {
      var e :| (start, e) in UsedExtents(st.bs, size) && start + HEADER <= b < e;
      CallKeepsOthers(c, st, size, ours, cap, (start, e));
    }
  }

  // ----- One gap, and the code behind it --------------------------------------------------

  lemma {:induction false} GapKeepsOthers(cs: seq<Interrupt>, st: State, size: nat, ours: set<nat>, cap: nat, x: Extent)
    requires Shared(st, size, ours, cap) && x in UsedExtents(st.bs, size)
    requires forall c :: c in cs ==> c.start != x.0
    ensures x in UsedExtents(Gap(cs, st, size).0.bs, size)
  {
    if cs != [] {
      CallKeepsShared(cs[0], st, size, ours, cap);
      CallKeepsOthers(cs[0], st, size, ours, cap, x);
      GapKeepsOthers(cs[1..], Interrupted(cs[0], st, size).0, size, ours, cap, x);
    }
  }

  lemma {:induction false} GapSpares(cs: seq<Interrupt>, st: State, size: nat, ours: set<nat>, cap: nat,
                                     start: nat, b: nat)
    requires Shared(st, size, ours, cap) && Holds(st.bs, size, start, b)
    requires forall c :: c in cs ==> Spares(c, start, b)
    ensures Holds(Gap(cs, st, size).0.bs, size, start, b)
  {
    if cs != [] {
      CallKeepsShared(cs[0], st, size, ours, cap);
      CallSpares(cs[0], st, size, ours, cap, start, b);
      GapSpares(cs[1..], Interrupted(cs[0], st, size).0, size, ours, cap, start, b);
    }
  }

  /** The protected code takes memory that nobody holds. */
  lemma ResumeTakesFree(st: State, size: nat, need: nat, raised: bool)
    requires WellFormed(st.bs, size) && MIN_SIZE <= need && need % ALIGNMENT == 0
    ensures UsedExtents(st.bs, size) <= UsedExtents(Resume(st, size, need, raised).bs, size)
  {
    if st.phase.Scan? {
      var i := IndexOf(st.bs, st.phase.ptr);
      if i < |st.bs| && Fits(st.bs, size, i, need) { MarkLaws(st.bs, size, i, need); }
    }
  }

  /** The part of the invariant that interrupting calls rely on. */
  lemma InvIsShared(st: State, size: nat, need: nat) returns (ours: set<nat>, cap: nat)
    requires Inv(st, size, need) && !Finished(st)
    ensures Shared(st, size, ours, cap)
  {
    match st.phase
    case Scan(_) => ours, cap := {}, size;
    case Adjust(mem, _) => ours, cap := {mem}, mem;
  }

  lemma StepKeepsOthers(cs: seq<Interrupt>, st: State, size: nat, need: nat, x: Extent)
    requires Inv(st, size, need) && MIN_SIZE <= need && need % ALIGNMENT == 0
    requires x in UsedExtents(st.bs, size) && forall c :: c in cs ==> c.start != x.0
    ensures x in UsedExtents(Step(cs, st, size, need).bs, size)
  {
    if !Finished(st) {
      var ours, cap := InvIsShared(st, size, need);
      var (mid, raised) := Gap(cs, st, size);
      GapKeeps(cs, st, size, ours, cap);
      GapKeepsOthers(cs, st, size, ours, cap, x);
      ResumeTakesFree(mid, size, need, raised);
    }
  }

  lemma StepSpares(cs: seq<Interrupt>, st: State, size: nat, need: nat, start: nat, b: nat)
    requires Inv(st, size, need) && MIN_SIZE <= need && need % ALIGNMENT == 0
    requires Holds(st.bs, size, start, b) && forall c :: c in cs ==> Spares(c, start, b)
    ensures Holds(Step(cs, st, size, need).bs, size, start, b)
  {
    if !Finished(st) {
      var ours, cap := InvIsShared(st, size, need);
      var (mid, raised) := Gap(cs, st, size);
      GapKeeps(cs, st, size, ours, cap);
      GapSpares(cs, st, size, ours, cap, start, b);
      ResumeTakesFree(mid, size, need, raised);
    }
  }

  // ----- Whole calls ----------------------------------------------------------------------

  /** The state after n gaps of a call of mem_malloc. */
  function StateAt(plan: nat -> seq<Interrupt>, bs: seq<Block>, size: nat, request: nat, n: nat): State {
    After(plan, Begin(bs, size, Rounded(request)), size, Rounded(request), n)
  }

  lemma OneMoreGap(plan: nat -> seq<Interrupt>, bs: seq<Block>, size: nat, request: nat, n: nat)
    requires WellFormed(bs, size) && 0 < request < U16_RANGE
    ensures var (st, need) := (StateAt(plan, bs, size, request, n), Rounded(request));
            && Inv(st, size, need) && MIN_SIZE <= need && need % ALIGNMENT == 0
            && StateAt(plan, bs, size, request, n + 1) == Step(plan(n), st, size, need)
  {
    SafeUnderInterrupts(plan, bs, size, request, n);
    RoundedCovers(request);
  }

  /** Under every plan of interrupting calls, at every gap: a block in use when mem_malloc began, and
      named by none of the calls since, has the extent it had. */
  lemma {:induction false} KeepsExtent(plan: nat -> seq<Interrupt>, bs: seq<Block>, size: nat, request: nat, n: nat,
                                       x: Extent)
    requires WellFormed(bs, size) && 0 < request < U16_RANGE && x in UsedExtents(bs, size)
    requires forall k: nat, c :: k < n && c in plan(k) ==> c.start != x.0
    ensures x in UsedExtents(StateAt(plan, bs, size, request, n).bs, size)
  {
    if n > 0 {
      KeepsExtent(plan, bs, size, request, n - 1, x);
      OneMoreGap(plan, bs, size, request, n - 1);
      StepKeepsOthers(plan(n - 1), StateAt(plan, bs, size, request, n - 1), size, Rounded(request), x);
    }
  }

  lemma {:induction false} StaysHeld(plan: nat -> seq<Interrupt>, bs: seq<Block>, size: nat, request: nat, n: nat,
                                     start: nat, b: nat)
    requires WellFormed(bs, size) && 0 < request < U16_RANGE && Holds(bs, size, start, b)
    requires forall k: nat, c :: k < n && c in plan(k) ==> Spares(c, start, b)
    ensures Holds(StateAt(plan, bs, size, request, n).bs, size, start, b)
  {
    if n > 0 {
      StaysHeld(plan, bs, size, request, n - 1, start, b);
      OneMoreGap(plan, bs, size, request, n - 1);
      StepSpares(plan(n - 1), StateAt(plan, bs, size, request, n - 1), size, Rounded(request), start, b);
    }
  }

  /** Under every plan, at every gap: a byte of a block in use stays a byte of that block, and of no
      other one, the one mem_malloc hands out included, until a call frees the block or trims it to
      below that byte. */
  lemma KeepsBytes(plan: nat -> seq<Interrupt>, bs: seq<Block>, size: nat, request: nat, n: nat, start: nat, b: nat)
    requires WellFormed(bs, size) && 0 < request < U16_RANGE && Holds(bs, size, start, b)
    requires forall k: nat, c :: k < n && c in plan(k) ==> Spares(c, start, b)
    ensures var end := StateAt(plan, bs, size, request, n);
            && Holds(end.bs, size, start, b)
            && forall y :: y in UsedExtents(end.bs, size) && y.0 != start ==> b < y.0 || y.1 <= b
  {
    var end := StateAt(plan, bs, size, request, n);
    StaysHeld(plan, bs, size, request, n, start, b);
    OneMoreGap(plan, bs, size, request, n);
    var e :| (start, e) in UsedExtents(end.bs, size) && start + HEADER <= b < e;
    forall y | y in UsedExtents(end.bs, size) && y.0 != start ensures b < y.0 || y.1 <= b {
      LivePayloadsDisjoint(end.bs, size, (start, e), y);
    }
  }
}

/** lwip_accept, alloc_socket and event_callback on a netconn that has no socket yet, as steps
    between SYS_ARCH_PROTECT and SYS_ARCH_UNPROTECT. Any number of connections are accepted at
    once; no socket is closed meanwhile. */
module Accept {
  import S = Select

  datatype Phase =
    | Waiting                // netconn_accept, netconn_peer
    | Alloc(i: nat)          // alloc_socket, about to look at sockets[i]
    | Init(slot: nat)        // about to clear sockets[slot].rcvevent
    | Install(slot: nat)     // about to add up the counter and set conn->socket
    | Returned(slot: nat)
    | Failed                 // no free slot

  /** `socket` counts down from -1 until it is a slot. `plus` and `minus` count the receive events
      whose callback has finished; `ignored` those RCVMINUS that found no socket. */
  datatype Conn = Conn(socket: int, phase: Phase, plus: nat, minus: nat, ignored: nat)

  datatype Slot = Free | Of(conn: nat, rcvevent: int)

  datatype At = Read | Recheck | Apply(s: nat)

  /** One event_callback under way. */
  datatype Callback = Callback(conn: nat, evt: S.Event, at: At)

  datatype State = State(conns: map<nat, Conn>, slots: seq<Slot>, cbs: map<nat, Callback>)

  datatype Step =
    | NewConn(c: nat)
    | Advance(c: nat)
    | Post(k: nat, c: nat, evt: S.Event)
    | Resume(k: nat)

  function Delivered(c: Conn, evt: S.Event): Conn {
    match evt
    case RcvPlus => c.(plus := c.plus + 1)
    case RcvMinus => c.(minus := c.minus + 1)
    case _ => c
  }

  function Adjusted(rcvevent: int, evt: S.Event): int {
    match evt
    case RcvPlus => S.Wrap16(rcvevent + 1)
    case RcvMinus => S.Wrap16(rcvevent - 1)
    case _ => rcvevent
  }

  /** The countdown branch of event_callback: only RCVPLUS is counted. */
  function CountedDown(c: Conn, evt: S.Event): Conn {
    match evt
    case RcvPlus => Delivered(c, evt).(socket := c.socket - 1)
    case RcvMinus => Delivered(c, evt).(ignored := c.ignored + 1)
    case _ => c
  }

  function SetPhase(st: State, c: nat, p: Phase): State
    requires c in st.conns
  {
    st.(conns := st.conns[c := st.conns[c].(phase := p)])
  }

  /** The next critical section, or unprotected write, of the accepting thread. */
  function Advanced(st: State, c: nat): State
    requires c in st.conns
  {
    match st.conns[c].phase
    case Waiting => SetPhase(st, c, Alloc(0))
    case Alloc(i) =>
      if i >= |st.slots| then SetPhase(st, c, Failed)
      else if st.slots[i].Free? then SetPhase(st, c, Init(i)).(slots := st.slots[i := Of(c, 0)])
      else SetPhase(st, c, Alloc(i + 1))
    case Init(slot) =>
      if slot < |st.slots| then SetPhase(st, c, Install(slot)).(slots := st.slots[slot := Of(c, 0)]) else st
    case Install(slot) =>
      if slot < |st.slots| && st.slots[slot].Of? then
        st.(slots := st.slots[slot := st.slots[slot].(rcvevent :=
                       S.Wrap16(st.slots[slot].rcvevent + S.Wrap16(-1 - st.conns[c].socket)))],
            conns := st.conns[c := st.conns[c].(socket := slot, phase := Returned(slot))])
      else st
    case _ => st
  }

  /** The next critical section, or unprotected read, of event_callback k. */
  function Resumed(st: State, k: nat): State
    requires k in st.cbs && st.cbs[k].conn in st.conns
  {
    var Callback(c, evt, at) := st.cbs[k];
    var conn := st.conns[c];
    match at
    case Read =>
      st.(cbs := st.cbs[k := Callback(c, evt, if conn.socket < 0 then Recheck else Apply(conn.socket))])
    case Recheck =>
      if conn.socket < 0 then st.(conns := st.conns[c := CountedDown(conn, evt)], cbs := st.cbs - {k})
      else st.(cbs := st.cbs[k := Callback(c, evt, Apply(conn.socket))])
    case Apply(s) =>
      if s < |st.slots| && st.slots[s].Of? then
        st.(slots := st.slots[s := st.slots[s].(rcvevent := Adjusted(st.slots[s].rcvevent, evt))],
            conns := st.conns[c := Delivered(conn, evt)], cbs := st.cbs - {k})
      else st.(cbs := st.cbs - {k})
  }

  ghost predicate Enabled(st: State, step: Step) {
    match step
    case NewConn(c) => c !in st.conns && forall s :: 0 <= s < |st.slots| && st.slots[s].Of? ==> st.slots[s].conn != c
    case Advance(c) => c in st.conns
    case Post(k, c, _) => k !in st.cbs && c in st.conns
    case Resume(k) => k in st.cbs && st.cbs[k].conn in st.conns
  }

  function Next(st: State, step: Step): State
    requires Enabled(st, step)
  {
    match step
    case NewConn(c) => st.(conns := st.conns[c := Conn(-1, Waiting, 0, 0, 0)])
    case Advance(c) => Advanced(st, c)
    case Post(k, c, evt) => st.(cbs := st.cbs[k := Callback(c, evt, Read)])
    case Resume(k) => Resumed(st, k)
  }

  /** Some sockets may be in use already, by connections of no concern here. */
  ghost predicate Run(trace: seq<State>, steps: seq<Step>) {
    && |trace| == |steps| + 1
    && trace[0].conns == map[] && trace[0].cbs == map[]
    && (forall i :: 0 <= i < |steps| ==> Enabled(trace[i], steps[i]) && trace[i + 1] == Next(trace[i], steps[i]))
  }

  // ----- The invariant --------------------------------------------------------------------

  predicate Owns(slots: seq<Slot>, s: nat, c: nat) { s < |slots| && slots[s].Of? && slots[s].conn == c }

  predicate ConnInv(slots: seq<Slot>, c: nat, conn: Conn) {
    match conn.phase
    case Init(s) => conn.socket == -1 - conn.plus && conn.minus == conn.ignored && Owns(slots, s, c)
    case Install(s) =>
      conn.socket == -1 - conn.plus && conn.minus == conn.ignored && Owns(slots, s, c) && slots[s].rcvevent == 0
    case Returned(s) =>
      && conn.socket == s && Owns(slots, s, c)
      && slots[s].rcvevent == S.Wrap16(conn.plus - conn.minus + conn.ignored)
    case _ => conn.socket == -1 - conn.plus && conn.minus == conn.ignored
  }

  ghost predicate ConnsInv(st: State) { forall c :: c in st.conns ==> ConnInv(st.slots, c, st.conns[c]) }

  ghost predicate CallbacksInv(st: State) {
    forall k :: k in st.cbs ==>
      && st.cbs[k].conn in st.conns
      && (st.cbs[k].at.Apply? ==> st.conns[st.cbs[k].conn].phase == Returned(st.cbs[k].at.s))
  }

  ghost predicate SlotsInv(st: State) {
    forall s :: 0 <= s < |st.slots| && st.slots[s].Of? && st.slots[s].conn in st.conns ==>
      HasSlot(st.conns[st.slots[s].conn].phase, s)
  }

  ghost predicate Inv(st: State) { ConnsInv(st) && CallbacksInv(st) && SlotsInv(st) }

  predicate HasSlot(p: Phase, s: nat) { p == Init(s) || p == Install(s) || p == Returned(s) }

  lemma WrapPlus(x: int, y: int)
    ensures S.Wrap16(S.Wrap16(x) + y) == S.Wrap16(x + y)
    ensures S.Wrap16(x + S.Wrap16(y)) == S.Wrap16(x + y)
  {
  }

  lemma AdvanceKeepsConns(st: State, c: nat)
    requires Inv(st) && c in st.conns
    ensures ConnsInv(Advanced(st, c))
  {
    var (conn, st') := (st.conns[c], Advanced(st, c));
    if conn.phase.Install? { WrapPlus(0, -1 - conn.socket); }
    forall d | d in st'.conns && d != c ensures ConnInv(st'.slots, d, st'.conns[d]) {
      assert ConnInv(st.slots, d, st.conns[d]) && ConnInv(st.slots, c, conn);
    }
  }

  lemma AdvanceKeepsRest(st: State, c: nat)
    requires Inv(st) && c in st.conns
    ensures CallbacksInv(Advanced(st, c)) && SlotsInv(Advanced(st, c))
  {
    assert ConnInv(st.slots, c, st.conns[c]);
  }

  lemma AdjustedCounts(conn: Conn, evt: S.Event, rcvevent: int)
    requires rcvevent == S.Wrap16(conn.plus - conn.minus + conn.ignored)
    ensures var d := Delivered(conn, evt);
            Adjusted(rcvevent, evt) == S.Wrap16(d.plus - d.minus + d.ignored)
  {
    WrapPlus(conn.plus - conn.minus + conn.ignored, 1);
    WrapPlus(conn.plus - conn.minus + conn.ignored, -1);
  }

  lemma ResumeKeepsConns(st: State, k: nat)
    requires Inv(st) && k in st.cbs
    ensures ConnsInv(Resumed(st, k))
  {
    var (Callback(c, evt, at), st') := (st.cbs[k], Resumed(st, k));
    assert ConnInv(st.slots, c, st.conns[c]);
    if at.Apply? { AdjustedCounts(st.conns[c], evt, st.slots[at.s].rcvevent); }
    forall d | d in st'.conns && d != c ensures ConnInv(st'.slots, d, st'.conns[d]) {
      assert ConnInv(st.slots, d, st.conns[d]);
    }
  }

  lemma ResumeKeepsRest(st: State, k: nat)
    requires Inv(st) && k in st.cbs
    ensures CallbacksInv(Resumed(st, k)) && SlotsInv(Resumed(st, k))
  {
    assert ConnInv(st.slots, st.cbs[k].conn, st.conns[st.cbs[k].conn]);
  }

  lemma StepKeeps(st: State, step: Step)
    requires Inv(st) && Enabled(st, step)
    ensures Inv(Next(st, step))
  {
    match step
    case NewConn(c) =>
    case Advance(c) => { AdvanceKeepsConns(st, c); AdvanceKeepsRest(st, c); }
    case Post(k, c, evt) =>
    case Resume(k) => { ResumeKeepsConns(st, k); ResumeKeepsRest(st, k); }
  }

  lemma {:induction false} RunKeeps(trace: seq<State>, steps: seq<Step>, n: nat)
    requires Run(trace, steps) && n < |trace|
    ensures Inv(trace[n])
  {
    if n > 0 {
      RunKeeps(trace, steps, n - 1);
      StepKeeps(trace[n - 1], steps[n - 1]);
    }
  }

  // ----- Conservation ---------------------------------------------------------------------

  /** Events of one kind handed to event_callback for connection c in these steps. */
  function Posted(steps: seq<Step>, c: nat, evt: S.Event): nat {
    if steps == [] then 0
    else
      var last := steps[|steps| - 1];
      Posted(steps[..|steps| - 1], c, evt) + (if last.Post? && last.c == c && last.evt == evt then 1 else 0)
  }

  function InFlight(cbs: map<nat, Callback>, c: nat, evt: S.Event): set<nat> {
    set k | k in cbs && cbs[k].conn == c && cbs[k].evt == evt
  }

  function Finished(st: State, c: nat, evt: S.Event): int {
    if c !in st.conns then 0 else if evt.RcvPlus? then st.conns[c].plus else st.conns[c].minus
  }

  lemma FlightStarts(cbs: map<nat, Callback>, k: nat, cb: Callback, c: nat, evt: S.Event)
    requires k !in cbs
    ensures |InFlight(cbs[k := cb], c, evt)|
            == |InFlight(cbs, c, evt)| + (if cb.conn == c && cb.evt == evt then 1 else 0)
  {
    var (before, after) := (InFlight(cbs, c, evt), InFlight(cbs[k := cb], c, evt));
    if cb.conn == c && cb.evt == evt {
      assert k !in before && after == before + {k};
    } else {
      assert after == before;
    }
  }

  lemma FlightEnds(cbs: map<nat, Callback>, k: nat, c: nat, evt: S.Event)
    requires k in cbs
    ensures |InFlight(cbs - {k}, c, evt)|
            == |InFlight(cbs, c, evt)| - (if cbs[k].conn == c && cbs[k].evt == evt then 1 else 0)
  {
    var (before, after) := (InFlight(cbs, c, evt), InFlight(cbs - {k}, c, evt));
    if cbs[k].conn == c && cbs[k].evt == evt {
      assert after == before - {k};
    } else {
      assert after == before;
    }
  }

  lemma FlightMoves(cbs: map<nat, Callback>, k: nat, at: At, c: nat, evt: S.Event)
    requires k in cbs
    ensures InFlight(cbs[k := cbs[k].(at := at)], c, evt) == InFlight(cbs, c, evt)
  {
  }

  lemma ResumeFinishes(st: State, k: nat, c: nat, evt: S.Event)
    requires Inv(st) && k in st.cbs && (evt.RcvPlus? || evt.RcvMinus?)
    ensures var st' := Resumed(st, k);
            Finished(st', c, evt) + |InFlight(st'.cbs, c, evt)| == Finished(st, c, evt) + |InFlight(st.cbs, c, evt)|
  {
    var cb := st.cbs[k];
    assert ConnInv(st.slots, cb.conn, st.conns[cb.conn]);
    FlightEnds(st.cbs, k, c, evt);
    FlightMoves(st.cbs, k, Recheck, c, evt);
    if st.conns[cb.conn].socket >= 0 { FlightMoves(st.cbs, k, Apply(st.conns[cb.conn].socket), c, evt); }
  }

  lemma FinishedStep(st: State, step: Step, c: nat, evt: S.Event)
    requires Inv(st) && Enabled(st, step) && (evt.RcvPlus? || evt.RcvMinus?)
    ensures var st' := Next(st, step);
            Finished(st', c, evt) + |InFlight(st'.cbs, c, evt)|
            == Finished(st, c, evt) + |InFlight(st.cbs, c, evt)|
               + (if step.Post? && step.c == c && step.evt == evt then 1 else 0)
  {
    match step
    case NewConn(d) =>
    case Advance(d) =>
    case Post(k, d, e) => FlightStarts(st.cbs, k, Callback(d, e, Read), c, evt);
    case Resume(k) => ResumeFinishes(st, k, c, evt);
  }

  lemma {:induction false} EveryEventAccounted(trace: seq<State>, steps: seq<Step>, n: nat, c: nat, evt: S.Event)
    requires Run(trace, steps) && n < |trace| && (evt.RcvPlus? || evt.RcvMinus?)
    ensures Posted(steps[..n], c, evt) == Finished(trace[n], c, evt) + |InFlight(trace[n].cbs, c, evt)|
  {
    if n == 0 {
      assert InFlight(trace[0].cbs, c, evt) == {};
    } else {
      EveryEventAccounted(trace, steps, n - 1, c, evt);
      RunKeeps(trace, steps, n - 1);
      FinishedStep(trace[n - 1], steps[n - 1], c, evt);
      assert steps[..n][..n - 1] == steps[..n - 1];
    }
  }

  /** Once its socket is installed and no callback is under way, a connection's rcvevent is the
      RCVPLUS minus the RCVMINUS events since the netconn was allocated, not counting the RCVMINUS
      that arrived before the socket was installed; and no other connection shares the socket. */
  lemma HandOver(trace: seq<State>, steps: seq<Step>, n: nat, c: nat)
    requires Run(trace, steps) && n < |trace| && c in trace[n].conns && trace[n].conns[c].phase.Returned?
    requires InFlight(trace[n].cbs, c, S.RcvPlus) == {} && InFlight(trace[n].cbs, c, S.RcvMinus) == {}
    ensures var (st, conn) := (trace[n], trace[n].conns[c]);
            && Owns(st.slots, conn.phase.slot, c) && conn.socket == conn.phase.slot
            && st.slots[conn.phase.slot].rcvevent
               == S.Wrap16(Posted(steps[..n], c, S.RcvPlus) - Posted(steps[..n], c, S.RcvMinus) + conn.ignored)
            && forall d :: d in st.conns && d != c ==> !HasSlot(st.conns[d].phase, conn.phase.slot)
  {
    RunKeeps(trace, steps, n);
    EveryEventAccounted(trace, steps, n, c, S.RcvPlus);
    EveryEventAccounted(trace, steps, n, c, S.RcvMinus);
  }

  lemma WrapsAlike(x: int, y: nat)
    ensures S.Wrap16(x + y) == S.Wrap16(x) <==> y % 0x1_0000 == 0
  {
  }

  /** The counter equals RCVPLUS minus RCVMINUS exactly when the number of RCVMINUS that found no
      socket is a multiple of the counter's range, so a single such event already breaks it. */
  lemma ConservedExactlyWhen(trace: seq<State>, steps: seq<Step>, n: nat, c: nat)
    requires Run(trace, steps) && n < |trace| && c in trace[n].conns && trace[n].conns[c].phase.Returned?
    requires InFlight(trace[n].cbs, c, S.RcvPlus) == {} && InFlight(trace[n].cbs, c, S.RcvMinus) == {}
    ensures var (st, conn) := (trace[n], trace[n].conns[c]);
            && Owns(st.slots, conn.phase.slot, c)
            && (st.slots[conn.phase.slot].rcvevent
                == S.Wrap16(Posted(steps[..n], c, S.RcvPlus) - Posted(steps[..n], c, S.RcvMinus))
                <==> conn.ignored % 0x1_0000 == 0)
  {
    HandOver(trace, steps, n, c);
    WrapsAlike(Posted(steps[..n], c, S.RcvPlus) - Posted(steps[..n], c, S.RcvMinus), trace[n].conns[c].ignored);
  }

  /** RCVMINUS comes from the application's own reads, so none before its accept returned. */
  ghost predicate ReadsAfterAccept(trace: seq<State>, steps: seq<Step>, c: nat)
    requires Run(trace, steps)
  {
    forall i :: 0 <= i < |steps| && steps[i].Post? && steps[i].c == c && steps[i].evt.RcvMinus? ==>
      trace[i].conns[c].phase.Returned?
  }

  lemma {:induction false} NoneIgnored(trace: seq<State>, steps: seq<Step>, n: nat, c: nat)
    requires Run(trace, steps) && n < |trace| && ReadsAfterAccept(trace, steps, c)
    ensures c in trace[n].conns ==> trace[n].conns[c].ignored == 0
    ensures forall k :: k in trace[n].cbs && trace[n].cbs[k].conn == c && trace[n].cbs[k].evt.RcvMinus? ==>
              c in trace[n].conns && trace[n].conns[c].phase.Returned?
  {
    if n > 0 {
      NoneIgnored(trace, steps, n - 1, c);
      RunKeeps(trace, steps, n - 1);
      assert Enabled(trace[n - 1], steps[n - 1]);
    }
  }

  /** Under that discipline no receive event is lost or counted twice. */
  lemma HandOverConserves(trace: seq<State>, steps: seq<Step>, n: nat, c: nat)
    requires Run(trace, steps) && n < |trace| && c in trace[n].conns && trace[n].conns[c].phase.Returned?
    requires InFlight(trace[n].cbs, c, S.RcvPlus) == {} && InFlight(trace[n].cbs, c, S.RcvMinus) == {}
    requires ReadsAfterAccept(trace, steps, c)
    ensures var st := trace[n];
            && Owns(st.slots, st.conns[c].phase.slot, c)
            && st.slots[st.conns[c].phase.slot].rcvevent
               == S.Wrap16(Posted(steps[..n], c, S.RcvPlus) - Posted(steps[..n], c, S.RcvMinus))
  {
    HandOver(trace, steps, n, c);
    NoneIgnored(trace, steps, n, c);
  }

  // ----- Calls end ------------------------------------------------------------------------

  /** A socket in use stays in use, and alloc_socket has found the slots it has passed in use. */
  ghost predicate PassedInUse(st: State, c: nat)
    requires c in st.conns
  {
    match st.conns[c].phase
    case Alloc(i) => i <= |st.slots| && forall s :: 0 <= s < i ==> st.slots[s].Of?
    case Failed => forall s :: 0 <= s < |st.slots| ==> st.slots[s].Of?
    case _ => true
  }

  lemma SlotsStay(st: State, step: Step)
    requires Enabled(st, step)
    ensures |Next(st, step).slots| == |st.slots|
    ensures forall s :: 0 <= s < |st.slots| && st.slots[s].Of? ==> Next(st, step).slots[s].Of?
  {
  }

  lemma PhaseStays(st: State, step: Step, c: nat)
    requires Enabled(st, step) && c in st.conns && step != Advance(c)
    ensures c in Next(st, step).conns && Next(st, step).conns[c].phase == st.conns[c].phase
  {
  }

  lemma {:induction false} FailsOnlyWhenFull(trace: seq<State>, steps: seq<Step>, n: nat, c: nat)
    requires Run(trace, steps) && n < |trace| && c in trace[n].conns
    ensures PassedInUse(trace[n], c)
  {
    assert n > 0;
    var (st, step) := (trace[n - 1], steps[n - 1]);
    assert Enabled(st, step) && trace[n] == Next(st, step);
    SlotsStay(st, step);
    if c in st.conns {
      FailsOnlyWhenFull(trace, steps, n - 1, c);
      if step != Advance(c) { PhaseStays(st, step, c); }
    }
  }

  predicate Over(p: Phase) { p.Returned? || p.Failed? }

  /** Bounds the steps the accepting thread still has to make. */
  function Rank(p: Phase, slots: nat): nat {
    match p
    case Waiting => slots + 5
    case Alloc(i) => (if i <= slots then slots - i else 0) + 4
    case Init(_) => 3
    case Install(_) => 2
    case _ => 0
  }

  lemma AdvanceRanks(st: State, c: nat)
    requires Inv(st) && c in st.conns && !Over(st.conns[c].phase)
    ensures c in Advanced(st, c).conns
    ensures Rank(Advanced(st, c).conns[c].phase, |st.slots|) < Rank(st.conns[c].phase, |st.slots|)
  {
    assert ConnInv(st.slots, c, st.conns[c]);
  }

  function Advances(steps: seq<Step>, m: nat, n: nat, c: nat): nat
    requires m <= n <= |steps|
  {
    if n == m then 0 else Advances(steps, m, n - 1, c) + if steps[n - 1] == Advance(c) then 1 else 0
  }

  lemma {:induction false} RankFalls(trace: seq<State>, steps: seq<Step>, m: nat, n: nat, c: nat)
    requires Run(trace, steps) && m <= n < |trace| && c in trace[m].conns
    ensures c in trace[n].conns && |trace[n].slots| == |trace[m].slots|
    ensures Over(trace[n].conns[c].phase) ||
            Rank(trace[n].conns[c].phase, |trace[m].slots|) + Advances(steps, m, n, c)
            <= Rank(trace[m].conns[c].phase, |trace[m].slots|)
  {
    if n > m {
      var (st, step) := (trace[n - 1], steps[n - 1]);
      RankFalls(trace, steps, m, n - 1, c);
      RunKeeps(trace, steps, n - 1);
      assert Enabled(st, step) && trace[n] == Next(st, step);
      SlotsStay(st, step);
      if step != Advance(c) { PhaseStays(st, step, c); } else if !Over(st.conns[c].phase) { AdvanceRanks(st, c); }
    }
  }

  /** lwip_accept returns a socket or fails after at most one step per slot and five more; and it fails
      only if every slot is in use. */
  lemma AcceptEnds(trace: seq<State>, steps: seq<Step>, m: nat, n: nat, c: nat)
    requires Run(trace, steps) && m <= n < |trace| && c in trace[m].conns
    requires Advances(steps, m, n, c) >= |trace[m].slots| + 5
    ensures c in trace[n].conns && |trace[n].slots| == |trace[m].slots|
    ensures var p := trace[n].conns[c].phase;
            p.Returned? || (p.Failed? && forall s :: 0 <= s < |trace[n].slots| ==> trace[n].slots[s].Of?)
  {
    RankFalls(trace, steps, m, n, c);
    FailsOnlyWhenFull(trace, steps, n, c);
  }

  // ----- An event that is ignored ---------------------------------------------------------

  const MINUS := Callback(0, S.RcvMinus, Read)

  /** A connection to which one RCVMINUS was posted, of `minus` finished and all of these ignored. */
  function MinusState(p: Phase, minus: nat, slot: Slot, cbs: map<nat, Callback>): State {
    State(map[0 := Conn(if p.Returned? then 0 else -1, p, 0, minus, minus)], [slot], cbs)
  }

  function IgnoringTrace(): seq<State> {
    [State(map[], [Free], map[]),
     MinusState(Waiting, 0, Free, map[]),
     MinusState(Waiting, 0, Free, map[0 := MINUS]),
     MinusState(Waiting, 0, Free, map[0 := MINUS.(at := Recheck)]),
     MinusState(Waiting, 1, Free, map[]),
     MinusState(Alloc(0), 1, Free, map[]),
     MinusState(Init(0), 1, Of(0, 0), map[]),
     MinusState(Install(0), 1, Of(0, 0), map[]),
     MinusState(Returned(0), 1, Of(0, 0), map[])]
  }

  function IgnoringSteps(): seq<Step> {
    [NewConn(0), Post(0, 0, S.RcvMinus), Resume(0), Resume(0), Advance(0), Advance(0), Advance(0), Advance(0)]
  }

  ghost predicate StepsTo(st: State, step: Step, st': State) { Enabled(st, step) && st' == Next(st, step) }

  lemma EventIsIgnored()
    ensures forall i :: 0 <= i < 4 ==> StepsTo(IgnoringTrace()[i], IgnoringSteps()[i], IgnoringTrace()[i + 1])
  {
    var (trace, steps) := (IgnoringTrace(), IgnoringSteps());
    assert Next(trace[2], steps[2]).cbs == trace[3].cbs;
    assert Next(trace[3], steps[3]).cbs == trace[4].cbs;
    assert StepsTo(trace[0], steps[0], trace[1]) && StepsTo(trace[1], steps[1], trace[2]);
    assert StepsTo(trace[2], steps[2], trace[3]) && StepsTo(trace[3], steps[3], trace[4]);
  }

  lemma SocketIsInstalled()
    ensures forall i :: 4 <= i < 8 ==> StepsTo(IgnoringTrace()[i], IgnoringSteps()[i], IgnoringTrace()[i + 1])
  {
    var (trace, steps) := (IgnoringTrace(), IgnoringSteps());
    assert StepsTo(trace[4], steps[4], trace[5]) && StepsTo(trace[5], steps[5], trace[6]);
    assert StepsTo(trace[6], steps[6], trace[7]) && StepsTo(trace[7], steps[7], trace[8]);
  }

  /** A RCVMINUS posted while the socket is still counted down is lost: the counter is 0, not the
      -1 that one RCVMINUS and no RCVPLUS make. */
  lemma RunThatIgnores()
    ensures var (trace, steps) := (IgnoringTrace(), IgnoringSteps());
            && Run(trace, steps) && trace[8].conns[0] == Conn(0, Returned(0), 0, 1, 1) && trace[8].cbs == map[]
            && trace[8].slots == [Of(0, 0)]
            && S.Wrap16(Posted(steps, 0, S.RcvPlus) - Posted(steps, 0, S.RcvMinus)) != 0
  {
    var (trace, steps) := (IgnoringTrace(), IgnoringSteps());
    EventIsIgnored();
    SocketIsInstalled();
    forall i | 0 <= i < |steps|
      ensures Enabled(trace[i], steps[i]) && trace[i + 1] == Next(trace[i], steps[i])
    {
      assert StepsTo(trace[i], steps[i], trace[i + 1]);
    }
    EveryEventAccounted(trace, steps, 8, 0, S.RcvPlus);
    EveryEventAccounted(trace, steps, 8, 0, S.RcvMinus);
    assert steps[..8] == steps;
    assert InFlight(trace[8].cbs, 0, S.RcvPlus) == {} && InFlight(trace[8].cbs, 0, S.RcvMinus) == {};
  }
}

/** How lwip_select and event_callback come to an end, what wakes a call, and what the events of a
    socket are, over every run. */
module SelectProgress {
  import opened Lists
  import opened Select

  // ----- Calls end ------------------------------------------------------------------------

  function Stage(p: Phase): nat {
    match p
    case Scan(pass, _) => if pass == 1 then 8 else if pass == 2 then 5 else 1
    case Link => 7
    case Inc(_) => 6
    case Wait => 4
    case Dec(_) => 3
    case Unlink => 2
    case Returned => 0
    case Failed => 0
  }

  function Left(p: Phase, max: nat): nat {
    var i := match p case Scan(_, i) => i case Inc(i) => i case Dec(i) => i case _ => max;
    if i <= max then max - i else 0
  }

  /** Bounds the critical sections a call still has to go through. */
  function Rank(sel: Sel): nat { Stage(sel.phase) * (sel.maxfdp1 + 2) + Left(sel.phase, sel.maxfdp1) }

  predicate Over(sel: Sel) { sel.phase.Returned? || sel.phase.Failed? }

  /** The call waits, was not signalled, and its time is not up. */
  predicate Sleeps(sel: Sel, timeout: bool) { sel.phase.Wait? && !timeout && !sel.signalled }

  lemma MoveRanks(sel: Sel, socks: map<nat, Sock>, timeout: bool)
    requires (sel.phase.Scan? ==> 1 <= sel.phase.pass <= 3) && !Over(sel) && !Sleeps(sel, timeout)
    ensures Rank(Moved(sel, socks, timeout)) < Rank(sel)
  {
  }

  /** Passes are numbered 1 to 3. */
  predicate GoodPass(sel: Sel) { sel.phase.Scan? ==> 1 <= sel.phase.pass <= 3 }

  lemma MoveStays(sel: Sel, socks: map<nat, Sock>, timeout: bool)
    requires GoodPass(sel)
    ensures var sel' := Moved(sel, socks, timeout);
            GoodPass(sel') && sel'.maxfdp1 == sel.maxfdp1 && (Over(sel) || Sleeps(sel, timeout) ==> sel' == sel)
  {
  }

  lemma OthersStay(st: State, step: Step, c: nat)
    requires Enabled(st, step) && c in st.sels && !(step.Advance? && step.c == c)
    ensures c in Next(st, step).sels
    ensures var (sel, sel') := (st.sels[c], Next(st, step).sels[c]);
            sel'.phase == sel.phase && sel'.maxfdp1 == sel.maxfdp1
  {
  }

  lemma StepRanks(st: State, step: Step, c: nat)
    requires Enabled(st, step) && c in st.sels && GoodPass(st.sels[c])
    ensures c in Next(st, step).sels
    ensures var (sel, sel') := (st.sels[c], Next(st, step).sels[c]);
            && GoodPass(sel') && sel'.maxfdp1 == sel.maxfdp1 && (Over(sel) ==> Over(sel'))
            && Rank(sel') <= Rank(sel)
            && (step.Advance? && step.c == c && !Over(sel) && !Sleeps(sel, step.timeout) ==> Rank(sel') < Rank(sel))
  {
    if step.Advance? && step.c == c {
      var sel := st.sels[c];
      MoveStays(sel, st.socks, step.timeout);
      if !Over(sel) && !Sleeps(sel, step.timeout) { MoveRanks(sel, st.socks, step.timeout); }
    } else {
      OthersStay(st, step, c);
    }
  }

  /** The steps m..n in which call c moves on. */
  function Moves(trace: seq<State>, steps: seq<Step>, m: nat, n: nat, c: nat): nat
    requires m <= n <= |steps| < |trace|
  {
    if n == m then 0
    else
      var (st, step) := (trace[n - 1], steps[n - 1]);
      Moves(trace, steps, m, n - 1, c)
      + if step.Advance? && step.c == c && c in st.sels && !Sleeps(st.sels[c], step.timeout) then 1 else 0
  }

  lemma {:induction false} PassesGood(trace: seq<State>, steps: seq<Step>, n: nat, c: nat)
    requires Run(trace, steps) && n < |trace| && c in trace[n].sels
    ensures GoodPass(trace[n].sels[c])
  {
    assert n > 0;
    assert Enabled(trace[n - 1], steps[n - 1]) && trace[n] == Next(trace[n - 1], steps[n - 1]);
    if c in trace[n - 1].sels {
      PassesGood(trace, steps, n - 1, c);
      StepRanks(trace[n - 1], steps[n - 1], c);
    }
  }

  lemma RankStep(trace: seq<State>, steps: seq<Step>, n: nat, c: nat)
    requires n < |steps| && |trace| == |steps| + 1 && Enabled(trace[n], steps[n]) && c in trace[n].sels
    requires trace[n + 1] == Next(trace[n], steps[n]) && GoodPass(trace[n].sels[c])
    ensures c in trace[n + 1].sels
    ensures var (sel, sel') := (trace[n].sels[c], trace[n + 1].sels[c]);
            sel'.maxfdp1 == sel.maxfdp1
            && (Over(sel') || (!Over(sel) && Rank(sel') + Moves(trace, steps, n, n + 1, c) <= Rank(sel)))
  {
    assert Moves(trace, steps, n, n, c) == 0;
    StepRanks(trace[n], steps[n], c);
  }

  lemma MovesAdd(trace: seq<State>, steps: seq<Step>, m: nat, n: nat, c: nat)
    requires m <= n < |steps| < |trace|
    ensures Moves(trace, steps, m, n + 1, c) == Moves(trace, steps, m, n, c) + Moves(trace, steps, n, n + 1, c)
  {
    assert Moves(trace, steps, n, n, c) == 0;
  }

  lemma {:induction false} RankFalls(trace: seq<State>, steps: seq<Step>, m: nat, n: nat, c: nat)
    requires Run(trace, steps) && m <= n < |trace| && c in trace[m].sels
    ensures c in trace[n].sels && trace[n].sels[c].maxfdp1 == trace[m].sels[c].maxfdp1
    ensures Over(trace[n].sels[c]) || Rank(trace[n].sels[c]) + Moves(trace, steps, m, n, c) <= Rank(trace[m].sels[c])
  {
    if n > m {
      RankFalls(trace, steps, m, n - 1, c);
      PassesGood(trace, steps, n - 1, c);
      assert Enabled(trace[n - 1], steps[n - 1]) && trace[n] == Next(trace[n - 1], steps[n - 1]);
      RankStep(trace, steps, n - 1, c);
      MovesAdd(trace, steps, m, n - 1, c);
    }
  }

  lemma RankBound(sel: Sel)
    ensures Rank(sel) < 9 * (sel.maxfdp1 + 2)
    ensures Rank(sel) == 0 ==> Over(sel)
  {
  }

  /** A call is over after at most 9 * (maxfdp1 + 2) steps of its own, not counting those in which it
      waits unsignalled for its time to be up. */
  lemma CallEnds(trace: seq<State>, steps: seq<Step>, m: nat, n: nat, c: nat)
    requires Run(trace, steps) && m <= n < |trace| && c in trace[m].sels
    requires Moves(trace, steps, m, n, c) >= 9 * (trace[m].sels[c].maxfdp1 + 2)
    ensures c in trace[n].sels && Over(trace[n].sels[c])
  {
    RankFalls(trace, steps, m, n, c);
    RankBound(trace[m].sels[c]);
  }

  // ----- Callbacks end --------------------------------------------------------------------

  /** Entries callback k has still to look at, the list staying as it is. */
  function Ahead(st: State, k: nat): nat
    requires k in st.cbs
  {
    if st.cbs[k].last != st.ctr then |st.order| + 1 else |st.order| - Index(st.order, st.cbs[k].pos)
  }

  lemma ResumeGoesAhead(st: State, k: nat)
    requires ListInv(st) && WalkInv(st) && k in st.cbs
    ensures Enabled(st, Resume(k))
    ensures var st' := Next(st, Resume(k));
            && st'.order == st.order && st'.ctr == st.ctr
            && (k in st'.cbs ==> Ahead(st', k) < Ahead(st, k))
  {
    var i := ResumesAt(st, k);
    if i < |st.order| { IndexOfElement(st.order, i); }
  }

  function Resumes(steps: seq<Step>, m: nat, n: nat, k: nat): nat
    requires m <= n <= |steps|
  {
    if n == m then 0 else Resumes(steps, m, n - 1, k) + if steps[n - 1] == Resume(k) then 1 else 0
  }

  lemma AdvanceLeavesWalk(st: State, c: nat, timeout: bool)
    requires c in st.sels && Advanced(st, c, timeout).ctr == st.ctr
    ensures Advanced(st, c, timeout).cbs == st.cbs && Advanced(st, c, timeout).order == st.order
  {
  }

  lemma VisitLeavesOthers(st: State, k: nat, s: nat, i: nat)
    requires s in st.socks
    ensures var st' := Visit(st, k, s, i);
            st'.order == st.order && forall l :: l in st.cbs && l != k ==> l in st'.cbs && st'.cbs[l] == st.cbs[l]
  {
  }

  lemma StepLeavesWalk(st: State, step: Step, k: nat)
    requires Enabled(st, step) && k in st.cbs && step != Resume(k)
    requires Next(st, step).ctr == st.ctr
    ensures var st' := Next(st, step); k in st'.cbs && st'.cbs[k] == st.cbs[k] && st'.order == st.order
  {
    match step
    case Advance(c, timeout) => AdvanceLeavesWalk(st, c, timeout);
    case Post(l, s, evt) =>
      VisitLeavesOthers(st.(socks := st.socks[s := WithEvent(st.socks[s], evt)]), l, s, 0);
    case Resume(l) => VisitLeavesOthers(st, l, st.cbs[l].s, ResumesAt(st, l));
    case _ =>
  }

  lemma CtrGrows(st: State, step: Step)
    requires Enabled(st, step)
    ensures st.ctr <= Next(st, step).ctr
  {
  }

  lemma {:induction false} CtrMonotone(trace: seq<State>, steps: seq<Step>, m: nat, n: nat)
    requires Run(trace, steps) && m <= n < |trace|
    ensures trace[m].ctr <= trace[n].ctr
  {
    if n > m {
      CtrMonotone(trace, steps, m, n - 1);
      assert Enabled(trace[n - 1], steps[n - 1]) && trace[n] == Next(trace[n - 1], steps[n - 1]);
      CtrGrows(trace[n - 1], steps[n - 1]);
    }
  }

  lemma WalkStep(st: State, step: Step, k: nat)
    requires Inv(st) && Enabled(st, step) && k in st.cbs && Next(st, step).ctr == st.ctr
    ensures var st' := Next(st, step);
            && st'.order == st.order
            && (k in st'.cbs ==> Ahead(st', k) + (if step == Resume(k) then 1 else 0) <= Ahead(st, k))
  {
    if step == Resume(k) { ResumeGoesAhead(st, k); } else { StepLeavesWalk(st, step, k); }
  }

  /** While the list stays as it is, a callback under way at m has ended, or has used up its entries. */
  lemma {:induction false} WalkFalls(trace: seq<State>, steps: seq<Step>, m: nat, n: nat, k: nat)
    requires Run(trace, steps) && m <= n < |trace| && trace[n].ctr == trace[m].ctr
    requires forall t :: m <= t <= n ==> k in trace[t].cbs
    ensures trace[n].order == trace[m].order && Ahead(trace[n], k) + Resumes(steps, m, n, k) <= Ahead(trace[m], k)
  {
    if n > m {
      CtrMonotone(trace, steps, m, n - 1);
      CtrMonotone(trace, steps, n - 1, n);
      WalkFalls(trace, steps, m, n - 1, k);
      RunKeeps(trace, steps, n - 1);
      assert Enabled(trace[n - 1], steps[n - 1]) && trace[n] == Next(trace[n - 1], steps[n - 1]);
      WalkStep(trace[n - 1], steps[n - 1], k);
    }
  }

  /** A callback ends after at most |select_cb_list| + 2 looks, once the list stays as it is. */
  lemma CallbackEnds(trace: seq<State>, steps: seq<Step>, m: nat, n: nat, k: nat)
    requires Run(trace, steps) && m <= n < |trace| && trace[n].ctr == trace[m].ctr
    requires k in trace[m].cbs && Resumes(steps, m, n, k) >= |trace[m].order| + 2
    ensures exists t :: m <= t <= n && k !in trace[t].cbs
  {
    if forall t :: m <= t <= n ==> k in trace[t].cbs { WalkFalls(trace, steps, m, n, k); }
  }

  // ----- What wakes a call ----------------------------------------------------------------

  /** A callback for socket s, walking the list in step t. */
  ghost predicate WalksFor(trace: seq<State>, steps: seq<Step>, t: nat, s: nat) {
    && t < |steps| && t + 1 < |trace|
    && ((steps[t].Post? && steps[t].s == s)
        || (steps[t].Resume? && steps[t].k in trace[t].cbs && trace[t].cbs[steps[t].k].s == s))
  }

  /** In step t a callback found call c in the list, its socket having an event the call asked for. */
  ghost predicate Cause(trace: seq<State>, steps: seq<Step>, t: nat, c: nat, s: nat, sel: Sel) {
    && WalksFor(trace, steps, t, s) && c in trace[t].order && s in trace[t + 1].socks
    && var sock := trace[t + 1].socks[s];
       || (s in sel.readset && sock.rcvevent > 0)
       || (s in sel.writeset && sock.sendevent)
       || (s in sel.exceptset && sock.errevent)
  }

  predicate SameSets(a: Sel, b: Sel) {
    a.readset == b.readset && a.writeset == b.writeset && a.exceptset == b.exceptset
  }

  lemma MoveKeepsSets(sel: Sel, socks: map<nat, Sock>, timeout: bool)
    ensures SameSets(sel, Moved(sel, socks, timeout)) && Moved(sel, socks, timeout).signalled == sel.signalled
  {
  }

  lemma VisitSignals(st: State, k: nat, s: nat, i: nat, c: nat)
    requires s in st.socks && c in st.sels
    ensures var st' := Visit(st, k, s, i);
            && c in st'.sels && SameSets(st.sels[c], st'.sels[c]) && st'.socks == st.socks
            && (st'.sels[c].signalled && !st.sels[c].signalled ==>
                  c in st.order
                  && ((s in st.sels[c].readset && st.socks[s].rcvevent > 0)
                      || (s in st.sels[c].writeset && st.socks[s].sendevent)
                      || (s in st.sels[c].exceptset && st.socks[s].errevent)))
  {
  }

  lemma PostSignals(trace: seq<State>, steps: seq<Step>, t: nat, c: nat)
    requires t < |steps| && |trace| == |steps| + 1 && Enabled(trace[t], steps[t]) && c in trace[t].sels
    requires trace[t + 1] == Next(trace[t], steps[t]) && steps[t].Post?
    ensures c in trace[t + 1].sels && SameSets(trace[t].sels[c], trace[t + 1].sels[c])
    ensures trace[t + 1].sels[c].signalled && !trace[t].sels[c].signalled ==>
              Cause(trace, steps, t, c, steps[t].s, trace[t].sels[c])
  {
    var (st, Post(k, s, evt)) := (trace[t], steps[t]);
    VisitSignals(st.(socks := st.socks[s := WithEvent(st.socks[s], evt)]), k, s, 0, c);
  }

  lemma ResumeSignals(trace: seq<State>, steps: seq<Step>, t: nat, c: nat)
    requires t < |steps| && |trace| == |steps| + 1 && Enabled(trace[t], steps[t]) && c in trace[t].sels
    requires trace[t + 1] == Next(trace[t], steps[t]) && steps[t].Resume?
    ensures c in trace[t + 1].sels && SameSets(trace[t].sels[c], trace[t + 1].sels[c])
    ensures trace[t + 1].sels[c].signalled && !trace[t].sels[c].signalled ==>
              Cause(trace, steps, t, c, trace[t].cbs[steps[t].k].s, trace[t].sels[c])
  {
    var (st, k) := (trace[t], steps[t].k);
    ResumeVisits(st, k);
    VisitSignals(st, k, st.cbs[k].s, ResumesAt(st, k), c);
  }

  lemma StepSignals(trace: seq<State>, steps: seq<Step>, t: nat, c: nat)
    requires t < |steps| && |trace| == |steps| + 1 && Enabled(trace[t], steps[t]) && c in trace[t].sels
    requires trace[t + 1] == Next(trace[t], steps[t])
    ensures c in trace[t + 1].sels && SameSets(trace[t].sels[c], trace[t + 1].sels[c])
    ensures trace[t + 1].sels[c].signalled && !trace[t].sels[c].signalled ==>
              exists s: nat :: Cause(trace, steps, t, c, s, trace[t].sels[c])
  {
    match steps[t]
    case Advance(d, timeout) => if d == c { MoveKeepsSets(trace[t].sels[c], trace[t].socks, timeout); }
    case Post(_, _, _) => PostSignals(trace, steps, t, c);
    case Resume(_) => ResumeSignals(trace, steps, t, c);
    case _ =>
  }

  /** No call is woken for nothing: if it was signalled, a callback came by while it was in the list,
      for a socket with an event that it asked for. */
  lemma {:induction false} SignalledForCause(trace: seq<State>, steps: seq<Step>, n: nat, c: nat)
    returns (t: nat, s: nat)
    requires Run(trace, steps) && n < |trace| && c in trace[n].sels && trace[n].sels[c].signalled
    ensures t < n && Cause(trace, steps, t, c, s, trace[n].sels[c])
  {
    assert n > 0;
    assert Enabled(trace[n - 1], steps[n - 1]) && trace[n] == Next(trace[n - 1], steps[n - 1]);
    assert c in trace[n - 1].sels;
    StepSignals(trace, steps, n - 1, c);
    if trace[n - 1].sels[c].signalled {
      t, s := SignalledForCause(trace, steps, n - 1, c);
    } else {
      t := n - 1;
      s :| Cause(trace, steps, t, c, s, trace[t].sels[c]);
    }
  }

  // ----- The events of a socket -----------------------------------------------------------

  /** Callbacks for an event of socket s. */
  function Posts(steps: seq<Step>, n: nat, s: nat, evt: Event): nat
    requires n <= |steps|
  {
    if n == 0 then 0
    else
      var step := steps[n - 1];
      Posts(steps, n - 1, s, evt) + if step.Post? && step.s == s && step.evt == evt then 1 else 0
  }

  /** The last that was said about room to send: by a callback, or when the socket was made. */
  function CanSend(steps: seq<Step>, n: nat, s: nat): bool
    requires n <= |steps|
  {
    if n == 0 then false
    else
      match steps[n - 1]
      case OpenSocket(s', sendevent) => if s' == s then sendevent else CanSend(steps, n - 1, s)
      case Post(_, s', evt) =>
        if s' == s && evt.SendPlus? then true
        else if s' == s && evt.SendMinus? then false
        else CanSend(steps, n - 1, s)
      case _ => CanSend(steps, n - 1, s)
  }

  function HasRest(steps: seq<Step>, n: nat, s: nat): bool
    requires n <= |steps|
  {
    if n == 0 then false
    else
      match steps[n - 1]
      case OpenSocket(s', _) => if s' == s then false else HasRest(steps, n - 1, s)
      case Lastdata(s', left) => if s' == s then left else HasRest(steps, n - 1, s)
      case _ => HasRest(steps, n - 1, s)
  }

  /** What one step does to the events of a socket. */
  predicate Became(sock: Sock, sock': Sock, step: Step, s: nat) {
    var mine := step.Post? && step.s == s;
    && sock'.rcvevent == (if mine && step.evt.RcvPlus? then Wrap16(sock.rcvevent + 1)
                          else if mine && step.evt.RcvMinus? then Wrap16(sock.rcvevent - 1)
                          else sock.rcvevent)
    && sock'.sendevent == (if mine && step.evt.SendPlus? then true
                           else if mine && step.evt.SendMinus? then false else sock.sendevent)
    && sock'.errevent == (sock.errevent || (mine && step.evt.Error?))
    && sock'.lastdata == (if step.Lastdata? && step.s == s then step.left else sock.lastdata)
  }

  lemma SockStep(st: State, step: Step, s: nat)
    requires Enabled(st, step) && s in Next(st, step).socks
    ensures var sock' := Next(st, step).socks[s];
            if s !in st.socks then
              step.OpenSocket? && step.s == s && sock' == Sock(0, step.sendevent, false, false, 0)
            else
              !(step.OpenSocket? && step.s == s) && Became(st.socks[s], sock', step, s)
  {
    match step
    case Advance(c, timeout) => AdvanceLeavesEvents(st, c, timeout, s);
    case _ =>
  }

  lemma AdvanceLeavesEvents(st: State, c: nat, timeout: bool, s: nat)
    requires c in st.sels && s in Advanced(st, c, timeout).socks
    ensures var sock' := Advanced(st, c, timeout).socks[s];
            s in st.socks && sock' == st.socks[s].(waiting := sock'.waiting)
  {
  }

  lemma WrapStep(x: int, y: int)
    ensures Wrap16(Wrap16(x) + y) == Wrap16(x + y)
  {
  }

  lemma SocketsStay(st: State, step: Step, s: nat)
    requires Enabled(st, step) && s in st.socks
    ensures s in Next(st, step).socks
  {
  }

  lemma {:induction false} NoPostsBefore(trace: seq<State>, steps: seq<Step>, n: nat, s: nat, evt: Event)
    requires Run(trace, steps) && n < |trace| && s !in trace[n].socks
    ensures Posts(steps, n, s, evt) == 0
  {
    if n > 0 {
      assert Enabled(trace[n - 1], steps[n - 1]) && trace[n] == Next(trace[n - 1], steps[n - 1]);
      if s in trace[n - 1].socks {
        SocketsStay(trace[n - 1], steps[n - 1], s);
        assert false;
      }
      NoPostsBefore(trace, steps, n - 1, s, evt);
    }
  }

  predicate Counts(sock: Sock, steps: seq<Step>, n: nat, s: nat)
    requires n <= |steps|
  {
    && sock.rcvevent == Wrap16(Posts(steps, n, s, RcvPlus) - Posts(steps, n, s, RcvMinus))
    && sock.sendevent == CanSend(steps, n, s)
    && (sock.errevent <==> Posts(steps, n, s, Error) > 0)
    && sock.lastdata == HasRest(steps, n, s)
  }

  lemma CountsStep(sock: Sock, sock': Sock, steps: seq<Step>, n: nat, s: nat)
    requires 0 < n <= |steps| && Counts(sock, steps, n - 1, s)
    requires Became(sock, sock', steps[n - 1], s) && !(steps[n - 1].OpenSocket? && steps[n - 1].s == s)
    ensures Counts(sock', steps, n, s)
  {
    var net := Posts(steps, n - 1, s, RcvPlus) - Posts(steps, n - 1, s, RcvMinus);
    WrapStep(net, 1);
    WrapStep(net, -1);
  }

  lemma CountsStart(sock: Sock, steps: seq<Step>, n: nat, s: nat)
    requires 0 < n <= |steps| && steps[n - 1].OpenSocket? && steps[n - 1].s == s
    requires sock == Sock(0, steps[n - 1].sendevent, false, false, 0)
    requires Posts(steps, n - 1, s, RcvPlus) == Posts(steps, n - 1, s, RcvMinus) == Posts(steps, n - 1, s, Error) == 0
    ensures Counts(sock, steps, n, s)
  {
  }

  /** At every point of every run: rcvevent counts RCVPLUS up and RCVMINUS down, in 16 bits; sendevent
      is what was said last; an error stays; and lastdata is what the last read left. */
  lemma {:induction false} EventsAreCounted(trace: seq<State>, steps: seq<Step>, n: nat, s: nat)
    requires Run(trace, steps) && n < |trace| && s in trace[n].socks
    ensures Counts(trace[n].socks[s], steps, n, s)
  {
    assert n > 0;
    var (st, step) := (trace[n - 1], steps[n - 1]);
    assert Enabled(st, step) && trace[n] == Next(st, step);
    SockStep(st, step, s);
    if s in st.socks {
      EventsAreCounted(trace, steps, n - 1, s);
      CountsStep(st.socks[s], trace[n].socks[s], steps, n, s);
    } else {
      NoPostsBefore(trace, steps, n - 1, s, RcvPlus);
      NoPostsBefore(trace, steps, n - 1, s, RcvMinus);
      NoPostsBefore(trace, steps, n - 1, s, Error);
      CountsStart(trace[n].socks[s], steps, n, s);
    }
  }
}

/** What a finished lwip_select reports, over every run: which scans it made and where it was linked
    meanwhile, what the last scan saw, and why it stopped waiting. */
module SelectAnswer {
  import opened Lists
  import opened Select
  import opened SelectList

  // ----- The scans of a call --------------------------------------------------------------

  /** In step t call c looks at socket i in its scan number j, counted from 0. */
  ghost predicate Looks(trace: seq<State>, steps: seq<Step>, t: nat, c: nat, j: nat, i: nat) {
    && t < |steps| < |trace| && steps[t].Advance? && steps[t].c == c
    && c in trace[t].sels && trace[t].sels[c].phase == Scan(j + 1, i) && i < trace[t].sels[c].maxfdp1
  }

  function Last<T>(list: seq<T>): T
    requires list != []
  {
    list[|list| - 1]
  }

  /** The scans c has begun in the first n steps, each as the steps in which it looked at the sockets. */
  function Scans(trace: seq<State>, steps: seq<Step>, n: nat, c: nat): seq<seq<nat>>
    requires n <= |steps| < |trace|
  {
    if n == 0 then []
    else
      var (scans, st, step) := (Scans(trace, steps, n - 1, c), trace[n - 1], steps[n - 1]);
      if step.Advance? && step.c == c && c in st.sels then ScansNext(scans, st.sels[c], n - 1) else scans
  }

  /** The call moves on in step t. */
  function ScansNext(scans: seq<seq<nat>>, sel: Sel, t: nat): seq<seq<nat>> {
    if sel.phase.Scan? then
      var (i, max) := (sel.phase.i, sel.maxfdp1);
      if i == 0 then scans + [if max > 0 then [t] else []]
      else if i < max && scans != [] then scans[|scans| - 1 := Last(scans) + [t]]
      else scans
    else scans
  }

  // ----- What a scan sees -----------------------------------------------------------------

  /** Whether socket i had the event when the scan looked at it. */
  function ReadHits(trace: seq<State>, looks: seq<nat>): seq<bool> {
    seq(|looks|, i requires 0 <= i < |looks| => looks[i] < |trace| && ReadReady(i, trace[looks[i]].socks))
  }

  function WriteHits(trace: seq<State>, looks: seq<nat>): seq<bool> {
    seq(|looks|, i requires 0 <= i < |looks| => looks[i] < |trace| && WriteReady(i, trace[looks[i]].socks))
  }

  function ExceptHits(trace: seq<State>, looks: seq<nat>): seq<bool> {
    seq(|looks|, i requires 0 <= i < |looks| => looks[i] < |trace| && ExceptReady(i, trace[looks[i]].socks))
  }

  /** The members of `fds` with a hit. */
  function Hit(fds: set<nat>, hits: seq<bool>): set<nat> { set i | i in fds && i < |hits| && hits[i] }

  lemma HitNext(fds: set<nat>, hits: seq<bool>, b: bool)
    ensures Hit(fds, hits + [b]) == Hit(fds, hits) + if |hits| in fds && b then {|hits|} else {}
    ensures |Hit(fds, hits + [b])| == |Hit(fds, hits)| + if |hits| in fds && b then 1 else 0
  {
    assert Hit(fds, hits + [b]) == Hit(fds, hits) + if |hits| in fds && b then {|hits|} else {};
  }

  /** The sets and the count of a call are what these looks saw. */
  predicate Tally(sel: Sel, trace: seq<State>, looks: seq<nat>) {
    && sel.lread == Hit(sel.readset, ReadHits(trace, looks))
    && sel.lwrite == Hit(sel.writeset, WriteHits(trace, looks))
    && sel.lexcept == Hit(sel.exceptset, ExceptHits(trace, looks))
    && sel.nready == |sel.lread| + |sel.lwrite| + |sel.lexcept|
  }

  predicate Quiet(sel: Sel, trace: seq<State>, looks: seq<nat>) {
    && Hit(sel.readset, ReadHits(trace, looks)) == {}
    && Hit(sel.writeset, WriteHits(trace, looks)) == {}
    && Hit(sel.exceptset, ExceptHits(trace, looks)) == {}
  }

  lemma TallyNone(sel: Sel, trace: seq<State>)
    ensures Tally(sel.(lread := {}, lwrite := {}, lexcept := {}, nready := 0), trace, [])
  {
  }

  lemma TallyQuiet(sel: Sel, trace: seq<State>, looks: seq<nat>)
    requires Tally(sel, trace, looks)
    ensures sel.nready == 0 <==> Quiet(sel, trace, looks)
  {
  }

  lemma HitsNext(trace: seq<State>, looks: seq<nat>, t: nat)
    requires t < |trace|
    ensures ReadHits(trace, looks + [t]) == ReadHits(trace, looks) + [ReadReady(|looks|, trace[t].socks)]
    ensures WriteHits(trace, looks + [t]) == WriteHits(trace, looks) + [WriteReady(|looks|, trace[t].socks)]
    ensures ExceptHits(trace, looks + [t]) == ExceptHits(trace, looks) + [ExceptReady(|looks|, trace[t].socks)]
  {
  }

  /** The look of the scan, set by set. */
  lemma LookParts(sel: Sel, i: nat, socks: map<nat, Sock>)
    ensures var (r, w, e) := (i in sel.readset && ReadReady(i, socks), i in sel.writeset && WriteReady(i, socks),
                              i in sel.exceptset && ExceptReady(i, socks));
            && Look(sel, i, socks).lread == sel.lread + (if r then {i} else {})
            && Look(sel, i, socks).lwrite == sel.lwrite + (if w then {i} else {})
            && Look(sel, i, socks).lexcept == sel.lexcept + (if e then {i} else {})
            && Look(sel, i, socks).nready
               == sel.nready + (if r then 1 else 0) + (if w then 1 else 0) + (if e then 1 else 0)
  {
  }

  lemma TallyNext(sel: Sel, trace: seq<State>, looks: seq<nat>, t: nat)
    requires Tally(sel, trace, looks) && t < |trace|
    ensures Tally(Look(sel, |looks|, trace[t].socks), trace, looks + [t])
  {
    var (i, socks) := (|looks|, trace[t].socks);
    HitsNext(trace, looks, t);
    LookParts(sel, i, socks);
    HitNext(sel.readset, ReadHits(trace, looks), ReadReady(i, socks));
    HitNext(sel.writeset, WriteHits(trace, looks), WriteReady(i, socks));
    HitNext(sel.exceptset, ExceptHits(trace, looks), ExceptReady(i, socks));
  }

  // ----- The story of a call --------------------------------------------------------------

  /** sys_arch_sem_wait of call c came to an end: by its time-out, or because a callback signalled. */
  ghost predicate TimedOut(trace: seq<State>, steps: seq<Step>, n: nat, c: nat) {
    exists t :: 0 <= t < n && WaitEnds(trace, steps, t, c, true)
  }

  ghost predicate Woken(trace: seq<State>, steps: seq<Step>, n: nat, c: nat) {
    exists t :: 0 <= t < n && WaitEnds(trace, steps, t, c, false) && trace[t].sels[c].signalled
  }

  ghost predicate WaitEnds(trace: seq<State>, steps: seq<Step>, t: nat, c: nat, timeout: bool) {
    && t < |steps| < |trace| && steps[t] == Advance(c, timeout)
    && c in trace[t].sels && trace[t].sels[c].phase.Wait?
  }

  ghost predicate NeverLinked(trace: seq<State>, n: nat, c: nat) {
    forall t :: 0 <= t <= n && t < |trace| ==> c !in trace[t].order
  }

  /** Every look recorded is one, of its scan at its socket. */
  ghost predicate AllLooks(trace: seq<State>, steps: seq<Step>, n: nat, c: nat, scans: seq<seq<nat>>) {
    forall j, i :: 0 <= j < |scans| && 0 <= i < |scans[j]| ==>
      scans[j][i] < n && Looks(trace, steps, scans[j][i], c, j, i)
  }

  /** The looks of the scan under way, or done last. */
  function Current(sel: Sel, scans: seq<seq<nat>>): seq<nat> {
    if scans == [] || (sel.phase.Scan? && sel.phase.i == 0) then [] else Last(scans)
  }

  predicate Complete(sel: Sel, scans: seq<seq<nat>>) {
    && (forall j :: 0 <= j < |scans| - 1 ==> |scans[j]| == sel.maxfdp1)
    && (scans != [] ==> |Last(scans)| == if sel.phase.Scan? && sel.phase.i > 0 then sel.phase.i else sel.maxfdp1)
  }

  /** How many scans there are, and where in its scans the call stands. */
  predicate Placed(sel: Sel, scans: seq<seq<nat>>) {
    && Complete(sel, scans)
    && match sel.phase
       case Scan(pass, i) => 1 <= pass <= 3 && i <= sel.maxfdp1 && |scans| == if i == 0 then pass - 1 else pass
       case Link => |scans| == 1
       case Failed => |scans| == 1
       case Inc(_) => |scans| == 1
       case Wait => |scans| == 2
       case Dec(_) => |scans| == 2
       case Unlink => |scans| == 2
       case Returned => 1 <= |scans| <= 3
  }

  predicate InScan(sel: Sel, pass: nat) { sel.phase.Scan? && sel.phase.pass == pass }

  /** After its first scan a call goes on only without an event and not if it polls. */
  predicate FirstScan(trace: seq<State>, sel: Sel, scans: seq<seq<nat>>) {
    if scans == [] || InScan(sel, 1) then true
    else if sel.phase.Returned? && |scans| == 1 then sel.nready > 0 || sel.poll
    else !sel.poll && Quiet(sel, trace, scans[0])
  }

  /** After its second scan a call waits only without an event; it makes the third one, in the end,
      unless the wait timed out. */
  ghost predicate SecondScan(trace: seq<State>, steps: seq<Step>, n: nat, c: nat, sel: Sel, scans: seq<seq<nat>>) {
    if |scans| < 2 || InScan(sel, 2) then !sel.timedOut
    else if sel.phase.Wait? then !sel.timedOut && Quiet(sel, trace, scans[1])
    else if sel.timedOut then
      !sel.phase.Scan? && |scans| == 2 && Quiet(sel, trace, scans[1]) && TimedOut(trace, steps, n, c)
    else !(sel.phase.Returned? && |scans| == 2) && (!Quiet(sel, trace, scans[1]) || Woken(trace, steps, n, c))
  }

  /** A call that did not go on was never linked. */
  ghost predicate Aloof(trace: seq<State>, n: nat, c: nat, sel: Sel, scans: seq<seq<nat>>) {
    |scans| <= 1 && !sel.phase.Inc? && !InScan(sel, 2) ==> NeverLinked(trace, n, c)
  }

  ghost predicate Story(trace: seq<State>, steps: seq<Step>, n: nat, c: nat, sel: Sel, scans: seq<seq<nat>>) {
    && Placed(sel, scans) && Tally(sel, trace, Current(sel, scans)) && AllLooks(trace, steps, n, c, scans)
    && FirstScan(trace, sel, scans) && SecondScan(trace, steps, n, c, sel, scans) && Aloof(trace, n, c, sel, scans)
  }

  /** The call's parameters. */
  predicate SameParameters(a: Sel, b: Sel) {
    && a.readset == b.readset && a.writeset == b.writeset && a.exceptset == b.exceptset
    && a.maxfdp1 == b.maxfdp1 && a.poll == b.poll
  }

  // ----- One step of the call -------------------------------------------------------------

  lemma PlacedLook(sel: Sel, socks: map<nat, Sock>, timeout: bool, scans: seq<seq<nat>>, t: nat)
    requires Placed(sel, scans) && sel.phase.Scan? && sel.phase.i < sel.maxfdp1
    ensures var (sel', scans') := (Moved(sel, socks, timeout), ScansNext(scans, sel, t));
            && Placed(sel', scans') && SameParameters(sel, sel')
            && Current(sel', scans') == Current(sel, scans) + [t] && |Current(sel, scans)| == sel.phase.i
  {
  }

  /** The call's sets and count as they were, or zeroed for a new scan. */
  predicate Carried(sel: Sel, sel': Sel, now: seq<nat>, before: seq<nat>) {
    if sel'.phase.Scan? then sel' == NewScan(sel, sel'.phase.pass) && now == []
    else
      && sel'.nready == sel.nready && sel'.lread == sel.lread && sel'.lwrite == sel.lwrite
      && sel'.lexcept == sel.lexcept && now == before
  }

  lemma PlacedScanEnd(sel: Sel, socks: map<nat, Sock>, timeout: bool, scans: seq<seq<nat>>, t: nat)
    requires Placed(sel, scans) && sel.phase.Scan? && sel.phase.i == sel.maxfdp1
    ensures var (sel', scans') := (Moved(sel, socks, timeout), ScansNext(scans, sel, t));
            && Placed(sel', scans') && SameParameters(sel, sel')
            && Carried(sel, sel', Current(sel', scans'), Current(sel, scans))
  {
  }

  lemma PlacedStep(sel: Sel, socks: map<nat, Sock>, timeout: bool, scans: seq<seq<nat>>, t: nat)
    requires Placed(sel, scans) && !sel.phase.Scan?
    ensures var (sel', scans') := (Moved(sel, socks, timeout), ScansNext(scans, sel, t));
            && Placed(sel', scans') && SameParameters(sel, sel')
            && Carried(sel, sel', Current(sel', scans'), Current(sel, scans))
  {
  }

  lemma TallyStep(trace: seq<State>, sel: Sel, timeout: bool, scans: seq<seq<nat>>, t: nat)
    requires t < |trace| && Placed(sel, scans) && Tally(sel, trace, Current(sel, scans))
    ensures var (sel', scans') := (Moved(sel, trace[t].socks, timeout), ScansNext(scans, sel, t));
            Placed(sel', scans') && SameParameters(sel, sel') && Tally(sel', trace, Current(sel', scans'))
  {
    if sel.phase.Scan? && sel.phase.i < sel.maxfdp1 {
      PlacedLook(sel, trace[t].socks, timeout, scans, t);
      TallyNext(sel, trace, Current(sel, scans), t);
    } else if sel.phase.Scan? {
      PlacedScanEnd(sel, trace[t].socks, timeout, scans, t);
    } else {
      PlacedStep(sel, trace[t].socks, timeout, scans, t);
    }
  }

  lemma LooksStep(trace: seq<State>, steps: seq<Step>, n: nat, c: nat, scans: seq<seq<nat>>)
    requires n < |steps| < |trace| && c in trace[n].sels && steps[n].Advance? && steps[n].c == c
    requires Placed(trace[n].sels[c], scans) && AllLooks(trace, steps, n, c, scans)
    ensures AllLooks(trace, steps, n + 1, c, ScansNext(scans, trace[n].sels[c], n))
  {
  }

  lemma QuietSame(sel: Sel, sel': Sel, trace: seq<State>, looks: seq<nat>)
    requires SameParameters(sel, sel')
    ensures Quiet(sel, trace, looks) <==> Quiet(sel', trace, looks)
  {
  }

  lemma FirstScanStep(trace: seq<State>, sel: Sel, timeout: bool, scans: seq<seq<nat>>, t: nat)
    requires t < |trace| && Placed(sel, scans) && Tally(sel, trace, Current(sel, scans)) && FirstScan(trace, sel, scans)
    ensures FirstScan(trace, Moved(sel, trace[t].socks, timeout), ScansNext(scans, sel, t))
  {
    var (sel', scans') := (Moved(sel, trace[t].socks, timeout), ScansNext(scans, sel, t));
    TallyStep(trace, sel, timeout, scans, t);
    TallyQuiet(sel, trace, Current(sel, scans));
    if scans != [] && !(InScan(sel, 1) && sel.phase.i < sel.maxfdp1) {
      assert scans'[0] == scans[0];
      QuietSame(sel, sel', trace, scans[0]);
    } else if sel.maxfdp1 == 0 {
      QuietSame(sel, sel', trace, []);
    }
  }

  lemma WaitsEarlier(trace: seq<State>, steps: seq<Step>, n: nat, c: nat)
    ensures TimedOut(trace, steps, n, c) ==> TimedOut(trace, steps, n + 1, c)
    ensures Woken(trace, steps, n, c) ==> Woken(trace, steps, n + 1, c)
    ensures WaitEnds(trace, steps, n, c, true) ==> TimedOut(trace, steps, n + 1, c)
    ensures WaitEnds(trace, steps, n, c, false) && trace[n].sels[c].signalled ==> Woken(trace, steps, n + 1, c)
  {
  }

  lemma SecondScanStep(trace: seq<State>, steps: seq<Step>, n: nat, c: nat, scans: seq<seq<nat>>)
    requires n < |steps| < |trace| && c in trace[n].sels && steps[n].Advance? && steps[n].c == c
    requires var sel := trace[n].sels[c];
             && Placed(sel, scans) && Tally(sel, trace, Current(sel, scans))
             && SecondScan(trace, steps, n, c, sel, scans)
    ensures SecondScan(trace, steps, n + 1, c, Moved(trace[n].sels[c], trace[n].socks, steps[n].timeout),
                       ScansNext(scans, trace[n].sels[c], n))
  {
    var (sel, timeout) := (trace[n].sels[c], steps[n].timeout);
    var (sel', scans') := (Moved(sel, trace[n].socks, timeout), ScansNext(scans, sel, n));
    TallyStep(trace, sel, timeout, scans, n);
    TallyQuiet(sel, trace, Current(sel, scans));
    WaitsEarlier(trace, steps, n, c);
    if |scans| >= 2 && !(InScan(sel, 2) && sel.phase.i < sel.maxfdp1) {
      assert scans'[1] == scans[1];
      QuietSame(sel, sel', trace, scans[1]);
    } else if sel.maxfdp1 == 0 {
      QuietSame(sel, sel', trace, []);
    }
  }

  lemma AloofStep(trace: seq<State>, n: nat, c: nat, sel: Sel, timeout: bool, scans: seq<seq<nat>>)
    requires n + 1 < |trace| && Placed(sel, scans) && Aloof(trace, n, c, sel, scans)
    requires c in trace[n + 1].order ==> Linked(Moved(sel, trace[n].socks, timeout).phase)
    ensures Aloof(trace, n + 1, c, Moved(sel, trace[n].socks, timeout), ScansNext(scans, sel, n))
  {
  }

  lemma CallMoves(trace: seq<State>, steps: seq<Step>, n: nat, c: nat, scans: seq<seq<nat>>)
    requires n < |steps| && |trace| == |steps| + 1 && c in trace[n].sels && steps[n].Advance? && steps[n].c == c
    requires trace[n + 1] == Advanced(trace[n], c, steps[n].timeout) && ListInv(trace[n + 1])
    requires Story(trace, steps, n, c, trace[n].sels[c], scans)
    ensures c in trace[n + 1].sels
    ensures Story(trace, steps, n + 1, c, trace[n + 1].sels[c], ScansNext(scans, trace[n].sels[c], n))
  {
    var (sel, timeout) := (trace[n].sels[c], steps[n].timeout);
    TallyStep(trace, sel, timeout, scans, n);
    LooksStep(trace, steps, n, c, scans);
    FirstScanStep(trace, sel, timeout, scans, n);
    SecondScanStep(trace, steps, n, c, scans);
    AloofStep(trace, n, c, sel, timeout, scans);
  }

  /** Other calls, callbacks and sockets change nothing of a call but its semaphore. */
  lemma OthersLeave(st: State, step: Step, c: nat)
    requires Enabled(st, step) && c in st.sels && !(step.Advance? && step.c == c)
    ensures c in Next(st, step).sels
    ensures var (sel, sel') := (st.sels[c], Next(st, step).sels[c]);
            sel' == sel.(signalled := sel'.signalled, signals := sel'.signals)
  {
  }

  lemma CallStays(trace: seq<State>, steps: seq<Step>, n: nat, c: nat, sel: Sel, sel': Sel, scans: seq<seq<nat>>)
    requires n < |steps| && |trace| == |steps| + 1 && Story(trace, steps, n, c, sel, scans)
    requires sel' == sel.(signalled := sel'.signalled, signals := sel'.signals)
    requires c in trace[n + 1].order ==> Linked(sel'.phase)
    ensures Story(trace, steps, n + 1, c, sel', scans)
  {
    WaitsEarlier(trace, steps, n, c);
    if |scans| > 0 { QuietSame(sel, sel', trace, scans[0]); }
    if |scans| > 1 { QuietSame(sel, sel', trace, scans[1]); }
  }

  lemma SelsStay(st: State, step: Step, c: nat)
    requires Enabled(st, step) && c in st.sels
    ensures c in Next(st, step).sels
  {
  }

  /** Before it begins a call is nowhere. */
  lemma {:induction false} NotYet(trace: seq<State>, steps: seq<Step>, n: nat, c: nat)
    requires Run(trace, steps) && n < |trace| && c !in trace[n].sels
    ensures Scans(trace, steps, n, c) == [] && NeverLinked(trace, n, c)
  {
    RunKeeps(trace, steps, n);
    assert ListInv(trace[n]) && c !in trace[n].order;
    if n > 0 {
      var (st, step) := (trace[n - 1], steps[n - 1]);
      assert Enabled(st, step) && trace[n] == Next(st, step);
      if c in st.sels {
        SelsStay(st, step, c);
        assert false;
      }
      NotYet(trace, steps, n - 1, c);
    }
  }

  lemma StoryGoesOn(trace: seq<State>, steps: seq<Step>, n: nat, c: nat)
    requires n < |steps| && |trace| == |steps| + 1 && c in trace[n].sels && Enabled(trace[n], steps[n])
    requires trace[n + 1] == Next(trace[n], steps[n]) && ListInv(trace[n + 1])
    requires Story(trace, steps, n, c, trace[n].sels[c], Scans(trace, steps, n, c))
    ensures c in trace[n + 1].sels
    ensures Story(trace, steps, n + 1, c, trace[n + 1].sels[c], Scans(trace, steps, n + 1, c))
  {
    var scans := Scans(trace, steps, n, c);
    if steps[n].Advance? && steps[n].c == c {
      CallMoves(trace, steps, n, c, scans);
    } else {
      OthersLeave(trace[n], steps[n], c);
      CallStays(trace, steps, n, c, trace[n].sels[c], trace[n + 1].sels[c], scans);
    }
  }

  lemma {:induction false} StoryHolds(trace: seq<State>, steps: seq<Step>, n: nat, c: nat)
    requires Run(trace, steps) && n < |trace| && c in trace[n].sels
    ensures Story(trace, steps, n, c, trace[n].sels[c], Scans(trace, steps, n, c))
  {
    RunKeeps(trace, steps, n);
    assert n > 0;
    assert Enabled(trace[n - 1], steps[n - 1]) && trace[n] == Next(trace[n - 1], steps[n - 1]);
    if c in trace[n - 1].sels {
      StoryHolds(trace, steps, n - 1, c);
      StoryGoesOn(trace, steps, n - 1, c);
    } else {
      NotYet(trace, steps, n - 1, c);
      CallBegins(trace, steps, n, c);
    }
  }

  lemma BeginsFresh(st: State, step: Step, c: nat)
    requires Enabled(st, step) && c !in st.sels && c in Next(st, step).sels
    ensures step.Begin? && var sel := Next(st, step).sels[c]; sel == NewScan(sel, 1) && !sel.timedOut
  {
  }

  lemma CallBegins(trace: seq<State>, steps: seq<Step>, n: nat, c: nat)
    requires 0 < n <= |steps| && |trace| == |steps| + 1 && c !in trace[n - 1].sels && c in trace[n].sels
    requires Enabled(trace[n - 1], steps[n - 1]) && trace[n] == Next(trace[n - 1], steps[n - 1]) && ListInv(trace[n])
    requires Scans(trace, steps, n - 1, c) == [] && NeverLinked(trace, n - 1, c)
    ensures Story(trace, steps, n, c, trace[n].sels[c], Scans(trace, steps, n, c))
  {
    var sel := trace[n].sels[c];
    BeginsFresh(trace[n - 1], steps[n - 1], c);
    TallyNone(sel, trace);
    FreshStory(trace, steps, n, c, sel);
  }

  lemma FreshStory(trace: seq<State>, steps: seq<Step>, n: nat, c: nat, sel: Sel)
    requires sel == NewScan(sel, 1) && !sel.timedOut && Tally(sel, trace, []) && 0 < n < |trace|
    requires NeverLinked(trace, n - 1, c) && c !in trace[n].order
    ensures Story(trace, steps, n, c, sel, [])
  {
  }

  // ----- What a call reports --------------------------------------------------------------

  /** Each scan was a whole one, and the call was in the list during the second, and only then. */
  lemma ScansAreWhole(trace: seq<State>, steps: seq<Step>, n: nat, c: nat)
    requires Run(trace, steps) && n < |trace| && c in trace[n].sels && trace[n].sels[c].phase.Returned?
    ensures var scans := Scans(trace, steps, n, c);
            && 1 <= |scans| <= 3 && (forall j :: 0 <= j < |scans| ==> |scans[j]| == trace[n].sels[c].maxfdp1)
            && forall j, i :: 0 <= j < |scans| && 0 <= i < |scans[j]| ==>
                 var t := scans[j][i];
                 t < n && Looks(trace, steps, t, c, j, i) && (c in trace[t].order <==> j == 1)
  {
    var scans := Scans(trace, steps, n, c);
    StoryHolds(trace, steps, n, c);
    forall j, i | 0 <= j < |scans| && 0 <= i < |scans[j]|
      ensures var t := scans[j][i]; c in trace[t].order <==> j == 1
    {
      RunKeeps(trace, steps, scans[j][i]);
      assert Looks(trace, steps, scans[j][i], c, j, i);
    }
  }

  /** A call returns the sockets that had their event when its last scan looked at them, and their
      number. */
  lemma AnswerIsLastScan(trace: seq<State>, steps: seq<Step>, n: nat, c: nat)
    requires Run(trace, steps) && n < |trace| && c in trace[n].sels && trace[n].sels[c].phase.Returned?
    ensures var (sel, scans) := (trace[n].sels[c], Scans(trace, steps, n, c));
            && scans != [] && |Last(scans)| == sel.maxfdp1
            && var looks := Last(scans);
               && (forall i :: 0 <= i < |looks| ==> looks[i] < n)
               && (forall i :: i in sel.lread <==>
                     i in sel.readset && i < |looks| && ReadReady(i, trace[looks[i]].socks))
               && (forall i :: i in sel.lwrite <==>
                     i in sel.writeset && i < |looks| && WriteReady(i, trace[looks[i]].socks))
               && (forall i :: i in sel.lexcept <==>
                     i in sel.exceptset && i < |looks| && ExceptReady(i, trace[looks[i]].socks))
               && sel.nready == |sel.lread| + |sel.lwrite| + |sel.lexcept|
  {
    StoryHolds(trace, steps, n, c);
    var (sel, scans) := (trace[n].sels[c], Scans(trace, steps, n, c));
    var looks := Last(scans);
    ScansAreWhole(trace, steps, n, c);
    forall i | 0 <= i < |looks| ensures looks[i] < n { assert Looks(trace, steps, looks[i], c, |scans| - 1, i); }
  }

  /** Nothing the call asked for had happened when this scan looked. */
  predicate SawNothing(sel: Sel, trace: seq<State>, looks: seq<nat>) {
    forall i :: 0 <= i < |looks| && looks[i] < |trace| ==>
      && !(i in sel.readset && ReadReady(i, trace[looks[i]].socks))
      && !(i in sel.writeset && WriteReady(i, trace[looks[i]].socks))
      && !(i in sel.exceptset && ExceptReady(i, trace[looks[i]].socks))
  }

  lemma QuietSawNothing(sel: Sel, trace: seq<State>, looks: seq<nat>)
    requires Quiet(sel, trace, looks)
    ensures SawNothing(sel, trace, looks)
  {
    forall i | 0 <= i < |looks| && looks[i] < |trace|
      ensures !(i in sel.readset && ReadReady(i, trace[looks[i]].socks))
      ensures !(i in sel.writeset && WriteReady(i, trace[looks[i]].socks))
      ensures !(i in sel.exceptset && ExceptReady(i, trace[looks[i]].socks))
    {
      assert i !in Hit(sel.readset, ReadHits(trace, looks)) && i !in Hit(sel.writeset, WriteHits(trace, looks));
      assert i !in Hit(sel.exceptset, ExceptHits(trace, looks));
    }
  }

  lemma SawNothingIsQuiet(sel: Sel, trace: seq<State>, looks: seq<nat>)
    requires SawNothing(sel, trace, looks)
    ensures Quiet(sel, trace, looks)
  {
  }

  /** Why a call returned. After one scan: it was never linked, and found something or was a poll. After
      two, the second while linked: neither found anything, and the wait timed out. After three: the
      first found nothing, and the second found something or a callback ended the wait. */
  lemma WhyReturned(trace: seq<State>, steps: seq<Step>, n: nat, c: nat)
    requires Run(trace, steps) && n < |trace| && c in trace[n].sels && trace[n].sels[c].phase.Returned?
    ensures var (sel, scans) := (trace[n].sels[c], Scans(trace, steps, n, c));
            && 1 <= |scans| <= 3
            && (|scans| == 1 ==> NeverLinked(trace, n, c) && !sel.timedOut && (sel.nready > 0 || sel.poll))
            && (|scans| > 1 ==> !sel.poll && SawNothing(sel, trace, scans[0]))
            && (|scans| == 2 <==> sel.timedOut)
            && (|scans| == 2 ==> SawNothing(sel, trace, scans[1]) && TimedOut(trace, steps, n, c))
            && (|scans| == 3 ==> !SawNothing(sel, trace, scans[1]) || Woken(trace, steps, n, c))
  {
    var (sel, scans) := (trace[n].sels[c], Scans(trace, steps, n, c));
    StoryHolds(trace, steps, n, c);
    if |scans| > 1 { QuietSawNothing(sel, trace, scans[0]); }
    if |scans| > 1 && Quiet(sel, trace, scans[1]) { QuietSawNothing(sel, trace, scans[1]); }
    if |scans| > 1 && SawNothing(sel, trace, scans[1]) { SawNothingIsQuiet(sel, trace, scans[1]); }
  }

  lemma FailedStory(trace: seq<State>, steps: seq<Step>, n: nat, c: nat, sel: Sel, scans: seq<seq<nat>>)
    requires Story(trace, steps, n, c, sel, scans) && sel.phase.Failed?
    ensures !sel.poll && |scans| == 1 && |scans[0]| == sel.maxfdp1 && SawNothing(sel, trace, scans[0])
    ensures NeverLinked(trace, n, c)
  {
    QuietSawNothing(sel, trace, scans[0]);
  }

  lemma WaitingStory(trace: seq<State>, steps: seq<Step>, n: nat, c: nat, sel: Sel, scans: seq<seq<nat>>)
    requires Placed(sel, scans) && FirstScan(trace, sel, scans) && SecondScan(trace, steps, n, c, sel, scans)
    requires sel.phase.Wait?
    ensures !sel.poll && |scans| == 2 && |scans[0]| == |scans[1]| == sel.maxfdp1
    ensures SawNothing(sel, trace, scans[0]) && SawNothing(sel, trace, scans[1])
  {
    QuietSawNothing(sel, trace, scans[0]);
    QuietSawNothing(sel, trace, scans[1]);
  }

  /** A call fails only without ever having been linked, after a first scan that saw nothing. */
  lemma WhyFailed(trace: seq<State>, steps: seq<Step>, n: nat, c: nat)
    requires Run(trace, steps) && n < |trace| && c in trace[n].sels && trace[n].sels[c].phase.Failed?
    ensures var (sel, scans) := (trace[n].sels[c], Scans(trace, steps, n, c));
            && !sel.poll && |scans| == 1 && |scans[0]| == sel.maxfdp1
            && SawNothing(sel, trace, scans[0]) && NeverLinked(trace, n, c)
  {
    StoryHolds(trace, steps, n, c);
    FailedStory(trace, steps, n, c, trace[n].sels[c], Scans(trace, steps, n, c));
  }

  lemma WaitsInList(trace: seq<State>, steps: seq<Step>, n: nat, c: nat)
    requires Run(trace, steps) && n < |trace| && c in trace[n].sels && trace[n].sels[c].phase.Wait?
    ensures c in trace[n].order
  {
    RunKeeps(trace, steps, n);
    assert ListInv(trace[n]);
  }

  /** A call waits only in the list, after two scans that saw nothing. */
  lemma WhyWaiting(trace: seq<State>, steps: seq<Step>, n: nat, c: nat)
    requires Run(trace, steps) && n < |trace| && c in trace[n].sels && trace[n].sels[c].phase.Wait?
    ensures var (sel, scans) := (trace[n].sels[c], Scans(trace, steps, n, c));
            && !sel.poll && |scans| == 2 && |scans[0]| == |scans[1]| == sel.maxfdp1
            && SawNothing(sel, trace, scans[0]) && SawNothing(sel, trace, scans[1]) && c in trace[n].order
  {
    StoryHolds(trace, steps, n, c);
    WaitingStory(trace, steps, n, c, trace[n].sels[c], Scans(trace, steps, n, c));
    WaitsInList(trace, steps, n, c);
  }
}

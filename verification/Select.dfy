/** lwip_select and event_callback as steps between SYS_ARCH_PROTECT and SYS_ARCH_UNPROTECT. Any
    number of selects and callbacks interleave; no socket is closed meanwhile. */
module Select {
  import opened Lists

  datatype Event = RcvPlus | RcvMinus | SendPlus | SendMinus | Error

  datatype Sock = Sock(rcvevent: int, sendevent: bool, errevent: bool, lastdata: bool, waiting: int)

  datatype Phase =
    | Scan(pass: nat, i: nat)   // lwip_selscan, about to look at socket i; passes 1, 2 and 3
    | Link                      // about to put the entry on top of select_cb_list
    | Inc(i: nat)               // raising select_waiting
    | Wait                      // in sys_arch_sem_wait
    | Dec(i: nat)               // lowering select_waiting
    | Unlink                    // about to take the entry off the list
    | Returned                  // nready and the sets found
    | Failed                    // -1: there was no semaphore for the entry

  /** One lwip_select call with its entry. `lread`, `lwrite` and `lexcept` are the local sets of the
      scan under way or done last; `signals` counts posts of its semaphore. */
  datatype Sel = Sel(readset: set<nat>, writeset: set<nat>, exceptset: set<nat>, maxfdp1: nat, poll: bool,
                     lread: set<nat>, lwrite: set<nat>, lexcept: set<nat>, nready: nat,
                     timedOut: bool, signalled: bool, signals: nat, phase: Phase)

  /** An event_callback between two list entries: `pos` was examined last, when the change counter
      was `last`. */
  datatype Callback = Callback(s: nat, pos: nat, last: nat)

  datatype State = State(socks: map<nat, Sock>, order: seq<nat>, ctr: nat,
                         sels: map<nat, Sel>, cbs: map<nat, Callback>)

  datatype Step =
    | OpenSocket(s: nat, sendevent: bool)
    | Lastdata(s: nat, left: bool)
    | Begin(c: nat, sel: Sel)
    | Advance(c: nat, timeout: bool)
    | Post(k: nat, s: nat, evt: Event)
    | Resume(k: nat)

  /** The 16-bit signed counter `rcvevent`. */
  function Wrap16(x: int): int { (x + 0x8000) % 0x1_0000 - 0x8000 }

  function WithEvent(sock: Sock, evt: Event): Sock {
    match evt
    case RcvPlus => sock.(rcvevent := Wrap16(sock.rcvevent + 1))
    case RcvMinus => sock.(rcvevent := Wrap16(sock.rcvevent - 1))
    case SendPlus => sock.(sendevent := true)
    case SendMinus => sock.(sendevent := false)
    case Error => sock.(errevent := true)
  }

  /** The test of event_callback: a select with these sets wants to know about socket s. */
  predicate Wants(sel: Sel, s: nat, sock: Sock) {
    || (sock.rcvevent > 0 && s in sel.readset)
    || (sock.sendevent && s in sel.writeset)
    || (sock.errevent && s in sel.exceptset)
  }

  predicate Watches(sel: Sel, s: nat) {
    s < sel.maxfdp1 && (s in sel.readset || s in sel.writeset || s in sel.exceptset)
  }

  /** What lwip_selscan adds to nready for socket i. */
  function ReadyCount(sel: Sel, i: nat, socks: map<nat, Sock>): nat {
    if i !in socks then 0
    else
      var sock := socks[i];
      (if i in sel.readset && (sock.lastdata || sock.rcvevent > 0) then 1 else 0)
      + (if i in sel.writeset && sock.sendevent then 1 else 0)
      + (if i in sel.exceptset && sock.errevent then 1 else 0)
  }

  /** The body of the loop of lwip_selscan, for socket i. */
  function Look(sel: Sel, i: nat, socks: map<nat, Sock>): Sel {
    if i !in socks then sel
    else
      var sock := socks[i];
      sel.(lread := sel.lread + (if i in sel.readset && (sock.lastdata || sock.rcvevent > 0) then {i} else {}),
           lwrite := sel.lwrite + (if i in sel.writeset && sock.sendevent then {i} else {}),
           lexcept := sel.lexcept + (if i in sel.exceptset && sock.errevent then {i} else {}),
           nready := sel.nready + ReadyCount(sel, i, socks))
  }

  /** lwip_selscan is entered: its local sets are zeroed. */
  function NewScan(sel: Sel, pass: nat): Sel {
    sel.(lread := {}, lwrite := {}, lexcept := {}, nready := 0, phase := Scan(pass, 0))
  }

  predicate Linked(p: Phase) {
    p.Inc? || (p.Scan? && p.pass == 2) || p.Wait? || p.Dec? || p.Unlink?
  }

  /** The select has raised select_waiting of socket s and not lowered it again. */
  predicate Counted(sel: Sel, s: nat) {
    Watches(sel, s) &&
    match sel.phase
    case Inc(i) => s < i
    case Scan(pass, _) => pass == 2
    case Wait => true
    case Dec(i) => i <= s
    case _ => false
  }

  // ----- The critical sections ------------------------------------------------------------

  function Index<T(==)>(order: seq<T>, c: T): (i: nat)
    ensures i <= |order|
    ensures i < |order| ==> order[i] == c
    ensures i == |order| ==> c !in order
    ensures forall j :: 0 <= j < i ==> order[j] != c
  {
    if order == [] || order[0] == c then 0 else 1 + Index(order[1..], c)
  }

  /** event_callback looks at list position i, or leaves when the list is exhausted. */
  function Visit(st: State, k: nat, s: nat, i: nat): State
    requires s in st.socks
  {
    if i >= |st.order| || st.order[i] !in st.sels then st.(cbs := st.cbs - {k})
    else
      var c := st.order[i];
      var sel := st.sels[c];
      var sel' := if !sel.signalled && Wants(sel, s, st.socks[s])
                  then sel.(signalled := true, signals := sel.signals + 1) else sel;
      st.(sels := st.sels[c := sel'], cbs := st.cbs[k := Callback(s, c, st.ctr)])
  }

  function AfterScan(sel: Sel, pass: nat): Phase {
    if pass == 1 then (if sel.nready > 0 || sel.poll then Returned else Link)
    else if pass == 2 then (if sel.nready > 0 then Dec(0) else Wait)
    else Returned
  }

  function Without<T(==)>(order: seq<T>, c: T): seq<T> {
    var i := Index(order, c);
    if i < |order| then order[..i] + order[i + 1..] else order
  }

  /** The call itself after its next critical section. */
  function Moved(sel: Sel, socks: map<nat, Sock>, timeout: bool): Sel {
    match sel.phase
    case Scan(pass, i) =>
      if i < sel.maxfdp1 then Look(sel, i, socks).(phase := Scan(pass, i + 1))
      else sel.(phase := AfterScan(sel, pass))
    case Link => sel.(phase := if timeout then Failed else Inc(0))  // sys_sem_new may fail
    case Inc(i) => if i < sel.maxfdp1 then sel.(phase := Inc(i + 1)) else NewScan(sel, 2)
    case Wait =>
      if timeout then sel.(timedOut := true, phase := Dec(0))
      else if sel.signalled then sel.(phase := Dec(0))
      else sel
    case Dec(i) => sel.(phase := if i < sel.maxfdp1 then Dec(i + 1) else Unlink)
    case Unlink => if sel.timedOut then sel.(phase := Returned) else NewScan(sel, 3)
    case _ => sel
  }

  /** select_waiting of socket i goes up or down if the call watches it. */
  function Raised(socks: map<nat, Sock>, sel: Sel, i: nat, delta: int): map<nat, Sock> {
    if Watches(sel, i) && i in socks then socks[i := socks[i].(waiting := socks[i].waiting + delta)] else socks
  }

  /** The next critical section of select c. */
  function Advanced(st: State, c: nat, timeout: bool): State
    requires c in st.sels
  {
    var sel := st.sels[c];
    var st1 := st.(sels := st.sels[c := Moved(sel, st.socks, timeout)]);
    match sel.phase
    case Link => if timeout then st1 else st1.(order := [c] + st.order, ctr := st.ctr + 1)
    case Inc(i) => st1.(socks := Raised(st.socks, sel, i, 1))
    case Dec(i) => st1.(socks := Raised(st.socks, sel, i, -1))
    case Unlink => st1.(order := Without(st.order, c), ctr := st.ctr + 1)
    case _ => st1
  }

  ghost predicate Enabled(st: State, step: Step) {
    match step
    case OpenSocket(s, _) => s !in st.socks
    case Lastdata(s, _) => s in st.socks
    case Begin(c, sel) =>
      && c !in st.sels && sel == NewScan(sel, 1) && !sel.signalled && sel.signals == 0
      && !sel.timedOut && (forall s :: Watches(sel, s) ==> s in st.socks)
    case Advance(c, _) => c in st.sels
    case Post(k, s, _) => k !in st.cbs && s in st.socks
    case Resume(k) => k in st.cbs && st.cbs[k].s in st.socks
  }

  function Next(st: State, step: Step): State
    requires Enabled(st, step)
  {
    match step
    case OpenSocket(s, sendevent) => st.(socks := st.socks[s := Sock(0, sendevent, false, false, 0)])
    case Lastdata(s, left) => st.(socks := st.socks[s := st.socks[s].(lastdata := left)])
    case Begin(c, sel) => st.(sels := st.sels[c := sel])
    case Advance(c, timeout) => Advanced(st, c, timeout)
    case Post(k, s, evt) =>
      var st1 := st.(socks := st.socks[s := WithEvent(st.socks[s], evt)]);
      if st.socks[s].waiting == 0 then st1 else Visit(st1, k, s, 0)
    case Resume(k) =>
      var cb := st.cbs[k];
      Visit(st, k, cb.s, if cb.last != st.ctr then 0 else Index(st.order, cb.pos) + 1)
  }

  ghost predicate Run(trace: seq<State>, steps: seq<Step>) {
    && |trace| == |steps| + 1
    && trace[0] == State(map[], [], 0, map[], map[])
    && (forall i :: 0 <= i < |steps| ==> Enabled(trace[i], steps[i]) && trace[i + 1] == Next(trace[i], steps[i]))
  }

  // ----- The invariant --------------------------------------------------------------------

  /** select_cb_list holds exactly the entries of the calls between Link and Unlink. */
  ghost predicate ListInv(st: State) {
    && Distinct(st.order)
    && (forall c :: c in st.order ==> c in st.sels)
    && (forall c :: c in st.sels ==> (c in st.order <==> Linked(st.sels[c].phase)))
  }

  /** An unfinished walk whose counter is current stands on an entry that is still linked. */
  ghost predicate WalkInv(st: State) {
    forall k :: k in st.cbs ==>
      && st.cbs[k].s in st.socks && st.cbs[k].last <= st.ctr
      && (st.cbs[k].last == st.ctr ==> st.cbs[k].pos in st.order)
  }

  function CountedSels(sels: map<nat, Sel>, s: nat): set<nat> {
    set c | c in sels && Counted(sels[c], s)
  }

  ghost predicate WaitingInv(st: State) {
    && (forall s :: s in st.socks ==> st.socks[s].waiting == |CountedSels(st.sels, s)|)
    && (forall c, s :: c in st.sels && Watches(st.sels[c], s) ==> s in st.socks)
  }

  ghost predicate SignalInv(st: State) {
    forall c :: c in st.sels ==> st.sels[c].signals == if st.sels[c].signalled then 1 else 0
  }

  /** The select relies on event_callback to hear about socket s. */
  predicate Armed(sel: Sel, s: nat) {
    Watches(sel, s) &&
    (sel.phase.Wait? || (sel.phase.Scan? && sel.phase.pass == 2 && s < sel.phase.i && sel.nready == 0))
  }

  /** Callback k has yet to examine entry c on behalf of socket s. */
  ghost predicate Pending(st: State, k: nat, s: nat, c: nat) {
    && k in st.cbs && st.cbs[k].s == s
    && (st.cbs[k].last != st.ctr || Index(st.order, st.cbs[k].pos) < Index(st.order, c))
  }

  ghost predicate Missed(st: State, c: nat, s: nat) {
    && c in st.sels && s in st.socks && Armed(st.sels[c], s)
    && !st.sels[c].signalled && Wants(st.sels[c], s, st.socks[s])
  }

  ghost predicate WakeInv(st: State) {
    forall c, s :: Missed(st, c, s) ==> exists k :: k in st.cbs && Pending(st, k, s, c)
  }

  ghost predicate Inv(st: State) {
    ListInv(st) && WalkInv(st) && WaitingInv(st) && SignalInv(st) && WakeInv(st)
  }

  // ----- event_callback -------------------------------------------------------------------

  lemma IndexOfElement<T>(order: seq<T>, i: nat)
    requires Distinct(order)
    ensures i < |order| ==> Index(order, order[i]) == i
  {
  }

  /** Someone else's walk, or list position i and beyond of this walk, still covers entry c. */
  ghost predicate CoveredFrom(st: State, k: nat, s: nat, i: nat) {
    forall c, s' :: Missed(st, c, s') ==>
      || (exists k' :: k' in st.cbs && k' != k && Pending(st, k', s', c))
      || (s' == s && i <= Index(st.order, c))
  }

  lemma VisitKeepsLists(st: State, k: nat, s: nat, i: nat)
    requires ListInv(st) && WalkInv(st) && WaitingInv(st) && SignalInv(st) && s in st.socks
    ensures var st' := Visit(st, k, s, i);
            ListInv(st') && WalkInv(st') && WaitingInv(st') && SignalInv(st')
  {
    var st' := Visit(st, k, s, i);
    forall s | s in st.socks ensures CountedSels(st'.sels, s) == CountedSels(st.sels, s) {}
  }

  lemma VisitCovers(st: State, k: nat, s: nat, i: nat, c: nat, s': nat)
    requires ListInv(st) && s in st.socks && CoveredFrom(st, k, s, i)
    requires Missed(Visit(st, k, s, i), c, s')
    ensures var st' := Visit(st, k, s, i);
            exists k' :: k' in st'.cbs && Pending(st', k', s', c)
  {
    var st' := Visit(st, k, s, i);
    assert Missed(st, c, s') && c in st.order;
    if exists k' :: k' in st.cbs && k' != k && Pending(st, k', s', c) {
      var k' :| k' in st.cbs && k' != k && Pending(st, k', s', c);
      assert Pending(st', k', s', c);
    } else {
      IndexOfElement(st.order, i);
      assert Pending(st', k, s', c);
    }
  }

  lemma VisitKeeps(st: State, k: nat, s: nat, i: nat)
    requires ListInv(st) && WalkInv(st) && WaitingInv(st) && SignalInv(st) && s in st.socks
    requires CoveredFrom(st, k, s, i)
    ensures Inv(Visit(st, k, s, i))
  {
    VisitKeepsLists(st, k, s, i);
    forall c, s' | Missed(Visit(st, k, s, i), c, s')
      ensures exists k' :: k' in Visit(st, k, s, i).cbs && Pending(Visit(st, k, s, i), k', s', c)
    {
      VisitCovers(st, k, s, i, c, s');
    }
  }

  lemma PostKeeps(st: State, k: nat, s: nat, evt: Event)
    requires Inv(st) && Enabled(st, Post(k, s, evt))
    ensures Inv(Next(st, Post(k, s, evt)))
  {
    var st1 := st.(socks := st.socks[s := WithEvent(st.socks[s], evt)]);
    forall c, s' | Missed(st1, c, s') && s' != s
      ensures exists k' :: k' in st1.cbs && k' != k && Pending(st1, k', s', c)
    {
      assert Missed(st, c, s');
      var k' :| k' in st.cbs && Pending(st, k', s', c);
      assert Pending(st1, k', s', c);
    }
    forall c | Missed(st1, c, s) ensures st.socks[s].waiting != 0 {
      assert c in CountedSels(st.sels, s);
    }
    if st.socks[s].waiting != 0 { VisitKeeps(st1, k, s, 0); }
  }

  /** Where the walk of callback k goes on: at the top if the list has changed. */
  function ResumesAt(st: State, k: nat): nat
    requires k in st.cbs
  {
    if st.cbs[k].last != st.ctr then 0 else Index(st.order, st.cbs[k].pos) + 1
  }

  lemma ResumeCovers(st: State, k: nat)
    requires Inv(st) && Enabled(st, Resume(k))
    ensures CoveredFrom(st, k, st.cbs[k].s, ResumesAt(st, k))
  {
    var (s, i) := (st.cbs[k].s, ResumesAt(st, k));
    forall c, s' | Missed(st, c, s')
      ensures (exists k' :: k' in st.cbs && k' != k && Pending(st, k', s', c)) || (s' == s && i <= Index(st.order, c))
    {
      var k' :| k' in st.cbs && Pending(st, k', s', c);
    }
  }

  lemma ResumeVisits(st: State, k: nat)
    requires k in st.cbs && st.cbs[k].s in st.socks && Enabled(st, Resume(k))
    ensures Next(st, Resume(k)) == Visit(st, k, st.cbs[k].s, ResumesAt(st, k))
  {
  }

  lemma ResumeKeeps(st: State, k: nat)
    requires Inv(st) && Enabled(st, Resume(k))
    ensures Inv(Next(st, Resume(k)))
  {
    var (s, i) := (st.cbs[k].s, ResumesAt(st, k));
    ResumeCovers(st, k);
    ResumeVisits(st, k);
    VisitKeeps(st, k, s, i);
  }

  // ----- lwip_select ----------------------------------------------------------------------

  /** The call's parameters and its entry's semaphore are as before. */
  predicate SameCall(a: Sel, b: Sel) {
    && a.readset == b.readset && a.writeset == b.writeset && a.exceptset == b.exceptset
    && a.maxfdp1 == b.maxfdp1 && a.signalled == b.signalled && a.signals == b.signals
  }

  /** A step of the call that touches neither the list nor any socket. */
  ghost predicate LocalChange(a: Sel, b: Sel, socks: map<nat, Sock>) {
    && SameCall(a, b) && Linked(b.phase) == Linked(a.phase)
    && (forall s :: Counted(b, s) == Counted(a, s))
    && (forall s :: s in socks && Armed(b, s) && Wants(b, s, socks[s]) ==> Armed(a, s))
  }

  lemma LocalKeeps(st: State, c: nat, sel': Sel, st': State)
    requires Inv(st) && c in st.sels && LocalChange(st.sels[c], sel', st.socks)
    requires st' == st.(sels := st.sels[c := sel'])
    ensures Inv(st')
  {
    forall s | s in st.socks ensures CountedSels(st'.sels, s) == CountedSels(st.sels, s) {}
    forall c', s | Missed(st', c', s) ensures exists k :: k in st'.cbs && Pending(st', k, s, c') {
      assert Missed(st, c', s);
      var k :| k in st.cbs && Pending(st, k, s, c');
      assert Pending(st', k, s, c');
    }
  }

  lemma NotReadyNotWanted(sel: Sel, i: nat, socks: map<nat, Sock>)
    requires i in socks && ReadyCount(sel, i, socks) == 0
    ensures !Wants(sel, i, socks[i])
  {
  }

  lemma ScanIsLocal(sel: Sel, socks: map<nat, Sock>, timeout: bool)
    requires sel.phase.Scan?
    ensures LocalChange(sel, Moved(sel, socks, timeout), socks)
  {
    var sel' := Moved(sel, socks, timeout);
    forall s | s in socks && Armed(sel', s) && Wants(sel', s, socks[s]) ensures Armed(sel, s) {
      if s == sel.phase.i { NotReadyNotWanted(sel, s, socks); }
    }
  }

  lemma ScanKeeps(st: State, c: nat, timeout: bool)
    requires Inv(st) && c in st.sels && st.sels[c].phase.Scan?
    ensures Inv(Advanced(st, c, timeout))
  {
    ScanIsLocal(st.sels[c], st.socks, timeout);
    LocalKeeps(st, c, Moved(st.sels[c], st.socks, timeout), Advanced(st, c, timeout));
  }

  /** select_waiting of socket s goes up or down with the set of calls counted at it. */
  lemma CountedChange(sels: map<nat, Sel>, c: nat, sel': Sel, s: nat)
    requires c in sels
    ensures |CountedSels(sels[c := sel'], s)| ==
            |CountedSels(sels, s)| - (if Counted(sels[c], s) then 1 else 0) + (if Counted(sel', s) then 1 else 0)
  {
    var (a, b) := (CountedSels(sels, s), CountedSels(sels[c := sel'], s));
    assert a - {c} == b - {c};
    SizeWithout(a, c);
    SizeWithout(b, c);
  }

  lemma SizeWithout(a: set<nat>, c: nat)
    ensures |a| == |a - {c}| + if c in a then 1 else 0
  {
    assert a == if c in a then (a - {c}) + {c} else a - {c};
  }

  /** A step that moves the call past socket i in the loops over select_waiting. */
  ghost predicate CountChange(a: Sel, b: Sel, i: nat, delta: int) {
    && SameCall(a, b) && Linked(b.phase) == Linked(a.phase)
    && (forall s :: Counted(b, s) == Counted(a, s) || (s == i && Watches(b, i)))
    && delta == (if Counted(b, i) then 1 else 0) - (if Counted(a, i) then 1 else 0)
    && (forall s :: !Armed(b, s))
  }

  lemma CountKeeps(st: State, c: nat, sel': Sel, i: nat, delta: int, st': State)
    requires Inv(st) && c in st.sels && CountChange(st.sels[c], sel', i, delta)
    requires st' == st.(sels := st.sels[c := sel'], socks := Raised(st.socks, sel', i, delta))
    ensures Inv(st')
  {
    forall s | s in st.socks ensures st'.socks[s].waiting == |CountedSels(st'.sels, s)| {
      CountedChange(st.sels, c, sel', s);
    }
    forall c', s | Missed(st', c', s) ensures exists k :: k in st'.cbs && Pending(st', k, s, c') {
      assert Missed(st, c', s);
      var k :| k in st.cbs && Pending(st, k, s, c');
      assert Pending(st', k, s, c');
    }
  }

  lemma IncKeeps(st: State, c: nat, timeout: bool)
    requires Inv(st) && c in st.sels && st.sels[c].phase.Inc?
    ensures Inv(Advanced(st, c, timeout))
  {
    var (sel, st') := (st.sels[c], Advanced(st, c, timeout));
    var i := sel.phase.i;
    if i < sel.maxfdp1 {
      CountKeeps(st, c, sel.(phase := Inc(i + 1)), i, if Watches(sel, i) then 1 else 0, st');
    } else {
      LocalKeeps(st, c, NewScan(sel, 2), st');
    }
  }

  lemma WaitKeeps(st: State, c: nat, timeout: bool)
    requires Inv(st) && c in st.sels && st.sels[c].phase.Wait?
    ensures Inv(Advanced(st, c, timeout))
  {
    LocalKeeps(st, c, Moved(st.sels[c], st.socks, timeout), Advanced(st, c, timeout));
  }

  lemma DecKeeps(st: State, c: nat, timeout: bool)
    requires Inv(st) && c in st.sels && st.sels[c].phase.Dec?
    ensures Inv(Advanced(st, c, timeout))
  {
    var (sel, st') := (st.sels[c], Advanced(st, c, timeout));
    var i := sel.phase.i;
    if i < sel.maxfdp1 {
      CountKeeps(st, c, sel.(phase := Dec(i + 1)), i, if Watches(sel, i) then -1 else 0, st');
    } else {
      LocalKeeps(st, c, sel.(phase := Unlink), st');
    }
  }

  /** The call's entry enters or leaves the list, while no socket counts it. */
  ghost predicate ListChange(a: Sel, b: Sel, c: nat, before: seq<nat>, after: seq<nat>) {
    && SameCall(a, b) && Distinct(after)
    && (forall d :: d in after <==> if d == c then Linked(b.phase) else d in before)
    && (forall s :: !Counted(b, s) && !Counted(a, s)) && (forall s :: !Armed(b, s))
  }

  /** A change of the list raises the counter, so every walk under way starts again and covers all. */
  lemma ListChangeKeeps(st: State, c: nat, sel': Sel, order: seq<nat>, st': State)
    requires Inv(st) && c in st.sels && ListChange(st.sels[c], sel', c, st.order, order)
    requires st' == st.(sels := st.sels[c := sel'], order := order, ctr := st.ctr + 1)
    ensures Inv(st')
  {
    forall s | s in st.socks ensures CountedSels(st'.sels, s) == CountedSels(st.sels, s) {}
    forall c', s | Missed(st', c', s) ensures exists k :: k in st'.cbs && Pending(st', k, s, c') {
      assert Missed(st, c', s);
      var k :| k in st.cbs && Pending(st, k, s, c');
      assert Pending(st', k, s, c');
    }
  }

  lemma WithoutElement<T>(order: seq<T>, c: T)
    requires Distinct(order)
    ensures Distinct(Without(order, c)) && forall d :: d in Without(order, c) <==> d in order && d != c
  {
    var (i, w) := (Index(order, c), Without(order, c));
    forall d | d in order && d != c ensures d in w {
      var j :| 0 <= j < |order| && order[j] == d;
      if i < |order| { assert d == if j < i then w[j] else w[j - 1]; }
    }
  }

  lemma LinkIsListChange(sel: Sel, c: nat, order: seq<nat>)
    requires sel.phase.Link? && Distinct(order) && c !in order
    ensures ListChange(sel, sel.(phase := Inc(0)), c, order, [c] + order)
  {
  }

  lemma UnlinkIsListChange(sel: Sel, sel': Sel, c: nat, order: seq<nat>)
    requires sel.phase.Unlink? && Distinct(order) && (sel' == sel.(phase := Returned) || sel' == NewScan(sel, 3))
    ensures ListChange(sel, sel', c, order, Without(order, c))
  {
    WithoutElement(order, c);
  }

  lemma LinkKeeps(st: State, c: nat, timeout: bool)
    requires Inv(st) && c in st.sels && st.sels[c].phase.Link?
    ensures Inv(Advanced(st, c, timeout))
  {
    var (sel, st') := (st.sels[c], Advanced(st, c, timeout));
    if timeout {
      LocalKeeps(st, c, sel.(phase := Failed), st');
    } else {
      LinkIsListChange(sel, c, st.order);
      ListChangeKeeps(st, c, sel.(phase := Inc(0)), [c] + st.order, st');
    }
  }

  lemma UnlinkKeeps(st: State, c: nat, timeout: bool)
    requires Inv(st) && c in st.sels && st.sels[c].phase.Unlink?
    ensures Inv(Advanced(st, c, timeout))
  {
    var (sel', order') := (Moved(st.sels[c], st.socks, timeout), Without(st.order, c));
    UnlinkIsListChange(st.sels[c], sel', c, st.order);
    ListChangeKeeps(st, c, sel', order', Advanced(st, c, timeout));
  }

  lemma AdvanceKeeps(st: State, c: nat, timeout: bool)
    requires Inv(st) && c in st.sels
    ensures Inv(Advanced(st, c, timeout))
  {
    match st.sels[c].phase
    case Scan(_, _) => ScanKeeps(st, c, timeout);
    case Inc(_) => IncKeeps(st, c, timeout);
    case Wait => WaitKeeps(st, c, timeout);
    case Dec(_) => DecKeeps(st, c, timeout);
    case Link => LinkKeeps(st, c, timeout);
    case Unlink => UnlinkKeeps(st, c, timeout);
    case Returned => LocalKeeps(st, c, st.sels[c], Advanced(st, c, timeout));
    case Failed => LocalKeeps(st, c, st.sels[c], Advanced(st, c, timeout));
  }

  lemma StepKeeps(st: State, step: Step)
    requires Inv(st) && Enabled(st, step)
    ensures Inv(Next(st, step))
  {
    match step
    case OpenSocket(s, _) => SocketKeeps(st, s, Next(st, step).socks[s]);
    case Lastdata(s, _) => SocketKeeps(st, s, Next(st, step).socks[s]);
    case Begin(c, sel) => BeginKeeps(st, c, sel);
    case Advance(c, timeout) => AdvanceKeeps(st, c, timeout);
    case Post(k, s, evt) => PostKeeps(st, k, s, evt);
    case Resume(k) => ResumeKeeps(st, k);
  }

  lemma SocketKeeps(st: State, s: nat, sock': Sock)
    requires Inv(st)
    requires if s in st.socks then sock' == st.socks[s].(lastdata := sock'.lastdata) else sock'.waiting == 0
    ensures Inv(st.(socks := st.socks[s := sock']))
  {
    var st' := st.(socks := st.socks[s := sock']);
    if s !in st.socks { assert CountedSels(st.sels, s) == {}; }
    forall c, s' | Missed(st', c, s') ensures exists k :: k in st'.cbs && Pending(st', k, s', c) {
      assert Missed(st, c, s');
      var k :| k in st.cbs && Pending(st, k, s', c);
      assert Pending(st', k, s', c);
    }
  }

  lemma BeginKeeps(st: State, c: nat, sel: Sel)
    requires Inv(st) && Enabled(st, Begin(c, sel))
    ensures Inv(st.(sels := st.sels[c := sel]))
  {
    var st' := st.(sels := st.sels[c := sel]);
    forall s | s in st.socks ensures CountedSels(st'.sels, s) == CountedSels(st.sels, s) {}
    forall c', s | Missed(st', c', s) ensures exists k :: k in st'.cbs && Pending(st', k, s, c') {
      assert Missed(st, c', s);
      var k :| k in st.cbs && Pending(st, k, s, c');
      assert Pending(st', k, s, c');
    }
  }

  // ----- Every run ------------------------------------------------------------------------

  lemma {:induction false} RunKeeps(trace: seq<State>, steps: seq<Step>, n: nat)
    requires Run(trace, steps) && n < |trace|
    ensures Inv(trace[n])
  {
    if n > 0 {
      RunKeeps(trace, steps, n - 1);
      StepKeeps(trace[n - 1], steps[n - 1]);
    }
  }

  /** No lost wakeup: in every interleaving, once no callback is walking the list, a select that
      waits unsignalled watches no socket with an event it asked for. */
  lemma NoLostWakeup(trace: seq<State>, steps: seq<Step>, n: nat, c: nat, s: nat)
    requires Run(trace, steps) && n < |trace|
    requires var st := trace[n];
             && st.cbs == map[] && c in st.sels && st.sels[c].phase.Wait?
             && !st.sels[c].signalled && Watches(st.sels[c], s)
    ensures var st := trace[n];
            && s in st.socks
            && !(s in st.sels[c].readset && st.socks[s].rcvevent > 0)
            && !(s in st.sels[c].writeset && st.socks[s].sendevent)
            && !(s in st.sels[c].exceptset && st.socks[s].errevent)
  {
    RunKeeps(trace, steps, n);
    var st := trace[n];
    if Wants(st.sels[c], s, st.socks[s]) {
      assert Missed(st, c, s);
    }
  }

  /** The walk that drops its lock follows `next` only from an entry that is still linked, and no
      semaphore is signalled twice. */
  lemma WalkStaysOnList(trace: seq<State>, steps: seq<Step>, n: nat)
    requires Run(trace, steps) && n < |trace|
    ensures var st := trace[n];
            && (forall k :: k in st.cbs && st.cbs[k].last == st.ctr ==>
                  st.cbs[k].pos in st.order && st.cbs[k].pos in st.sels && Linked(st.sels[st.cbs[k].pos].phase))
            && (forall c :: c in st.sels ==> st.sels[c].signals <= 1)
            && (forall c :: c in st.sels && !Linked(st.sels[c].phase) ==> c !in st.order)
  {
    RunKeeps(trace, steps, n);
  }
}

/** What a netconn answers, and when: the error of each call that is answered at once, what is left to
    be answered later, what closing does to the pcb, and how much of a write TCP was offered. */
module NetconnAnswer {
  import opened Err
  import opened Netconn

  /** The call was answered with this error at once, and nothing else changed. */
  predicate Refused(c: Conn, c': Conn, r: Request, err: int) {
    c' == c.(issued := c.issued + 1, done := c.done + [Done(c.issued, err, Length(r))])
  }

  /** The call is the pending one now. */
  predicate Awaits(c: Conn, c': Conn, r: Request, state: State) {
    && c'.issued == c.issued + 1 && c'.done == c.done && c'.current == Message(c.issued, r) && c'.state == state
    && c'.pcb == c.pcb && c'.lastErr == c.lastErr
  }

  predicate Answered(c: Conn, c': Conn, err: int, len: nat) {
    c'.issued == c.issued + 1 && c'.done == c.done + [Done(c.issued, err, len)] && c'.current == Idle
  }

  /** netconn_connect: it needs a pcb, and a netconn that does nothing else; a non-blocking one is told
      that the connect is in progress, a blocking one waits for it. */
  lemma ConnectAnswers(c: Conn, r: Request, t: Tcp)
    requires r.ConnectTo? && c.current == Idle
    ensures var c' := Handle(c, r, t);
            && (!c.pcb ==> Refused(c, c', r, ERR_CLSD))
            && (c.pcb && !c.tcp ==> Refused(c, c', r, t.connectErr))
            && (c.pcb && c.tcp && c.state != None ==> Refused(c, c', r, ERR_ISCONN))
            && (c.pcb && c.tcp && c.state == None && t.connectErr != ERR_OK ==> Refused(c, c', r, t.connectErr))
            && (c.pcb && c.tcp && c.state == None && t.connectErr == ERR_OK ==>
                  if c.nonblocking then
                    Answered(c, c', ERR_INPROGRESS, 0) && c'.state == Connect && c'.inNonblocking && c'.pcb
                  else Awaits(c, c', r, Connect) && !c'.inNonblocking)
  {
  }

  /** netconn_write: a fatal error of before comes first; then it needs a TCP netconn that does nothing
      else and has a pcb. */
  lemma WriteAnswers(c: Conn, r: Request, t: Tcp)
    requires r.WriteData? && r.data != [] && c.current == Idle
    ensures var c' := Handle(c, r, t);
            && (Fatal(c.lastErr) ==> Refused(c, c', r, c.lastErr))
            && (!Fatal(c.lastErr) && !c.tcp ==> Refused(c, c', r, ERR_VAL))
            && (!Fatal(c.lastErr) && c.tcp && c.state != None ==> Refused(c, c', r, ERR_INPROGRESS))
            && (!Fatal(c.lastErr) && c.tcp && c.state == None && !c.pcb ==> Refused(c, c', r, ERR_CONN))
            && (!Fatal(c.lastErr) && c.tcp && c.state == None && c.pcb ==> WorksOnWrite(c, Call(r, t)))
  {
  }

  /** netconn_close and netconn_shutdown: only a listener or an idle netconn can be closed, and a
      listener only as a whole. */
  lemma ShutdownAnswers(c: Conn, r: Request, t: Tcp)
    requires r.Shutdown? && c.current == Idle
    ensures var (c', whole) := (Handle(c, r, t), r.rx && r.tx);
            && (c.state != None && c.state != Listen ==> Refused(c, c', r, ERR_INPROGRESS))
            && ((c.state == None || c.state == Listen) && !(c.pcb && c.tcp) ==> Refused(c, c', r, ERR_VAL))
            && (c.state == Listen && c.pcb && c.tcp && !whole ==> Refused(c, c', r, ERR_CONN))
            && ((c.state == None || (c.state == Listen && whole)) && c.pcb && c.tcp ==>
                  if t.closeErr == ERR_OK then
                    Answered(c, c', ERR_OK, 0) && c'.state == None && (c'.pcb <==> !whole)
                  else Awaits(c, c', r, Close))
  {
  }

  /** netconn_delete: refused while a write or close is under way; otherwise the pcb is closed, at once
      or later, or simply dropped. */
  lemma DeleteAnswers(c: Conn, r: Request, t: Tcp)
    requires r.Delete? && c.current == Idle
    ensures var (c', busy) := (Handle(c, r, t), c.state == Write || c.state == Close);
            && (busy ==> Refused(c, c', r, ERR_INPROGRESS))
            && (!busy && !(c.pcb && c.tcp) ==> Answered(c, c', r.err, 0) && !c'.pcb && c'.deleting)
            && (!busy && c.pcb && c.tcp ==>
                  c'.deleting
                  && if t.closeErr == ERR_OK then Answered(c, c', ERR_OK, 0) && c'.state == None && !c'.pcb
                     else Awaits(c, c', r, Close))
  {
  }

  /** netconn_listen: a fatal error of before comes first; then it needs a TCP pcb that does nothing. */
  lemma ListenAnswers(c: Conn, r: Request, t: Tcp)
    requires r.StartListen? && c.current == Idle
    ensures var c' := Handle(c, r, t);
            && (Fatal(c.lastErr) ==> Refused(c, c', r, c.lastErr))
            && (!Fatal(c.lastErr) && (!c.pcb || (c.tcp && c.state != None)) ==> Refused(c, c', r, ERR_CONN))
            && (!Fatal(c.lastErr) && c.pcb && !c.tcp ==> Refused(c, c', r, ERR_ARG))
            && (!Fatal(c.lastErr) && c.pcb && c.tcp && c.state == None ==>
                  if t.listenErr == ERR_OK then Answered(c, c', ERR_OK, 0) && c'.state == Listen && c'.pcb
                  else Answered(c, c', t.listenErr, 0) && c'.state == None && (c'.pcb <==> !t.listenFreed))
  {
  }

  /** When TCP reports back on a close: a half shutdown keeps the pcb, a whole close or a delete drops
      it, and until the close succeeds nothing changes. */
  lemma CloseAnswers(c: Conn, t: Tcp)
    requires Inv(c) && c.state == Close
    ensures var (c', r) := (React(c, SentOrPoll(t)), c.current.request);
            if t.closeErr != ERR_OK then c' == c
            else
              && c'.done == c.done + [Done(c.current.id, ERR_OK, 0)] && c'.current == Idle && c'.state == None
              && (c'.pcb <==> c.pcb && r.Shutdown? && !(r.rx && r.tx))
  {
  }

  /** The end of a connect: a blocking one is answered with what TCP says; a non-blocking one was, so it
      only clears an earlier error that is not fatal. */
  lemma ConnectEnds(c: Conn, err: int)
    requires Inv(c) && c.state == Connect
    ensures var c' := React(c, Connected(err));
            && c'.state == None && c'.current == Idle && !c'.inNonblocking && c'.pcb == c.pcb
            && if c.inNonblocking then
                 c'.done == c.done && c'.lastErr == if Fatal(c.lastErr) then c.lastErr else ERR_OK
               else c'.done == c.done + [Done(c.current.id, err, Length(c.current.request))] && c'.lastErr == c.lastErr
  {
  }

  /** NETCONN_SET_SAFE_ERR changes the error only, and not a fatal one. */
  lemma SafeErrIsSafe(c: Conn, err: int)
    ensures Next(c, SafeErr(err)) == if Fatal(c.lastErr) then c else c.(lastErr := err)
  {
  }

  /** An error of the pcb is remembered, and answers every later write and listen if it is fatal. */
  lemma ErrorsAreRemembered(c: Conn, err: int, r: Request, t: Tcp)
    requires c.state != None ==> c.current.Message? || c.inNonblocking || c.state == Listen
    requires Resumable(c) && Fatal(err) && (r.WriteData? || r.StartListen?)
    ensures var c' := React(c, Failed(err));
            c'.lastErr == err && !c'.pcb && c'.state == None && Refused(c', Handle(c', r, t), r, err)
  {
  }

  // ----- How much TCP is offered ----------------------------------------------------------

  /** The results of TCP, and the write, that a step of do_write or of its resumptions works with. */
  function TcpOf(s: Step): Tcp
    requires s.Call? || (s.Event? && s.cb.SentOrPoll?)
  {
    if s.Call? then s.t else s.cb.t
  }

  function WriteOf(c: Conn, s: Step): Request
    requires WorksOnWrite(c, s) && (s.Event? ==> c.current.Message?)
  {
    if s.Call? then s.request else c.current.request
  }

  /** What was taken of that write before. */
  function Before(c: Conn, s: Step): seq<Chunk> { if s.Call? then [] else c.wrote }

  /** The step takes one more chunk: as many bytes as the data left, 16 bits and the send buffer allow. */
  predicate Takes(c: Conn, s: Step, wrote: seq<Chunk>)
    requires WorksOnWrite(c, s) && (s.Event? ==> c.current.Message?)
  {
    var (r, before) := (WriteOf(c, s), Before(c, s));
    && r.WriteData? && |Bytes(before)| <= |r.data| && |wrote| == |before| + 1 && wrote[..|before|] == before
    && Fills(|wrote[|before|].data|, |r.data| - |Bytes(before)|, TcpOf(s).sndbuf)
  }

  lemma TakesByAttempt(r: Request, nb: bool, offset: nat, wrote: seq<Chunk>, t: Tcp)
    requires r.WriteData? && offset < |r.data| && |Bytes(wrote)| == offset
    ensures var after := WriteProgress(r, nb, offset, wrote, t).wrote;
            after == wrote ||
            (|after| == |wrote| + 1 && after[..|wrote|] == wrote
             && Fills(|after[|wrote|].data|, |r.data| - |Bytes(wrote)|, t.sndbuf))
  {
    AttemptIsRight(r, nb, offset, wrote, t);
  }

  lemma CallTakes(c: Conn, s: Step)
    requires Enabled(c, s) && s.Call? && WorksOnWrite(c, s)
    ensures var wrote := Next(c, s).wrote; wrote == [] || Takes(c, s, wrote)
  {
    var r := s.request;
    TakesByAttempt(r, DontBlock(c, r), 0, [], s.t);
    assert Next(c, s).wrote == WriteProgress(r, DontBlock(c, r), 0, [], s.t).wrote;
  }

  lemma EventTakes(c: Conn, s: Step)
    requires Inv(c) && Enabled(c, s) && s.Event? && WorksOnWrite(c, s)
    ensures var wrote := Next(c, s).wrote; wrote == c.wrote || Takes(c, s, wrote)
  {
    var r := c.current.request;
    TakesByAttempt(r, DontBlock(c, r), c.offset, c.wrote, s.cb.t);
    assert Next(c, s).wrote == WriteProgress(r, DontBlock(c, r), c.offset, c.wrote, s.cb.t).wrote;
  }

  lemma CloseTakesNothing(c: Conn, t: Tcp)
    requires c.current.Message?
    ensures CloseInternal(c, t).wrote == c.wrote
  {
  }

  lemma ShutdownTakesNothing(c: Conn, r: Request, t: Tcp)
    ensures HandleShutdown(c, r, t).wrote == c.wrote
  {
    CloseTakesNothing(Begin(c, r, Close), t);
  }

  lemma DeleteTakesNothing(c: Conn, r: Request, t: Tcp)
    requires r.Delete?
    ensures HandleDelete(c, r, t).wrote == c.wrote
  {
    CloseTakesNothing(Begin(c, r, Close).(deleting := true), t);
  }

  lemma AckTakesNothing(c: Conn, r: Request, err: int)
    ensures Ack(c, r, err).wrote == c.wrote
  {
  }

  lemma ConnectTakesNothing(c: Conn, r: Request, t: Tcp)
    ensures HandleConnect(c, r, t).wrote == c.wrote
  {
    AckTakesNothing(c, r, ERR_CLSD);
    AckTakesNothing(c, r, ERR_ISCONN);
    AckTakesNothing(c, r, t.connectErr);
    AckTakesNothing(c.(state := Connect, inNonblocking := true), r, ERR_INPROGRESS);
  }

  lemma CallsTakeNothing(c: Conn, r: Request, t: Tcp)
    requires !WorksOnWrite(c, Call(r, t))
    ensures Handle(c, r, t).wrote == c.wrote
  {
    match r
    case Shutdown(_, _) => ShutdownTakesNothing(c, r, t);
    case Delete(_) => DeleteTakesNothing(c, r, t);
    case ConnectTo => ConnectTakesNothing(c, r, t);
    case _ =>
  }

  lemma OthersTakeNothing(c: Conn, s: Step)
    requires Enabled(c, s) && !WorksOnWrite(c, s)
    ensures Next(c, s).wrote == c.wrote
  {
    match s
    case Call(r, t) => CallsTakeNothing(c, r, t);
    case Event(cb) => if cb.SentOrPoll? && c.state == Close { CloseTakesNothing(c, cb.t); }
    case _ =>
  }

  /** Over every run, each chunk of a write was taken in one step, and was as long as the data then left,
      16 bits and the send buffer of that step allowed. */
  lemma {:induction false} ChunksFill(trace: seq<Conn>, steps: seq<Step>, n: nat, k: nat) returns (m: nat)
    requires Run(trace, steps) && NeverLosesConnect(trace, steps) && n < |trace| && k < |trace[n].wrote|
    ensures m < n && WorksOnWrite(trace[m], steps[m]) && (steps[m].Event? ==> trace[m].current.Message?)
    ensures Takes(trace[m], steps[m], trace[n].wrote[..k + 1])
  {
    assert n > 0;
    var (c, s) := (trace[n - 1], steps[n - 1]);
    RunKeeps(trace, steps, n - 1);
    assert Enabled(c, s) && trace[n] == Next(c, s);
    if WorksOnWrite(c, s) {
      if s.Call? { CallTakes(c, s); } else { EventTakes(c, s); }
    } else {
      OthersTakeNothing(c, s);
    }
    if WorksOnWrite(c, s) && k == |Before(c, s)| {
      m := n - 1;
      assert trace[n].wrote[..k + 1] == trace[n].wrote;
    } else {
      assert trace[n].wrote[..k + 1] == c.wrote[..k + 1];
      m := ChunksFill(trace, steps, n - 1, k);
    }
  }

  /** A non-blocking write that is reported done reports as much as the three allow. */
  lemma NonblockingReportFills(c: Conn, s: Step)
    requires Inv(c) && Enabled(c, s) && WorksOnWrite(c, s) && s.Call? && DontBlock(c, s.request)
    ensures var c' := Next(c, s);
            && |c'.done| == |c.done| + 1
            && var d := c'.done[|c.done|];
               && (d.err == ERR_OK ==> Fills(d.len, |s.request.data|, s.t.sndbuf))
               && (d.err == ERR_WOULDBLOCK && s.t.writeErr != ERR_WOULDBLOCK ==> s.t.sndbuf == 0)
               && (s.t.sndbuf > 0 ==> d.err == s.t.writeErr) && (d.err != ERR_OK ==> d.len == 0)
  {
    AttemptIsRight(s.request, true, 0, [], s.t);
  }
}

/** The netconn state machine of api_msg.c on values: what each API message handler and each TCP
    callback does to a netconn. One application thread uses the netconn; TCP itself is seen only
    through the results of its functions. */
module Netconn {
  import opened Err
  import opened Octets

  const MAX_CHUNK := 0xffff

  datatype State = None | Write | Listen | Connect | Close

  /** Data accepted by one tcp_write call, and whether TCP_WRITE_FLAG_MORE was set. */
  datatype Chunk = Chunk(data: seq<Byte>, more: bool)

  datatype Request =
    | ConnectTo
    | WriteData(data: seq<Byte>, dontblock: bool, more: bool)
    | Shutdown(rx: bool, tx: bool)
    | Delete(err: int)        // what msg->err holds: do_delconn does not set it without a TCP pcb
    | StartListen
    | Acknowledge(err: int)   // the handlers that only set msg->err and acknowledge

  /** A signal of op_completed: which message it completes, with which error and length. */
  datatype Done = Done(id: nat, err: int, len: nat)

  /** `len` of the pending message is |request.data| until a write changes it. */
  datatype Pending = Idle | Message(id: nat, request: Request)

  datatype Conn = Conn(
    tcp: bool,              // NETCONN_TCP; other types never leave state None
    state: State,
    pcb: bool,              // conn->pcb.tcp != NULL
    lastErr: int,
    nonblocking: bool,      // NETCONN_FLAG_NON_BLOCKING
    inNonblocking: bool,    // NETCONN_FLAG_IN_NONBLOCKING_CONNECT
    current: Pending,       // conn->current_msg
    offset: nat,            // conn->write_offset
    wrote: seq<Chunk>,      // accepted by tcp_write since the last do_write
    deleting: bool,         // netconn_delete was called; the application is done with it
    issued: nat,
    done: seq<Done>)

  /** Results of the TCP functions a handler may call. */
  datatype Tcp = Tcp(sndbuf: nat, writeErr: int, closeErr: int, connectErr: int, listenErr: int, listenFreed: bool)

  function Length(r: Request): nat { if r.WriteData? then |r.data| else 0 }

  /** sys_sem_signal(&conn->op_completed) after msg->err and msg->msg.w.len were set. */
  function Signal(c: Conn, id: nat, err: int, len: nat): Conn {
    c.(done := c.done + [Done(id, err, len)])
  }

  /** Complete the pending message and drop it. */
  function Complete(c: Conn, err: int, len: nat): Conn
    requires c.current.Message?
  {
    Signal(c.(current := Idle), c.current.id, err, len)
  }

  // ----- Writing --------------------------------------------------------------------------

  predicate DontBlock(c: Conn, r: Request) { r.WriteData? && (c.nonblocking || r.dontblock) }

  /** The bytes one do_writemore call offers to tcp_write. */
  function Offer(diff: nat, sndbuf: nat): nat {
    var len := if diff > MAX_CHUNK then MAX_CHUNK else diff;
    if sndbuf < len then sndbuf else len
  }

  /** A length fits what is left to write, 16 bits and the send buffer, and is as much as all three
      allow. */
  predicate Fills(len: nat, diff: nat, sndbuf: nat) {
    len <= diff && len <= 0xffff && len <= sndbuf && (len == diff || len == 0xffff || len == sndbuf)
  }

  /** TCP_WRITE_FLAG_MORE is set for a clipped length, unless a non-blocking write met a short
      send buffer. */
  predicate MoreFlag(r: Request, dontblock: bool, diff: nat, sndbuf: nat)
    requires r.WriteData?
  {
    r.more || diff > MAX_CHUNK || (!dontblock && sndbuf < diff)
  }

  /** How one do_writemore call ends: the write goes on, or completes with `err` and `len`. */
  datatype Progress =
    | Continues(wrote: seq<Chunk>, offset: nat)
    | Ends(wrote: seq<Chunk>, offset: nat, err: int, len: nat)

  function WriteProgress(r: Request, nb: bool, offset: nat, wrote: seq<Chunk>, t: Tcp): Progress
    requires r.WriteData? && offset <= |r.data|
  {
    var diff := |r.data| - offset;
    var len := Offer(diff, t.sndbuf);
    var end := offset + len;
    var taken := wrote + [Chunk(r.data[offset..end], MoreFlag(r, nb, diff, t.sndbuf))];
    if nb && t.sndbuf == 0 && diff > 0 then Ends(wrote, offset, ERR_WOULDBLOCK, 0)
    else if t.writeErr == ERR_OK then
      (if end == |r.data| || nb then Ends(taken, 0, ERR_OK, end) else Continues(taken, end))
    else if t.writeErr == ERR_MEM && !nb then Continues(wrote, offset)
    else Ends(wrote, offset, t.writeErr, 0)
  }

  function WriteMore(c: Conn, t: Tcp): Conn
    requires c.current.Message? && c.current.request.WriteData? && c.offset <= |c.current.request.data|
  {
    var p := WriteProgress(c.current.request, DontBlock(c, c.current.request), c.offset, c.wrote, t);
    var c1 := c.(wrote := p.wrote, offset := p.offset);
    if p.Ends? then Complete(c1.(state := None), p.err, p.len) else c1
  }

  // ----- Closing --------------------------------------------------------------------------

  predicate FullClose(r: Request) { r.Delete? || (r.Shutdown? && r.rx && r.tx) }

  function CloseInternal(c: Conn, t: Tcp): Conn
    requires c.current.Message?
  {
    if t.closeErr == ERR_OK
    then Complete(c.(state := None, pcb := c.pcb && !FullClose(c.current.request)), ERR_OK, 0)
    else c
  }

  // ----- API messages ---------------------------------------------------------------------

  /** A handler that neither waits nor changes the netconn. */
  function Ack(c: Conn, r: Request, err: int): Conn {
    Signal(c, c.issued, err, Length(r)).(issued := c.issued + 1)
  }

  /** The netconn with `r` as its current message, in the state in which it is worked on. */
  function Begin(c: Conn, r: Request, state: State): Conn {
    c.(issued := c.issued + 1, state := state, current := Message(c.issued, r))
  }

  function HandleConnect(c: Conn, r: Request, t: Tcp): Conn {
    if !c.pcb then Ack(c, r, ERR_CLSD)
    else if !c.tcp then Ack(c, r, t.connectErr)
    else if c.state != None then Ack(c, r, ERR_ISCONN)
    else if t.connectErr != ERR_OK then Ack(c, r, t.connectErr)
    else if c.nonblocking then Ack(c.(state := Connect, inNonblocking := true), r, ERR_INPROGRESS)
    else Begin(c, r, Connect).(inNonblocking := false)
  }

  function HandleWrite(c: Conn, r: Request, t: Tcp): Conn
    requires r.WriteData?
  {
    if Fatal(c.lastErr) then Ack(c, r, c.lastErr)
    else if !c.tcp then Ack(c, r, ERR_VAL)
    else if c.state != None then Ack(c, r, ERR_INPROGRESS)
    else if !c.pcb then Ack(c, r, ERR_CONN)
    else WriteMore(Begin(c, r, Write).(offset := 0, wrote := []), t)
  }

  function HandleShutdown(c: Conn, r: Request, t: Tcp): Conn {
    if c.state != None && c.state != Listen then Ack(c, r, ERR_INPROGRESS)
    else if !c.pcb || !c.tcp then Ack(c, r, ERR_VAL)
    else if !FullClose(r) && c.state == Listen then Ack(c, r, ERR_CONN)
    else CloseInternal(Begin(c, r, Close), t)
  }

  function HandleDelete(c: Conn, r: Request, t: Tcp): Conn
    requires r.Delete?
  {
    if c.state != None && c.state != Listen && c.state != Connect then Ack(c, r, ERR_INPROGRESS)
    else if c.pcb && c.tcp then CloseInternal(Begin(c, r, Close).(deleting := true), t)
    else Ack(c.(pcb := false, deleting := true), r, r.err)
  }

  function HandleListen(c: Conn, r: Request, t: Tcp): Conn {
    if Fatal(c.lastErr) then Ack(c, r, c.lastErr)
    else if !c.pcb || (c.tcp && c.state != None) then Ack(c, r, ERR_CONN)
    else if !c.tcp then Ack(c, r, ERR_ARG)
    else if t.listenErr == ERR_OK then Ack(c.(state := Listen), r, ERR_OK)
    else Ack(c.(pcb := !t.listenFreed), r, t.listenErr)
  }

  function Handle(c: Conn, r: Request, t: Tcp): Conn {
    match r
    case ConnectTo => HandleConnect(c, r, t)
    case WriteData(_, _, _) => HandleWrite(c, r, t)
    case Shutdown(_, _) => HandleShutdown(c, r, t)
    case Delete(_) => HandleDelete(c, r, t)
    case StartListen => HandleListen(c, r, t)
    case Acknowledge(err) => Ack(c, r, err)
  }

  // ----- TCP callbacks --------------------------------------------------------------------

  datatype Callback = Connected(err: int) | SentOrPoll(t: Tcp) | Failed(err: int)

  /** In the states that sent_tcp and poll_tcp resume there is a message to work on. */
  predicate Resumable(c: Conn) {
    && (c.state == Write ==>
          c.current.Message? && c.current.request.WriteData? && c.offset <= |c.current.request.data|)
    && (c.state == Close ==> c.current.Message?)
  }

  /** do_connected, sent_tcp and poll_tcp (which do the same here), and err_tcp. */
  function React(c: Conn, cb: Callback): Conn
    requires Resumable(c)
  {
    match cb
    case Connected(err) =>
      var end := c.(inNonblocking := false, current := Idle, state := None);
      if c.inNonblocking then (if Fatal(c.lastErr) then end else end.(lastErr := ERR_OK))
      else if c.current.Message? then Signal(end, c.current.id, err, Length(c.current.request))
      else end
    case SentOrPoll(t) =>
      if c.state == Write then WriteMore(c, t)
      else if c.state == Close then CloseInternal(c, t)
      else c
    case Failed(err) =>
      var end := c.(pcb := false, lastErr := err, state := None);
      if c.state == Write || c.state == Close || c.state == Connect then
        if c.inNonblocking then end.(inNonblocking := false)
        else if c.current.Message? then Complete(end, err, Length(c.current.request))
        else end
      else end
  }

  // ----- Runs -----------------------------------------------------------------------------

  datatype Step =
    | Call(request: Request, t: Tcp)
    | Event(cb: Callback)
    | SetNonblocking(on: bool)
    | SafeErr(err: int)

  function Next(c: Conn, s: Step): Conn
    requires Enabled(c, s)
  {
    match s
    case Call(r, t) => Handle(c, r, t)
    case Event(cb) => React(c, cb)
    case SetNonblocking(on) => c.(nonblocking := on)
    case SafeErr(err) => if Fatal(c.lastErr) then c else c.(lastErr := err)
  }

  /** The application issues a call only after the one before was completed, and no empty write;
      TCP calls back only for a pcb it has, and connects only what was asked to connect. */
  predicate Enabled(c: Conn, s: Step) {
    match s
    case Call(r, _) => |c.done| == c.issued && !c.deleting && (r.WriteData? ==> r.data != [])
    case Event(cb) =>
      && c.pcb
      && Resumable(c)
      && (cb.Connected? ==> c.state == Connect)
      && (cb.Failed? ==> cb.err != ERR_OK)
    case SetNonblocking(_) => |c.done| == c.issued
    case SafeErr(_) => true
  }

  /** netconn_delete during a pending non-blocking connect, when tcp_close does not succeed at once. */
  predicate LosesConnect(c: Conn, s: Step) {
    s.Call? && s.request.Delete? && c.state == Connect && s.t.closeErr != ERR_OK
  }

  predicate Allocated(c: Conn) {
    && c.state == None && !c.inNonblocking && c.current == Idle && !c.deleting && c.wrote == []
    && c.issued == 0 && c.done == []
  }

  predicate Run(trace: seq<Conn>, steps: seq<Step>) {
    && |trace| == |steps| + 1 && Allocated(trace[0])
    && (forall i {:trigger steps[i]} :: 0 <= i < |steps| ==>
          Enabled(trace[i], steps[i]) && trace[i + 1] == Next(trace[i], steps[i]))
  }

  predicate NeverLosesConnect(trace: seq<Conn>, steps: seq<Step>)
    requires |trace| == |steps| + 1
  {
    forall i {:trigger steps[i]} :: 0 <= i < |steps| ==> !LosesConnect(trace[i], steps[i])
  }

  // ----- The invariant --------------------------------------------------------------------

  function Bytes(cs: seq<Chunk>): seq<Byte> {
    if cs == [] then [] else Bytes(cs[..|cs| - 1]) + cs[|cs| - 1].data
  }

  /** Every message issued so far was completed once, in order, or is the current one. */
  predicate Accounted(c: Conn) {
    && |c.done| + (if c.current.Message? then 1 else 0) == c.issued
    && (forall i :: 0 <= i < |c.done| ==> c.done[i].id == i)
    && (c.current.Message? ==> c.current.id == c.issued - 1)
  }

  predicate Blocked(c: Conn) {
    c.state == Write || c.state == Close || (c.state == Connect && !c.inNonblocking)
  }

  /** A write under way: blocking, and tcp_write has taken exactly data[..offset]. */
  predicate Writing(c: Conn) {
    && c.current.Message? && c.current.request.WriteData?
    && !DontBlock(c, c.current.request)
    && c.offset < |c.current.request.data|
    && Bytes(c.wrote) == c.current.request.data[..c.offset]
    && AllMore(c.wrote)
  }

  predicate AllMore(wrote: seq<Chunk>) { forall k :: 0 <= k < |wrote| ==> wrote[k].more }

  predicate Inv(c: Conn) {
    && Accounted(c)
    && (c.current.Message? <==> Blocked(c))
    && (c.state != None ==> c.tcp && c.pcb)
    && (c.inNonblocking ==> c.state == Connect || (c.deleting && !c.pcb))
    && (c.state == Write ==> Writing(c))
    && (c.state == Close ==> c.current.request.Shutdown? || c.current.request.Delete?)
  }

  // ----- Writing --------------------------------------------------------------------------

  lemma BytesSnoc(cs: seq<Chunk>, last: Chunk)
    ensures Bytes(cs + [last]) == Bytes(cs) + last.data
  {
    assert (cs + [last])[..|cs|] == cs;
  }

  /** What a completed do_write reports against what tcp_write took. */
  predicate WriteOutcome(r: Request, dontblock: bool, wrote: seq<Chunk>, err: int, len: nat)
    requires r.WriteData?
  {
    if err == ERR_OK && !dontblock then
      && len == |r.data| && Bytes(wrote) == r.data && wrote != []
      && (forall k :: 0 <= k < |wrote| ==> (wrote[k].more <==> r.more || k < |wrote| - 1))
    else if err == ERR_OK then
      len <= |r.data| && |wrote| == 1 && Bytes(wrote) == r.data[..len]
    else
      && len == 0 && (dontblock ==> wrote == [])
      && Bytes(wrote) <= r.data
  }

  lemma AcceptedBytes(data: seq<Byte>, offset: nat, len: nat, wrote: seq<Chunk>, chunk: Chunk)
    requires offset + len <= |data| && Bytes(wrote) == data[..offset] && chunk.data == data[offset..offset + len]
    ensures Bytes(wrote + [chunk]) == data[..offset + len]
    ensures offset + len == |data| ==> Bytes(wrote + [chunk]) == data
  {
    BytesSnoc(wrote, chunk);
    assert data[..offset] + data[offset..offset + len] == data[..offset + len];
    assert data[..|data|] == data;
  }

  lemma FlagsOfTaken(wrote: seq<Chunk>, last: Chunk)
    requires AllMore(wrote)
    ensures var all := wrote + [last];
            && (forall k :: 0 <= k < |all| ==> (all[k].more <==> last.more || k < |all| - 1))
            && (last.more ==> AllMore(all))
  {
  }

  lemma PrefixOf(data: seq<Byte>, n: nat)
    requires n <= |data|
    ensures data[..n] <= data
  {
  }

  lemma BlockingProgress(r: Request, offset: nat, wrote: seq<Chunk>, t: Tcp)
    requires r.WriteData? && offset < |r.data| && Bytes(wrote) == r.data[..offset] && AllMore(wrote)
    ensures var p := WriteProgress(r, false, offset, wrote, t);
            if p.Continues? then
              && offset <= p.offset < |r.data|
              && Bytes(p.wrote) == r.data[..p.offset] && AllMore(p.wrote)
              && (t.writeErr == ERR_OK && t.sndbuf > 0 ==> p.offset > offset)
            else WriteOutcome(r, false, p.wrote, p.err, p.len)
  {
    if t.writeErr == ERR_OK {
      AcceptedProgress(r, offset, wrote, t);
    } else {
      PrefixOf(r.data, offset);
    }
  }

  lemma AcceptedProgress(r: Request, offset: nat, wrote: seq<Chunk>, t: Tcp)
    requires r.WriteData? && offset < |r.data| && Bytes(wrote) == r.data[..offset] && AllMore(wrote)
    requires t.writeErr == ERR_OK
    ensures var p := WriteProgress(r, false, offset, wrote, t);
            if p.Continues? then
              && offset <= p.offset < |r.data|
              && Bytes(p.wrote) == r.data[..p.offset] && AllMore(p.wrote)
              && (t.sndbuf > 0 ==> p.offset > offset)
            else WriteOutcome(r, false, p.wrote, p.err, p.len)
  {
    var diff := |r.data| - offset;
    var len := Offer(diff, t.sndbuf);
    var chunk := Chunk(r.data[offset..offset + len], MoreFlag(r, false, diff, t.sndbuf));
    OfferFlags(r, diff, t.sndbuf);
    AcceptedBytes(r.data, offset, len, wrote, chunk);
    FlagsOfTaken(wrote, chunk);
    if offset + len == |r.data| {
      assert WriteProgress(r, false, offset, wrote, t) == Ends(wrote + [chunk], 0, ERR_OK, |r.data|);
    } else {
      assert WriteProgress(r, false, offset, wrote, t) == Continues(wrote + [chunk], offset + len);
    }
  }

  /** A blocking write sets MORE on a clipped chunk, and leaves the last one to the application. */
  lemma OfferFlags(r: Request, diff: nat, sndbuf: nat)
    requires r.WriteData?
    ensures Offer(diff, sndbuf) <= diff && (sndbuf > 0 && diff > 0 ==> Offer(diff, sndbuf) > 0)
    ensures MoreFlag(r, false, diff, sndbuf) <==> r.more || Offer(diff, sndbuf) < diff
  {
  }

  lemma NonblockingProgress(r: Request, t: Tcp)
    requires r.WriteData? && r.data != []
    ensures var p := WriteProgress(r, true, 0, [], t);
            p.Ends? && WriteOutcome(r, true, p.wrote, p.err, p.len)
  {
    var len := Offer(|r.data|, t.sndbuf);
    AcceptedBytes(r.data, 0, len, [], Chunk(r.data[0..len], MoreFlag(r, true, |r.data|, t.sndbuf)));
  }

  /** What one do_writemore call does, by what TCP answers. Without room a non-blocking write would
      block. If tcp_write takes data, it is the next bytes, as many as fit, flagged MORE if they were
      clipped to 16 bits or, for a blocking write, to the send buffer; that is the end of a
      non-blocking write, and of one that has reached its end. A blocking write sees ERR_MEM through;
      any other error ends a write with nothing to report. */
  predicate Attempted(r: Request, nb: bool, offset: nat, wrote: seq<Chunk>, t: Tcp, p: Progress)
    requires r.WriteData? && offset < |r.data|
  {
    if nb && t.sndbuf == 0 then p == Ends(wrote, offset, ERR_WOULDBLOCK, 0)
    else if t.writeErr == ERR_OK then
      |p.wrote| == |wrote| + 1 && p.wrote[..|wrote|] == wrote
      && var taken := p.wrote[|wrote|].data; var end := offset + |taken|;
         && Fills(|taken|, |r.data| - offset, t.sndbuf) && taken == r.data[offset..end]
         && (p.wrote[|wrote|].more <==>
               r.more || |r.data| - offset > 0xffff || (!nb && t.sndbuf < |r.data| - offset))
         && p == if nb || end == |r.data| then Ends(p.wrote, 0, ERR_OK, end) else Continues(p.wrote, end)
    else if t.writeErr == ERR_MEM && !nb then p == Continues(wrote, offset)
    else p == Ends(wrote, offset, t.writeErr, 0)
  }

  lemma AttemptIsRight(r: Request, nb: bool, offset: nat, wrote: seq<Chunk>, t: Tcp)
    requires r.WriteData? && offset < |r.data|
    ensures Attempted(r, nb, offset, wrote, t, WriteProgress(r, nb, offset, wrote, t))
  {
  }

  lemma ProgressLaws(r: Request, nb: bool, offset: nat, wrote: seq<Chunk>, t: Tcp)
    requires r.WriteData? && offset < |r.data| && Bytes(wrote) == r.data[..offset]
    requires if nb then offset == 0 && wrote == [] else AllMore(wrote)
    ensures var p := WriteProgress(r, nb, offset, wrote, t);
            if p.Continues? then
              && !nb && offset <= p.offset < |r.data|
              && Bytes(p.wrote) == r.data[..p.offset] && AllMore(p.wrote)
              && (t.writeErr == ERR_OK && t.sndbuf > 0 ==> p.offset > offset)
            else WriteOutcome(r, nb, p.wrote, p.err, p.len)
  {
    if nb { NonblockingProgress(r, t); } else { BlockingProgress(r, offset, wrote, t); }
  }

  /** One do_writemore call either keeps the write going, having taken a further piece, or completes it
      with a truthful report; and the piece is as long as the data left, 16 bits and the send buffer
      allow. */
  lemma WriteProgressLaws(r: Request, nb: bool, offset: nat, wrote: seq<Chunk>, t: Tcp)
    requires r.WriteData? && offset < |r.data| && Bytes(wrote) == r.data[..offset]
    requires if nb then offset == 0 && wrote == [] else AllMore(wrote)
    ensures var p := WriteProgress(r, nb, offset, wrote, t);
            && Attempted(r, nb, offset, wrote, t, p)
            && if p.Continues? then
                 && !nb && offset <= p.offset < |r.data|
                 && Bytes(p.wrote) == r.data[..p.offset] && AllMore(p.wrote)
                 && (t.writeErr == ERR_OK && t.sndbuf > 0 ==> p.offset > offset)
               else WriteOutcome(r, nb, p.wrote, p.err, p.len)
  {
    ProgressLaws(r, nb, offset, wrote, t);
    AttemptIsRight(r, nb, offset, wrote, t);
  }

  // ----- Every step -----------------------------------------------------------------------

  lemma WriteMoreKeeps(c: Conn, t: Tcp)
    requires Accounted(c) && c.state == Write && c.tcp && c.pcb && !c.inNonblocking
    requires c.current.Message? && c.current.request.WriteData? && c.offset < |c.current.request.data|
    requires Bytes(c.wrote) == c.current.request.data[..c.offset]
    requires if DontBlock(c, c.current.request) then c.offset == 0 && c.wrote == [] else AllMore(c.wrote)
    ensures Inv(WriteMore(c, t))
  {
    ProgressLaws(c.current.request, DontBlock(c, c.current.request), c.offset, c.wrote, t);
  }

  lemma AckKeeps(c: Conn, r: Request, err: int)
    requires Inv(c) && c.current == Idle
    ensures Inv(Ack(c, r, err))
  {
  }

  lemma WriteKeeps(c: Conn, r: Request, t: Tcp)
    requires Inv(c) && c.current == Idle && r.WriteData? && r.data != [] && !c.deleting
    ensures Inv(HandleWrite(c, r, t))
  {
    if !Fatal(c.lastErr) && c.tcp && c.state == None && c.pcb {
      WriteMoreKeeps(Begin(c, r, Write).(offset := 0, wrote := []), t);
    }
  }

  lemma CloseInternalKeeps(c: Conn, t: Tcp)
    requires Inv(c.(inNonblocking := false)) && c.state == Close
    requires c.inNonblocking ==> c.deleting && c.current.request.Delete? && t.closeErr == ERR_OK
    ensures Inv(CloseInternal(c, t))
  {
  }

  lemma ShutdownKeeps(c: Conn, r: Request, t: Tcp)
    requires Inv(c) && c.current == Idle && r.Shutdown? && !c.deleting
    ensures Inv(HandleShutdown(c, r, t))
  {
    if (c.state == None || c.state == Listen) && c.pcb && c.tcp { CloseInternalKeeps(Begin(c, r, Close), t); }
  }

  lemma DeleteKeeps(c: Conn, r: Request, t: Tcp)
    requires Inv(c) && c.current == Idle && r.Delete? && (c.state == Connect ==> t.closeErr == ERR_OK)
    ensures Inv(HandleDelete(c, r, t))
  {
    if c.pcb && c.tcp { CloseInternalKeeps(Begin(c, r, Close).(deleting := true), t); }
  }

  lemma ConnectKeeps(c: Conn, r: Request, t: Tcp)
    requires Inv(c) && c.current == Idle && r.ConnectTo? && !c.deleting
    ensures Inv(HandleConnect(c, r, t))
  {
  }

  lemma ListenKeeps(c: Conn, r: Request, t: Tcp)
    requires Inv(c) && c.current == Idle && r.StartListen? && !c.deleting
    ensures Inv(HandleListen(c, r, t))
  {
  }

  lemma HandleKeeps(c: Conn, r: Request, t: Tcp)
    requires Inv(c) && Enabled(c, Call(r, t)) && !LosesConnect(c, Call(r, t))
    ensures Inv(Handle(c, r, t))
  {
    match r
    case ConnectTo => ConnectKeeps(c, r, t);
    case WriteData(_, _, _) => WriteKeeps(c, r, t);
    case Shutdown(_, _) => ShutdownKeeps(c, r, t);
    case Delete(_) => DeleteKeeps(c, r, t);
    case StartListen => ListenKeeps(c, r, t);
    case Acknowledge(err) => AckKeeps(c, r, err);
  }

  lemma ReactKeeps(c: Conn, cb: Callback)
    requires Inv(c) && Enabled(c, Event(cb))
    ensures Inv(React(c, cb))
  {
    if cb.SentOrPoll? && c.state == Write { WriteMoreKeeps(c, cb.t); }
  }

  lemma StepKeeps(c: Conn, s: Step)
    requires Inv(c) && Enabled(c, s) && !LosesConnect(c, s)
    ensures Inv(Next(c, s))
  {
    match s
    case Call(r, t) => HandleKeeps(c, r, t);
    case Event(cb) => ReactKeeps(c, cb);
    case SetNonblocking(_) =>
    case SafeErr(_) =>
  }

  lemma {:induction false} RunKeeps(trace: seq<Conn>, steps: seq<Step>, n: nat)
    requires Run(trace, steps) && n < |trace|
    requires NeverLosesConnect(trace, steps)
    ensures Inv(trace[n])
  {
    if n > 0 {
      RunKeeps(trace, steps, n - 1);
      StepKeeps(trace[n - 1], steps[n - 1]);
    }
  }

  // ----- One completion per call ----------------------------------------------------------

  /** Every API message is completed exactly once, in the order issued, at once or later; the one
      still to be completed is current_msg, and current_msg is set exactly in the states WRITE,
      CLOSE and blocking CONNECT. */
  lemma OneCompletionPerCall(trace: seq<Conn>, steps: seq<Step>, n: nat, id: nat)
    requires Run(trace, steps) && n < |trace|
    requires NeverLosesConnect(trace, steps)
    ensures var c := trace[n];
            && (c.current.Message? <==>
                  c.state == Write || c.state == Close || (c.state == Connect && !c.inNonblocking))
            && (id < c.issued ==>
                  if c.current.Message? && c.current.id == id then forall i :: 0 <= i < |c.done| ==> c.done[i].id != id
                  else id < |c.done| && forall i :: 0 <= i < |c.done| ==> (c.done[i].id == id <==> i == id))
            && (id >= c.issued ==> forall i :: 0 <= i < |c.done| ==> c.done[i].id != id)
  {
    RunKeeps(trace, steps, n);
  }

  /** The later completions: a fatal error completes whatever is pending; do_connected a connect;
      a successful close attempt a close; and each write attempt that is given room moves on. */
  lemma PendingIsCompleted(c: Conn, t: Tcp, err: int)
    requires Inv(c) && c.current.Message?
    ensures React(c, Failed(err)).done == c.done + [Done(c.current.id, err, Length(c.current.request))]
    ensures c.state == Connect ==>
              React(c, Connected(err)).done == c.done + [Done(c.current.id, err, Length(c.current.request))]
    ensures c.state == Close && t.closeErr == ERR_OK ==>
              React(c, SentOrPoll(t)).done == c.done + [Done(c.current.id, ERR_OK, 0)]
    ensures c.state == Write && t.writeErr == ERR_OK && t.sndbuf > 0 ==>
              var c' := React(c, SentOrPoll(t));
              c'.current == Idle || c'.offset > c.offset
  {
    if c.state == Write {
      ProgressLaws(c.current.request, DontBlock(c, c.current.request), c.offset, c.wrote, t);
    }
  }

  /** tcp_write takes bytes in this step. */
  predicate GivesRoom(s: Step) {
    s.Event? && s.cb.SentOrPoll? && s.cb.t.writeErr == ERR_OK && s.cb.t.sndbuf > 0
  }

  function Rooms(steps: seq<Step>, m: nat, n: nat): nat
    requires m <= n <= |steps|
  {
    if n == m then 0 else Rooms(steps, m, n - 1) + if GivesRoom(steps[n - 1]) then 1 else 0
  }

  lemma ConnectIssues(c: Conn, r: Request, t: Tcp)
    ensures HandleConnect(c, r, t).issued == c.issued + 1
  {
  }

  lemma WriteIssues(c: Conn, r: Request, t: Tcp)
    requires r.WriteData?
    ensures HandleWrite(c, r, t).issued == c.issued + 1
  {
  }

  lemma CloseIssuesNothing(c: Conn, t: Tcp)
    requires c.current.Message?
    ensures CloseInternal(c, t).issued == c.issued
  {
  }

  lemma ShutdownIssues(c: Conn, r: Request, t: Tcp)
    ensures HandleShutdown(c, r, t).issued == c.issued + 1
  {
    CloseIssuesNothing(Begin(c, r, Close), t);
  }

  lemma DeleteIssues(c: Conn, r: Request, t: Tcp)
    requires r.Delete?
    ensures HandleDelete(c, r, t).issued == c.issued + 1
  {
    CloseIssuesNothing(Begin(c, r, Close).(deleting := true), t);
  }

  lemma CallIssues(c: Conn, r: Request, t: Tcp)
    ensures Handle(c, r, t).issued == c.issued + 1
  {
    match r
    case ConnectTo => ConnectIssues(c, r, t);
    case WriteData(_, _, _) => WriteIssues(c, r, t);
    case Shutdown(_, _) => ShutdownIssues(c, r, t);
    case Delete(_) => DeleteIssues(c, r, t);
    case StartListen =>
    case Acknowledge(_) =>
  }

  /** Only an API message raises the number issued, and no step but its own brings a message in. */
  lemma {:induction false} EventIssuesNothing(c: Conn, cb: Callback)
    requires Enabled(c, Event(cb))
    ensures React(c, cb).issued == c.issued
    ensures c.current == Idle ==> React(c, cb).current == Idle
  {
  }

  /** The message that was pending in `was` is so no more. */
  predicate Over(was: Conn, c: Conn) { c.issued > was.issued || (c.issued == was.issued && c.current == Idle) }

  lemma StaysOver(was: Conn, c: Conn, s: Step)
    requires Over(was, c) && Enabled(c, s)
    ensures Over(was, Next(c, s))
  {
    match s
    case Call(r, t) => CallIssues(c, r, t);
    case Event(cb) => EventIssuesNothing(c, cb);
    case _ =>
  }

  /** A step during a blocking write completes it, or leaves it under way with all that was taken. */
  lemma WriteStep(c: Conn, s: Step)
    requires Inv(c) && Enabled(c, s) && c.state == Write
    ensures var c' := Next(c, s);
            || Over(c, c')
            || (c'.state == Write && c'.current == c.current && c'.issued == c.issued
                && c'.offset >= c.offset + if GivesRoom(s) then 1 else 0)
  {
    if s.Event? && s.cb.SentOrPoll? {
      ProgressLaws(c.current.request, DontBlock(c, c.current.request), c.offset, c.wrote, s.cb.t);
    }
  }

  /** Since `was`, the write was completed, or is under way with at least `taken` bytes more. */
  predicate GoesOn(was: Conn, c: Conn, taken: nat) {
    || Over(was, c)
    || (c.state == Write && c.current == was.current && c.issued == was.issued && c.offset >= was.offset + taken)
  }

  lemma GoesOnStep(was: Conn, c: Conn, taken: nat, s: Step)
    requires GoesOn(was, c, taken) && Inv(c) && Enabled(c, s)
    ensures GoesOn(was, Next(c, s), taken + if GivesRoom(s) then 1 else 0)
  {
    if Over(was, c) { StaysOver(was, c, s); } else { WriteStep(c, s); }
  }

  lemma {:induction false} WriteGoesOn(trace: seq<Conn>, steps: seq<Step>, m: nat, n: nat)
    requires Run(trace, steps) && m <= n < |trace| && trace[m].state == Write
    requires NeverLosesConnect(trace, steps)
    ensures GoesOn(trace[m], trace[n], Rooms(steps, m, n))
  {
    if n > m {
      var (was, taken) := (trace[m], Rooms(steps, m, n - 1));
      WriteGoesOn(trace, steps, m, n - 1);
      RunKeeps(trace, steps, n - 1);
      GoesOnStep(was, trace[n - 1], taken, steps[n - 1]);
    }
  }

  /** A blocking write is completed at the latest when tcp_write has taken bytes as often as there
      are bytes left, however often it took none. */
  lemma WriteEndsInTime(trace: seq<Conn>, steps: seq<Step>, m: nat, n: nat)
    requires Run(trace, steps) && m <= n < |trace| && trace[m].state == Write
    requires NeverLosesConnect(trace, steps)
    ensures trace[m].current.Message? && trace[m].current.request.WriteData?
    ensures Rooms(steps, m, n) >= |trace[m].current.request.data| - trace[m].offset ==>
              exists k :: 0 <= k < |trace[n].done| && trace[n].done[k].id == trace[m].current.id
  {
    RunKeeps(trace, steps, m);
    RunKeeps(trace, steps, n);
    WriteGoesOn(trace, steps, m, n);
    if Over(trace[m], trace[n]) { assert trace[n].done[trace[m].current.id].id == trace[m].current.id; }
  }

  /** This step works on a write: do_write itself, or a resumption. */
  predicate WorksOnWrite(c: Conn, s: Step) {
    || (s.Event? && s.cb.SentOrPoll? && c.state == Write)
    || (s.Call? && s.request.WriteData? && !Fatal(c.lastErr) && c.tcp && c.state == None && c.pcb)
  }

  /** The step after which a write is reported: the report matches what tcp_write took over the
      whole write, chunk by chunk. */
  lemma WriteReportedTruthfully(c: Conn, s: Step)
    requires Inv(c) && Enabled(c, s)
    requires WorksOnWrite(c, s) && Next(c, s).current == Idle
    ensures var (c', r) := (Next(c, s), if s.Call? then s.request else c.current.request);
            && |c'.done| == |c.done| + 1
            && WriteOutcome(r, DontBlock(c, r), c'.wrote, c'.done[|c.done|].err, c'.done[|c.done|].len)
  {
    match s
    case Call(r, t) => ProgressLaws(r, DontBlock(c, r), 0, [], t);
    case Event(cb) => ProgressLaws(c.current.request, DontBlock(c, c.current.request), c.offset, c.wrote, cb.t);
  }

  /** Over every run of do_write and its resumptions, with any send-buffer sizes and results of
      tcp_write: while a write is under way tcp_write has taken exactly the data up to write_offset,
      and the report that ends it matches what was taken. */
  lemma EveryWriteIsFaithful(trace: seq<Conn>, steps: seq<Step>, n: nat)
    requires Run(trace, steps) && n < |steps|
    requires NeverLosesConnect(trace, steps)
    ensures trace[n].state == Write ==>
              && trace[n].current.Message? && trace[n].current.request.WriteData?
              && trace[n].offset <= |trace[n].current.request.data|
              && Bytes(trace[n].wrote) == trace[n].current.request.data[..trace[n].offset]
    ensures WorksOnWrite(trace[n], steps[n]) && trace[n + 1].current == Idle ==>
              var r := if steps[n].Call? then steps[n].request else trace[n].current.request;
              && r.WriteData? && |trace[n + 1].done| == |trace[n].done| + 1
              && WriteOutcome(r, DontBlock(trace[n], r), trace[n + 1].wrote,
                              trace[n + 1].done[|trace[n].done|].err, trace[n + 1].done[|trace[n].done|].len)
  {
    RunKeeps(trace, steps, n);
    if WorksOnWrite(trace[n], steps[n]) && trace[n + 1].current == Idle {
      WriteReportedTruthfully(trace[n], steps[n]);
    }
  }

  /** No further step of TCP or of the application can complete the call. */
  predicate Lost(c: Conn) { |c.done| < c.issued && !c.pcb && c.state == None }

  lemma LostForEver(c: Conn, s: Step)
    requires Lost(c) && Enabled(c, s)
    ensures Lost(Next(c, s)) && Next(c, s).done == c.done
  {
  }

  /** The invariant fails exactly after a netconn_delete whose tcp_close does not succeed at once
      while a non-blocking connect is pending; an error of the pcb then loses the completion. */
  lemma DeleteCanLoseCompletion(c: Conn, s: Step, err: int)
    requires Inv(c) && Enabled(c, s) && err != ERR_OK
    ensures Inv(Next(c, s)) <==> !LosesConnect(c, s)
    ensures LosesConnect(c, s) ==>
              Enabled(Next(c, s), Event(Failed(err))) && Lost(React(Next(c, s), Failed(err)))
  {
    if !LosesConnect(c, s) { StepKeeps(c, s); }
  }

  /** netconn_delete with these results of TCP, and then this error of the pcb, loses the completion. */
  predicate LosesBy(c: Conn, r: Request, t: Tcp, err: int)
    requires r.Delete? && Enabled(c, Call(r, t))
  {
    var c' := Next(c, Call(r, t));
    Enabled(c', Event(Failed(err))) && Lost(React(c', Failed(err)))
  }

  lemma NotLost(c: Conn)
    requires Inv(c)
    ensures !Lost(c)
  {
  }

  /** A netconn can be deleted safely, whatever TCP does then, if and only if it is not connecting. */
  lemma DeleteIsSafeExactlyWhen(c: Conn, r: Request, any: Tcp)
    requires Inv(c) && r.Delete? && Enabled(c, Call(r, any))
    ensures (forall t: Tcp, err: int :: !LosesBy(c, r, t, err)) <==> c.state != Connect
  {
    if c.state == Connect {
      var (t, err) := (any.(closeErr := ERR_MEM), ERR_CLSD);
      DeleteCanLoseCompletion(c, Call(r, t), err);
      assert LosesBy(c, r, t, err);
    } else {
      forall t: Tcp, err: int ensures !LosesBy(c, r, t, err) {
        var s := Call(r, t);
        StepKeeps(c, s);
        if Enabled(Next(c, s), Event(Failed(err))) {
          ReactKeeps(Next(c, s), Failed(err));
          NotLost(React(Next(c, s), Failed(err)));
        }
      }
    }
  }

  /** Such a run: a non-blocking connect, a delete while tcp_close is out of memory, and a reset. */
  function LosingSteps(): seq<Step> {
    var t := Tcp(0, ERR_OK, ERR_MEM, ERR_OK, ERR_OK, false);
    [Call(ConnectTo, t), Call(Delete(ERR_OK), t), Event(Failed(ERR_CLSD))]
  }

  lemma RunThatLoses(c: Conn)
    requires Allocated(c) && c.tcp && c.pcb && c.nonblocking && c.lastErr == ERR_OK
    ensures var steps := LosingSteps();
            && Enabled(c, steps[0]) && Enabled(Next(c, steps[0]), steps[1])
            && Enabled(Next(Next(c, steps[0]), steps[1]), steps[2])
    ensures var steps := LosingSteps();
            var (c1, c2) := (Next(c, steps[0]), Next(Next(c, steps[0]), steps[1]));
            Run([c, c1, c2, Next(c2, steps[2])], steps) && Lost(Next(c2, steps[2]))
  {
  }
}

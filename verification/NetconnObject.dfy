/** The handlers and callbacks of api_msg.c as they update a netconn and its pending message in
    place, each proved against its function in Netconn. */
module NetconnObject {
  import opened Err
  import opened Netconn

  /** struct api_msg_msg: `len` is msg.w.len. */
  class ApiMsg {
    const id: nat
    const request: Request
    var err: int
    var len: nat

    constructor (id: nat, request: Request)
      ensures this.id == id && this.request == request && len == Length(request)
    {
      this.id, this.request, err, len := id, request, ERR_OK, Length(request);
    }
  }

  class NetconnStruct {
    const tcp: bool
    var state: State
    var pcb: bool
    var lastErr: int
    var nonblocking: bool
    var inNonblocking: bool
    var currentMsg: ApiMsg?
    var writeOffset: nat
    ghost var wrote: seq<Chunk>    // taken by tcp_write
    ghost var deleting: bool
    ghost var issued: nat
    ghost var done: seq<Done>      // signals of op_completed

    ghost function View(): Conn
      reads this, currentMsg
    {
      Conn(tcp, state, pcb, lastErr, nonblocking, inNonblocking,
           if currentMsg == null then Idle else Message(currentMsg.id, currentMsg.request),
           writeOffset, wrote, deleting, issued, done)
    }

    /** The pending message still has the length the application gave it. */
    ghost predicate Valid()
      reads this, currentMsg
    {
      && (currentMsg != null ==> currentMsg.len == Length(currentMsg.request))
      && (state == Write ==> currentMsg != null && currentMsg.request.WriteData? && writeOffset < currentMsg.len)
      && (state == Close ==> currentMsg != null && (currentMsg.request.Shutdown? || currentMsg.request.Delete?))
    }

    ghost predicate NewMsg(msg: ApiMsg)
      reads this, msg
    {
      msg.id == issued && msg.len == Length(msg.request) && msg != currentMsg
    }

    constructor (tcp: bool, pcb: bool)
      ensures Valid() && Allocated(View()) && View().pcb == pcb
    {
      this.tcp, this.pcb, state, lastErr := tcp, pcb, None, ERR_OK;
      nonblocking, inNonblocking, currentMsg, writeOffset := false, false, null, 0;
      wrote, deleting, issued, done := [], false, 0, [];
    }

    method Signal(msg: ApiMsg)
      modifies this`done
      ensures done == old(done) + [Done(msg.id, msg.err, msg.len)]
    {
      done := done + [Done(msg.id, msg.err, msg.len)];
    }

    /** TCPIP_APIMSG_ACK of a new message. */
    method Acknowledge(msg: ApiMsg)
      requires Valid() && NewMsg(msg)
      modifies this`done, this`issued
      ensures Valid() && View() == Ack(old(View()), msg.request, msg.err)
    {
      issued := issued + 1;
      Signal(msg);
    }

    /** Make `msg` the current message. */
    method Start(msg: ApiMsg, s: State)
      requires NewMsg(msg) && s != None
      requires s == Write ==> msg.request.WriteData? && writeOffset < msg.len
      requires s == Close ==> msg.request.Shutdown? || msg.request.Delete?
      modifies this`issued, this`state, this`currentMsg
      ensures Valid() && View() == Begin(old(View()), msg.request, s)
      ensures currentMsg == msg && state == s
    {
      issued := issued + 1;
      state := s;
      currentMsg := msg;
    }

    /** The length and flag of the next tcp_write, and whether a non-blocking write has no room. */
    static method PickLength(diff: nat, dontblock: bool, appMore: bool, sndbuf: nat)
      returns (len: nat, more: bool, wouldBlock: bool)
      requires diff > 0
      ensures len == Offer(diff, sndbuf) && Fills(len, diff, sndbuf) && wouldBlock == (dontblock && sndbuf == 0)
      ensures more == (appMore || diff > MAX_CHUNK || (!dontblock && sndbuf < diff))
    {
      len, more, wouldBlock := diff, appMore, false;
      if diff > MAX_CHUNK {
        len, more := MAX_CHUNK, true;
      }
      if sndbuf < len {
        len := sndbuf;
        if dontblock {
          wouldBlock := len == 0;
        } else {
          more := true;
        }
      }
    }

    /** The attempt to write in do_writemore, up to the decision whether the write is finished. */
    method Attempt(msg: ApiMsg, t: Tcp) returns (err: int, finished: bool)
      requires msg.request.WriteData? && msg.len == Length(msg.request) && writeOffset < msg.len
      modifies this`writeOffset, this`wrote, msg`len
      ensures var p := WriteProgress(msg.request, nonblocking || msg.request.dontblock,
                                     old(writeOffset), old(wrote), t);
              && wrote == p.wrote && writeOffset == p.offset && finished == p.Ends?
              && (finished ==> err == p.err && msg.len == p.len)
              && (!finished ==> msg.len == old(msg.len) && writeOffset < msg.len)
    {
      var dontblock := nonblocking || msg.request.dontblock;
      finished := false;
      var len, more, wouldBlock := PickLength(msg.len - writeOffset, dontblock, msg.request.more, t.sndbuf);
      if wouldBlock {
        err := ERR_WOULDBLOCK;
      } else {
        err := t.writeErr;
      }
      if err == ERR_OK {
        wrote := wrote + [Chunk(msg.request.data[writeOffset..writeOffset + len], more)];
        writeOffset := writeOffset + len;
        if writeOffset == msg.len || dontblock {
          msg.len := writeOffset;
          finished := true;
          writeOffset := 0;
        }
      } else if !(err == ERR_MEM && !dontblock) {
        finished := true;
        msg.len := 0;
      }
    }

    /** do_writemore. */
    method DoWriteMore(t: Tcp)
      requires Valid() && state == Write
      modifies this`state, this`currentMsg, this`writeOffset, this`wrote, this`done, currentMsg
      ensures Valid() && View() == WriteMore(old(View()), t)
    {
      var msg: ApiMsg := currentMsg;
      var err, finished := Attempt(msg, t);
      if finished {
        msg.err := err;
        currentMsg := null;
        state := None;
        Signal(msg);
      }
    }

    method BeginWrite(msg: ApiMsg)
      requires NewMsg(msg) && msg.request.WriteData? && msg.request.data != []
      modifies this`issued, this`state, this`currentMsg, this`writeOffset, this`wrote
      ensures Valid() && View() == Begin(old(View()), msg.request, Write).(offset := 0, wrote := [])
      ensures currentMsg == msg && state == Write
    {
      writeOffset := 0;
      wrote := [];
      Start(msg, Write);
    }

    /** do_write. */
    method DoWrite(msg: ApiMsg, t: Tcp)
      requires Valid() && NewMsg(msg) && msg.request.WriteData? && msg.request.data != []
      modifies this, msg
      ensures Valid() && View() == HandleWrite(old(View()), msg.request, t)
    {
      if Fatal(lastErr) {
        msg.err := lastErr;
      } else if tcp {
        if state != None {
          msg.err := ERR_INPROGRESS;
        } else if pcb {
          BeginWrite(msg);
          DoWriteMore(t);
          return;
        } else {
          msg.err := ERR_CONN;
        }
      } else {
        msg.err := ERR_VAL;
      }
      Acknowledge(msg);
    }

    /** do_close_internal. */
    method DoCloseInternal(t: Tcp)
      requires Valid() && state == Close
      modifies this`state, this`currentMsg, this`pcb, this`done, currentMsg
      ensures Valid() && View() == CloseInternal(old(View()), t)
    {
      var msg: ApiMsg := currentMsg;
      var close := FullClose(msg.request);
      if t.closeErr == ERR_OK {
        msg.err := ERR_OK;
        currentMsg := null;
        state := None;
        if close {
          pcb := false;
        }
        Signal(msg);
      }
    }

    /** do_close. */
    method DoClose(msg: ApiMsg, t: Tcp)
      requires Valid() && NewMsg(msg) && msg.request.Shutdown?
      modifies this, msg
      ensures Valid() && View() == HandleShutdown(old(View()), msg.request, t)
    {
      if state != None && state != Listen {
        msg.err := ERR_INPROGRESS;
      } else if pcb && tcp {
        if !FullClose(msg.request) && state == Listen {
          msg.err := ERR_CONN;
        } else {
          Start(msg, Close);
          DoCloseInternal(t);
          return;
        }
      } else {
        msg.err := ERR_VAL;
      }
      Acknowledge(msg);
    }

    /** do_delconn. */
    method DoDelConn(msg: ApiMsg, t: Tcp)
      requires Valid() && NewMsg(msg) && msg.request.Delete? && msg.err == msg.request.err
      modifies this, msg
      ensures Valid() && View() == HandleDelete(old(View()), msg.request, t)
    {
      if state != None && state != Listen && state != Connect {
        msg.err := ERR_INPROGRESS;
      } else {
        deleting := true;
        if pcb && tcp {
          Start(msg, Close);
          assert View() == Begin(old(View()), msg.request, Close).(deleting := true);
          DoCloseInternal(t);
          return;
        }
        pcb := false;
      }
      Acknowledge(msg);
    }

    /** do_connect. */
    method DoConnect(msg: ApiMsg, t: Tcp)
      requires Valid() && NewMsg(msg) && msg.request.ConnectTo?
      modifies this, msg
      ensures Valid() && View() == HandleConnect(old(View()), msg.request, t)
    {
      if !pcb {
        msg.err := ERR_CLSD;
      } else if !tcp {
        msg.err := t.connectErr;
      } else if state != None {
        msg.err := ERR_ISCONN;
      } else {
        msg.err := t.connectErr;
        if msg.err == ERR_OK {
          inNonblocking := nonblocking;
          if nonblocking {
            state := Connect;
            msg.err := ERR_INPROGRESS;
          } else {
            Start(msg, Connect);
            return;
          }
        }
      }
      Acknowledge(msg);
    }

    /** do_listen. */
    method DoListen(msg: ApiMsg, t: Tcp)
      requires Valid() && NewMsg(msg) && msg.request.StartListen?
      modifies this, msg
      ensures Valid() && View() == HandleListen(old(View()), msg.request, t)
    {
      if Fatal(lastErr) {
        msg.err := lastErr;
      } else {
        msg.err := ERR_CONN;
        if pcb {
          if tcp {
            if state == None {
              msg.err := t.listenErr;
              if msg.err == ERR_OK {
                state := Listen;
              } else {
                pcb := !t.listenFreed;
              }
            }
          } else {
            msg.err := ERR_ARG;
          }
        }
      }
      Acknowledge(msg);
    }

    /** do_connected. */
    method DoConnected(err: int)
      requires Valid()
      modifies this, currentMsg
      ensures Valid() && (old(state) == Connect ==> View() == React(old(View()), Connected(err)))
    {
      var msg := currentMsg;
      if msg != null {
        msg.err := err;
      }
      var wasBlocking := !inNonblocking;
      inNonblocking := false;
      currentMsg := null;
      state := None;
      if !wasBlocking && !Fatal(lastErr) {
        lastErr := ERR_OK;
      }
      if wasBlocking && msg != null {
        Signal(msg);
      }
    }

    /** sent_tcp and poll_tcp. */
    method SentOrPolled(t: Tcp)
      requires Valid()
      modifies this, currentMsg
      ensures Valid() && View() == React(old(View()), SentOrPoll(t))
    {
      if state == Write {
        DoWriteMore(t);
      } else if state == Close {
        DoCloseInternal(t);
      }
    }

    /** err_tcp. */
    method ErrTcp(err: int)
      requires Valid()
      modifies this, currentMsg
      ensures Valid() && View() == React(old(View()), Failed(err))
    {
      pcb := false;
      lastErr := err;
      var oldState := state;
      state := None;
      if oldState == Write || oldState == Close || oldState == Connect {
        var wasNonblocking := inNonblocking;
        inNonblocking := false;
        if !wasNonblocking && currentMsg != null {
          var msg: ApiMsg := currentMsg;
          msg.err := err;
          currentMsg := null;
          Signal(msg);
        }
      }
    }
  }
}

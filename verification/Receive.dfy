/** The receive path of a TCP socket: lwip_recvfrom without MSG_PEEK, netconn_recv_data, recv_tcp
    and do_recv, with pbuf chains as byte sequences. What the other threads do meanwhile, and the
    event counter they maintain, are parameters. */
module Receive {
  import opened Err
  import opened Octets

  const MAX_U16 := 0xffff

  datatype Pbuf = Pbuf(data: seq<Byte>, push: bool)

  /** An entry of recvmbox; NULL means that the connection was closed. */
  datatype Item = Data(p: Pbuf) | Null

  datatype Lastdata = NoData | Left(p: Pbuf)

  /** What the tcpip thread does at one point: post these items, and possibly lose the pcb. */
  datatype World = World(arrives: seq<Item>, fails: bool, err: int)

  /** One turn of the lwip_recvfrom loop: rcvevent as first seen, what happens before and after
      the error check of netconn_recv_data, and rcvevent as seen after copying. */
  datatype Turn = Turn(ready: int, before: World, during: World, rcvevent: int)

  /** Why a call returned. */
  datatype Stop = Full | Pushed | NoneReady | WouldBlock | Failed(err: int)

  predicate Sane(w: World) {
    (forall i :: 0 <= i < |w.arrives| ==> ItemOk(w.arrives[i])) && (w.fails ==> Fatal(w.err))
  }

  predicate ItemOk(it: Item) { it.Data? ==> 0 < |it.p.data| <= MAX_U16 }

  /** The data bytes of a list of items, in order. */
  function Content(items: seq<Item>): seq<Byte> {
    if items == [] then [] else (if items[0].Data? then items[0].p.data else []) + Content(items[1..])
  }

  function Closes(items: seq<Item>): nat {
    if items == [] then 0 else (if items[0].Null? then 1 else 0) + Closes(items[1..])
  }

  lemma {:induction false} ContentAppend(a: seq<Item>, b: seq<Item>)
    ensures Content(a + b) == Content(a) + Content(b)
  {
    if a == [] {
      assert a + b == b;
    } else {
      assert (a + b)[0] == a[0] && (a + b)[1..] == a[1..] + b;
      ContentAppend(a[1..], b);
    }
  }

  lemma {:induction false} ClosesAppend(a: seq<Item>, b: seq<Item>)
    ensures Closes(a + b) == Closes(a) + Closes(b)
  {
    if a == [] {
      assert a + b == b;
    } else {
      ClosesAppend(a[1..], b);
      assert (a + b)[1..] == a[1..] + b;
    }
  }

  lemma Regroup(a: seq<Byte>, b: seq<Byte>, c: seq<Byte>)
    ensures a + b + c == a + (b + c)
  {
  }

  /** Moving the first n of the bytes left over to `out` leaves the whole unchanged. */
  lemma FlowMoves(whole: seq<Byte>, out: seq<Byte>, data: seq<Byte>, from: nat, n: nat)
    requires from + n <= |data| && whole == out + data[from..]
    ensures whole == out + data[from..from + n] + data[from + n..]
    ensures from + n == |data| ==> whole == out + data[from..from + n] + []
  {
    assert data[from..] == data[from..from + n] + data[from + n..];
  }

  lemma TakeOne(taken: seq<Item>, mailbox: seq<Item>)
    requires mailbox != []
    ensures taken + mailbox == taken + [mailbox[0]] + mailbox[1..]
    ensures Content(taken + [mailbox[0]]) == Content(taken) + if mailbox[0].Data? then mailbox[0].p.data else []
    ensures Closes(taken + [mailbox[0]]) == Closes(taken) + if mailbox[0].Null? then 1 else 0
  {
    ContentAppend(taken, [mailbox[0]]);
    ClosesAppend(taken, [mailbox[0]]);
    assert [mailbox[0]][1..] == [];
    assert Content([mailbox[0]]) == (if mailbox[0].Data? then mailbox[0].p.data else []) + Content([]);
  }

  function Sum(s: seq<nat>): nat { if s == [] then 0 else Sum(s[..|s| - 1]) + s[|s| - 1] }

  lemma SumSnoc(s: seq<nat>, x: nat)
    ensures Sum(s + [x]) == Sum(s) + x
  {
    assert (s + [x])[..|s|] == s;
  }

  function Last(items: seq<Item>): Item
    requires items != []
  {
    items[|items| - 1]
  }

  /** The pbuf is not the last of a push. */
  predicate GoesOn(it: Item) { it.Data? ==> !it.p.push }

  /** What a turn starts from; `nowait` if it must not wait. */
  datatype Start = Start(data: Lastdata, taken: seq<Item>, mailbox: seq<Item>, err: int, nowait: bool)

  /** Of the items a call has taken, those before the last one were data without push, and so was the
      last one if the call went on behind it; likewise what was left over when it began. */
  predicate WentOn(st: Start, taken: seq<Item>, behind: bool) {
    && st.taken <= taken
    && (forall k :: |st.taken| <= k < |taken| - 1 ==> taken[k].Data? && GoesOn(taken[k]))
    && (behind && st.taken < taken ==> GoesOn(Last(taken)))
    && (st.data.Left? && (behind || st.taken < taken) ==> !st.data.p.push)
  }

  /** One more turn, `first` if it is the first of the call. */
  lemma WentOnMore(st: Start, first: bool, taken: seq<Item>, more: seq<Item>, behind: bool)
    requires if first then taken == st.taken else WentOn(st, taken, true) && (st.taken < taken ==> Last(taken).Data?)
    requires first && st.data.Left? ==> taken != [] && Last(taken) == Data(st.data.p) && more == taken
    requires taken <= more && |more| <= |taken| + 1
    requires behind && (taken < more || (first && st.data.Left?)) ==> GoesOn(Last(more))
    ensures WentOn(st, more, behind)
  {
  }

  /** With nothing left over, a call that must not wait finds nothing ready in this turn. */
  predicate Blocks(st: Start, t: Turn) { st.data.NoData? && st.nowait && t.ready <= 0 }

  /** A turn finds data: something is left over, or it may fetch, and no fatal error keeps it from the
      oldest item, which is data. */
  predicate Readable(st: Start, t: Turn) {
    || st.data.Left?
    || (!Blocks(st, t) && !Fatal(ErrAfter(st.err, t.before))
        && var items := st.mailbox + t.before.arrives + t.during.arrives; items != [] && items[0].Data?)
  }

  /** How the fetching half of a turn goes on from `was`. It does nothing if something is left over, or
      if it would block. Else a fatal error comes first; then the oldest item, which may be a close; and
      it times out only if there was none and none came. */
  predicate Refilled(was: Start, mid: Start, t: Turn, block: bool, err: int) {
    && block == Blocks(was, t) && (mid.data.Left? <==> !block && err == ERR_OK)
    && if was.data.Left? || block then err == ERR_OK && mid == was
       else
         var items := was.mailbox + t.before.arrives + t.during.arrives;
         if Fatal(ErrAfter(was.err, t.before)) then
           err == mid.err == ErrAfter(was.err, t.before) && mid.taken == was.taken
         else if items == [] then
           err == ERR_TIMEOUT && mid.taken == was.taken && mid.mailbox == []
         else
           && mid.taken == was.taken + [items[0]]
           && if items[0].Data? then err == ERR_OK && items[0] == Data(mid.data.p)
              else err == ERR_CLSD && Fatal(mid.err)
  }

  predicate Stuck(stop: Stop) { stop.WouldBlock? || stop.Failed? }

  /** Why the loop ended with this stop in turn t and in the state `now`, the items in `was` having been
      taken before. */
  predicate Justified(stop: Stop, t: Turn, now: Start, was: seq<Item>) {
    match stop
    case Full => true
    case Pushed => now.taken != [] && Last(now.taken).Data? && Last(now.taken).p.push
    case NoneReady => t.rcvevent <= 0
    case WouldBlock => Blocks(now, t)
    case Failed(err) =>
      && now.data.NoData?
      && (|| (err == now.err && Fatal(err))
          || (err == ERR_TIMEOUT && now.mailbox == [])
          || (err == ERR_CLSD && Fatal(now.err) && was < now.taken && Last(now.taken).Null?))
  }

  /** A turn that began with `was` and room for `left` bytes: it copied `piece`, and ends the call if
      `done`. */
  predicate Turned(was: Start, now: Start, t: Turn, left: nat, piece: seq<Byte>, stop: Stop, done: bool) {
    && was.taken <= now.taken && |piece| <= left && (Stuck(stop) <==> !Readable(was, t))
    && if Stuck(stop) then
         && done && piece == [] && |now.taken| <= |was.taken| + 1
         && (was.taken < now.taken ==> Last(now.taken).Null?)
       else
         && |now.taken| == |was.taken| + (if was.data.Left? then 0 else 1)
         && now.taken != [] && Last(now.taken).Data?
         && (stop.Full? <==> |piece| == left) && (left > 0 ==> piece != [])
         && (done <==> |piece| == left || Last(now.taken).p.push || t.rcvevent <= 0)
         && (!done ==> now.data.NoData?)
  }

  lemma TurnStuck(was: Start, now: Start, t: Turn, left: nat, block: bool, err: int)
    requires Refilled(was, now, t, block, err) && (block || err != ERR_OK)
    ensures var stop := if block then WouldBlock else Failed(err);
            Turned(was, now, t, left, [], stop, true) && Justified(stop, t, now, was.taken)
  {
  }

  lemma TurnCopied(was: Start, mid: Start, now: Start, t: Turn, left: nat, rest: nat, piece: seq<Byte>, done: bool)
    requires Refilled(was, mid, t, false, ERR_OK) && rest > 0 && now.taken == mid.taken
    requires mid.taken != [] && Last(mid.taken) == Data(mid.data.p)
    requires |piece| == (if left < rest then left else rest) && (now.data.Left? <==> |piece| < rest)
    requires done == (|piece| == left || mid.data.p.push || t.rcvevent <= 0)
    ensures var stop := if |piece| == left then Full else if mid.data.p.push then Pushed else NoneReady;
            Turned(was, now, t, left, piece, stop, done) && (done ==> Justified(stop, t, now, was.taken))
  {
  }

  /** The first n turns of a call with room for `len` bytes. */
  ghost predicate Turns(start: Start, now: Start, world: nat -> Turn, n: nat, len: nat, left: nat, mem: seq<Byte>,
                        stop: Stop, done: bool)
  {
    && |mem| + left == len
    && (forall t: nat :: t < n && (!done || t + 1 < n) ==> world(t).rcvevent > 0)
    && (n == 0 ==> !done && mem == [] && now == start)
    && (n > 0 ==> WentOn(start, now.taken, !done || Stuck(stop)))
    && (n > 0 && !done ==> Readable(start, world(0)))
    && (n > 0 && !done ==> left > 0 && now.data.NoData? && (start.taken < now.taken ==> Last(now.taken).Data?))
    && (n > 0 && len > 0 ==> (mem != [] <==> Readable(start, world(0))))
    && (done && len > 0 ==> (stop.Full? <==> left == 0) && (mem == [] ==> Stuck(stop)))
    && (done && stop.Full? ==> left == 0)
  }

  lemma OneMoreTurn(start: Start, was: Start, now: Start, world: nat -> Turn, n: nat, len: nat, left: nat,
                    mem: seq<Byte>, before: Stop, piece: seq<Byte>, stop: Stop, done: bool)
    requires Turns(start, was, world, n, len, left, mem, before, false)
    requires Turned(was, now, world(n), left, piece, stop, done)
    requires start.data.Left? ==> start.taken != [] && Last(start.taken) == Data(start.data.p)
    ensures Turns(start, now, world, n + 1, len, left - |piece|, mem + piece, stop, done)
  {
    WentOnMore(start, n == 0, was.taken, now.taken, !done || Stuck(stop));
    assert |mem + piece| == |mem| + |piece|;
  }

  function ErrAfter(err: int, w: World): int { if w.fails then w.err else err }

  class StreamSocket {
    var nonblocking: bool
    var pcb: bool
    var lastErr: int
    var mailbox: seq<Item>
    var lastdata: Lastdata
    var lastoffset: nat
    ghost var posted: seq<Item>     // everything ever put into the mailbox
    ghost var taken: seq<Item>      // everything ever taken out of it
    ghost var returned: seq<Byte>   // everything ever returned to the application
    ghost var recved: seq<nat>      // the window credits passed to tcp_recved

    ghost function Now(dontwait: bool): Start
      reads this
    {
      Start(lastdata, taken, mailbox, lastErr, dontwait || nonblocking)
    }

    ghost function Remaining(): seq<Byte>
      reads this
      requires lastdata.Left? ==> lastoffset <= |lastdata.p.data|
    {
      if lastdata.Left? then lastdata.p.data[lastoffset..] else []
    }

    /** What is left over belongs to the item taken last. */
    ghost predicate Shape()
      reads this
    {
      && (forall i :: 0 <= i < |mailbox| ==> ItemOk(mailbox[i]))
      && (if lastdata.Left? then lastoffset < |lastdata.p.data| <= MAX_U16 else lastoffset == 0)
      && (lastdata.Left? ==> taken != [] && Last(taken) == Data(lastdata.p))
      && posted == taken + mailbox
    }

    /** The items taken hold `out` and what is left of lastdata, in that order. */
    ghost predicate Flow(out: seq<Byte>)
      reads this
      requires Shape()
    {
      Content(taken) == out + Remaining()
    }

    /** Credit for n data bytes was given, and one for every close taken from the mailbox; none is
        given once the pcb is gone. */
    ghost predicate Credited(n: nat)
      reads this
    {
      pcb ==> Sum(recved) == n + Closes(taken)
    }

    ghost predicate Valid()
      reads this
    {
      Shape() && Flow(returned) && Credited(|returned|)
    }

    /** Everything posted is what was returned, what is left over, and the mailbox, in that order. */
    lemma StreamIsIntact()
      requires Valid()
      ensures Content(posted) == returned + Remaining() + Content(mailbox)
    {
      ContentAppend(taken, mailbox);
    }

    constructor (nonblocking: bool)
      ensures Valid() && posted == mailbox == taken == [] && returned == [] && lastdata == NoData && pcb
      ensures this.nonblocking == nonblocking && lastErr == ERR_OK
    {
      this.nonblocking, pcb, lastErr, mailbox := nonblocking, true, ERR_OK, [];
      lastdata, lastoffset, posted, taken, returned, recved := NoData, 0, [], [], [], [];
    }

    /** recv_tcp and err_tcp, as often as they run. */
    method Arrive(w: World, ghost out: seq<Byte>, ghost n: nat)
      requires Shape() && Flow(out) && Credited(n) && Sane(w)
      modifies this`mailbox, this`posted, this`pcb, this`lastErr
      ensures Shape() && Flow(out) && Credited(n)
      ensures posted == old(posted) + w.arrives && mailbox == old(mailbox) + w.arrives
      ensures pcb == (old(pcb) && !w.fails) && lastErr == ErrAfter(old(lastErr), w)
    {
      mailbox := mailbox + w.arrives;
      posted := posted + w.arrives;
      assert posted == taken + mailbox;
      if w.fails {
        pcb := false;
        lastErr := w.err;
      }
    }

    /** do_recv: the credit goes down in pieces of at most 0xffff. */
    method DoRecv(len: nat)
      modifies this`recved
      ensures pcb ==> Sum(recved) == old(Sum(recved)) + len
      ensures !pcb ==> recved == old(recved)
      ensures old(recved) <= recved
      ensures forall k :: |old(recved)| <= k < |recved| ==> recved[k] <= MAX_U16
    {
      if pcb {
        var remaining: nat := len;
        var more := true;
        while more
          invariant old(recved) <= recved && Sum(recved) + remaining == old(Sum(recved)) + len
          invariant forall k :: |old(recved)| <= k < |recved| ==> recved[k] <= MAX_U16
          invariant !more ==> remaining == 0
          decreases more, remaining
        {
          var piece: nat := if remaining > MAX_U16 then MAX_U16 else remaining;
          SumSnoc(recved, piece);
          recved := recved + [piece];
          remaining := remaining - piece;
          more := remaining != 0;
        }
      }
    }

    /** NETCONN_SET_SAFE_ERR: a fatal error stays. */
    method SetSafeErr(err: int)
      modifies this`lastErr
      ensures lastErr == if Fatal(old(lastErr)) then old(lastErr) else err
    {
      if !Fatal(lastErr) {
        lastErr := err;
      }
    }

    /** Take the oldest item out of the mailbox; NULL is a close. */
    method Fetch(ghost out: seq<Byte>, ghost n: nat) returns (err: int, p: Pbuf)
      requires Shape() && Flow(out) && Credited(n) && lastdata.NoData? && mailbox != []
      modifies this`mailbox, this`taken, this`lastErr, this`recved
      ensures posted == taken + mailbox && mailbox == old(mailbox[1..]) && taken == old(taken + [mailbox[0]])
      ensures Shape() && Credited(n)
      ensures if old(mailbox[0]).Data? then err == ERR_OK && old(mailbox[0]) == Data(p) && lastErr == old(lastErr)
              else err == ERR_CLSD && Fatal(lastErr)
      ensures Content(taken) == out + if err == ERR_OK then p.data else []
    {
      var item := mailbox[0];
      TakeOne(taken, mailbox);
      assert ItemOk(item);
      mailbox := mailbox[1..];
      taken := taken + [item];
      if item.Null? {
        DoRecv(1);
        SetSafeErr(ERR_CLSD);
        return ERR_CLSD, Pbuf([], false);
      }
      return ERR_OK, item.p;
    }

    /** netconn_recv_data on a TCP netconn with NETCONN_FLAG_NO_AUTO_RECVED. A fatal error is
        reported before anything else. Otherwise the oldest item is taken: data is handed out, a
        close is reported; the call times out only if nothing was there and nothing came. */
    method RecvData(t: Turn, ghost out: seq<Byte>, ghost n: nat) returns (err: int, p: Pbuf)
      requires Shape() && Flow(out) && Credited(n) && lastdata.NoData? && Sane(t.before) && Sane(t.during)
      modifies this`mailbox, this`taken, this`posted, this`pcb, this`lastErr, this`recved
      ensures Shape() && Credited(n) && old(posted) <= posted
      ensures Content(taken) == out + if err == ERR_OK then p.data else []
      ensures var items := old(mailbox) + t.before.arrives + t.during.arrives;
              if Fatal(ErrAfter(old(lastErr), t.before)) then
                && err == lastErr == ErrAfter(old(lastErr), t.before)
                && taken == old(taken) && mailbox == old(mailbox) + t.before.arrives
              else if items == [] then
                err == ERR_TIMEOUT && taken == old(taken) && mailbox == []
              else
                && taken == old(taken) + [items[0]] && mailbox == items[1..]
                && if items[0].Data? then err == ERR_OK && items[0] == Data(p) && 0 < |p.data| <= MAX_U16
                   else err == ERR_CLSD && Fatal(lastErr)
    {
      p := Pbuf([], false);
      Arrive(t.before, out, n);
      if Fatal(lastErr) {
        return lastErr, p;
      }
      Arrive(t.during, out, n);
      if mailbox == [] {
        SetSafeErr(ERR_TIMEOUT);
        return ERR_TIMEOUT, p;
      }
      assert ItemOk(mailbox[0]);
      err, p := Fetch(out, n);
    }

    /** The copying half of one loop turn: pbuf_copy_partial, and what is left goes back. */
    method Copy(len: nat, ghost out: seq<Byte>) returns (piece: seq<Byte>, push: bool)
      requires Shape() && Flow(out) && lastdata.Left?
      modifies this`lastdata, this`lastoffset
      ensures Shape() && Flow(out + piece)
      ensures |piece| == (if len < |old(Remaining())| then len else |old(Remaining())|)
      ensures push == old(lastdata.p.push)
      ensures |piece| < |old(Remaining())| <==> lastdata.Left?
    {
      var p := lastdata.p;
      var buflen := |p.data| - lastoffset;
      var copylen := if len > buflen then buflen else len;
      piece := p.data[lastoffset..lastoffset + copylen];
      push := p.push;
      FlowMoves(Content(taken), out, p.data, lastoffset, copylen);
      if buflen - copylen > 0 {
        lastoffset := lastoffset + copylen;
      } else {
        lastdata := NoData;
        lastoffset := 0;
      }
    }

    /** The fetching half of one loop turn: nothing to do when lastdata holds data already. */
    method Refill(t: Turn, dontwait: bool, ghost out: seq<Byte>, ghost n: nat) returns (block: bool, err: int)
      requires Shape() && Flow(out) && Credited(n) && Sane(t.before) && Sane(t.during)
      modifies this`mailbox, this`taken, this`posted, this`pcb, this`lastErr, this`recved, this`lastdata
      ensures Shape() && Flow(out) && Credited(n) && old(posted) <= posted
      ensures Refilled(old(Now(dontwait)), Now(dontwait), t, block, err)
    {
      if lastdata.Left? {
        return false, ERR_OK;
      }
      if (dontwait || nonblocking) && t.ready <= 0 {
        return true, ERR_OK;
      }
      var p;
      err, p := RecvData(t, out, n);
      if err == ERR_OK {
        lastdata := Left(p);
        assert p.data[0..] == p.data;
      }
      block := false;
    }

    /** The end of a call that copied `mem`: its bytes are credited to the window. */
    method Finish(mem: seq<Byte>) returns (r: int)
      requires Shape() && Flow(returned + mem) && Credited(|returned|)
      modifies this`returned, this`recved
      ensures Valid() && returned == old(returned) + mem && r == |mem|
    {
      returned := returned + mem;
      r := |mem|;
      if r > 0 {
        DoRecv(|mem|);
      }
    }

    /** One turn of the loop: fetch if nothing is left over, and copy; or stop with nothing copied. */
    method TakeTurn(t: Turn, dontwait: bool, left: nat, ghost out: seq<Byte>, ghost n: nat)
      returns (piece: seq<Byte>, stop: Stop, done: bool)
      requires Shape() && Flow(out) && Credited(n) && Sane(t.before) && Sane(t.during)
      modifies this`mailbox, this`taken, this`posted, this`pcb, this`lastErr, this`recved
      modifies this`lastdata, this`lastoffset
      ensures Shape() && Flow(out + piece) && Credited(n) && old(posted) <= posted
      ensures Turned(old(Now(dontwait)), Now(dontwait), t, left, piece, stop, done)
      ensures done ==> Justified(stop, t, Now(dontwait), old(taken))
    {
      piece, stop, done := [], Full, true;
      assert out + piece == out;
      ghost var was := Now(dontwait);
      var block, err := Refill(t, dontwait, out, n);
      if block || err != ERR_OK {
        stop := if block then WouldBlock else Failed(err);
        TurnStuck(was, Now(dontwait), t, left, block, err);
        return;
      }
      ghost var (mid, rest) := (Now(dontwait), |Remaining()|);
      var push;
      piece, push := Copy(left, out);
      done := left - |piece| <= 0 || push || t.rcvevent <= 0;
      stop := if left - |piece| <= 0 then Full else if push then Pushed else NoneReady;
      TurnCopied(was, mid, Now(dontwait), t, left, rest, piece, done);
    }

    /** The loop of lwip_recvfrom, up to the point where it stops: at the end of the buffer, behind a
        push, when nothing more is ready, or with an error; and never before. */
    method Gather(len: nat, dontwait: bool, world: nat -> Turn) returns (mem: seq<Byte>, stop: Stop, ghost last: nat)
      requires Valid()
      requires forall i :: Sane(world(i).before) && Sane(world(i).during)
      modifies this`mailbox, this`taken, this`posted, this`pcb, this`lastErr, this`recved
      modifies this`lastdata, this`lastoffset
      ensures Shape() && Flow(returned + mem) && Credited(|returned|) && old(posted) <= posted
      ensures |mem| <= len && (|mem| == len > 0 ==> stop.Full?) && (stop.Full? ==> |mem| == len)
      ensures Justified(stop, world(last), Now(dontwait), old(taken))
      ensures forall t: nat :: t < last ==> world(t).rcvevent > 0
      ensures WentOn(old(Now(dontwait)), taken, Stuck(stop))
      ensures len > 0 ==> (mem != [] <==> Readable(old(Now(dontwait)), world(0)))
      ensures mem == [] && len > 0 ==> Stuck(stop)
    {
      mem, stop, last := [], Full, 0;
      var left: nat := len;
      var turn: nat := 0;
      var done := false;
      ghost var start := Now(dontwait);
      assert returned + mem == returned;
      while !done
        invariant Shape() && Flow(returned + mem) && Credited(|returned|) && old(posted) <= posted
        invariant Turns(start, Now(dontwait), world, turn, len, left, mem, stop, done)
        invariant done ==> turn == last + 1 && Justified(stop, world(last), Now(dontwait), start.taken)
        decreases !done, left
      {
        last := turn;
        ghost var (was, before) := (Now(dontwait), stop);
        var piece;
        piece, stop, done := TakeTurn(world(turn), dontwait, left, returned + mem, |returned|);
        OneMoreTurn(start, was, Now(dontwait), world, turn, len, left, mem, before, piece, stop, done);
        Regroup(returned, mem, piece);
        mem := mem + piece;
        left := left - |piece|;
        turn := turn + 1;
      }
    }

    /** lwip_recvfrom. `mem` is what was copied to the caller's buffer, `stop` why the call ended, in
        which turn of the loop. With room for it, a call returns data exactly if there is some to be
        read at once. */
    method Recvfrom(len: nat, dontwait: bool, world: nat -> Turn)
      returns (r: int, mem: seq<Byte>, stop: Stop, ghost last: nat)
      requires Valid()
      requires forall i :: Sane(world(i).before) && Sane(world(i).during)
      modifies this
      ensures Valid() && old(posted) <= posted && returned == old(returned) + mem
      ensures mem != [] ==> r == |mem| <= len
      ensures mem == [] ==> r == if stop.WouldBlock? || (stop.Failed? && stop.err != ERR_CLSD) then -1 else 0
      ensures |mem| == len > 0 ==> stop.Full?
      ensures stop.Full? ==> r == len
      ensures Justified(stop, world(last), Now(dontwait), old(taken)) && nonblocking == old(nonblocking)
      ensures forall t: nat :: t < last ==> world(t).rcvevent > 0
      ensures WentOn(old(Now(dontwait)), taken, Stuck(stop))
      ensures len > 0 ==> (r > 0 <==> Readable(old(Now(dontwait)), world(0)))
      ensures r == 0 && len > 0 ==> stop == Failed(ERR_CLSD) && Fatal(lastErr)
    {
      mem, stop, last := Gather(len, dontwait, world);
      if mem == [] && Stuck(stop) {
        assert returned + mem == returned;
        r := if stop == Failed(ERR_CLSD) then 0 else -1;
      } else {
        r := Finish(mem);
      }
    }

    /** While the pcb is there, the window credit passed down is the data returned, and one byte for
        each close taken: it is exact if and only if every close posted is still in the mailbox. */
    lemma CreditIsExactWhen()
      requires Valid() && pcb
      ensures Sum(recved) == |returned| + Closes(posted) - Closes(mailbox)
      ensures Sum(recved) == |returned| <==> Closes(posted) == Closes(mailbox)
    {
      ClosesAppend(taken, mailbox);
    }
  }

  /** A close, posted and taken, with the pcb still there: nothing was returned, one byte is credited. */
  method CloseIsCredited() returns (s: StreamSocket)
    ensures fresh(s) && s.Valid() && s.pcb && s.returned == [] && Sum(s.recved) == 1
  {
    s := new StreamSocket(true);
    s.Arrive(World([Null], false, ERR_OK), [], 0);
    var err, p := s.Fetch([], 0);
    assert s.taken == [Null] && Closes([Null]) == 1 + Closes([]);
    assert s.Valid();
  }
}

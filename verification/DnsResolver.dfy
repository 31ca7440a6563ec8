/** The functions of dns.c as they update dns_table in place, each proved against DnsTable. */
module DnsResolver {
  import opened DnsMessage
  import opened DnsTable
  import opened Err
  import opened Octets
  import N = DnsNames

  /** Every name buffer has its full size. */
  predicate Buffers(table: seq<Entry>) { forall i :: 0 <= i < |table| ==> |Text(table[i])| == N.DNS_MAX_NAME_LENGTH }

  lemma FreshBuffer(cfg: Config, table: seq<Entry>, i: nat, seqno: nat, name: seq<Byte>, found: Found)
    requires Buffers(table) && i < |table| && |name| < N.DNS_MAX_NAME_LENGTH
    ensures Buffers(table[i := Checked(cfg, Fresh(table[i], seqno, name, found))])
  {
  }

  class Resolver {
    const cfg: Config
    const table: array<Entry>
    var dnsSeqno: nat
    ghost var fired: seq<Fired>   // callbacks called
    ghost var asked: set<nat>     // callbacks of the queries taken

    ghost function View(): State
      reads this, table
    {
      State(table[..], dnsSeqno, fired, asked)
    }

    ghost predicate Valid()
      reads this, table
    {
      Legal(cfg) && 0 < table.Length < 0x100 && Inv(cfg, View()) && Buffers(table[..])
    }

    constructor (cfg: Config, size: nat)
      requires Legal(cfg) && 0 < size < 0x100
      ensures Valid() && Initial(View()) && fresh(table) && table.Length == size && this.cfg == cfg
    {
      this.cfg := cfg;
      table := new Entry[size](_ =>
        Entry(Unused, 0, 0, 0, 0, 0, [], seq(N.DNS_MAX_NAME_LENGTH - 1, _ => 0), 0, NoCallback));
      dnsSeqno, fired, asked := 0, [], {};
    }

    method Call(found: Found, r: Result)
      modifies this`fired
      ensures fired == old(fired) + Notify(found, r)
    {
      if found.Callback? {
        fired := fired + [Fired(found.id, r)];
      }
    }

    /** dns_check_entry. */
    method CheckEntry(i: nat)
      requires Legal(cfg) && i < table.Length && (table[i].state.New? || EntryOk(cfg, table[i]))
      modifies this`fired, table
      ensures table[..] == old(table[..])[i := Checked(cfg, old(table[i]))]
      ensures fired == old(fired) + CheckFires(cfg, old(table[i]))
    {
      var e := table[i];
      match e.state {
      case New =>
        e := e.(state := Asking, numdns := 0, tmr := 1, retries := 0);
      case Asking =>
        e := e.(tmr := (e.tmr + 0xff) % 0x100);
        if e.tmr == 0 {
          e := e.(retries := e.retries + 1);
          if e.retries != cfg.retries {
            e := e.(tmr := e.retries);
          } else if e.numdns + 1 < |cfg.servers| && cfg.servers[e.numdns + 1] {
            e := e.(numdns := e.numdns + 1, tmr := 1, retries := 0);
          } else {
            Call(e.found, Failed);
            e := e.(state := Unused, found := NoCallback);
          }
        }
      case Done =>
        e := e.(ttl := (e.ttl + U32 - 1) % U32);
        if e.ttl == 0 {
          e := e.(state := Unused, found := NoCallback);
        }
      case Unused =>
      }
      table[i] := e;
    }

    /** dns_check_entries. */
    method CheckEntries()
      requires Valid()
      modifies this`fired, table
      ensures Valid() && View() == Next(cfg, old(View()), Tick)
    {
      ghost var start := View();
      var i := 0;
      while i < table.Length
        invariant i <= table.Length && View() == CheckUpTo(cfg, start, i) && Buffers(table[..])
      {
        CheckUpToKeeps(cfg, start, i);
        CheckEntry(i);
        i := i + 1;
      }
      CheckUpToKeeps(cfg, start, i);
    }

    /** dns_recv. */
    method Recv(p: seq<Byte>, ghost m: Message)
      requires Valid() && Formed(p, m)
      modifies this`fired, table
      ensures Valid()
      ensures View() == if AcceptableSize(p) then Next(cfg, old(View()), Receive(ReplyOf(p, m)))
                        else old(View())
    {
      if |p| > DNS_MSG_SIZE || |p| < SIZEOF_DNS_HDR + SIZEOF_DNS_QUERY + SIZEOF_DNS_ANSWER {
        return;
      }
      ghost var r := ReplyOf(p, m);
      ReceiveKeeps(cfg, View(), r);
      var i := U16(p, 0);
      if i < table.Length && table[i].state.Asking? {
        var e := table[i];
        var found, ttl, ip := ReadReply(p, Text(e), m);
        if found {
          if ttl > DNS_MAX_TTL {
            ttl := DNS_MAX_TTL;
          }
          table[i] := e.(state := Done, ttl := ttl, ipaddr := ip);
          Call(e.found, Address(ip));
        } else {
          Call(e.found, Failed);
          table[i] := e.(state := Unused, found := NoCallback);
        }
        assert table[i] == Received(e, r) && table[..] == old(table[..])[i := table[i]];
      }
    }

    /** The part of dns_recv that reads the message; `found` says that it answers the query. */
    method ReadReply(p: seq<Byte>, name: seq<Byte>, ghost m: Message)
      returns (found: bool, ttl: nat, ip: nat)
      requires AcceptableSize(p) && Formed(p, m) && |name| == N.DNS_MAX_NAME_LENGTH
      ensures var rs := Records(m.answers); var k := FirstAddress(rs);
              && found == (Good(p) && N.Matches(name, 0, m.question.labels) && k < |rs|)
              && (found ==> Record(true, ttl, ip) == rs[k])
    {
      var (flags1, flags2, nquestions, nanswers) := (p[2], p[3], U16(p, 4), U16(p, 6));
      if flags1 < 0x80 || flags2 % 0x10 != 0 || nquestions != 1 {
        return false, 0, 0;
      }
      var differs := N.CompareName(name, p, SIZEOF_DNS_HDR, m.question.labels, m.question.end);
      if differs != 0 {
        return false, 0, 0;
      }
      var pos := N.ParseName(p, SIZEOF_DNS_HDR, m.question.labels, m.question.end);
      found, ttl, ip := FindAddress(p, pos + SIZEOF_DNS_QUERY, nanswers, m);
    }

    /** The search of dns_enqueue: the first unused entry, or else where the loop ended with the
        oldest completed one in lseqi. */
    method FindSlot() returns (i: nat)
      requires 0 < table.Length < 0x100 && dnsSeqno < 0x100
      ensures i == Slot(table[..], dnsSeqno)
    {
      var lseq, lseqi := 0, 0;
      i := 0;
      while i < table.Length
        invariant i <= table.Length && forall j :: 0 <= j < i ==> !table[j].state.Unused?
        invariant lseqi == Oldest(table[..], dnsSeqno, i)
        invariant lseqi < table.Length
        invariant lseq == if Age(table[..], dnsSeqno, lseqi) > 0 && i > 0 then Age(table[..], dnsSeqno, lseqi) else 0
      {
        if table[i].state.Unused? {
          assert i == FirstUnused(table[..]);
          return;
        }
        if table[i].state.Done? && dnsSeqno - table[i].seqno > lseq {
          lseq, lseqi := dnsSeqno - table[i].seqno, i;
        }
        i := i + 1;
      }
      assert FirstUnused(table[..]) == table.Length;
      if table[lseqi].state.Done? {
        i := lseqi;
      }
    }

    /** dns_enqueue. */
    method Enqueue(name: seq<Byte>, found: Found) returns (err: int)
      requires Valid() && |name| < N.DNS_MAX_NAME_LENGTH && (found.Callback? ==> found.id !in asked)
      modifies this`fired, this`asked, this`dnsSeqno, table
      ensures Valid() && View() == EnqueueAt(cfg, old(View()), name, found)
      ensures err == if Slot(old(table[..]), old(dnsSeqno)) == table.Length then ERR_MEM else ERR_INPROGRESS
    {
      EnqueueKeeps(cfg, View(), name, found);
      var i := FindSlot();
      if i == table.Length {
        return ERR_MEM;
      }
      ghost var was := table[..];
      FreshBuffer(cfg, was, i, dnsSeqno, name, found);
      table[i] := Fresh(table[i], dnsSeqno, name, found);
      dnsSeqno := (dnsSeqno + 1) % 0x100;
      asked := WithId(asked, found);
      CheckEntry(i);
      assert table[..] == was[i := Checked(cfg, Fresh(was[i], old(dnsSeqno), name, found))] && fired == old(fired);
      err := ERR_INPROGRESS;
    }

    /** dns_lookup: the loop over the table; none found is IPADDR_NONE. */
    method LookUp(name: seq<Byte>) returns (r: Result)
      ensures var i := Lookup(table[..], name);
              r == if i < table.Length then Address(table[i].ipaddr) else Failed
    {
      var i := 0;
      while i < table.Length
        invariant i <= table.Length && forall j :: 0 <= j < i ==> !(table[j].state.Done? && table[j].name == name)
      {
        if table[i].state.Done? && table[i].name == name {
          assert i == Lookup(table[..], name);
          return Address(table[i].ipaddr);
        }
        i := i + 1;
      }
      assert Lookup(table[..], name) == table.Length;
      return Failed;
    }
  }
}

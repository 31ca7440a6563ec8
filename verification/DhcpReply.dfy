/** dhcp_parse_reply as it updates the tables of received options in place. */
module DhcpReply {
  import opened Octets
  import opened DhcpOptions
  import opened DhcpChain
  import opened DhcpOverload
  import opened Err

  /** u16_t arithmetic. */
  function U16(x: int): nat { x % 0x1_0000 }

  lemma KeptBytes(msg: seq<Byte>, at: nat, tag: Byte, n: nat)
    requires at + n <= |msg| && LegalLength(tag, n)
    ensures KeptLength(tag, n) <= n && Kept(Option(tag, Slice(msg, at, n))) == msg[at..at + KeptLength(tag, n)]
  {
  }

  /** dhcp_rx_options_given and dhcp_rx_options_val. */
  class RxOptions {
    const given: array<bool>
    const val: array<nat>

    ghost predicate Valid() { given.Length == val.Length == IDX_MAX }

    ghost function View(): (t: Tables)
      reads given, val
      requires Valid()
      ensures Sized(t)
    {
      Tables(given[..], val[..])
    }

    constructor ()
      ensures Valid() && fresh(given) && fresh(val)
    {
      given, val := new bool[IDX_MAX], new nat[IDX_MAX];
    }

    /** The switch of dhcp_parse_reply. */
    static method Classify(op: Byte, len: Byte) returns (ok: bool, decodeLen: nat, decodeIdx: nat)
      ensures ok <==> LegalLength(op, len)
      ensures ok ==> decodeLen == KeptLength(op, len) && decodeIdx == IndexOf(op)
    {
      ok, decodeLen, decodeIdx := true, len, IDX_MAX;
      if op == SUBNET_MASK {
        ok, decodeIdx := len == 4, 6;
      } else if op == ROUTER {
        decodeLen := 4;
        ok, decodeIdx := len >= decodeLen, 7;
      } else if op == DNS_SERVER {
        decodeLen := if len < 4 * DNS_MAX_SERVERS then len else 4 * DNS_MAX_SERVERS;
        ok, decodeIdx := len % 4 == 0, IDX_DNS_SERVER;
      } else if op == LEASE_TIME {
        ok, decodeIdx := len == 4, 3;
      } else if op == OVERLOAD {
        ok, decodeIdx := len == 1, IDX_OVERLOAD;
      } else if op == MESSAGE_TYPE {
        ok, decodeIdx := len == 1, 1;
      } else if op == SERVER_ID {
        ok, decodeIdx := len == 4, 2;
      } else if op == T1 {
        ok, decodeIdx := len == 4, 4;
      } else if op == T2 {
        ok, decodeIdx := len == 4, 5;
      } else {
        decodeLen := 0;
      }
    }

    /** From decode_next on: store the value four bytes at a time until a place is taken. */
    method StoreValue(bytes: seq<Byte>, decodeIdx: nat)
      requires Valid() && decodeIdx < IDX_MAX
      requires |bytes| == 1 || |bytes| == 4 || (|bytes| == 8 && decodeIdx == IDX_DNS_SERVER)
      modifies given, val
      ensures View() == Stored(old(View()), decodeIdx, bytes)
    {
      var rest := bytes;
      var idx: nat := decodeIdx;
      while |rest| > 4 && !given[idx]
        invariant idx < IDX_MAX && Stored(View(), idx, rest) == Stored(old(View()), decodeIdx, bytes)
        invariant |rest| == 1 || |rest| == 4 || (|rest| == 8 && idx == IDX_DNS_SERVER)
        decreases |rest|
      {
        given[idx] := true;
        val[idx] := Number(rest[..4]);
        rest := rest[4..];
        idx := idx + 1;
      }
      if !given[idx] {
        given[idx] := true;
        val[idx] := Number(rest);
      }
    }

    /** The option at `offset` of the first link: check its length and take its value. */
    method TakeOption(q: Chain, offset: nat, ghost end: nat) returns (ok: bool, next: nat)
      requires Valid() && Ready(q, offset, end) && offset < end && Flatten(q)[offset] == q[0][offset] != END
      modifies given, val
      ensures var msg := Flatten(q);
              && ok == (msg[offset] == PAD || LegalLength(msg[offset], LengthAt(msg, offset)))
              && (ok ==> next == After(msg, offset) && View() == Taken(old(View()), msg, offset))
              && (!ok ==> View() == old(View()))
    {
      var op := q[0][offset];
      LengthIn(q, offset);
      var len: nat := if offset + 1 < |q[0]| then q[0][offset + 1] else if |q| > 1 then q[1][0] else 0;
      if op == PAD {
        next := U16(U16(offset - 1) + 0 + 2);
        return true, next;
      }
      var decodeLen, decodeIdx;
      ok, decodeLen, decodeIdx := Classify(op, len);
      next := offset;
      if ok {
        next := U16(offset + len + 2);
        KeptBytes(Flatten(q), offset + 2, op, len);
        if decodeLen > 0 {
          StoreValue(Flatten(q)[offset + 2..offset + 2 + decodeLen], decodeIdx);
        }
      }
    }

    /** Find the link of byte `idx`; the result is empty if the chain is too short. */
    method Locate(p: Chain, idx: nat, max: nat) returns (q: Chain, offset: nat, offsetMax: nat)
      requires InChain(p, idx, max)
      ensures idx >= |Flatten(p)| <==> q == []
      ensures q != [] ==>
                && Ready(q, offset, offsetMax)
                && Scan(Flatten(q), offset, offsetMax) == Scan(Flatten(p), idx, max)
    {
      q, offset, offsetMax := p, idx, max;
      ghost var found := Scan(Flatten(p), idx, max);
      while q != [] && offset >= |q[0]|
        invariant InChain(q, offset, offsetMax)
        invariant idx >= |Flatten(p)| <==> offset >= |Flatten(q)|
        invariant Scan(Flatten(q), offset, offsetMax) == found
        decreases |q|
      {
        SkipLink(q, offset, offsetMax);
        var n := |q[0]|;
        ghost var (at, end) := (offset - n, offsetMax - n);
        offset := U16(offset - n);
        offsetMax := U16(offsetMax - n);
        assert offset == at && offsetMax == end;
        q := q[1..];
      }
    }

    /** The end of a loop turn: go to the next link if the option ended this one. */
    static method MoveOn(q: Chain, next: nat, offsetMax: nat, ghost at: nat)
      returns (q': Chain, offset': nat, offsetMax': nat, more: bool)
      requires Ready(q, at, offsetMax) && AtOption(q, at, offsetMax) && next == After(Flatten(q), at)
      ensures more ==> Ready(q', offset', offsetMax') && offsetMax' - offset' < offsetMax - at
      ensures Scan(Flatten(q), next, offsetMax)
              == if more then Scan(Flatten(q'), offset', offsetMax') else Scanned([], true)
    {
      NextOption(q, at, offsetMax);
      q', offset', offsetMax', more := q, next, offsetMax, true;
      var n := |q[0]|;
      if offset' >= n {
        offset' := U16(offset' - n);
        offsetMax' := U16(offsetMax - n);
        assert offset' == next - n && offsetMax' == offsetMax - n;
        if offset' < offsetMax' && offsetMax' != 0 {
          q' := q[1..];
        } else {
          more := false;
        }
      }
    }

    /** The parse loop over one field. */
    method ParseField(p: Chain, idx: nat, max: nat) returns (err: int)
      requires Valid() && InChain(p, idx, max)
      modifies given, val
      ensures if idx >= |Flatten(p)| then err == ERR_BUF && View() == old(View())
              else
                var s := Scan(Flatten(p), idx, max);
                View() == Fold(old(View()), s.options) && err == if s.ok then ERR_OK else ERR_VAL
    {
      var q: Chain, offset: nat, offsetMax: nat := Locate(p, idx, max);
      if q == [] {
        return ERR_BUF;
      }
      ghost var rest := Scan(Flatten(p), idx, max);
      ghost var (goal, done) := (Fold(View(), rest.options), rest.ok);
      var more := true;
      while more && q[0][offset] != END && offset < offsetMax
        invariant more ==> Ready(q, offset, offsetMax)
        invariant rest == if more then Scan(Flatten(q), offset, offsetMax) else Scanned([], true)
        invariant Fold(View(), rest.options) == goal && rest.ok == done
        decreases more, if more then offsetMax - offset else 0
      {
        ByteIn(q, offset);
        ghost var t := View();
        var ok, next := TakeOption(q, offset, offsetMax);
        if !ok {
          return ERR_VAL;
        }
        FoldStep(t, Flatten(q), offset, offsetMax);
        rest := Scan(Flatten(q), next, offsetMax);
        q, offset, offsetMax, more := MoveOn(q, next, offsetMax, offset);
      }
      if more { ByteIn(q, offset); }
      return ERR_OK;
    }

    /** dhcp_clear_all_options. */
    method ClearAll()
      requires Valid()
      modifies given
      ensures View() == Cleared(old(View()))
    {
      forall i | 0 <= i < given.Length {
        given[i] := false;
      }
    }

    /** The overload option: taken from the tables, and which fields it names. */
    method TakeOverload(parseFile: bool, parseSname: bool) returns (file: bool, sname: bool)
      requires Valid()
      modifies given
      ensures View() == OverloadTaken(old(View()))
      ensures file == (parseFile || FileOverloaded(old(View())))
      ensures sname == (parseSname || SnameOverloaded(old(View())))
    {
      file, sname := parseFile, parseSname;
      if given[IDX_OVERLOAD] {
        var overload := val[IDX_OVERLOAD];
        given[IDX_OVERLOAD] := false;
        if overload == 1 {
          file := true;
        } else if overload == 2 {
          sname := true;
        } else if overload == 3 {
          file, sname := true, true;
        }
      }
    }

    /** From the first `again` on: the overloaded fields, as long as a flag is set. */
    method ParseOverloaded(p: Chain, parseFile: bool, parseSname: bool, ghost n: nat) returns (err: int)
      requires Valid() && NonEmptyLinks(p) && OPTIONS_OFS < |Flatten(p)| <= 0xffff && !View().given[IDX_OVERLOAD]
      requires Follows(p, PlaceOf(parseFile, parseSname), n)
      modifies given, val
      ensures Ended(Parsed(err, View())) == Overloads(Flatten(p), old(View()), PlaceOf(parseFile, parseSname), n)
    {
      var file, sname := parseFile, parseSname;
      ghost var (msg, left) := (Flatten(p), n);
      ghost var goal := Overloads(msg, View(), PlaceOf(file, sname), n);
      err := ERR_OK;
      while err == ERR_OK && (file || sname)
        invariant err == ERR_OK ==> !View().given[IDX_OVERLOAD] && Follows(p, PlaceOf(file, sname), left)
        invariant goal == if err == ERR_OK then Overloads(msg, View(), PlaceOf(file, sname), left)
                          else Ended(Parsed(err, View()))
        decreases err == ERR_OK, left
      {
        ghost var (t, place) := (View(), PlaceOf(file, sname));
        if file {
          file := false;
          err := ParseField(p, FILE_OFS, MSG_LEN);
        } else {
          sname := false;
          err := ParseField(p, SNAME_OFS, FILE_OFS);
        }
        if err == ERR_OK {
          FlagsName(p, place, t);
          file, sname := TakeOverload(file, sname);
        }
        left := left - 1;
      }
    }

    /** dhcp_parse_reply: what it leaves in the tables is what one pass over the bytes finds. */
    method ParseReply(p: Chain) returns (err: int)
      requires Valid() && Domain(p)
      modifies given, val
      ensures if |p[0]| < SNAME_OFS then err == ERR_BUF && View() == Cleared(old(View()))
              else Ended(Parsed(err, View())) == ParseFlat(Flatten(p), old(View()))
    {
      ClearAll();
      if |p[0]| < SNAME_OFS {
        return ERR_BUF;
      }
      ghost var t := View();
      err := ParseField(p, OPTIONS_OFS, |Flatten(p)|);
      if err == ERR_OK {
        FirstFlagsName(p, t);
        var file, sname := TakeOverload(false, false);
        err := ParseOverloaded(p, file, sname, ROUNDS);
      }
    }
  }
}

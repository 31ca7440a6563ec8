/** DHCP options as bytes: what one pass over a field finds (section 2 of RFC 2132), and the table
    of received options that results. */
module DhcpOptions {
  import opened Octets

  const PAD: Byte := 0
  const SUBNET_MASK: Byte := 1
  const ROUTER: Byte := 3
  const DNS_SERVER: Byte := 6
  const LEASE_TIME: Byte := 51
  const OVERLOAD: Byte := 52
  const MESSAGE_TYPE: Byte := 53
  const SERVER_ID: Byte := 54
  const T1: Byte := 58
  const T2: Byte := 59
  const END: Byte := 255

  // Places in the table of received options.
  const IDX_OVERLOAD := 0
  const IDX_DNS_SERVER := 8
  const DNS_MAX_SERVERS := 2
  const IDX_MAX := IDX_DNS_SERVER + DNS_MAX_SERVERS

  /** The place of an option's first value; IDX_MAX for an option that is skipped. */
  function IndexOf(tag: Byte): nat {
    if tag == OVERLOAD then IDX_OVERLOAD
    else if tag == MESSAGE_TYPE then 1
    else if tag == SERVER_ID then 2
    else if tag == LEASE_TIME then 3
    else if tag == T1 then 4
    else if tag == T2 then 5
    else if tag == SUBNET_MASK then 6
    else if tag == ROUTER then 7
    else if tag == DNS_SERVER then IDX_DNS_SERVER
    else IDX_MAX
  }

  predicate LegalLength(tag: Byte, len: nat) {
    if tag == ROUTER then len >= 4
    else if tag == DNS_SERVER then len % 4 == 0
    else if tag == OVERLOAD || tag == MESSAGE_TYPE then len == 1
    else IndexOf(tag) < IDX_MAX ==> len == 4
  }

  /** How many bytes of the value are kept: the first router, up to DNS_MAX_SERVERS servers. */
  function KeptLength(tag: Byte, len: nat): nat {
    if IndexOf(tag) == IDX_MAX then 0
    else if tag == ROUTER then 4
    else if tag == DNS_SERVER && len > 4 * DNS_MAX_SERVERS then 4 * DNS_MAX_SERVERS
    else len
  }

  datatype Option = Option(tag: Byte, value: seq<Byte>)

  // ----- One pass over a field ------------------------------------------------------------

  /** The options found; `ok` is false if the pass was stopped by an option of illegal length. */
  datatype Scanned = Scanned(options: seq<Option>, ok: bool)

  function Slice(s: seq<Byte>, from: nat, n: nat): seq<Byte> {
    if from + n <= |s| then s[from..from + n] else if from <= |s| then s[from..] else []
  }

  /** The length byte of the option at `at`. */
  function LengthAt(msg: seq<Byte>, at: nat): Byte { if at + 1 < |msg| then msg[at + 1] else 0 }

  /** Where the next option begins. */
  function After(msg: seq<Byte>, at: nat): nat
    requires at < |msg|
  {
    if msg[at] == PAD then at + 1 else at + 2 + LengthAt(msg, at)
  }

  function Scan(msg: seq<Byte>, at: nat, end: nat): Scanned
    requires end <= |msg|
    decreases if at < end then end - at else 0
  {
    if at >= end || msg[at] == END then Scanned([], true)
    else if msg[at] == PAD then Scan(msg, at + 1, end)
    else if !LegalLength(msg[at], LengthAt(msg, at)) then Scanned([], false)
    else
      var rest := Scan(msg, After(msg, at), end);
      Scanned([Option(msg[at], Slice(msg, at + 2, LengthAt(msg, at)))] + rest.options, rest.ok)
  }

  /** What a pass sees of the option at `at` does not depend on the bytes in front of `d`. */
  lemma HeadShift(msg: seq<Byte>, rest: seq<Byte>, d: nat, at: nat)
    requires d <= at < |msg| && rest == msg[d..]
    ensures rest[at - d] == msg[at] && LengthAt(rest, at - d) == LengthAt(msg, at)
    ensures After(rest, at - d) == After(msg, at) - d
    ensures Slice(rest, at - d + 2, LengthAt(msg, at)) == Slice(msg, at + 2, LengthAt(msg, at))
  {
    LengthShift(msg, d, at, rest);
    SliceShift(msg, d, at + 2, LengthAt(msg, at));
  }

  lemma {:induction false} ScanBehind(msg: seq<Byte>, rest: seq<Byte>, d: nat, at: nat, end: nat)
    requires d <= at && d <= end <= |msg| && rest == msg[d..]
    ensures Scan(msg, at, end) == Scan(rest, at - d, end - d)
    decreases if at < end then end - at else 0
  {
    if at < end {
      HeadShift(msg, rest, d, at);
      if msg[at] != END { ScanBehind(msg, rest, d, After(msg, at), end); }
    }
  }

  lemma ScanShift(msg: seq<Byte>, d: nat, at: nat, end: nat)
    requires d <= at && d <= end <= |msg|
    ensures Scan(msg, at, end) == Scan(msg[d..], at - d, end - d)
  {
    ScanBehind(msg, msg[d..], d, at, end);
  }

  lemma LengthShift(msg: seq<Byte>, d: nat, at: nat, rest: seq<Byte>)
    requires d <= at && d <= |msg| && rest == msg[d..]
    ensures LengthAt(msg, at) == LengthAt(rest, at - d)
  {
  }

  lemma SliceShift(s: seq<Byte>, d: nat, from: nat, n: nat)
    requires d <= from && d <= |s|
    ensures Slice(s, from, n) == Slice(s[d..], from - d, n)
  {
  }

  // ----- The table of received options ----------------------------------------------------

  /** dhcp_rx_options_given and dhcp_rx_options_val. */
  datatype Tables = Tables(given: seq<bool>, val: seq<nat>)

  predicate Sized(t: Tables) { |t.given| == |t.val| == IDX_MAX }

  /** A value in network byte order. */
  function Number(bytes: seq<Byte>): nat {
    if bytes == [] then 0 else Number(bytes[..|bytes| - 1]) * 0x100 + bytes[|bytes| - 1]
  }

  /** Values of four bytes go to successive places, up to the first that is taken. */
  function Stored(t: Tables, idx: nat, bytes: seq<Byte>): (t': Tables)
    requires Sized(t)
    ensures Sized(t')
    decreases |bytes|
  {
    if bytes == [] || idx >= IDX_MAX || t.given[idx] then t
    else if |bytes| <= 4 then Tables(t.given[idx := true], t.val[idx := Number(bytes)])
    else Stored(Tables(t.given[idx := true], t.val[idx := Number(bytes[..4])]), idx + 1, bytes[4..])
  }

  function Kept(o: Option): seq<Byte> { Slice(o.value, 0, KeptLength(o.tag, |o.value|)) }

  function Fold(t: Tables, options: seq<Option>): (t': Tables)
    requires Sized(t)
    ensures Sized(t')
    decreases |options|
  {
    if options == [] then t else Fold(Stored(t, IndexOf(options[0].tag), Kept(options[0])), options[1..])
  }

  function OptionAt(msg: seq<Byte>, at: nat): Option
    requires at < |msg|
  {
    Option(msg[at], Slice(msg, at + 2, LengthAt(msg, at)))
  }

  /** The table after one more option or pad byte. */
  function Taken(t: Tables, msg: seq<Byte>, at: nat): (t': Tables)
    requires Sized(t) && at < |msg|
    ensures Sized(t')
  {
    if msg[at] == PAD then t else Stored(t, IndexOf(msg[at]), Kept(OptionAt(msg, at)))
  }

  lemma FoldStep(t: Tables, msg: seq<Byte>, at: nat, end: nat)
    requires Sized(t) && at < end <= |msg| && msg[at] != END
    requires msg[at] == PAD || LegalLength(msg[at], LengthAt(msg, at))
    ensures var (s, rest) := (Scan(msg, at, end), Scan(msg, After(msg, at), end));
            s.ok == rest.ok && Fold(t, s.options) == Fold(Taken(t, msg, at), rest.options)
  {
    var rest := Scan(msg, After(msg, at), end);
    if msg[at] != PAD { assert ([OptionAt(msg, at)] + rest.options)[1..] == rest.options; }
  }

  lemma {:induction false} FoldAppend(t: Tables, a: seq<Option>, b: seq<Option>)
    requires Sized(t)
    ensures Fold(t, a + b) == Fold(Fold(t, a), b)
    decreases |a|
  {
    if a == [] {
      assert a + b == b;
    } else {
      FoldAppend(Stored(t, IndexOf(a[0].tag), Kept(a[0])), a[1..], b);
      assert (a + b)[1..] == a[1..] + b;
    }
  }

  predicate Legal(o: Option) { LegalLength(o.tag, |o.value|) && |o.value| < 0x100 }

  predicate AllLegal(options: seq<Option>) { forall k :: 0 <= k < |options| ==> Legal(options[k]) }

  /** The first option that carries a value for place i. */
  function First(options: seq<Option>, i: nat): (k: nat)
    ensures k <= |options|
    ensures k < |options| ==> IndexOf(options[k].tag) == i && options[k].value != []
    ensures forall j :: 0 <= j < k ==> IndexOf(options[j].tag) != i || options[j].value == []
  {
    if options == [] || (IndexOf(options[0].tag) == i && options[0].value != []) then 0 else 1 + First(options[1..], i)
  }

  lemma StoredElsewhere(t: Tables, o: Option, i: nat)
    requires Sized(t) && Legal(o) && i <= IDX_DNS_SERVER
    ensures var t' := Stored(t, IndexOf(o.tag), Kept(o));
            if IndexOf(o.tag) == i && o.value != [] && !t.given[i] then
              t'.given[i] && t'.val[i] == Number(Slice(o.value, 0, if |o.value| == 1 then 1 else 4))
            else t'.given[i] == t.given[i] && t'.val[i] == t.val[i]
  {
    if IndexOf(o.tag) == IDX_DNS_SERVER && |Kept(o)| > 4 {
      assert Kept(o)[..4] == Slice(o.value, 0, 4);
    }
  }

  /** Each place gets the value of the first option for it, unless it was taken before. */
  lemma {:induction false} FoldTakesFirst(t: Tables, options: seq<Option>, i: nat)
    requires Sized(t) && AllLegal(options) && i <= IDX_DNS_SERVER
    ensures var (t', k) := (Fold(t, options), First(options, i));
            && (t'.given[i] <==> t.given[i] || k < |options|)
            && (t.given[i] ==> t'.val[i] == t.val[i])
            && (!t.given[i] && k < |options| ==>
                  t'.val[i] == Number(Slice(options[k].value, 0, if |options[k].value| == 1 then 1 else 4)))
    decreases |options|
  {
    if options != [] {
      StoredElsewhere(t, options[0], i);
      FoldTakesFirst(Stored(t, IndexOf(options[0].tag), Kept(options[0])), options[1..], i);
    }
  }

  lemma TwoServers(t: Tables, bytes: seq<Byte>)
    requires Sized(t) && |bytes| == 8 && !t.given[IDX_DNS_SERVER] && !t.given[IDX_DNS_SERVER + 1]
    ensures var t' := Stored(t, IDX_DNS_SERVER, bytes);
            && t'.given[IDX_DNS_SERVER] && t'.val[IDX_DNS_SERVER] == Number(bytes[..4])
            && t'.given[IDX_DNS_SERVER + 1] && t'.val[IDX_DNS_SERVER + 1] == Number(bytes[4..])
  {
    var i := IDX_DNS_SERVER;
    var t1 := Tables(t.given[i := true], t.val[i := Number(bytes[..4])]);
    assert Stored(t, i, bytes) == Stored(t1, i + 1, bytes[4..]);
  }

  /** Only the second server of an option goes to the last place. */
  lemma StoredSecond(t: Tables, o: Option)
    requires Sized(t) && Legal(o) && (t.given[IDX_DNS_SERVER + 1] ==> t.given[IDX_DNS_SERVER])
    ensures var (t', i) := (Stored(t, IndexOf(o.tag), Kept(o)), IDX_DNS_SERVER + 1);
            if IndexOf(o.tag) == IDX_DNS_SERVER && |o.value| > 4 && !t.given[IDX_DNS_SERVER] then
              t'.given[i] && t'.val[i] == Number(o.value[4..8])
            else t'.given[i] == t.given[i] && t'.val[i] == t.val[i]
  {
    if IndexOf(o.tag) == IDX_DNS_SERVER && |o.value| > 4 && !t.given[IDX_DNS_SERVER] {
      assert Kept(o) == o.value[..8] && Kept(o)[4..] == o.value[4..8];
      TwoServers(t, Kept(o));
    }
  }

  /** The place of a second server is filled by the option that filled the first, or not at all. */
  lemma {:induction false} FoldSecondServer(t: Tables, options: seq<Option>)
    requires Sized(t) && AllLegal(options) && (t.given[IDX_DNS_SERVER + 1] ==> t.given[IDX_DNS_SERVER])
    ensures var (t', k, i) := (Fold(t, options), First(options, IDX_DNS_SERVER), IDX_DNS_SERVER + 1);
            if t.given[IDX_DNS_SERVER] || k == |options| || |options[k].value| <= 4 then
              t'.given[i] == t.given[i] && t'.val[i] == t.val[i]
            else t'.given[i] && t'.val[i] == Number(options[k].value[4..8])
    decreases |options|
  {
    if options != [] {
      var (o, rest) := (options[0], options[1..]);
      var t1 := Stored(t, IndexOf(o.tag), Kept(o));
      StoredSecond(t, o);
      StoredElsewhere(t, o, IDX_DNS_SERVER);
      if t1.given[IDX_DNS_SERVER + 1] && !t.given[IDX_DNS_SERVER + 1] {
        FoldKeepsTaken(t1, rest, IDX_DNS_SERVER + 1);
      } else {
        FoldSecondServer(t1, rest);
      }
    }
  }

  lemma {:induction false} FoldKeepsTaken(t: Tables, options: seq<Option>, i: nat)
    requires Sized(t) && i < IDX_MAX && t.given[i]
    ensures Fold(t, options).given[i] && Fold(t, options).val[i] == t.val[i]
    decreases |options|
  {
    if options != [] {
      StoredKeepsTaken(t, IndexOf(options[0].tag), Kept(options[0]), i);
      FoldKeepsTaken(Stored(t, IndexOf(options[0].tag), Kept(options[0])), options[1..], i);
    }
  }

  lemma {:induction false} StoredKeepsTaken(t: Tables, idx: nat, bytes: seq<Byte>, i: nat)
    requires Sized(t) && i < IDX_MAX && t.given[i]
    ensures Stored(t, idx, bytes).given[i] && Stored(t, idx, bytes).val[i] == t.val[i]
    decreases |bytes|
  {
    if |bytes| > 4 && idx < IDX_MAX && !t.given[idx] {
      StoredKeepsTaken(Tables(t.given[idx := true], t.val[idx := Number(bytes[..4])]), idx + 1, bytes[4..], i);
    }
  }

  /** Place i of the table holds the first value for it among these options, and is given only then.
      The last place belongs to the second server of the first option with servers. */
  predicate FirstValue(u: Tables, options: seq<Option>, i: nat)
    requires Sized(u) && i < IDX_MAX
  {
    var second := i == IDX_DNS_SERVER + 1;
    var k := First(options, if second then IDX_DNS_SERVER else i);
    && (u.given[i] <==> k < |options| && (second ==> |options[k].value| > 4))
    && (u.given[i] ==>
          u.val[i] == Number(if second then Slice(options[k].value, 4, 4)
                             else Slice(options[k].value, 0, if |options[k].value| == 1 then 1 else 4)))
  }

  /** From empty tables, all places hold first values. */
  lemma FoldFirstValues(t: Tables, options: seq<Option>, i: nat)
    requires Sized(t) && AllLegal(options) && i < IDX_MAX && !t.given[i] && !t.given[IDX_DNS_SERVER]
    ensures FirstValue(Fold(t, options), options, i)
  {
    if i <= IDX_DNS_SERVER {
      FoldTakesFirst(t, options, i);
    } else {
      FoldSecondServer(t, options);
      var k := First(options, IDX_DNS_SERVER);
      if k < |options| && |options[k].value| > 4 { assert Legal(options[k]); }
    }
  }

  // ----- Written options ------------------------------------------------------------------

  /** Options one after the other, each with its tag and length. */
  function Tlv(options: seq<Option>): seq<Byte>
    requires Writable(options)
  {
    if options == [] then []
    else [options[0].tag, |options[0].value|] + options[0].value + Tlv(options[1..])
  }

  /** Neither padding nor the end marker is an option, and lengths are legal. */
  predicate Writable(options: seq<Option>) {
    AllLegal(options) && forall k :: 0 <= k < |options| ==> options[k].tag != PAD && options[k].tag != END
  }

  lemma TakeApart(tag: Byte, n: Byte, value: seq<Byte>, rest: seq<Byte>, s: seq<Byte>)
    requires s == [tag, n] + value + rest && |value| == n
    ensures s[0] == tag && LengthAt(s, 0) == n && Slice(s, 2, n) == value && s[2 + n..] == rest
  {
  }

  lemma Regroup(a: seq<Byte>, b: seq<Byte>, c: seq<Byte>)
    ensures a + b + c == a + (b + c)
  {
  }

  lemma ScanFirst(s: seq<Byte>, o: Option, end: nat)
    requires Legal(o) && o.tag != PAD && o.tag != END && 0 < end <= |s|
    requires s[0] == o.tag && LengthAt(s, 0) == |o.value| && Slice(s, 2, |o.value|) == o.value
    ensures var r := Scan(s, 2 + |o.value|, end);
            Scan(s, 0, end) == Scanned([o] + r.options, r.ok)
  {
  }

  lemma ScanFirstThen(s: seq<Byte>, o: Option, rest: seq<Byte>, end: nat)
    requires Legal(o) && o.tag != PAD && o.tag != END && 2 + |o.value| <= end <= |s|
    requires s[0] == o.tag && LengthAt(s, 0) == |o.value| && Slice(s, 2, |o.value|) == o.value
    requires s[2 + |o.value|..] == rest
    ensures var r := Scan(rest, 0, end - 2 - |o.value|);
            Scan(s, 0, end) == Scanned([o] + r.options, r.ok)
  {
    ScanFirst(s, o, end);
    ScanShift(s, 2 + |o.value|, 2 + |o.value|, end);
  }

  lemma TlvThen(options: seq<Option>, tail: seq<Byte>)
    requires Writable(options) && options != []
    ensures var o := options[0];
            Tlv(options) + tail == [o.tag, |o.value|] + o.value + (Tlv(options[1..]) + tail)
  {
    Regroup([options[0].tag, |options[0].value|] + options[0].value, Tlv(options[1..]), tail);
  }

  lemma TakeFirst(options: seq<Option>, tail: seq<Byte>, s: seq<Byte>)
    requires Writable(options) && options != [] && s == Tlv(options) + tail
    ensures var (o, n) := (options[0], |options[0].value|);
            && |s| >= 2 + n && s[0] == o.tag && LengthAt(s, 0) == n && Slice(s, 2, n) == o.value
            && s[2 + n..] == Tlv(options[1..]) + tail
  {
    var o := options[0];
    TlvThen(options, tail);
    TakeApart(o.tag, |o.value|, o.value, Tlv(options[1..]) + tail, s);
  }

  /** A pass over written options, up to an end marker, finds exactly these options. */
  lemma {:induction false} ScanTlv(options: seq<Option>, tail: seq<Byte>, end: nat)
    requires Writable(options) && tail != [] && tail[0] == END
    requires |Tlv(options)| < end <= |Tlv(options)| + |tail|
    ensures Scan(Tlv(options) + tail, 0, end) == Scanned(options, true)
    decreases |options|
  {
    if options == [] {
      assert Tlv(options) + tail == tail;
    } else {
      var (o, rest) := (options[0], options[1..]);
      TakeFirst(options, tail, Tlv(options) + tail);
      ScanFirstThen(Tlv(options) + tail, o, Tlv(rest) + tail, end);
      ScanTlv(rest, tail, end - 2 - |o.value|);
      assert options == [o] + rest;
    }
  }
}

/** The writer of outgoing DHCP options, and the parser reading back what it wrote. */
module DhcpWriter {
  import opened Octets
  import opened DhcpOptions
  import opened DhcpChain
  import opened Err
  import opened DhcpOverload
  import opened DhcpReply

  /** A value in two or four bytes, in network byte order. */
  function Short(value: Word16): seq<Byte> { [value / 0x100, value % 0x100] }

  function Long(value: Word32): seq<Byte> { Short(value / 0x1_0000) + Short(value % 0x1_0000) }

  lemma NumberOfPair(bytes: seq<Byte>, a: Byte, b: Byte)
    ensures Number(bytes + [a, b]) == (Number(bytes) * 0x100 + a) * 0x100 + b
  {
    var s := bytes + [a, b];
    assert s[..|s| - 1] == bytes + [a] && (bytes + [a])[..|bytes|] == bytes;
  }

  /** The parser's reading of a written value is the value. */
  lemma LongIsRead(value: Word32)
    ensures Number(Long(value)) == value && |Long(value)| == 4
  {
    var (hi, lo) := (value / 0x1_0000, value % 0x1_0000);
    NumberOfPair([], hi / 0x100, hi % 0x100);
    NumberOfPair(Short(hi), lo / 0x100, lo % 0x100);
    assert [] + Short(hi) == Short(hi);
  }

  // ----- Calls of the writer --------------------------------------------------------------

  /** dhcp_option, dhcp_option_byte, dhcp_option_short and dhcp_option_long. */
  datatype Call =
    | Header(optionType: Byte, optionLen: Byte)
    | PutByte(byte: Byte)
    | PutShort(short: Word16)
    | PutLong(long: Word32)

  function Bytes(c: Call): seq<Byte> {
    match c
    case Header(optionType, optionLen) => [optionType, optionLen]
    case PutByte(byte) => [byte]
    case PutShort(short) => Short(short)
    case PutLong(long) => Long(long)
  }

  /** All that a sequence of calls appends. */
  function Emitted(calls: seq<Call>): seq<Byte> {
    if calls == [] then [] else Bytes(calls[0]) + Emitted(calls[1..])
  }

  /** The room each call asserts to be left: dhcp_option already counts the value to come. */
  predicate HasRoom(calls: seq<Call>, at: nat)
    decreases |calls|
  {
    calls != [] ==>
      var c := calls[0];
      && at + |Bytes(c)| + (if c.Header? then c.optionLen else 0) <= OPTIONS_LEN
      && HasRoom(calls[1..], at + |Bytes(c)|)
  }

  /** The options field after the trailer. */
  function Field(written: seq<Byte>): seq<Byte>
    requires |written| < OPTIONS_LEN
  {
    written + ([END] + seq(OPTIONS_LEN - 1 - |written|, _ => PAD))
  }

  /** The options field of the outgoing message and dhcp->options_out_len. */
  class TxOptions {
    const options: array<Byte>
    var optionsOutLen: nat

    ghost predicate Valid()
      reads this
    {
      options.Length == OPTIONS_LEN && optionsOutLen <= OPTIONS_LEN
    }

    ghost function Written(): seq<Byte>
      reads this, options
      requires Valid()
    {
      options[..optionsOutLen]
    }

    constructor ()
      ensures Valid() && Written() == [] && fresh(options)
    {
      options := new Byte[OPTIONS_LEN];
      optionsOutLen := 0;
    }

    /** dhcp_option_byte. */
    method OptionByte(value: Byte)
      requires Valid() && optionsOutLen < OPTIONS_LEN
      modifies this, options
      ensures Valid() && Written() == old(Written()) + [value]
    {
      options[optionsOutLen] := value;
      optionsOutLen := optionsOutLen + 1;
    }

    /** dhcp_option. */
    method OptionHeader(optionType: Byte, optionLen: Byte)
      requires Valid() && optionsOutLen + 2 + optionLen <= OPTIONS_LEN
      modifies this, options
      ensures Valid() && Written() == old(Written()) + [optionType, optionLen]
    {
      OptionByte(optionType);
      OptionByte(optionLen);
    }

    /** dhcp_option_short. */
    method OptionShort(value: Word16)
      requires Valid() && optionsOutLen + 2 <= OPTIONS_LEN
      modifies this, options
      ensures Valid() && Written() == old(Written()) + Short(value)
    {
      OptionByte(value / 0x100);
      OptionByte(value % 0x100);
    }

    /** dhcp_option_long. */
    method OptionLong(value: Word32)
      requires Valid() && optionsOutLen + 4 <= OPTIONS_LEN
      modifies this, options
      ensures Valid() && Written() == old(Written()) + Long(value)
    {
      OptionShort(value / 0x1_0000);
      OptionShort(value % 0x1_0000);
    }

    /** dhcp_option_trailer: the end marker, and padding that fills the field. */
    method OptionTrailer()
      requires Valid() && optionsOutLen < OPTIONS_LEN
      modifies this, options
      ensures Valid() && optionsOutLen == OPTIONS_LEN
      ensures options[..] == Field(old(Written()))
    {
      OptionByte(END);
      ghost var marked := Written();
      ghost var pad: nat := 0;
      while (optionsOutLen < OPTIONS_LEN || optionsOutLen % 4 != 0) && optionsOutLen < OPTIONS_LEN
        invariant Valid() && optionsOutLen == |marked| + pad
        invariant Written() == marked + seq(pad, _ => PAD)
      {
        OptionByte(0);
        pad := pad + 1;
      }
    }

    method Make(c: Call)
      requires Valid() && HasRoom([c], optionsOutLen)
      modifies this, options
      ensures Valid() && Written() == old(Written()) + Bytes(c)
    {
      match c
      case Header(optionType, optionLen) => OptionHeader(optionType, optionLen);
      case PutByte(byte) => OptionByte(byte);
      case PutShort(short) => OptionShort(short);
      case PutLong(long) => OptionLong(long);
    }

    /** Any sequence of writer calls, and then the trailer. */
    method WriteAll(calls: seq<Call>)
      requires Valid() && optionsOutLen == 0 && HasRoom(calls, 0) && |Emitted(calls)| < OPTIONS_LEN
      modifies this, options
      ensures Valid() && options[..] == Field(Emitted(calls))
    {
      var rest := calls;
      assert Written() == [];
      while rest != []
        invariant Valid() && HasRoom(rest, optionsOutLen) && Written() + Emitted(rest) == Emitted(calls)
        decreases |rest|
      {
        Regroup(Written(), Bytes(rest[0]), Emitted(rest[1..]));
        Make(rest[0]);
        rest := rest[1..];
      }
      assert Written() + [] == Written();
      OptionTrailer();
    }
  }

  // ----- Reading back ---------------------------------------------------------------------

  lemma OneLink(msg: seq<Byte>)
    ensures Flatten([msg]) == msg
  {
    assert [msg][1..] == [] && msg + [] == msg;
  }

  lemma DropTwice(msg: seq<Byte>, at: nat, n: nat)
    requires at + n <= |msg|
    ensures msg[at..][n..] == msg[at + n..]
  {
  }

  /** The first of the options written from `at` on, and what is behind it. */
  lemma OptionIn(msg: seq<Byte>, at: nat, options: seq<Option>, tail: seq<Byte>)
    requires at <= |msg| && Writable(options) && options != [] && msg[at..] == Tlv(options) + tail
    ensures var (o, n) := (options[0], |options[0].value|);
            && at + 2 + n <= |msg| && msg[at] == o.tag && LengthAt(msg, at) == n
            && msg[at + 2 + n..] == Tlv(options[1..]) + tail
  {
    var s := msg[at..];
    TakeFirst(options, tail, s);
    HeadShift(msg, s, at, at);
    DropTwice(msg, at, 2 + |options[0].value|);
  }

  lemma FollowOne(p: Chain, msg: seq<Byte>, at: nat, o: Option)
    requires |p| == 1 && Flatten(p) == msg && at + 2 + |o.value| <= |msg| && Legal(o) && o.tag != PAD
    requires msg[at] == o.tag && LengthAt(msg, at) == |o.value| && Followable(p, at + 2 + |o.value|, |msg|)
    ensures Followable(p, at, |msg|)
  {
  }

  lemma {:induction false} TlvFollowable(p: Chain, msg: seq<Byte>, at: nat, options: seq<Option>, tail: seq<Byte>)
    requires |p| == 1 && Flatten(p) == msg && at <= |msg| && Writable(options)
    requires tail != [] && tail[0] == END && msg[at..] == Tlv(options) + tail
    ensures Followable(p, at, |msg|)
    decreases |options|
  {
    if options == [] {
      assert msg[at..] == tail && msg[at..][0] == msg[at];
    } else {
      var o := options[0];
      OptionIn(msg, at, options, tail);
      TlvFollowable(p, msg, at + 2 + |o.value|, options[1..], tail);
      FollowOne(p, msg, at, o);
    }
  }

  lemma HeaderDropped(header: seq<Byte>, body: seq<Byte>)
    ensures (header + body)[|header|..] == body && |header + body| - |header| == |body|
  {
  }

  lemma SkipHeader(msg: seq<Byte>, body: seq<Byte>, d: nat, end: nat)
    requires d <= |msg| && msg[d..] == body && end == |body|
    ensures Scan(msg, d, |msg|) == Scan(body, 0, end)
  {
    var (at, n) := (d - d, |msg| - d);
    ScanBehind(msg, body, d, d, |msg|);
    assert at == 0 && n == end;
    assert Scan(msg, d, |msg|) == Scan(body, at, n);
  }

  predicate NoOverload(options: seq<Option>) { forall k :: 0 <= k < |options| ==> options[k].tag != OVERLOAD }

  /** The written field is found in the message, in one link, as exactly the options written. */
  lemma WrittenField(header: seq<Byte>, options: seq<Option>, tail: seq<Byte>, msg: seq<Byte>)
    requires |header| == OPTIONS_OFS && Writable(options) && msg == header + (Tlv(options) + tail)
    requires tail != [] && tail[0] == END
    ensures Flatten([msg]) == msg && |msg| > OPTIONS_OFS
    ensures Scan(msg, OPTIONS_OFS, |msg|) == Scanned(options, true) && Followable([msg], OPTIONS_OFS, |msg|)
  {
    var field := Tlv(options) + tail;
    HeaderDropped(header, field);
    SkipHeader(msg, field, |header|, |field|);
    ScanTlv(options, tail, |field|);
    OneLink(msg);
    TlvFollowable([msg], msg, OPTIONS_OFS, options, tail);
  }

  /** dhcp_create_msg leaves the sname and file fields of a message zero. */
  predicate Zeroed(header: seq<Byte>)
    requires |header| == OPTIONS_OFS
  {
    forall k :: SNAME_OFS <= k < MSG_LEN ==> header[k] == PAD
  }

  /** These options name no field, or only blank ones. */
  predicate NameNothing(p: Chain, msg: seq<Byte>, options: seq<Option>)
    requires Flatten(p) == msg && |msg| > OPTIONS_OFS
  {
    || OverloadIn(options) == 0
    || (Blank(msg) && Followable(p, FILE_OFS, MSG_LEN) && Followable(p, SNAME_OFS, FILE_OFS))
  }

  lemma OneLinkDomain(p: Chain, msg: seq<Byte>, options: seq<Option>)
    requires |p| == 1 && p[0] == msg && Flatten(p) == msg && OPTIONS_OFS < |msg| <= 0xffff
    requires Followable(p, OPTIONS_OFS, |msg|) && Scan(msg, OPTIONS_OFS, |msg|) == Scanned(options, true)
    requires NameNothing(p, msg, options)
    ensures Domain(p)
  {
    var place := FirstPlace(msg);
    if !place.NoField? { BlankFollows(p, place, ROUNDS); }
  }

  lemma WrittenNamesNothing(header: seq<Byte>, msg: seq<Byte>, p: Chain, options: seq<Option>)
    requires |header| == OPTIONS_OFS < |msg| && header <= msg && |p| == 1 && Flatten(p) == msg
    requires NoOverload(options) || Zeroed(header)
    ensures NameNothing(p, msg, options)
  {
    if Zeroed(header) {
      assert forall k :: SNAME_OFS <= k < MSG_LEN ==> msg[k] == header[k];
      PadsOnly(p, FILE_OFS, MSG_LEN);
      PadsOnly(p, SNAME_OFS, FILE_OFS);
    }
  }

  lemma {:induction false} BlankFollows(p: Chain, place: Place, n: nat)
    requires |Flatten(p)| > OPTIONS_OFS && Blank(Flatten(p))
    requires Followable(p, FILE_OFS, MSG_LEN) && Followable(p, SNAME_OFS, FILE_OFS)
    requires n >= if place.NoField? then 0 else if place == File(true) then 2 else 1
    ensures Follows(p, place, n)
    decreases n
  {
    if !place.NoField? { BlankFollows(p, PlaceAfter(Flatten(p), place), n - 1); }
  }

  lemma FirstKept(u: Tables, options: seq<Option>, i: nat)
    requires Sized(u) && IDX_OVERLOAD < i < IDX_MAX && FirstValue(u, options, i)
    ensures FirstValue(OverloadTaken(u), options, i)
  {
  }

  lemma FieldHolds(msg: seq<Byte>, options: seq<Option>, t: Tables, i: nat)
    requires |msg| > OPTIONS_OFS && Scan(msg, OPTIONS_OFS, |msg|) == Scanned(options, true)
    requires AllLegal(options) && (OverloadIn(options) == 0 || Blank(msg))
    requires Sized(t) && IDX_OVERLOAD < i < IDX_MAX
    ensures var end := ParseFlat(msg, t);
            end.Ended? && end.parsed.err == ERR_OK && FirstValue(end.parsed.tables, options, i)
  {
    var u := Fold(Cleared(t), options);
    OnlyOptions(msg, options, t);
    FoldFirstValues(Cleared(t), options, i);
    FirstKept(u, options, i);
  }

  /** A message whose options field was written as options of legal lengths and closed by the
      trailer is in the parser's domain when it arrives in one piece, and is read without error:
      each recognised option is given exactly if it was written, with its first written value. If an
      overload option was written, the fields it names are zero. */
  lemma ReadBack(header: seq<Byte>, options: seq<Option>, tail: seq<Byte>, t: Tables, i: nat)
    requires |header| == OPTIONS_OFS && Writable(options) && (NoOverload(options) || Zeroed(header))
    requires tail != [] && tail[0] == END && |Tlv(options) + tail| == OPTIONS_LEN
    requires Sized(t) && IDX_OVERLOAD < i < IDX_MAX
    ensures var (msg, end) := (header + (Tlv(options) + tail), ParseFlat(header + (Tlv(options) + tail), t));
            && Domain([msg]) && Flatten([msg]) == msg && end.Ended? && end.parsed.err == ERR_OK
            && FirstValue(end.parsed.tables, options, i)
  {
    var msg := header + (Tlv(options) + tail);
    WrittenField(header, options, tail, msg);
    WrittenNamesNothing(header, msg, [msg], options);
    OneLinkDomain([msg], msg, options);
    FieldHolds(msg, options, t, i);
  }

  lemma FieldIsRead(header: seq<Byte>, options: seq<Option>, field: seq<Byte>, t: Tables)
    requires |header| == OPTIONS_OFS && Writable(options) && (NoOverload(options) || Zeroed(header)) && Sized(t)
    requires |Tlv(options)| < OPTIONS_LEN && field == Field(Tlv(options))
    ensures Domain([header + field]) && Flatten([header + field]) == header + field
    ensures var end := ParseFlat(header + field, t);
            && end.Ended? && end.parsed.err == ERR_OK
            && forall i :: IDX_OVERLOAD < i < IDX_MAX ==> FirstValue(end.parsed.tables, options, i)
  {
    var tail := [END] + seq(OPTIONS_LEN - 1 - |Tlv(options)|, _ => PAD);
    ReadBack(header, options, tail, t, 1);
    forall i | IDX_OVERLOAD < i < IDX_MAX
      ensures FirstValue(ParseFlat(header + field, t).parsed.tables, options, i)
    {
      ReadBack(header, options, tail, t, i);
    }
  }

  /** Writer and parser together: whatever calls were made, if what they wrote is a list of options
      of legal lengths, then the parser, given the message in one piece, finds each recognised one
      with its first written value. An overload option may be among them, the fields it names being
      zero as dhcp_create_msg leaves them. */
  method WriteAndParse(tx: TxOptions, rx: RxOptions, header: seq<Byte>, calls: seq<Call>, ghost options: seq<Option>)
    returns (err: int)
    requires tx.Valid() && tx.optionsOutLen == 0 && rx.Valid() && |header| == OPTIONS_OFS
    requires HasRoom(calls, 0) && Writable(options) && (NoOverload(options) || Zeroed(header))
    requires Emitted(calls) == Tlv(options) && |Tlv(options)| < OPTIONS_LEN
    modifies tx, tx.options, rx.given, rx.val
    ensures err == ERR_OK && tx.options[..] == Field(Tlv(options))
    ensures forall i :: IDX_OVERLOAD < i < IDX_MAX ==> FirstValue(rx.View(), options, i)
  {
    tx.WriteAll(calls);
    var field := tx.options[..];
    FieldIsRead(header, options, field, rx.View());
    err := rx.ParseReply([header + field]);
    assert tx.options[..] == field;
  }

  // ----- Every list of options can be written ---------------------------------------------

  function ValueCalls(value: seq<Byte>): seq<Call> {
    if value == [] then [] else [PutByte(value[0])] + ValueCalls(value[1..])
  }

  /** One dhcp_option and then the value byte by byte, option by option. */
  function CallsFor(options: seq<Option>): seq<Call>
    requires Writable(options)
  {
    if options == [] then []
    else [Header(options[0].tag, |options[0].value|)] + (ValueCalls(options[0].value) + CallsFor(options[1..]))
  }

  lemma {:induction false} EmittedAppend(a: seq<Call>, b: seq<Call>)
    ensures Emitted(a + b) == Emitted(a) + Emitted(b)
    decreases |a|
  {
    if a == [] {
      assert a + b == b;
    } else {
      assert (a + b)[1..] == a[1..] + b;
      EmittedAppend(a[1..], b);
      Regroup(Bytes(a[0]), Emitted(a[1..]), Emitted(b));
    }
  }

  lemma {:induction false} RoomAppend(a: seq<Call>, b: seq<Call>, at: nat)
    requires HasRoom(a, at) && HasRoom(b, at + |Emitted(a)|)
    ensures HasRoom(a + b, at)
    decreases |a|
  {
    if a == [] {
      assert a + b == b;
    } else {
      assert (a + b)[1..] == a[1..] + b;
      RoomAppend(a[1..], b, at + |Bytes(a[0])|);
    }
  }

  lemma {:induction false} ValueWritten(value: seq<Byte>, at: nat)
    requires at + |value| <= OPTIONS_LEN
    ensures Emitted(ValueCalls(value)) == value && HasRoom(ValueCalls(value), at)
    decreases |value|
  {
    if value != [] {
      ValueWritten(value[1..], at + 1);
      assert ValueCalls(value)[1..] == ValueCalls(value[1..]);
      assert value == [value[0]] + value[1..];
    }
  }

  lemma OptionWritten(o: Option, rest: seq<Call>, at: nat)
    requires at + 2 + |o.value| <= OPTIONS_LEN && HasRoom(rest, at + 2 + |o.value|)
    ensures var calls := [Header(o.tag, |o.value|)] + (ValueCalls(o.value) + rest);
            Emitted(calls) == [o.tag, |o.value|] + (o.value + Emitted(rest)) && HasRoom(calls, at)
  {
    var behind := ValueCalls(o.value) + rest;
    ValueWritten(o.value, at + 2);
    EmittedAppend(ValueCalls(o.value), rest);
    RoomAppend(ValueCalls(o.value), rest, at + 2);
    assert ([Header(o.tag, |o.value|)] + behind)[1..] == behind;
  }

  /** Options that fit the field with its end marker can be written, by calls whose assertions hold. */
  lemma {:induction false} CallsWrite(options: seq<Option>, at: nat)
    requires Writable(options) && at + |Tlv(options)| < OPTIONS_LEN
    ensures Emitted(CallsFor(options)) == Tlv(options) && HasRoom(CallsFor(options), at)
    decreases |options|
  {
    if options != [] {
      var o := options[0];
      CallsWrite(options[1..], at + 2 + |o.value|);
      OptionWritten(o, CallsFor(options[1..]), at);
      Regroup([o.tag, |o.value|], o.value, Tlv(options[1..]));
    }
  }
}

/** The options of RFC 2132 the client knows, by their numbers: which lengths are accepted, and where
    the value is to be found. */
module DhcpTags {
  import opened Octets
  import opened DhcpOptions
  import opened DhcpOverload

  /** Section 3.3 subnet mask, 3.5 routers, 3.8 DNS servers, 9.2 lease time, 9.3 overload, 9.6 message
      type, 9.7 server identifier, 9.11 and 9.12 the two timers of RFC 2132. */
  predicate Acceptable(tag: Byte, len: nat) {
    && (tag in {1, 51, 54, 58, 59} ==> len == 4)
    && (tag in {52, 53} ==> len == 1)
    && (tag == 3 ==> len >= 4)
    && (tag == 6 ==> len % 4 == 0)
  }

  /** The place of the table in which the option is found: overload, message type, server identifier,
      lease time, T1, T2, subnet mask, router, first DNS server. */
  function PlaceFor(tag: Byte): int {
    match tag
    case 52 => 0
    case 53 => 1
    case 54 => 2
    case 51 => 3
    case 58 => 4
    case 59 => 5
    case 1 => 6
    case 3 => 7
    case 6 => 8
    case _ => -1
  }

  /** A field of one option and the end marker. */
  function Alone(tag: Byte, value: seq<Byte>): seq<Byte>
    requires |value| < 0x100
  {
    [tag, |value|] + value + [255]
  }

  lemma AloneParts(tag: Byte, value: seq<Byte>, s: seq<Byte>)
    requires |value| < 0x100 && s == Alone(tag, value)
    ensures |s| == |value| + 3 && s[0] == tag && LengthAt(s, 0) == |value| && Slice(s, 2, |value|) == value
    ensures s[2 + |value|] == 255
  {
    TakeApart(tag, |value|, value, [255], s);
  }

  lemma TagsAgree(tag: Byte, len: nat)
    ensures LegalLength(tag, len) <==> Acceptable(tag, len)
    ensures IndexOf(tag) == if PlaceFor(tag) >= 0 then PlaceFor(tag) else IDX_MAX
  {
  }

  /** The option is refused exactly for the wrong lengths; otherwise it is found. */
  lemma FoundIfAcceptable(tag: Byte, value: seq<Byte>)
    requires tag != 0 && tag != 255 && |value| < 0x100
    ensures var s := Scan(Alone(tag, value), 0, |value| + 3);
            && (s.ok <==> Acceptable(tag, |value|))
            && s.options == if s.ok then [Option(tag, value)] else []
  {
    var s := Alone(tag, value);
    AloneParts(tag, value, s);
    TagsAgree(tag, |value|);
    assert Scan(s, 2 + |value|, |value| + 3) == Scanned([], true);
    if Acceptable(tag, |value|) { ScanFirst(s, Option(tag, value), |value| + 3); }
  }

  lemma FirstOfOne(o: Option, i: nat)
    requires o.value != []
    ensures First([o], i) == if IndexOf(o.tag) == i then 0 else 1
  {
    assert [o][1..] == [];
  }

  lemma SliceIs(value: seq<Byte>)
    ensures |value| == 1 ==> Slice(value, 0, 1) == value
    ensures |value| >= 4 ==> Slice(value, 0, 4) == value[..4]
    ensures |value| >= 8 ==> Slice(value, 4, 4) == value[4..8]
  {
  }

  /** Place i holds the value of this option, if the option has one for it. */
  predicate Holds(u: Tables, tag: Byte, value: seq<Byte>, i: nat)
    requires Sized(u) && i < IDX_MAX && Acceptable(tag, |value|) && value != []
  {
    && (u.given[i] <==> i == PlaceFor(tag) || (i == 9 && tag == 6 && |value| >= 8))
    && (i == PlaceFor(tag) ==> u.val[i] == Number(if |value| == 1 then value else value[..4]))
    && (i == 9 && tag == 6 && |value| >= 8 ==> u.val[i] == Number(value[4..8]))
  }

  lemma FirstValueHolds(u: Tables, tag: Byte, value: seq<Byte>, i: nat)
    requires Sized(u) && i < IDX_MAX && Acceptable(tag, |value|) && value != []
    requires FirstValue(u, [Option(tag, value)], i)
    ensures Holds(u, tag, value, i)
  {
    TagsAgree(tag, |value|);
    FirstOfOne(Option(tag, value), i);
    FirstOfOne(Option(tag, value), IDX_DNS_SERVER);
    SliceIs(value);
  }

  /** From empty tables exactly the option's own place is given, and for DNS servers the next one too if
      there are two; with the first value, in network byte order. */
  lemma ValueIsInItsPlace(tag: Byte, value: seq<Byte>, t: Tables, i: nat)
    requires Acceptable(tag, |value|) && value != [] && |value| < 0x100 && Sized(t) && i < IDX_MAX
    ensures Holds(Fold(Cleared(t), [Option(tag, value)]), tag, value, i)
  {
    TagsAgree(tag, |value|);
    FoldFirstValues(Cleared(t), [Option(tag, value)], i);
    FirstValueHolds(Fold(Cleared(t), [Option(tag, value)]), tag, value, i);
  }

  /** Four bytes are read in network byte order. */
  lemma NumberIsNetworkOrder(a: Byte, b: Byte, c: Byte, d: Byte)
    ensures Number([a]) == a && Number([a, b, c, d]) == a * 0x100_0000 + b * 0x1_0000 + c * 0x100 + d
  {
    assert [a, b, c, d][..3] == [a, b, c] && [a, b, c][..2] == [a, b] && [a, b][..1] == [a] && [a][..0] == [];
    assert Number([a]) == Number([]) * 0x100 + a;
    assert Number([a, b]) == Number([a]) * 0x100 + b;
    assert Number([a, b, c]) == Number([a, b]) * 0x100 + c;
  }
}

/** A received DHCP message as a chain of pbufs: where options may cross from one link to the next
    for dhcp_parse_reply to follow, and how positions in the chain relate to the whole message. */
module DhcpChain {
  import opened Octets
  import opened DhcpOptions

  /** The payloads of a pbuf and its successors. */
  type Chain = seq<seq<Byte>>

  function Flatten(q: Chain): seq<Byte> { if q == [] then [] else q[0] + Flatten(q[1..]) }

  predicate NonEmptyLinks(q: Chain) { forall k :: 0 <= k < |q| ==> q[k] != [] }

  /** The link that holds byte `at`. */
  function LinkOf(q: Chain, at: nat): nat { if q == [] || at < |q[0]| then 0 else 1 + LinkOf(q[1..], at - |q[0]|) }

  /** The domain of the parser, for the options of a field from `at` to `end`: options stay inside
      the field, and each starts in the link where the one before starts, or in the next. */
  predicate Followable(q: Chain, at: nat, end: nat)
    requires end <= |Flatten(q)|
    decreases if at < end then end - at else 0
  {
    var msg := Flatten(q);
    at >= end || msg[at] == END
    || (msg[at] != PAD && !LegalLength(msg[at], LengthAt(msg, at)))
    || (var next := After(msg, at);
        next <= end
        && (next < end ==> LinkOf(q, next) <= LinkOf(q, at) + 1)
        && Followable(q, next, end))
  }

  lemma FlattenFirst(q: Chain)
    requires q != []
    ensures Flatten(q)[|q[0]|..] == Flatten(q[1..]) && Flatten(q)[..|q[0]|] == q[0]
  {
  }

  lemma ByteIn(q: Chain, at: nat)
    requires q != [] && at < |q[0]|
    ensures at < |Flatten(q)| && Flatten(q)[at] == q[0][at]
  {
  }

  /** The length byte is in this link or, for an option that starts with its last byte, the first
      of the next. */
  lemma LengthIn(q: Chain, at: nat)
    requires q != [] && at < |q[0]| && NonEmptyLinks(q)
    ensures LengthAt(Flatten(q), at)
            == if at + 1 < |q[0]| then q[0][at + 1] else if |q| > 1 then q[1][0] else 0
  {
    var msg := Flatten(q);
    if at + 1 < |q[0]| {
      ByteIn(q, at + 1);
    } else if |q| > 1 {
      FlattenFirst(q);
      ByteIn(q[1..], 0);
      assert msg[at + 1] == msg[|q[0]|..][0];
    } else {
      assert Flatten(q[1..]) == [];
    }
  }

  lemma {:induction false} FollowableShift(q: Chain, at: nat, end: nat)
    requires q != [] && |q[0]| <= at && |q[0]| <= end <= |Flatten(q)|
    ensures |Flatten(q[1..])| == |Flatten(q)| - |q[0]|
    ensures Followable(q, at, end) <==> Followable(q[1..], at - |q[0]|, end - |q[0]|)
    decreases if at < end then end - at else 0
  {
    var (msg, d, rest) := (Flatten(q), |q[0]|, Flatten(q[1..]));
    if at < end {
      FlattenFirst(q);
      assert msg[at] == rest[at - d];
      LengthShift(msg, d, at, rest);
      var next := After(msg, at);
      if next <= end { FollowableShift(q, next, end); }
    }
  }

  /** The field from `at` to `end` can be followed in this chain; `at` may be behind its end. */
  predicate InChain(q: Chain, at: nat, end: nat) {
    && NonEmptyLinks(q) && at <= 0xffff && end <= |Flatten(q)| <= 0xffff
    && (at < end || end == |Flatten(q)|) && Followable(q, at, end)
  }

  /** Leaving out a link in front of the field changes nothing. */
  lemma SkipLink(q: Chain, at: nat, end: nat)
    requires InChain(q, at, end) && q != [] && at >= |q[0]|
    ensures |q[0]| <= end && InChain(q[1..], at - |q[0]|, end - |q[0]|)
    ensures at >= |Flatten(q)| <==> at - |q[0]| >= |Flatten(q[1..])|
    ensures Scan(Flatten(q[1..]), at - |q[0]|, end - |q[0]|) == Scan(Flatten(q), at, end)
  {
    FlattenFirst(q);
    FollowableShift(q, at, end);
    ScanShift(Flatten(q), |q[0]|, at, end);
  }

  /** The parser stands at `at` in the first link, `end` being the end of the field. */
  predicate Ready(q: Chain, at: nat, end: nat) {
    && NonEmptyLinks(q) && q != [] && at < |q[0]| && at <= end <= |Flatten(q)| <= 0xffff
    && Followable(q, at, end)
  }

  /** The byte there is not the end, and if it begins an option, its length is legal. */
  predicate AtOption(q: Chain, at: nat, end: nat) {
    var msg := Flatten(q);
    && at < end <= |msg| && msg[at] != END
    && (msg[at] == PAD || LegalLength(msg[at], LengthAt(msg, at)))
  }

  /** The next option stays in the field; if it is not in this link, it is in the next one. */
  lemma NextOption(q: Chain, at: nat, end: nat)
    requires Ready(q, at, end) && AtOption(q, at, end)
    ensures var next := After(Flatten(q), at);
            && at < next <= end <= 0xffff
            && (next == end ==> Scan(Flatten(q), next, end) == Scanned([], true))
            && (next < |q[0]| ==> Ready(q, next, end))
            && (|q[0]| <= next < end ==>
                  Ready(q[1..], next - |q[0]|, end - |q[0]|)
                  && Scan(Flatten(q[1..]), next - |q[0]|, end - |q[0]|) == Scan(Flatten(q), next, end))
  {
    var next := After(Flatten(q), at);
    if |q[0]| <= next < end {
      SkipLink(q, next, end);
      assert LinkOf(q, next) == 1 + LinkOf(q[1..], next - |q[0]|);
      assert q[1..] != [];
    }
  }
}

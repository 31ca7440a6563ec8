/** DNS messages as bytes (section 4.1 of RFC 1035), and what dns_recv reads in them. */
module DnsMessage {
  import opened DnsTable
  import opened Octets
  import N = DnsNames

  const DNS_MSG_SIZE := 512
  const SIZEOF_DNS_HDR := 12
  const SIZEOF_DNS_QUERY := 4
  const SIZEOF_DNS_ANSWER := 10
  const DNS_RRTYPE_A := 1
  const DNS_RRCLASS_IN := 1
  const ADDRESS := 4            // sizeof(ip_addr_t)

  /** A name as it stands in a message. */
  datatype Name = Name(labels: seq<N.Label>, end: N.Ending)

  datatype Answer = Answer(name: Name, typ: Word16, cls: Word16, ttl: Word32, data: seq<Byte>)

  /** What a message says; answer k stands at places[k], and the answers end at the last place. */
  datatype Message = Message(question: Name, answers: seq<Answer>, places: seq<nat>)

  function U16(s: seq<Byte>, p: nat): Word16
    requires p + 2 <= |s|
  {
    s[p] as int * 0x100 + s[p + 1]
  }

  function U32At(s: seq<Byte>, p: nat): Word32
    requires p + 4 <= |s|
  {
    U16(s, p) as int * 0x1_0000 + U16(s, p + 2)
  }

  function InOrder(a: int, b: int, c: int, d: int): int { a * 0x100_0000 + b * 0x1_0000 + c * 0x100 + d }

  /** Numbers in a message are in network byte order. */
  lemma NetworkOrder(s: seq<Byte>, p: nat)
    requires p + 4 <= |s|
    ensures U16(s, p) == 0x100 * s[p] as int + s[p + 1] as int
    ensures U32At(s, p) == InOrder(s[p], s[p + 1], s[p + 2], s[p + 3])
  {
  }

  /** No name is longer than 255 bytes (section 2.3.4 of RFC 1035). */
  predicate NameIn(s: seq<Byte>, p: nat, name: Name) {
    N.NameAt(s, p, name.labels, name.end) && |N.Raw(name.labels)| < 0xff
  }

  function NameEnd(p: nat, name: Name): nat
    requires N.Short(name.labels)
  {
    p + N.Size(name.labels, name.end)
  }

  /** A resource record whose owner name ends at p. */
  predicate RecordIn(s: seq<Byte>, p: nat, a: Answer) {
    && p + SIZEOF_DNS_ANSWER + |a.data| <= |s|
    && U16(s, p) == a.typ && U16(s, p + 2) == a.cls && U32At(s, p + 4) == a.ttl && U16(s, p + 8) == |a.data|
    && s[p + SIZEOF_DNS_ANSWER..p + SIZEOF_DNS_ANSWER + |a.data|] == a.data
  }

  predicate AnswerIn(s: seq<Byte>, p: nat, a: Answer, next: nat) {
    && NameIn(s, p, a.name) && RecordIn(s, NameEnd(p, a.name), a)
    && next == NameEnd(p, a.name) + SIZEOF_DNS_ANSWER + |a.data|
  }

  predicate AcceptableSize(s: seq<Byte>) {
    SIZEOF_DNS_HDR + SIZEOF_DNS_QUERY + SIZEOF_DNS_ANSWER <= |s| <= DNS_MSG_SIZE
  }

  /** A response, without error code, that carries one question. */
  predicate Good(s: seq<Byte>)
    requires AcceptableSize(s)
  {
    s[2] >= 0x80 && s[3] % 0x10 == 0 && U16(s, 4) == 1
  }

  /** That is (section 4.1.1 of RFC 1035): the bit QR is set in the third byte, the four bits of RCODE
      are clear in the fourth, and QDCOUNT is one. */
  lemma GoodReplies(s: seq<Byte>, qr: Byte, rest: Byte, flags: Byte, rcode: Byte)
    requires AcceptableSize(s) && qr <= 1 && rest < 128 && s[2] == 128 * qr + rest
    requires flags < 16 && rcode < 16 && s[3] == 16 * flags + rcode
    ensures Good(s) <==> qr == 1 && rcode == 0 && s[4] == 0 && s[5] == 1
  {
  }

  /** The question and the answers stand in the bytes, one behind the other; a message with an error
      in its flags may hold anything. */
  predicate Formed(s: seq<Byte>, m: Message) {
    AcceptableSize(s) && Good(s) ==>
      && NameIn(s, SIZEOF_DNS_HDR, m.question)
      && |m.answers| == U16(s, 6) && |m.places| == |m.answers| + 1
      && m.places[0] == NameEnd(SIZEOF_DNS_HDR, m.question) + SIZEOF_DNS_QUERY
      && forall k :: 0 <= k < |m.answers| ==> AnswerIn(s, m.places[k], m.answers[k], m.places[k + 1])
  }

  /** An address record of the Internet class, whose four bytes are the address. */
  function RecordOf(a: Answer): Record {
    var addr := a.typ == DNS_RRTYPE_A && a.cls == DNS_RRCLASS_IN && |a.data| == ADDRESS;
    Record(addr, a.ttl, if addr then U32At(a.data, 0) else 0)
  }

  /** Type A is 1, class IN is 1 (sections 3.2.2 and 3.2.4 of RFC 1035); the address is the four bytes of
      the data. */
  lemma AddressRecords(a: Answer)
    ensures RecordOf(a).addr <==> a.typ == 1 && a.cls == 1 && |a.data| == 4
    ensures RecordOf(a).ttl == a.ttl
    ensures RecordOf(a).addr ==> RecordOf(a).ip == InOrder(a.data[0], a.data[1], a.data[2], a.data[3])
  {
    if |a.data| == 4 { NetworkOrder(a.data, 0); }
  }

  function Records(answers: seq<Answer>): (rs: seq<Record>)
    ensures |rs| == |answers| && forall k :: 0 <= k < |rs| ==> rs[k] == RecordOf(answers[k])
  {
    seq(|answers|, k requires 0 <= k < |answers| => RecordOf(answers[k]))
  }

  /** What the table sees of a message. */
  function ReplyOf(s: seq<Byte>, m: Message): Reply
    requires AcceptableSize(s)
  {
    Reply(U16(s, 0), Good(s), m.question.labels, Records(m.answers))
  }

  lemma DataAt(s: seq<Byte>, p: nat, a: Answer)
    requires RecordIn(s, p, a) && |a.data| == ADDRESS
    ensures U32At(s, p + SIZEOF_DNS_ANSWER) == U32At(a.data, 0)
  {
    var q := p + SIZEOF_DNS_ANSWER;
    assert forall k :: 0 <= k < ADDRESS ==> a.data[k] == s[q..q + ADDRESS][k];
  }

  /** One round of the loop of dns_recv over the answers: the next one's place, or its address. */
  method ReadAnswer(s: seq<Byte>, p: nat, ghost a: Answer, ghost end: nat)
    returns (next: nat, addr: bool, ttl: nat, ip: nat)
    requires AnswerIn(s, p, a, end)
    ensures addr == RecordOf(a).addr && if addr then Record(true, ttl, ip) == RecordOf(a) else next == end
  {
    next := N.ParseName(s, p, a.name.labels, a.name.end);
    assert next == NameEnd(p, a.name) && RecordIn(s, next, a);
    ttl, ip := 0, 0;
    addr := U16(s, next) == DNS_RRTYPE_A && U16(s, next + 2) == DNS_RRCLASS_IN && U16(s, next + 8) == ADDRESS;
    if addr {
      ttl := U32At(s, next + 4);
      ip := U32At(s, next + SIZEOF_DNS_ANSWER);
      DataAt(s, next, a);
    } else {
      next := next + SIZEOF_DNS_ANSWER + U16(s, next + 8);
    }
  }

  /** The loop of dns_recv over the answers. */
  method FindAddress(s: seq<Byte>, start: nat, nanswers: nat, ghost m: Message)
    returns (found: bool, ttl: nat, ip: nat)
    requires |m.answers| == nanswers && |m.places| == nanswers + 1 && m.places[0] == start
    requires forall k :: 0 <= k < nanswers ==> AnswerIn(s, m.places[k], m.answers[k], m.places[k + 1])
    ensures var rs := Records(m.answers); var k := FirstAddress(rs);
            found == (k < |rs|) && (found ==> Record(true, ttl, ip) == rs[k])
  {
    var pos: nat, left: nat := start, nanswers;
    while left > 0
      invariant left <= nanswers && pos == m.places[nanswers - left]
      invariant forall j :: 0 <= j < nanswers - left ==> !RecordOf(m.answers[j]).addr
    {
      ghost var k := nanswers - left;
      pos, found, ttl, ip := ReadAnswer(s, pos, m.answers[k], m.places[k + 1]);
      if found {
        assert k == FirstAddress(Records(m.answers));
        return;
      }
      left := left - 1;
    }
    return false, 0, 0;
  }

  // ----- The query of dns_send ------------------------------------------------------------

  /** What dns_send allocates for a query. */
  const QUERY_SPACE := SIZEOF_DNS_HDR + N.DNS_MAX_NAME_LENGTH + SIZEOF_DNS_QUERY

  /** The header: an id below 256, recursion desired, one question. */
  function QueryHeader(id: Byte): seq<Byte> { [0, id, 1, 0, 0, 1, 0, 0, 0, 0, 0, 0] }

  /** The query as dns_send writes it: header, encoded name, type and class. */
  function Query(id: Byte, name: seq<Byte>): seq<Byte>
    requires |name| < N.DNS_MAX_NAME_LENGTH
  {
    QueryHeader(id) + N.EncodedName(name) + [0, DNS_RRTYPE_A, 0, DNS_RRCLASS_IN]
  }

  /** Of the names dns_gethostbyname lets pass, exactly those of at most 254 characters have a query
      that fits what was allocated for it. */
  lemma QueryFits(id: Byte, name: seq<Byte>)
    requires |name| < N.DNS_MAX_NAME_LENGTH
    ensures |Query(id, name)| == SIZEOF_DNS_HDR + |name| + 2 + SIZEOF_DNS_QUERY
    ensures |Query(id, name)| <= QUERY_SPACE <==> |name| <= 254
  {
    N.EncodedLength(name);
  }

  lemma InThree(h: seq<Byte>, body: seq<Byte>, tail: seq<Byte>)
    ensures (h + body + tail)[|h|..] == body + tail
    ensures forall k :: 0 <= k < |h| ==> (h + body + tail)[k] == h[k]
    ensures forall k :: 0 <= k < |tail| ==> (h + body + tail)[|h| + |body| + k] == tail[k]
  {
  }

  /** Around the encoded name the query has the number of the entry as its id, a count of one question,
      and behind the name its type and class. */
  lemma QueryFrame(id: Byte, body: seq<Byte>, q: seq<Byte>)
    requires q == QueryHeader(id) + body + [0, DNS_RRTYPE_A, 0, DNS_RRCLASS_IN]
    ensures |q| == SIZEOF_DNS_HDR + |body| + SIZEOF_DNS_QUERY && U16(q, 0) == id && U16(q, 4) == 1
    ensures U16(q, |q| - 4) == 1 && U16(q, |q| - 2) == 1
  {
    var (h, tail, at) := (QueryHeader(id), [0, DNS_RRTYPE_A, 0, DNS_RRCLASS_IN], |q| - 4);
    InThree(h, body, tail);
    assert q[0] == h[0] && q[1] == h[1] && q[4] == h[4] && q[5] == h[5];
    assert q[at] == tail[0] && q[at + 1] == tail[1] && q[at + 2] == tail[2] && q[at + 3] == tail[3];
  }

  lemma NameBehind(h: seq<Byte>, rest: seq<Byte>, s: seq<Byte>, labels: seq<N.Label>)
    requires |h| <= |s| && s[|h|..] == rest && N.NameAt(rest, 0, labels, N.Root)
    ensures N.NameAt(s, |h|, labels, N.Root)
  {
    assert rest[0..] == rest;
  }

  /** The one question is the name, label by label. */
  lemma QueryAsks(id: Byte, name: seq<Byte>)
    requires |name| <= 253 && N.Proper(N.Split(name))
    ensures NameIn(Query(id, name), SIZEOF_DNS_HDR, Name(N.Split(name), N.Root))
    ensures NameEnd(SIZEOF_DNS_HDR, Name(N.Split(name), N.Root)) == SIZEOF_DNS_HDR + |N.EncodedName(name)|
  {
    var (h, body, tail) := (QueryHeader(id), N.EncodedName(name), [0, DNS_RRTYPE_A, 0, DNS_RRCLASS_IN]);
    N.EncodedLength(name);
    N.RoundTrip(name, name + [0], tail, N.Split(name));
    InThree(h, body, tail);
    NameBehind(h, body + tail, Query(id, name), N.Split(name));
  }
}

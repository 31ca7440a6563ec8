/** Domain names in dns.c: the encoder inside dns_send, dns_parse_name and dns_compare_name. */
module DnsNames {
  import opened Octets

  const DOT: Byte := 46
  const DNS_MAX_NAME_LENGTH := 256   // of a host name with its terminator

  /** (n & 0xc0) == 0xc0: the first byte of a compression pointer. */
  const COMPRESSED := 0xc0

  type Label = seq<Byte>

  /** The labels of a dotted name. */
  function Split(name: seq<Byte>): (labels: seq<Label>)
    ensures labels != []
  {
    if name == [] then [[]]
    else
      var rest := Split(name[1..]);
      if name[0] == DOT then [[]] + rest else [[name[0]] + rest[0]] + rest[1..]
  }

  /** The dotted name of some labels. */
  function Dotted(labels: seq<Label>): seq<Byte>
    requires labels != []
  {
    if |labels| == 1 then labels[0] else labels[0] + [DOT] + Dotted(labels[1..])
  }

  /** Length-prefixed labels (section 3.1 of RFC 1035). */
  function Raw(labels: seq<Label>): seq<Byte>
    requires Short(labels)
  {
    if labels == [] then [] else [|labels[0]|] + labels[0] + Raw(labels[1..])
  }

  predicate Short(labels: seq<Label>) { forall k :: 0 <= k < |labels| ==> |labels[k]| < 0x100 }

  /** Labels a decoder can tell from a pointer and from the end. */
  predicate Proper(labels: seq<Label>) { forall k :: 0 <= k < |labels| ==> 0 < |labels[k]| < COMPRESSED }

  // ----- Splitting and joining ------------------------------------------------------------

  predicate NoDot(s: seq<Byte>) { DOT !in s }

  lemma {:induction false} DottedSplit(name: seq<Byte>)
    ensures Dotted(Split(name)) == name
  {
    if name != [] {
      DottedSplit(name[1..]);
      var rest := Split(name[1..]);
      assert name == [name[0]] + name[1..];
      if name[0] == DOT {
        assert ([[]] + rest)[1..] == rest;
      } else if |rest| > 1 {
        assert ([[name[0]] + rest[0]] + rest[1..])[1..] == rest[1..];
        assert [name[0]] + rest[0] + [DOT] + Dotted(rest[1..]) == [name[0]] + (rest[0] + [DOT] + Dotted(rest[1..]));
      }
    }
  }

  /** The first label of a name ends at its first dot, or is the whole name. */
  lemma {:induction false} SplitFirst(name: seq<Byte>, n: nat)
    requires n <= |name| && NoDot(name[..n]) && (n < |name| ==> name[n] == DOT)
    ensures Split(name) == if n == |name| then [name] else [name[..n]] + Split(name[n + 1..])
  {
    if n > 0 {
      assert name[..n][0] == name[0] && name[..n][1..] == name[1..][..n - 1];
      SplitFirst(name[1..], n - 1);
      assert name == [name[0]] + name[1..] && name[..n] == [name[0]] + name[1..][..n - 1];
      if n < |name| { assert name[1..][n..] == name[n + 1..]; }
    }
  }

  lemma {:induction false} SplitDotted(labels: seq<Label>)
    requires labels != [] && forall k :: 0 <= k < |labels| ==> NoDot(labels[k])
    ensures Split(Dotted(labels)) == labels
  {
    var name := Dotted(labels);
    assert name[..|labels[0]|] == labels[0];
    SplitFirst(name, |labels[0]|);
    if |labels| > 1 {
      assert name[|labels[0]| + 1..] == Dotted(labels[1..]);
      SplitDotted(labels[1..]);
      assert labels == [labels[0]] + labels[1..];
    }
  }

  // ----- The encoder ----------------------------------------------------------------------

  lemma {:induction false} SplitShort(name: seq<Byte>)
    requires |name| < 0x100
    ensures Short(Split(name)) && |Raw(Split(name))| == |name| + 1
    ensures forall k :: 0 <= k < |Split(name)| ==> |Split(name)[k]| <= |name|
  {
    if name != [] {
      SplitShort(name[1..]);
      var rest := Split(name[1..]);
      if name[0] == DOT {
        assert ([[]] + rest)[1..] == rest;
      } else {
        assert ([[name[0]] + rest[0]] + rest[1..])[1..] == rest[1..];
      }
    }
  }

  function EncodedName(name: seq<Byte>): seq<Byte>
    requires |name| < 0x100
  {
    SplitShort(name);
    Raw(Split(name)) + [0]
  }

  lemma {:induction false} RawLength(labels: seq<Label>)
    requires Short(labels) && labels != []
    ensures |Raw(labels)| == |Dotted(labels)| + 1
  {
    if |labels| > 1 { RawLength(labels[1..]); }
  }

  /** Two bytes more than the name has characters, with or without empty labels. */
  lemma EncodedLength(name: seq<Byte>)
    requires |name| < 0x100
    ensures |EncodedName(name)| == |name| + 2
  {
    SplitShort(name);
    RawLength(Split(name));
    DottedSplit(name);
  }

  /** What is encoded up to a dot, and what is still to come. */
  lemma EncodeStep(name: seq<Byte>, n: nat)
    requires |name| < 0x100 && n <= |name| && NoDot(name[..n]) && (n < |name| ==> name[n] == DOT)
    ensures EncodedName(name) ==
              [n] + name[..n] + (if n == |name| then [0] else EncodedName(name[n + 1..]))
  {
    SplitFirst(name, n);
    SplitShort(name);
    if n == |name| {
      assert name[..n] == name;
    } else {
      SplitShort(name[n + 1..]);
      assert ([name[..n]] + Split(name[n + 1..]))[1..] == Split(name[n + 1..]);
    }
  }

  /** What remains to be written once `query` has reached position p. */
  function ToWrite(name: seq<Byte>, p: nat): seq<Byte>
    requires |name| < 0x100
  {
    if p <= |name| then EncodedName(name[p..]) else [0]
  }

  predicate WrittenTo(name: seq<Byte>, p: nat, done: seq<Byte>)
    requires |name| < 0x100
  {
    done + ToWrite(name, p) == EncodedName(name)
  }

  lemma EncodeAdvance(name: seq<Byte>, p: nat, n: nat, done: seq<Byte>)
    requires p + n <= |name| < 0x100 && NoDot(name[p..p + n]) && (p + n < |name| ==> name[p + n] == DOT)
    requires WrittenTo(name, p, done)
    ensures WrittenTo(name, p + n + 1, done + ([n] + name[p..p + n]))
  {
    var (rest, piece) := (name[p..], [n] + name[p..p + n]);
    assert rest[..n] == name[p..p + n];
    EncodeStep(rest, n);
    if p + n < |name| { assert rest[n + 1..] == name[p + n + 1..]; }
    assert done + (piece + ToWrite(name, p + n + 1)) == (done + piece) + ToWrite(name, p + n + 1);
  }

  /** One label of the loop in dns_send: copy up to the dot or the end, then fill in the length. */
  method EncodeLabel(name: seq<Byte>, from: nat, query: array<Byte>) returns (n: nat)
    requires from <= |name| < 0x100 && |name| + 2 <= query.Length
    modifies query
    ensures from + n <= |name| && NoDot(name[from..from + n]) && (from + n < |name| ==> name[from + n] == DOT)
    ensures query[..from + n + 1] == old(query[..from]) + ([n] + name[from..from + n])
  {
    n := 0;
    while from + n < |name| && name[from + n] != DOT
      invariant from + n <= |name|
      invariant forall k :: from <= k < from + n ==> name[k] != DOT
      invariant forall k :: 0 <= k < from ==> query[k] == old(query[k])
      invariant forall k :: from <= k < from + n ==> query[k + 1] == name[k]
    {
      query[from + 1 + n] := name[from + n];
      n := n + 1;
    }
    query[from] := n;
    LabelWritten(name, from, n, old(query[..from]), query[..]);
  }

  lemma LabelWritten(name: seq<Byte>, from: nat, n: nat, done: seq<Byte>, query: seq<Byte>)
    requires from + n <= |name| && from + n < |query| && query[..from] == done && query[from] == n
    requires forall k :: from <= k < from + n ==> query[k + 1] == name[k]
    ensures query[..from + n + 1] == done + ([n] + name[from..from + n])
  {
  }

  /** The name encoder of dns_send: `length` bytes, two more than the name has characters. */
  method EncodeName(name: seq<Byte>, query: array<Byte>) returns (length: nat)
    requires |name| < 0x100 && |name| + 2 <= query.Length
    modifies query
    ensures length == |name| + 2 && query[..length] == EncodedName(name)
  {
    var p: nat := 0;
    var more := true;
    assert name[0..] == name && [] + ToWrite(name, 0) == EncodedName(name);
    ghost var done: seq<Byte> := [];
    while more
      invariant if more then p <= |name| else p == |name| + 1
      invariant done == query[..p] && WrittenTo(name, p, done)
      decreases more, |name| + 1 - p
    {
      var n := EncodeLabel(name, p, query);
      EncodeAdvance(name, p, n, done);
      done := query[..p + n + 1];
      more := p + n < |name|;
      p := p + n + 1;
    }
    query[p] := 0;
    length := p + 1;
    assert query[..p] == done;
  }

  // ----- Decoding -------------------------------------------------------------------------

  datatype Ending = Root | Pointer(hi: Byte, lo: Byte)

  function Tail(e: Ending): seq<Byte> { if e.Root? then [0] else [e.hi, e.lo] }

  /** `s` begins with these labels and this ending (section 4.1.4 of RFC 1035). */
  predicate Rest(s: seq<Byte>, labels: seq<Label>, e: Ending) {
    Proper(labels) && (e.Pointer? ==> e.hi >= COMPRESSED) && Raw(labels) + Tail(e) <= s
  }

  predicate NameAt(buf: seq<Byte>, pos: nat, labels: seq<Label>, e: Ending) {
    pos <= |buf| && Rest(buf[pos..], labels, e) && (e.Root? ==> labels != [])
  }

  function Size(labels: seq<Label>, e: Ending): nat
    requires Short(labels)
  {
    |Raw(labels)| + |Tail(e)|
  }

  lemma RestFirst(s: seq<Byte>, labels: seq<Label>, e: Ending)
    requires Rest(s, labels, e) && labels != []
    ensures 1 + |labels[0]| < |s| && s[0] == |labels[0]| && s[1..1 + |labels[0]|] == labels[0]
    ensures Rest(s[1 + |labels[0]|..], labels[1..], e)
  {
    var head := [|labels[0]|] + labels[0];
    assert Raw(labels) + Tail(e) == head + (Raw(labels[1..]) + Tail(e));
    assert s[..|head|] == head;
    assert s[0] == head[0] && s[1..|head|] == head[1..];
  }

  lemma RestEnd(s: seq<Byte>, labels: seq<Label>, e: Ending)
    requires Rest(s, labels, e)
    ensures s != [] && (s[0] == 0 <==> labels == [] && e.Root?) && (s[0] >= COMPRESSED <==> labels == [] && e.Pointer?)
    ensures labels == [] ==> |Tail(e)| <= |s|
  {
    if labels == [] {
      assert Raw(labels) + Tail(e) == Tail(e);
    } else {
      RestFirst(s, labels, e);
    }
  }

  /** The rest of a name stands at q. */
  predicate RestAt(buf: seq<Byte>, q: nat, labels: seq<Label>, e: Ending) {
    q <= |buf| && Rest(buf[q..], labels, e)
  }

  lemma RestAtEnd(buf: seq<Byte>, q: nat, labels: seq<Label>, e: Ending)
    requires RestAt(buf, q, labels, e)
    ensures q < |buf| && (buf[q] == 0 <==> labels == [] && e.Root?)
    ensures buf[q] >= COMPRESSED <==> labels == [] && e.Pointer?
    ensures labels == [] ==> q + |Tail(e)| <= |buf|
  {
    RestEnd(buf[q..], labels, e);
  }

  /** One step of dns_parse_name over a label: the next length byte is where it says. */
  lemma LabelStep(buf: seq<Byte>, q: nat, labels: seq<Label>, e: Ending)
    requires RestAt(buf, q, labels, e) && labels != []
    ensures q + 1 + |labels[0]| < |buf| && buf[q] == |labels[0]| && buf[q + 1..q + 1 + |labels[0]|] == labels[0]
    ensures RestAt(buf, q + 1 + |labels[0]|, labels[1..], e)
    ensures Size(labels, e) == 1 + |labels[0]| + Size(labels[1..], e)
  {
    RestFirst(buf[q..], labels, e);
    assert buf[q..][1 + |labels[0]|..] == buf[q + 1 + |labels[0]|..];
    assert buf[q..][1..1 + |labels[0]|] == buf[q + 1..q + 1 + |labels[0]|];
  }

  /** dns_parse_name returns the position right after the name, compressed or not. */
  method ParseName(buf: seq<Byte>, pos: nat, ghost labels: seq<Label>, ghost e: Ending) returns (end: nat)
    requires NameAt(buf, pos, labels, e)
    ensures end == pos + Size(labels, e) <= |buf|
  {
    var q: nat := pos;
    ghost var rest := labels;
    var again := true;
    while again
      invariant q < |buf| || again
      invariant again ==> RestAt(buf, q, rest, e) && (rest != [] || e.Pointer?)
      invariant (if again then q + Size(rest, e) else q + 1) == pos + Size(labels, e)
      decreases again, |rest|
    {
      RestAtEnd(buf, q, rest, e);
      var n := buf[q];
      q := q + 1;
      if n >= COMPRESSED {
        again := false;
      } else {
        LabelStep(buf, q - 1, rest, e);
        rest := rest[1..];
        q := Skip(q, n);
        RestAtEnd(buf, q, rest, e);
        again := buf[q] != 0;
      }
    }
    end := q + 1;
  }

  /** The inner loop of dns_parse_name. */
  method Skip(query: nat, length: Byte) returns (q: nat)
    ensures q == query + length
  {
    q := query;
    var n := length;
    while n > 0
      invariant q + n == query + length
    {
      q := q + 1;
      n := n - 1;
    }
  }

  // ----- Comparing ------------------------------------------------------------------------

  /** The characters stored from `at` on are the given labels, one arbitrary character between. */
  predicate Matches(query: seq<Byte>, at: nat, labels: seq<Label>)
    decreases |labels|
  {
    labels == [] ||
    (at + |labels[0]| <= |query| && query[at..at + |labels[0]|] == labels[0]
     && Matches(query, at + |labels[0]| + 1, labels[1..]))
  }

  lemma SliceGrows(s: seq<Byte>, from: nat, n: nat)
    requires from + n < |s|
    ensures s[from..from + n + 1] == s[from..from + n] + [s[from + n]]
  {
  }

  /** The inner loop of dns_compare_name. */
  method SameLabel(query: seq<Byte>, at: nat, response: seq<Byte>, from: nat, length: Byte) returns (same: bool)
    requires at + length <= |query| && from + length <= |response|
    ensures same <==> query[at..at + length] == response[from..from + length]
  {
    var n: nat := 0;
    while n < length
      invariant n <= length && query[at..at + n] == response[from..from + n]
    {
      SliceGrows(query, at, n);
      SliceGrows(response, from, n);
      if query[at + n] != response[from + n] {
        assert query[at..at + length][n] != response[from..from + length][n];
        return false;
      }
      n := n + 1;
    }
    return true;
  }

  lemma MatchesStep(query: seq<Byte>, at: nat, labels: seq<Label>, same: bool)
    requires labels != [] && at + |labels[0]| <= |query| && (same <==> query[at..at + |labels[0]|] == labels[0])
    ensures Matches(query, at, labels) <==> same && Matches(query, at + |labels[0]| + 1, labels[1..])
  {
  }

  lemma CompareStep(query: seq<Byte>, at: nat, response: seq<Byte>, q: nat, labels: seq<Label>, e: Ending)
    requires RestAt(response, q, labels, e) && labels != [] && at + |Raw(labels)| <= |query|
    ensures var n := |labels[0]|;
            && response[q] == n && q + 1 + n < |response| && at + n + 1 + |Raw(labels[1..])| <= |query|
            && RestAt(response, q + 1 + n, labels[1..], e)
            && response[q + 1..q + 1 + n] == labels[0]
  {
    LabelStep(response, q, labels, e);
  }

  /** The label that starts at q is compared with the text at `at`. */
  method CompareLabel(query: seq<Byte>, at: nat, response: seq<Byte>, q: nat, ghost labels: seq<Label>)
    returns (same: bool)
    requires labels != [] && at + |labels[0]| <= |query| && q + 1 + |labels[0]| <= |response|
    requires response[q] == |labels[0]| && response[q + 1..q + 1 + |labels[0]|] == labels[0]
    ensures Matches(query, at, labels) <==> same && Matches(query, at + |labels[0]| + 1, labels[1..])
  {
    same := SameLabel(query, at, response, q + 1, response[q]);
    MatchesStep(query, at, labels, same);
  }

  /** dns_compare_name: 0 exactly when every label of the response is where the query has it. */
  method CompareName(query: seq<Byte>, response: seq<Byte>, pos: nat, ghost labels: seq<Label>, ghost e: Ending)
    returns (differs: int)
    requires NameAt(response, pos, labels, e) && |Raw(labels)| <= |query|
    ensures differs == if Matches(query, 0, labels) then 0 else 1
  {
    var at: nat, q: nat := 0, pos;
    ghost var rest := labels;
    var again := true;
    while again
      invariant again ==> RestAt(response, q, rest, e) && (rest != [] || e.Pointer?)
      invariant Proper(rest) && at + |Raw(rest)| <= |query|
      invariant Matches(query, 0, labels) <==> Matches(query, at, rest)
      invariant !again ==> rest == []
      decreases again, |rest|
    {
      RestAtEnd(response, q, rest, e);
      if response[q] >= COMPRESSED {
        again := false;
      } else {
        CompareStep(query, at, response, q, rest, e);
        var same := CompareLabel(query, at, response, q, rest);
        if !same {
          return 1;
        }
        at, q, rest := at + response[q] + 1, q + 1 + response[q], rest[1..];
        RestAtEnd(response, q, rest, e);
        again := response[q] != 0;
      }
    }
    differs := 0;
  }

  // ----- What the comparison accepts ------------------------------------------------------

  /** Labels with given characters between them; Dotted has dots there. */
  function Joined(labels: seq<Label>, seps: seq<Byte>): seq<Byte>
    requires labels != [] && |seps| == |labels| - 1
  {
    if |labels| == 1 then labels[0] else labels[0] + [seps[0]] + Joined(labels[1..], seps[1..])
  }

  lemma {:induction false} JoinedMatches(query: seq<Byte>, at: nat, labels: seq<Label>, seps: seq<Byte>)
    requires labels != [] && |seps| == |labels| - 1 && at <= |query| && Joined(labels, seps) <= query[at..]
    ensures Matches(query, at, labels)
    decreases |labels|
  {
    var n := |labels[0]|;
    var joined := Joined(labels, seps);
    assert query[at..at + n] == joined[..n] == labels[0];
    if |labels| > 1 {
      assert query[at + n + 1..] == query[at..][n + 1..] && joined[n + 1..] == Joined(labels[1..], seps[1..]);
      JoinedMatches(query, at + n + 1, labels[1..], seps[1..]);
    }
  }

  lemma {:induction false} MatchesJoined(query: seq<Byte>, at: nat, labels: seq<Label>) returns (seps: seq<Byte>)
    requires labels != [] && at <= |query| && Proper(labels) && Matches(query, at, labels)
    ensures |seps| == |labels| - 1 && Joined(labels, seps) <= query[at..]
    decreases |labels|
  {
    var n := |labels[0]|;
    assert query[at..][..n] == labels[0];
    if |labels| == 1 {
      seps := [];
    } else {
      assert |labels[1]| > 0;
      var rest := MatchesJoined(query, at + n + 1, labels[1..]);
      seps := [query[at + n]] + rest;
      assert query[at..] == labels[0] + [query[at + n]] + query[at + n + 1..];
    }
  }

  /** dns_compare_name accepts a response exactly when the stored text begins with its labels joined
      by arbitrary characters: the separators are skipped unseen, and so is the end of the text. */
  lemma AcceptedExactly(query: seq<Byte>, labels: seq<Label>)
    requires labels != [] && Proper(labels)
    ensures Matches(query, 0, labels) <==>
              exists seps: seq<Byte> :: |seps| == |labels| - 1 && Joined(labels, seps) <= query
  {
    assert query[0..] == query;
    if Matches(query, 0, labels) {
      var seps := MatchesJoined(query, 0, labels);
      assert Joined(labels, seps) <= query;
    }
    forall seps: seq<Byte> | |seps| == |labels| - 1 && Joined(labels, seps) <= query ensures Matches(query, 0, labels) {
      JoinedMatches(query, 0, labels, seps);
    }
  }

  lemma {:induction false} DottedIsJoined(labels: seq<Label>)
    requires labels != []
    ensures Dotted(labels) == Joined(labels, seq(|labels| - 1, _ => DOT))
  {
    if |labels| > 1 {
      DottedIsJoined(labels[1..]);
      assert seq(|labels| - 1, _ => DOT)[1..] == seq(|labels| - 2, _ => DOT);
    }
  }

  predicate SameShape(a: seq<Label>, b: seq<Label>) {
    |a| == |b| && forall k :: 0 <= k < |a| ==> |a[k]| == |b[k]|
  }

  lemma {:induction false} SameShapeMatches(query: seq<Byte>, at: nat, a: seq<Label>, b: seq<Label>)
    requires SameShape(a, b) && Matches(query, at, a)
    ensures Matches(query, at, b) <==> a == b
    decreases |a|
  {
    if a != [] {
      SameShapeMatches(query, at + |a[0]| + 1, a[1..], b[1..]);
      assert a == [a[0]] + a[1..] && b == [b[0]] + b[1..];
    }
  }

  /** The stored text of a table entry: the name, its terminator and whatever was there before. */
  predicate Stored(text: seq<Byte>, name: seq<Byte>) { name + [0] <= text }

  /** The round trip: what dns_send writes for a name of non-empty labels is a name of length + 2
      bytes, which dns_parse_name skips exactly; dns_compare_name accepts it, and of all names with
      the same label lengths it accepts no other. */
  lemma RoundTrip(name: seq<Byte>, text: seq<Byte>, after: seq<Byte>, other: seq<Label>)
    requires |name| + 2 <= DNS_MAX_NAME_LENGTH && Proper(Split(name)) && Stored(text, name)
    ensures NameAt(EncodedName(name) + after, 0, Split(name), Root)
    ensures Size(Split(name), Root) == |EncodedName(name)| == |name| + 2
    ensures Matches(text, 0, Split(name)) && Dotted(Split(name)) == name
    ensures SameShape(Split(name), other) ==> (Matches(text, 0, other) <==> other == Split(name))
  {
    var labels := Split(name);
    SplitShort(name);
    DottedSplit(name);
    DottedIsJoined(labels);
    assert (EncodedName(name) + after)[0..] == EncodedName(name) + after;
    assert text[0..] == text && (name + [0])[..|name|] == name;
    JoinedMatches(text, 0, labels, seq(|labels| - 1, _ => DOT));
    if SameShape(labels, other) { SameShapeMatches(text, 0, labels, other); }
  }

  lemma SeparatorIgnored(a: Byte, x: Byte, b: Byte)
    requires NoDot([a, x, b])
    ensures Matches([a, x, b, 0], 0, [[a], [b]]) && Split([a, x, b]) == [[a, x, b]]
  {
    assert Joined([[a], [b]], [x]) == [a, x, b] <= [a, x, b, 0][0..];
    JoinedMatches([a, x, b, 0], 0, [[a], [b]], [x]);
    SplitDotted([[a, x, b]]);
  }

  lemma EndIgnored(a: Byte, b: Byte)
    requires a != DOT && b != DOT
    ensures Matches([a, DOT, b, 0], 0, [[a]]) && Split([a, DOT, b]) == [[a], [b]]
  {
    assert Dotted([[a], [b]]) == [a, DOT, b];
    SplitDotted([[a], [b]]);
  }

  /** Names of other shapes are taken for one another: a response for a.b answers a query for axb,
      and a response for a answers a query for a.b. */
  lemma OtherShapesAccepted(a: Byte, x: Byte, b: Byte)
    requires NoDot([a, x, b])
    ensures Matches([a, x, b, 0], 0, [[a], [b]]) && Split([a, x, b]) == [[a, x, b]]
    ensures Matches([a, DOT, b, 0], 0, [[a]]) && Split([a, DOT, b]) == [[a], [b]]
  {
    SeparatorIgnored(a, x, b);
    assert a in [a, x, b] && b in [a, x, b];
    EndIgnored(a, b);
  }
}

/** What a parsed DHCP reply contains: the first value of every option, over the options field and
    the overloaded fields; and when overloaded fields make the parser run for ever. */
module DhcpLaws {
  import opened Octets
  import opened DhcpOptions
  import opened DhcpChain
  import opened DhcpOverload
  import opened Err

  // ----- First occurrences ----------------------------------------------------------------

  /** The options of the fields the parser comes to from this place. */
  function FieldOptions(msg: seq<Byte>, place: Place, n: nat): seq<Option>
    requires |msg| > OPTIONS_OFS
    decreases n
  {
    if place.NoField? || n == 0 then []
    else FieldAt(msg, place).options + FieldOptions(msg, PlaceAfter(msg, place), n - 1)
  }

  /** The options of a message in the order in which they are parsed. */
  function MessageOptions(msg: seq<Byte>): seq<Option>
    requires |msg| > OPTIONS_OFS
  {
    Scan(msg, OPTIONS_OFS, |msg|).options + FieldOptions(msg, FirstPlace(msg), ROUNDS)
  }

  /** The same but for the overload option, which is taken out between fields. */
  predicate SameBut(t: Tables, u: Tables) {
    && Sized(t) && Sized(u)
    && forall i :: IDX_OVERLOAD < i < IDX_MAX ==> t.given[i] == u.given[i] && t.val[i] == u.val[i]
  }

  lemma {:induction false} StoredAbove(t: Tables, u: Tables, idx: nat, bytes: seq<Byte>)
    requires SameBut(t, u) && idx > IDX_OVERLOAD
    ensures SameBut(Stored(t, idx, bytes), Stored(u, idx, bytes))
    decreases |bytes|
  {
    if |bytes| > 4 && idx < IDX_MAX && !t.given[idx] {
      var n := Number(bytes[..4]);
      StoredAbove(Tables(t.given[idx := true], t.val[idx := n]), Tables(u.given[idx := true], u.val[idx := n]),
                  idx + 1, bytes[4..]);
    }
  }

  lemma StoredSameBut(t: Tables, u: Tables, o: Option)
    requires SameBut(t, u) && Legal(o)
    ensures SameBut(Stored(t, IndexOf(o.tag), Kept(o)), Stored(u, IndexOf(o.tag), Kept(o)))
  {
    if o.tag == OVERLOAD { assert |Kept(o)| == 1; } else { StoredAbove(t, u, IndexOf(o.tag), Kept(o)); }
  }

  lemma {:induction false} FoldSameBut(t: Tables, u: Tables, options: seq<Option>)
    requires SameBut(t, u) && AllLegal(options)
    ensures SameBut(Fold(t, options), Fold(u, options))
    decreases |options|
  {
    if options != [] {
      var (i, bytes) := (IndexOf(options[0].tag), Kept(options[0]));
      StoredSameBut(t, u, options[0]);
      FoldSameBut(Stored(t, i, bytes), Stored(u, i, bytes), options[1..]);
    }
  }

  lemma {:induction false} FieldOptionsLegal(p: Chain, place: Place, n: nat)
    requires |Flatten(p)| > OPTIONS_OFS && Follows(p, place, n)
    ensures AllLegal(FieldOptions(Flatten(p), place, n))
    decreases n
  {
    if !place.NoField? {
      FieldLegal(p, place);
      FieldOptionsLegal(p, PlaceAfter(Flatten(p), place), n - 1);
    }
  }

  /** In its domain the parser comes to an end; without error, it has stored the options of all
      fields it came to. */
  lemma {:induction false} OverloadsFold(p: Chain, t: Tables, u: Tables, place: Place, n: nat)
    requires |Flatten(p)| > OPTIONS_OFS && Follows(p, place, n) && SameBut(t, u) && !t.given[IDX_OVERLOAD]
    ensures var end := Overloads(Flatten(p), t, place, n);
            && end.Ended?
            && (end.parsed.err == ERR_OK ==>
                  !end.parsed.tables.given[IDX_OVERLOAD]
                  && SameBut(end.parsed.tables, Fold(u, FieldOptions(Flatten(p), place, n))))
    decreases n
  {
    if !place.NoField? {
      var (msg, s) := (Flatten(p), FieldAt(Flatten(p), place));
      FieldLegal(p, place);
      FoldSameBut(t, u, s.options);
      if s.ok {
        FlagsName(p, place, t);
        OverloadsFold(p, OverloadTaken(Fold(t, s.options)), Fold(u, s.options), PlaceAfter(msg, place), n - 1);
        FoldAppend(u, s.options, FieldOptions(msg, PlaceAfter(msg, place), n - 1));
      }
    }
  }

  lemma ParseFolds(p: Chain, t: Tables)
    requires Domain(p) && Sized(t) && |Flatten(p)| > OPTIONS_OFS
    ensures var end := ParseFlat(Flatten(p), t);
            && end.Ended?
            && (end.parsed.err == ERR_OK ==>
                  !end.parsed.tables.given[IDX_OVERLOAD]
                  && SameBut(end.parsed.tables, Fold(Cleared(t), MessageOptions(Flatten(p)))))
  {
    var (msg, c) := (Flatten(p), Cleared(t));
    var s := Scan(msg, OPTIONS_OFS, |msg|);
    if s.ok {
      FirstFlagsName(p, c);
      OverloadsFold(p, OverloadTaken(Fold(c, s.options)), Fold(c, s.options), FirstPlace(msg), ROUNDS);
      FoldAppend(c, s.options, FieldOptions(msg, FirstPlace(msg), ROUNDS));
    }
  }

  lemma SameFirstValue(t: Tables, u: Tables, options: seq<Option>, i: nat)
    requires SameBut(t, u) && IDX_OVERLOAD < i < IDX_MAX && FirstValue(u, options, i)
    ensures FirstValue(t, options, i)
  {
  }

  /** First occurrence wins (section 4.1 of RFC 2131, section 9.3 of RFC 2132), over all the fields
      the parser comes to: an option is given if and only if one of them has it, with the value of
      its first occurrence, and the second server with the first; the overload option itself is not
      left behind. */
  lemma FirstOccurrenceWins(p: Chain, t: Tables, i: nat)
    requires Domain(p) && Sized(t) && |Flatten(p)| > OPTIONS_OFS && IDX_OVERLOAD < i < IDX_MAX
    ensures var end := ParseFlat(Flatten(p), t);
            && end.Ended?
            && (end.parsed.err == ERR_OK ==>
                  !end.parsed.tables.given[IDX_OVERLOAD]
                  && FirstValue(end.parsed.tables, MessageOptions(Flatten(p)), i))
  {
    var (msg, end) := (Flatten(p), ParseFlat(Flatten(p), t));
    ParseFolds(p, t);
    if end.parsed.err == ERR_OK {
      ScanLegal(p, OPTIONS_OFS, |msg|);
      FieldOptionsLegal(p, FirstPlace(msg), ROUNDS);
      FoldFirstValues(Cleared(t), MessageOptions(msg), i);
      SameFirstValue(end.parsed.tables, Fold(Cleared(t), MessageOptions(msg)), MessageOptions(msg), i);
    }
  }

  lemma LastField(msg: seq<Byte>, place: Place, n: nat)
    requires |msg| > OPTIONS_OFS && n > 0 && !place.NoField? && PlaceAfter(msg, place).NoField?
    ensures FieldOptions(msg, place, n) == FieldAt(msg, place).options
  {
    assert FieldOptions(msg, NoField, n - 1) == [];
  }

  /** Fields that name no field again come in the order options, file, sname, each at most once. */
  lemma PlainOrder(msg: seq<Byte>)
    requires |msg| > OPTIONS_OFS
    requires Says(Scan(msg, FILE_OFS, MSG_LEN)) == Says(Scan(msg, SNAME_OFS, FILE_OFS)) == 0
    ensures var o := Says(Scan(msg, OPTIONS_OFS, |msg|));
            FieldOptions(msg, FirstPlace(msg), ROUNDS)
            == (if o == 1 || o == 3 then Scan(msg, FILE_OFS, MSG_LEN).options else [])
               + (if o == 2 || o == 3 then Scan(msg, SNAME_OFS, FILE_OFS).options else [])
  {
    match FirstPlace(msg)
    case NoField =>
    case Sname => LastField(msg, Sname, ROUNDS);
    case File(also) =>
      if also {
        LastField(msg, Sname, ROUNDS - 1);
        assert PlaceAfter(msg, File(true)) == Sname;
      } else {
        LastField(msg, File(false), ROUNDS);
      }
  }

  // ----- Fields that send the parser in a circle ------------------------------------------

  /** The sname field leads back to itself, directly or through file. */
  predicate SnameLoops(file: nat, sname: nat) {
    sname == 2 || (sname == 3 && file != BROKEN) || (sname == 1 && 1 <= file <= 3)
  }

  predicate FileLoops(file: nat, sname: nat, also: bool) {
    file == 1 || file == 3 || (((also && file != BROKEN) || file == 2) && SnameLoops(file, sname))
  }

  predicate Circling(place: Place, file: nat, sname: nat) {
    match place
    case NoField => false
    case File(also) => FileLoops(file, sname, also)
    case Sname => SnameLoops(file, sname)
  }

  /** What the three fields say sends the parser in a circle. */
  predicate RunsForever(options: nat, file: nat, sname: nat) {
    ((options == 1 || options == 3) && FileLoops(file, sname, options == 3))
    || (options == 2 && SnameLoops(file, sname))
  }

  /** The place after n more fields. */
  function Places(place: Place, file: nat, sname: nat, n: nat): Place
    decreases n
  {
    if n == 0 then place else Places(NextPlace(place, if place.File? then file else sname), file, sname, n - 1)
  }

  lemma {:induction false} CirclesForever(place: Place, file: nat, sname: nat, n: nat)
    requires Circling(place, file, sname) && file <= BROKEN && sname <= BROKEN
    ensures !Places(place, file, sname, n).NoField?
    decreases n
  {
    if n > 0 { CirclesForever(NextPlace(place, if place.File? then file else sname), file, sname, n - 1); }
  }

  lemma EndsInThree(place: Place, file: nat, sname: nat)
    requires file <= BROKEN && sname <= BROKEN && !Circling(place, file, sname)
    ensures Places(place, file, sname, ROUNDS).NoField?
  {
    var p1 := NextPlace(place, if place.File? then file else sname);
    var p2 := NextPlace(p1, if p1.File? then file else sname);
    assert Places(place, file, sname, 3) == Places(p1, file, sname, 2);
    assert Places(p1, file, sname, 2) == Places(p2, file, sname, 1);
    assert Places(p2, file, sname, 1) == NextPlace(p2, if p2.File? then file else sname);
  }

  /** All three fields of a message can be followed over its links. */
  predicate AllFollowable(p: Chain) {
    && |Flatten(p)| > OPTIONS_OFS && Followable(p, OPTIONS_OFS, |Flatten(p)|)
    && Followable(p, FILE_OFS, MSG_LEN) && Followable(p, SNAME_OFS, FILE_OFS)
  }

  function FileSays(msg: seq<Byte>): (o: nat)
    requires |msg| > OPTIONS_OFS
    ensures o <= BROKEN
  {
    Says(Scan(msg, FILE_OFS, MSG_LEN))
  }

  function SnameSays(msg: seq<Byte>): (o: nat)
    requires |msg| > OPTIONS_OFS
    ensures o <= BROKEN
  {
    Says(Scan(msg, SNAME_OFS, FILE_OFS))
  }

  lemma {:induction false} OverloadsEnd(p: Chain, t: Tables, place: Place, n: nat)
    requires AllFollowable(p) && Sized(t) && !t.given[IDX_OVERLOAD]
    ensures var msg := Flatten(p);
            Overloads(msg, t, place, n).Ended? <==> Places(place, FileSays(msg), SnameSays(msg), n).NoField?
    decreases n
  {
    if !place.NoField? && n > 0 {
      var (msg, s) := (Flatten(p), FieldAt(Flatten(p), place));
      if s.ok {
        FlagsName(p, place, t);
        OverloadsEnd(p, OverloadTaken(Fold(t, s.options)), PlaceAfter(msg, place), n - 1);
      } else {
        StaysEnded(FileSays(msg), SnameSays(msg), n - 1);
      }
    } else if place.NoField? {
      StaysEnded(FileSays(Flatten(p)), SnameSays(Flatten(p)), n);
    }
  }

  lemma {:induction false} StaysEnded(file: nat, sname: nat, n: nat)
    ensures Places(NoField, file, sname, n) == NoField
  {
    if n > 0 { StaysEnded(file, sname, n - 1); }
  }

  ghost predicate ParseEnds(msg: seq<Byte>, t: Tables)
    requires Sized(t)
  {
    exists n: nat :: ParseUpTo(msg, t, n).Ended?
  }

  /** The parser comes to an end if and only if what the fields say does not send it in a circle, and
      then it has parsed at most three fields after the options field. */
  lemma EndsExactlyWhen(p: Chain, t: Tables)
    requires AllFollowable(p) && Sized(t)
    ensures var msg := Flatten(p);
            && (ParseEnds(msg, t) <==>
                  !RunsForever(Says(Scan(msg, OPTIONS_OFS, |msg|)), FileSays(msg), SnameSays(msg)))
            && (ParseEnds(msg, t) <==> ParseFlat(msg, t).Ended?)
  {
    var (msg, c) := (Flatten(p), Cleared(t));
    var (o, f, s) := (Scan(msg, OPTIONS_OFS, |msg|), FileSays(msg), SnameSays(msg));
    if o.ok {
      FirstFlagsName(p, c);
      var (u, place) := (OverloadTaken(Fold(c, o.options)), FirstPlace(msg));
      if Circling(place, f, s) {
        forall n: nat ensures !ParseUpTo(msg, t, n).Ended? {
          OverloadsEnd(p, u, place, n);
          CirclesForever(place, f, s, n);
        }
      } else {
        OverloadsEnd(p, u, place, ROUNDS);
        EndsInThree(place, f, s);
        assert ParseUpTo(msg, t, ROUNDS).Ended?;
      }
    } else {
      assert ParseUpTo(msg, t, ROUNDS).Ended?;
    }
  }

  /** Such messages are in the domain of the parser exactly when it comes to an end on them. */
  lemma DomainExactlyWhen(p: Chain)
    requires AllFollowable(p) && p != [] && NonEmptyLinks(p) && |Flatten(p)| <= 0xffff
    ensures var msg := Flatten(p);
            Domain(p) <==> !RunsForever(Says(Scan(msg, OPTIONS_OFS, |msg|)), FileSays(msg), SnameSays(msg))
  {
    var (msg, place) := (Flatten(p), FirstPlace(Flatten(p)));
    FollowsEnds(p, place, ROUNDS);
    if Circling(place, FileSays(msg), SnameSays(msg)) {
      CirclesForever(place, FileSays(msg), SnameSays(msg), ROUNDS);
    } else {
      EndsInThree(place, FileSays(msg), SnameSays(msg));
    }
  }

  lemma {:induction false} FollowsEnds(p: Chain, place: Place, n: nat)
    requires AllFollowable(p)
    ensures Follows(p, place, n) <==> Places(place, FileSays(Flatten(p)), SnameSays(Flatten(p)), n).NoField?
    decreases n
  {
    if place.NoField? {
      StaysEnded(FileSays(Flatten(p)), SnameSays(Flatten(p)), n);
    } else if n > 0 {
      FollowsEnds(p, PlaceAfter(Flatten(p), place), n - 1);
    }
  }

  // ----- A message that is parsed for ever ------------------------------------------------

  /** An overload option for the file field, closed by the end marker. */
  const FILE_OPTION: seq<Byte> := [OVERLOAD, 1, 1, END]

  lemma ScanFileOption(msg: seq<Byte>, at: nat, end: nat)
    requires at + 4 <= end <= |msg| && msg[at..at + 4] == FILE_OPTION
    ensures Scan(msg, at, end) == Scanned([Option(OVERLOAD, [1])], true)
  {
    var s := msg[at..at + 4];
    assert s[0] == msg[at] && s[1] == msg[at + 1] && s[2] == msg[at + 2] && s[3] == msg[at + 3];
    assert After(msg, at) == at + 3 && Scan(msg, at + 3, end) == Scanned([], true);
    assert Slice(msg, at + 2, 1) == [1];
  }

  lemma NamesFile(t: Tables)
    requires Sized(t) && !t.given[IDX_OVERLOAD]
    ensures var u := Fold(t, [Option(OVERLOAD, [1])]); FileOverloaded(u) && !SnameOverloaded(u)
  {
    var o := [Option(OVERLOAD, [1])];
    assert OverloadIn(o) == 1;
    OverloadRead(t, o);
  }

  lemma {:induction false} NamesItselfForever(msg: seq<Byte>, t: Tables, n: nat)
    requires Sized(t) && !t.given[IDX_OVERLOAD] && |msg| > OPTIONS_OFS
    requires Scan(msg, FILE_OFS, MSG_LEN) == Scanned([Option(OVERLOAD, [1])], true)
    ensures Overloads(msg, t, File(false), n) == Running
    decreases n
  {
    if n > 0 {
      NamesFile(t);
      NamesItselfForever(msg, OverloadTaken(Fold(t, [Option(OVERLOAD, [1])])), n - 1);
    }
  }

  /** A message that names the file field both in its options and in its file field is parsed for ever. */
  lemma FileNamesItself(msg: seq<Byte>, t: Tables)
    requires Sized(t) && |msg| >= OPTIONS_OFS + 4
    requires msg[OPTIONS_OFS..OPTIONS_OFS + 4] == FILE_OPTION && msg[FILE_OFS..FILE_OFS + 4] == FILE_OPTION
    ensures !ParseEnds(msg, t)
  {
    ScanFileOption(msg, OPTIONS_OFS, |msg|);
    ScanFileOption(msg, FILE_OFS, MSG_LEN);
    NamesFile(Cleared(t));
    forall n: nat ensures !ParseUpTo(msg, t, n).Ended? {
      NamesItselfForever(msg, OverloadTaken(Fold(Cleared(t), [Option(OVERLOAD, [1])])), n);
    }
  }

  /** 244 such bytes; `head` is what dhcp_recv looks at before it parses the message (a reply, for this
      client and this transaction), and the server name. */
  function CircularMessage(head: seq<Byte>): seq<Byte>
    requires |head| == FILE_OFS
  {
    head + FILE_OPTION + seq(MSG_LEN - FILE_OFS - 4, _ => PAD) + COOKIE + FILE_OPTION
  }

  /** The magic cookie (section 3 of RFC 2131). */
  const COOKIE: seq<Byte> := [99, 130, 83, 99]

  lemma CircularMessageNeverEnds(head: seq<Byte>, t: Tables)
    requires |head| == FILE_OFS && Sized(t)
    ensures |CircularMessage(head)| == 244 && head <= CircularMessage(head)
    ensures !ParseEnds(CircularMessage(head), t)
  {
    FileNamesItself(CircularMessage(head), t);
  }
}

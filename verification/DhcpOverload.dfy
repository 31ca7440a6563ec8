/** A DHCP message as bytes: which fields the parser comes to, one after the other, and what one pass
    over each of them leaves in the tables. */
module DhcpOverload {
  import opened Octets
  import opened DhcpOptions
  import opened DhcpChain
  import opened Err

  const SNAME_OFS := 44
  const FILE_OFS := 108
  const MSG_LEN := 236
  const OPTIONS_OFS := 240
  const OPTIONS_LEN := 68

  /** Fields after the options field that are parsed at most, if the parser comes to an end. */
  const ROUNDS := 3

  // ----- Fields that name fields ----------------------------------------------------------

  /** The field to be parsed next; `also` says that sname is still to come after file. */
  datatype Place = NoField | File(also: bool) | Sname

  /** File before sname (section 4.1 of RFC 2131). */
  function PlaceOf(file: bool, sname: bool): Place { if file then File(sname) else if sname then Sname else NoField }

  function FieldAt(msg: seq<Byte>, place: Place): Scanned
    requires |msg| > OPTIONS_OFS && !place.NoField?
  {
    if place.File? then Scan(msg, FILE_OFS, MSG_LEN) else Scan(msg, SNAME_OFS, FILE_OFS)
  }

  /** The first overload option of a field: 1 for file, 2 for sname, 3 for both, 0 for nothing. */
  function OverloadIn(options: seq<Option>): (o: nat)
    ensures o <= 3
  {
    var k := First(options, IDX_OVERLOAD);
    if k < |options| && options[k].value[0] <= 3 then options[k].value[0] else 0
  }

  /** An option of illegal length in the field: the parser stops with an error. */
  const BROKEN := 4

  function Says(s: Scanned): (o: nat)
    ensures o <= BROKEN
  {
    if s.ok then OverloadIn(s.options) else BROKEN
  }

  /** Where the parser goes after a field that says `o`. */
  function NextPlace(place: Place, o: nat): Place {
    if place.NoField? || o == BROKEN then NoField
    else PlaceOf(o == 1 || o == 3, (place.File? && place.also) || o == 2 || o == 3)
  }

  function FirstPlace(msg: seq<Byte>): Place
    requires |msg| > OPTIONS_OFS
  {
    var o := Says(Scan(msg, OPTIONS_OFS, |msg|));
    PlaceOf(o == 1 || o == 3, o == 2 || o == 3)
  }

  function PlaceAfter(msg: seq<Byte>, place: Place): Place
    requires |msg| > OPTIONS_OFS
  {
    if place.NoField? then place else NextPlace(place, Says(FieldAt(msg, place)))
  }

  predicate FieldFollowable(p: Chain, place: Place)
    requires |Flatten(p)| > OPTIONS_OFS
  {
    (place.File? ==> Followable(p, FILE_OFS, MSG_LEN)) && (place.Sname? ==> Followable(p, SNAME_OFS, FILE_OFS))
  }

  /** From this place the parser comes to an end after at most n fields, and can follow them all over
      the links. */
  predicate Follows(p: Chain, place: Place, n: nat)
    requires |Flatten(p)| > OPTIONS_OFS
    decreases n
  {
    place.NoField? || (n > 0 && FieldFollowable(p, place) && Follows(p, PlaceAfter(Flatten(p), place), n - 1))
  }

  /** The domain of the parser. */
  predicate Domain(p: Chain) {
    && p != [] && NonEmptyLinks(p) && |Flatten(p)| <= 0xffff
    && (|Flatten(p)| > OPTIONS_OFS ==>
          && Followable(p, OPTIONS_OFS, |Flatten(p)|)
          && Follows(p, FirstPlace(Flatten(p)), ROUNDS))
  }

  // ----- The tables -----------------------------------------------------------------------

  datatype Parsed = Parsed(err: int, tables: Tables)

  datatype Outcome = Running | Ended(parsed: Parsed)

  function Cleared(t: Tables): (t': Tables)
    requires Sized(t)
    ensures Sized(t')
  {
    Tables(seq(IDX_MAX, _ => false), t.val)
  }

  /** One field of the message: its options up to the first of illegal length. */
  function Pass(t: Tables, s: Scanned): (p: Parsed)
    requires Sized(t)
    ensures Sized(p.tables)
  {
    Parsed(if s.ok then ERR_OK else ERR_VAL, Fold(t, s.options))
  }

  predicate FileOverloaded(t: Tables)
    requires Sized(t)
  {
    t.given[IDX_OVERLOAD] && (t.val[IDX_OVERLOAD] == 1 || t.val[IDX_OVERLOAD] == 3)
  }

  predicate SnameOverloaded(t: Tables)
    requires Sized(t)
  {
    t.given[IDX_OVERLOAD] && (t.val[IDX_OVERLOAD] == 2 || t.val[IDX_OVERLOAD] == 3)
  }

  function OverloadTaken(t: Tables): (t': Tables)
    requires Sized(t)
    ensures Sized(t')
  {
    t.(given := t.given[IDX_OVERLOAD := false])
  }

  /** The overloaded fields, as the flags taken from the tables name them; running after n of them
      if there are more. */
  function Overloads(msg: seq<Byte>, t: Tables, place: Place, n: nat): (o: Outcome)
    requires Sized(t) && |msg| > OPTIONS_OFS
    ensures o.Ended? ==> Sized(o.parsed.tables)
    decreases n
  {
    if place.NoField? then Ended(Parsed(ERR_OK, t))
    else if n == 0 then Running
    else
      var p := Pass(t, FieldAt(msg, place));
      if p.err != ERR_OK then Ended(p)
      else
        Overloads(msg, OverloadTaken(p.tables),
                  PlaceOf(FileOverloaded(p.tables), (place.File? && place.also) || SnameOverloaded(p.tables)), n - 1)
  }

  /** The whole message, with at most n fields after the options field. */
  function ParseUpTo(msg: seq<Byte>, t: Tables, n: nat): (o: Outcome)
    requires Sized(t)
    ensures o.Ended? ==> Sized(o.parsed.tables)
  {
    if |msg| <= OPTIONS_OFS then Ended(Parsed(ERR_BUF, Cleared(t)))
    else
      var p := Pass(Cleared(t), Scan(msg, OPTIONS_OFS, |msg|));
      if p.err != ERR_OK then Ended(p)
      else Overloads(msg, OverloadTaken(p.tables), PlaceOf(FileOverloaded(p.tables), SnameOverloaded(p.tables)), n)
  }

  /** One pass over the bytes of a message: options, then file and sname as they are overloaded. */
  function ParseFlat(msg: seq<Byte>, t: Tables): Outcome
    requires Sized(t)
  {
    ParseUpTo(msg, t, ROUNDS)
  }

  // ----- What the fields say is what the tables hold --------------------------------------

  lemma {:induction false} ScanLegal(q: Chain, at: nat, end: nat)
    requires end <= |Flatten(q)| && Followable(q, at, end)
    ensures AllLegal(Scan(Flatten(q), at, end).options)
    decreases if at < end then end - at else 0
  {
    var msg := Flatten(q);
    if at < end && msg[at] != END && (msg[at] == PAD || LegalLength(msg[at], LengthAt(msg, at))) {
      ScanLegal(q, After(msg, at), end);
    }
  }

  lemma OverloadRead(t: Tables, options: seq<Option>)
    requires Sized(t) && AllLegal(options) && !t.given[IDX_OVERLOAD]
    ensures var (u, o) := (Fold(t, options), OverloadIn(options));
            && (FileOverloaded(u) <==> o == 1 || o == 3) && (SnameOverloaded(u) <==> o == 2 || o == 3)
  {
    FoldTakesFirst(t, options, IDX_OVERLOAD);
    var k := First(options, IDX_OVERLOAD);
    if k < |options| {
      assert options[k].tag == OVERLOAD && Slice(options[k].value, 0, 1) == [options[k].value[0]];
      assert Number([options[k].value[0]]) == Number([]) * 0x100 + options[k].value[0];
    }
  }

  lemma FieldLegal(p: Chain, place: Place)
    requires |Flatten(p)| > OPTIONS_OFS && FieldFollowable(p, place) && !place.NoField?
    ensures AllLegal(FieldAt(Flatten(p), place).options)
  {
    if place.File? { ScanLegal(p, FILE_OFS, MSG_LEN); } else { ScanLegal(p, SNAME_OFS, FILE_OFS); }
  }

  /** The flags the parser takes from its tables after a field name the place after it. */
  lemma FlagsName(p: Chain, place: Place, t: Tables)
    requires |Flatten(p)| > OPTIONS_OFS && FieldFollowable(p, place) && !place.NoField?
    requires Sized(t) && !t.given[IDX_OVERLOAD] && FieldAt(Flatten(p), place).ok
    ensures var u := Fold(t, FieldAt(Flatten(p), place).options);
            PlaceOf(FileOverloaded(u), (place.File? && place.also) || SnameOverloaded(u))
            == PlaceAfter(Flatten(p), place)
  {
    FieldLegal(p, place);
    OverloadRead(t, FieldAt(Flatten(p), place).options);
  }

  lemma FirstFlagsName(p: Chain, t: Tables)
    requires |Flatten(p)| > OPTIONS_OFS && Followable(p, OPTIONS_OFS, |Flatten(p)|)
    requires Sized(t) && !t.given[IDX_OVERLOAD] && Scan(Flatten(p), OPTIONS_OFS, |Flatten(p)|).ok
    ensures var u := Fold(t, Scan(Flatten(p), OPTIONS_OFS, |Flatten(p)|).options);
            PlaceOf(FileOverloaded(u), SnameOverloaded(u)) == FirstPlace(Flatten(p))
  {
    ScanLegal(p, OPTIONS_OFS, |Flatten(p)|);
    OverloadRead(t, Scan(Flatten(p), OPTIONS_OFS, |Flatten(p)|).options);
  }

  // ----- Messages whose options are the whole message -------------------------------------

  /** Overloading these fields adds nothing. */
  predicate Blank(msg: seq<Byte>)
    requires |msg| > OPTIONS_OFS
  {
    Scan(msg, FILE_OFS, MSG_LEN) == Scan(msg, SNAME_OFS, FILE_OFS) == Scanned([], true)
  }

  lemma NothingTaken(t: Tables)
    requires Sized(t) && !t.given[IDX_OVERLOAD]
    ensures OverloadTaken(t) == t && !FileOverloaded(t) && !SnameOverloaded(t)
  {
    assert t.given[IDX_OVERLOAD := false] == t.given;
  }

  lemma {:induction false} BlankFields(msg: seq<Byte>, t: Tables, place: Place, n: nat)
    requires |msg| > OPTIONS_OFS && Blank(msg) && Sized(t) && !t.given[IDX_OVERLOAD]
    requires n >= if place.NoField? then 0 else if place == File(true) then 2 else 1
    ensures Overloads(msg, t, place, n) == Ended(Parsed(ERR_OK, t))
    decreases n
  {
    if !place.NoField? {
      assert FieldAt(msg, place) == Scanned([], true) && Fold(t, []) == t;
      NothingTaken(t);
      BlankFields(msg, t, if place == File(true) then Sname else NoField, n - 1);
    }
  }

  /** Options that overload no field, or only blank ones, are the whole message. */
  lemma OnlyOptions(msg: seq<Byte>, options: seq<Option>, t: Tables)
    requires |msg| > OPTIONS_OFS && Scan(msg, OPTIONS_OFS, |msg|) == Scanned(options, true)
    requires Sized(t) && AllLegal(options) && (OverloadIn(options) == 0 || Blank(msg))
    ensures ParseFlat(msg, t) == Ended(Parsed(ERR_OK, OverloadTaken(Fold(Cleared(t), options))))
  {
    var u := Fold(Cleared(t), options);
    OverloadRead(Cleared(t), options);
    if Blank(msg) { BlankFields(msg, OverloadTaken(u), PlaceOf(FileOverloaded(u), SnameOverloaded(u)), ROUNDS); }
  }

  lemma {:induction false} PadsOnly(p: Chain, at: nat, end: nat)
    requires end <= |Flatten(p)| && |p| == 1
    requires forall k :: at <= k < end ==> Flatten(p)[k] == PAD
    ensures Followable(p, at, end) && Scan(Flatten(p), at, end) == Scanned([], true)
    decreases if at < end then end - at else 0
  {
    if at < end { PadsOnly(p, at + 1, end); }
  }
}

/** Whole messages (diam/header.go, diam/message.go): reading inverts writing,
    and the loops that fill buffers and member lists meet the codec functions. */
module Messages {
  import opened Octets
  import opened Datatypes
  import opened Codec
  import opened RoundTrip
  import Lossless

  datatype Header = Header(version: Byte, length: Word, flags: Byte, command: Word, app: Word, hop: Word, end: Word)

  datatype Message = Message(header: Header, avps: seq<AVP>)

  const HEADER_LENGTH := 20
  const MAX_MESSAGE_LENGTH := 0xFF_FFFF
  const UNSUPPORTED_VERSION := 5011
  const INVALID_MESSAGE_LENGTH := 5015

  function HeaderWire(h: Header): (b: Bytes)
    ensures |b| == HEADER_LENGTH
  {
    [h.version] + Put(h.length, 3) + [h.flags] + Put(h.command, 3) + Put(h.app, 4) + Put(h.hop, 4) + Put(h.end, 4)
  }

  datatype ReadHeader = TooShort | Fatal(resultCode: nat) | Fields(header: Header)

  function DecodeHeader(data: Bytes): ReadHeader {
    if |data| < HEADER_LENGTH then TooShort else
    GetBound(data[1..4]); GetBound(data[5..8]); Widths();
    var h := Header(data[0], Get(data[1..4]), data[4], Get(data[5..8]),
                    WordAt(data, 8), WordAt(data, 12), WordAt(data, 16));
    if h.version != 1 then Fatal(UNSUPPORTED_VERSION)
    else if h.length < HEADER_LENGTH || h.length % 4 != 0 then Fatal(INVALID_MESSAGE_LENGTH)
    else Fields(h)
  }

  /** The dictionary snapshot a read uses throughout: the view of each
      application, and how many rules a command grammar has (an undefined
      command counts as having some). */
  datatype Snapshot = Snapshot(view: Word -> View, rules: (Word, Word, bool) -> nat)

  datatype ReadResult =
    | EndOfInput
    | HeaderError(resultCode: nat)
    | ShortBody
    | NoGrammar
    | LengthError(evidence: AVP)
    | Read(message: Message, fault: Option<Fault>, unknown: seq<AVP>)

  predicate IsRequest(flags: Byte) {
    flags >= 128
  }

  /** ReadMessage, on the octets the stream still holds. */
  function ReadMessage(stream: Bytes, dict: Snapshot): ReadResult {
    match DecodeHeader(stream)
    case TooShort => EndOfInput
    case Fatal(code) => HeaderError(code)
    case Fields(h) =>
      if |stream| < h.length then ShortBody
      else if dict.rules(h.app, h.command, IsRequest(h.flags)) == 0 then NoGrammar
      else
        var view := dict.view(h.app);
        match DecodeGroup(BodyOf(stream, h.length), view, 0, false)
        case LostFraming(evidence) => LengthError(evidence)
        case Members(ms, fault) => Read(Message(h, ms), fault, UnknownAll(ms, view))
  }

  function BodyOf(stream: Bytes, length: nat): Bytes
    requires HEADER_LENGTH <= length <= |stream|
  {
    stream[HEADER_LENGTH..length]
  }

  /** SerializeTo refuses every tree with an invalid Address in it. */
  predicate Serializable(a: AVP)
    decreases a, 0
  {
    match a.data
    case Raw(_) => true
    case Leaf(v) => v.Address? ==> ValidFamily(v.family, |v.octets|)
    case Grouped(ms) => SerializableAll(ms)
  }

  predicate SerializableAll(ms: seq<AVP>)
    decreases ms, 0
  {
    ms != [] ==> Serializable(ms[0]) && SerializableAll(ms[1..])
  }

  /** Message.Serialize: the computed length replaces Header.MessageLength. */
  function MessageWire(m: Message): Option<Bytes> {
    var l := HEADER_LENGTH + SumLen(m.avps);
    if l > MAX_MESSAGE_LENGTH || !SerializableAll(m.avps) then None
    else Some(HeaderWire(m.header.(length := l)) + WireAll(m.avps))
  }

  lemma {:induction false} AlignedAVP(a: AVP)
    ensures Len(a) % 4 == 0
    decreases a, 0
  {
    if a.data.Grouped? { Aligned(a.data.members); }
  }

  lemma {:induction false} Aligned(ms: seq<AVP>)
    ensures SumLen(ms) % 4 == 0
    decreases ms, 0
  {
    if ms != [] {
      AlignedAVP(ms[0]);
      Aligned(ms[1..]);
    }
  }

  /** Where the fields of a header stand. */
  lemma HeaderParts(h: Header, rest: Bytes)
    ensures var wire := HeaderWire(h) + rest;
            |wire| >= HEADER_LENGTH && wire[0] == h.version && wire[4] == h.flags
            && wire[1..4] == Put(h.length, 3) && wire[5..8] == Put(h.command, 3)
            && wire[8..12] == Put(h.app, 4) && wire[12..16] == Put(h.hop, 4) && wire[16..20] == Put(h.end, 4)
  {
    hide Put;
  }

  lemma HeaderReads(h: Header, rest: Bytes)
    ensures var wire := HeaderWire(h) + rest;
            |wire| >= HEADER_LENGTH && wire[0] == h.version && wire[4] == h.flags
            && (Get(wire[1..4]) == h.length <==> h.length < 0x100_0000)
            && (Get(wire[5..8]) == h.command <==> h.command < 0x100_0000)
            && WordAt(wire, 8) == h.app && WordAt(wire, 12) == h.hop && WordAt(wire, 16) == h.end
  {
    hide HeaderWire, Put, Get;
    HeaderParts(h, rest);
    Widths();
    GetPut(h.length, 3); GetPut(h.command, 3);
    GetPut(h.app, 4); GetPut(h.hop, 4); GetPut(h.end, 4);
  }

  /** A header of aligned 24-bit length is read back, command code included,
      exactly when its version is 1 and its command code fits 24 bits. */
  lemma HeaderRoundTrip(h: Header, rest: Bytes)
    requires HEADER_LENGTH <= h.length < 0x100_0000 && h.length % 4 == 0
    ensures DecodeHeader(HeaderWire(h) + rest) == Fields(h) <==> h.version == 1 && h.command < 0x100_0000
    ensures h.version == 1 ==> var r := DecodeHeader(HeaderWire(h) + rest); r.Fields? && r.header.length == h.length
    ensures h.version != 1 ==> DecodeHeader(HeaderWire(h) + rest) == Fatal(UNSUPPORTED_VERSION)
  {
    HeaderReads(h, rest);
  }

  /** Reading gives back exactly what was written, header included, precisely
      for version 1, a 24-bit command code with a grammar, and AVPs that
      conform to the application's dictionary. */
  lemma MessageRoundTrip(m: Message, dict: Snapshot, rest: Bytes)
    requires MessageWire(m).Some?
    ensures var wire := MessageWire(m).value;
            ReadsBack(ReadMessage(wire + rest, dict), m.(header := m.header.(length := |wire|)))
            <==> (&& m.header.version == 1
                  && m.header.command < 0x100_0000
                  && dict.rules(m.header.app, m.header.command, IsRequest(m.header.flags)) != 0
                  && ConformsAll(m.avps, dict.view(m.header.app), 0, false))
  {
    hide DecodeGroup, ConformsAll, WireAll, HeaderWire;
    var wire := MessageWire(m).value;
    var h := m.header.(length := |wire|);
    Aligned(m.avps);
    HeaderRoundTrip(h, WireAll(m.avps) + rest);
    assert wire + rest == HeaderWire(h) + (WireAll(m.avps) + rest);
    assert BodyOf(wire + rest, |wire|) == WireAll(m.avps);
    RoundTrips(m.avps, dict.view(m.header.app), 0, false);
    if DecodeHeader(wire + rest) == Fields(h) {
      BodyReadsBack(wire + rest, dict, m.(header := h));
    }
  }

  predicate ReadsBack(r: ReadResult, m: Message) {
    r.Read? && r.message == m && r.fault.None?
  }

  lemma BodyReadsBack(stream: Bytes, dict: Snapshot, m: Message)
    requires DecodeHeader(stream) == Fields(m.header) && m.header.length <= |stream|
    ensures ReadsBack(ReadMessage(stream, dict), m)
            <==> (&& dict.rules(m.header.app, m.header.command, IsRequest(m.header.flags)) != 0
                  && DecodeGroup(BodyOf(stream, m.header.length), dict.view(m.header.app), 0, false) == Members(m.avps, None))
  {
  }

  /** The decoder makes no Address that SerializeTo would refuse. */
  lemma {:induction false} DecodedSerializable(b: Bytes, view: View, depth: nat, exempt: bool)
    ensures var r := DecodeGroup(b, view, depth, exempt); r.Members? ==> SerializableAll(r.members)
    decreases |b|, 1
  {
    var r := DecodeGroup(b, view, depth, exempt);
    if r.Members? && b != [] {
      var a := DecodeAVP(b, view, depth, exempt).avp;
      ItemSerializable(b, view, depth, exempt);
      DecodedSerializable(b[Len(a)..], view, depth, exempt);
      var ms := DecodeGroup(b[Len(a)..], view, depth, exempt).members;
      assert r.members == [a] + ms && r.members[1..] == ms;
    }
  }

  lemma {:induction false} ItemSerializable(b: Bytes, view: View, depth: nat, exempt: bool)
    ensures var r := DecodeAVP(b, view, depth, exempt); r.Item? ==> Serializable(r.avp)
    decreases |b|, 0
  {
    if Frame(b).Some? {
      var raw := Frame(b).value;
      match TypeOf(view, raw.code, raw.vendor)
      case None =>
      case Some(GroupedType) =>
        DecodedSerializable(raw.data.octets, view, depth + 1, exempt || IsFailedAVP(raw.code, raw.vendor));
      case Some(t) => DecodeThenSerialize(t, raw.data.octets);
    }
  }

  /** Whatever is read, faults included, tiles the body: the lengths add up to
      Message Length, and it serializes again, to the header's octets and the
      body with nothing changed but padding. */
  lemma ReadLosesNothing(stream: Bytes, dict: Snapshot)
    requires ReadMessage(stream, dict).Read?
    ensures var m := ReadMessage(stream, dict).message;
            && HEADER_LENGTH + SumLen(m.avps) == m.header.length <= |stream|
            && HeaderWire(m.header) == stream[..HEADER_LENGTH]
            && Lossless.ZeroPadded(m.avps, BodyOf(stream, m.header.length), WireAll(m.avps))
            && MessageWire(m) == Some(stream[..HEADER_LENGTH] + WireAll(m.avps))
  {
    var h := DecodeHeader(stream).header;
    DecodedSerializable(BodyOf(stream, h.length), dict.view(h.app), 0, false);
    Widths();
    GetBound(stream[1..4]);
    Lossless.GroupTiles(BodyOf(stream, h.length), dict.view(h.app), 0, false);
    PutGet(stream[1..4]); PutGet(stream[5..8]);
    PutGet(stream[8..12]); PutGet(stream[12..16]); PutGet(stream[16..20]);
    assert stream[..20] == [stream[0]] + stream[1..4] + [stream[4]] + stream[5..8]
                           + stream[8..12] + stream[12..16] + stream[16..20];
  }

  // ---- Unknown mandatory AVPs -------------------------------------------------

  predicate MBit(flags: Byte) {
    flags / 64 % 2 == 1
  }

  /** RFC 6733 section 4.1: unsupported means mandatory and absent from the dictionary. */
  predicate Offends(a: AVP, view: View) {
    MBit(a.flags) && a.data.Raw? && TypeOf(view, a.code, a.vendor).None?
  }

  /** unknownMandatoryHierarchy */
  function Unknown(a: AVP, view: View): Option<AVP>
    decreases a, 0
  {
    if Offends(a, view) then Some(a)
    else if !a.data.Grouped? then None
    else
      var children := UnknownAll(a.data.members, view);
      if children == [] then None else Some(NewAVP(a.code, a.flags, a.vendor, Grouped(children)))
  }

  function UnknownAll(ms: seq<AVP>, view: View): seq<AVP>
    decreases ms, 0
  {
    if ms == [] then []
    else (match Unknown(ms[0], view) case Some(a) => [a] case None => []) + UnknownAll(ms[1..], view)
  }

  /** How a group is recognised. */
  datatype Tag = Tag(code: Word, flags: Byte, vendor: Word)

  /** An offending AVP and the groups around it, outermost first. */
  datatype Offender = Offender(above: seq<Tag>, avp: AVP)

  /** The offending AVPs of a tree, depth first. */
  function OffendersIn(a: AVP, view: View, above: seq<Tag>): seq<Offender>
    decreases a, 0
  {
    if Offends(a, view) then [Offender(above, a)]
    else if a.data.Grouped? then Offenders(a.data.members, view, above + [Tag(a.code, a.flags, a.vendor)])
    else []
  }

  function Offenders(ms: seq<AVP>, view: View, above: seq<Tag>): seq<Offender>
    decreases ms, 0
  {
    if ms == [] then [] else OffendersIn(ms[0], view, above) + Offenders(ms[1..], view, above)
  }

  /** Every leaf of the tree offends and no group is empty. */
  predicate OnlyOffenders(a: AVP, view: View)
    decreases a, 0
  {
    Offends(a, view) || (a.data.Grouped? && a.data.members != [] && AllOnlyOffenders(a.data.members, view))
  }

  predicate AllOnlyOffenders(ms: seq<AVP>, view: View)
    decreases ms, 0
  {
    ms != [] ==> OnlyOffenders(ms[0], view) && AllOnlyOffenders(ms[1..], view)
  }

  /** The reported hierarchy keeps all offenders, in order, each under the same
      groups, and nothing else; it is empty exactly when nothing offends. */
  lemma {:induction false} UnknownKeepsOffenders(ms: seq<AVP>, view: View, above: seq<Tag>)
    ensures var kept := UnknownAll(ms, view);
            && Offenders(kept, view, above) == Offenders(ms, view, above)
            && AllOnlyOffenders(kept, view)
            && (kept == [] <==> Offenders(ms, view, above) == [])
    decreases ms, 0
  {
    if ms != [] {
      var kept := UnknownAll(ms, view);
      UnknownKeepsOffendersIn(ms[0], view, above);
      UnknownKeepsOffenders(ms[1..], view, above);
      match Unknown(ms[0], view)
      case Some(u) => assert kept[0] == u && kept[1..] == UnknownAll(ms[1..], view);
      case None => assert kept == UnknownAll(ms[1..], view);
    }
  }

  lemma {:induction false} UnknownKeepsOffendersIn(a: AVP, view: View, above: seq<Tag>)
    ensures match Unknown(a, view)
            case Some(u) => OffendersIn(u, view, above) == OffendersIn(a, view, above) != [] && OnlyOffenders(u, view)
            case None => OffendersIn(a, view, above) == []
    decreases a, 0
  {
    if !Offends(a, view) && a.data.Grouped? {
      UnknownKeepsOffenders(a.data.members, view, above + [Tag(a.code, a.flags, a.vendor)]);
    }
  }

  // ---- Evidence ---------------------------------------------------------------

  /** The evidence of a payload fault is never larger than the AVP it is about. */
  lemma {:induction false} EvidenceBound(data: Bytes, view: View, depth: nat, exempt: bool)
    ensures var r := DecodeAVP(data, view, depth, exempt);
            r.Item? && r.fault.Some? ==> Len(r.fault.value.evidence) <= Len(r.avp)
    decreases |data|, 0
  {
    var r := DecodeAVP(data, view, depth, exempt);
    if r.Item? && r.fault.Some? {
      var raw := Frame(data).value;
      var inner := exempt || IsFailedAVP(raw.code, raw.vendor);
      if TypeOf(view, raw.code, raw.vendor) == Some(GroupedType) && depth < view.maxDepth {
        var g := DecodeGroup(raw.data.octets, view, depth + 1, inner);
        GroupEvidenceBound(raw.data.octets, view, depth + 1, inner);
        assert Interpret(raw, view, depth, exempt) == Regroup(raw, g);
        assert SumLen([g.fault.value.evidence]) == Len(g.fault.value.evidence) + SumLen([]);
      }
    }
  }

  lemma {:induction false} GroupEvidenceBound(b: Bytes, view: View, depth: nat, exempt: bool)
    ensures var r := DecodeGroup(b, view, depth, exempt);
            r.Members? && r.fault.Some? ==> Len(r.fault.value.evidence) <= |b|
    decreases |b|, 1
  {
    var r := DecodeGroup(b, view, depth, exempt);
    if r.Members? && r.fault.Some? {
      var first := DecodeAVP(b, view, depth, exempt);
      EvidenceBound(b, view, depth, exempt);
      GroupEvidenceBound(b[Len(first.avp)..], view, depth, exempt);
    }
  }
}

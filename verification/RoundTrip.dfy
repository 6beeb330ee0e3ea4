/** Exactly the conforming AVP trees survive serializing and decoding. */
module RoundTrip {
  import opened Octets
  import opened Datatypes
  import opened Codec
  import Lossless

  /** A tree the dictionary view can describe, nested in `depth` groups. The
      Vendor-Id needs its V bit, lengths fit 24 bits, known leaves are in
      range for their type, and only Failed-AVP evidence may stay undecoded. */
  predicate Conforms(a: AVP, view: View, depth: nat, exempt: bool)
    decreases a, 0
  {
    && (!VBit(a.flags) ==> a.vendor == 0)
    && a.length == HeaderLen(a) + DataLen(a.data) < 0x100_0000
    && var known := TypeOf(view, a.code, a.vendor);
       match a.data
       case Grouped(ms) =>
         && known == Some(GroupedType)
         && depth < view.maxDepth
         && ConformsAll(ms, view, depth + 1, exempt || IsFailedAVP(a.code, a.vendor))
       case Leaf(v) => InRange(v) && known == Some(KindOf(v))
       case Raw(o) => known.None? || (exempt && known.value != GroupedType && Undecodable(known.value, o))
  }

  predicate ConformsAll(ms: seq<AVP>, view: View, depth: nat, exempt: bool)
    decreases ms, 0
  {
    ms != [] ==> Conforms(ms[0], view, depth, exempt) && ConformsAll(ms[1..], view, depth, exempt)
  }

  function RawOf(a: AVP): AVP {
    a.(data := Raw(Payload(a.data)))
  }

  /** Where the fixed eight octets and the Vendor-Id stand. */
  lemma HeaderFields(a: AVP)
    ensures Header(a)[0..4] == Put(a.code, 4) && Header(a)[4] == a.flags
    ensures Header(a)[5..8] == Put(HeaderLen(a) + DataLen(a.data), 3)
    ensures VBit(a.flags) ==> Header(a)[8..12] == Put(a.vendor, 4)
  {
    hide Put, DataLen;
  }

  lemma WireParts(a: AVP, rest: Bytes)
    ensures var data, h, n := Wire(a) + rest, HeaderLen(a), DataLen(a.data);
            |data| >= Len(a) && data[..h] == Header(a) && data[h..h + n] == Payload(a.data)
  {
    hide Header, Payload, DataLen, Zeros;
    Parts(Header(a), Payload(a.data), Zeros(PaddingLen(a.data)), rest);
  }

  lemma Parts(h: Bytes, p: Bytes, z: Bytes, rest: Bytes)
    ensures (h + p + z + rest)[..|h|] == h && (h + p + z + rest)[|h|..|h| + |p|] == p
  {
  }

  /** A slice within a prefix is that slice of the prefix. */
  lemma Within(data: Bytes, h: nat, i: nat, j: nat)
    requires i <= j <= h <= |data|
    ensures data[i..j] == data[..h][i..j]
  {
  }

  lemma FieldsRead(a: AVP, data: Bytes)
    requires |data| >= HeaderLen(a) && data[..HeaderLen(a)] == Header(a) && HeaderLen(a) + DataLen(a.data) < 0x100_0000
    ensures Get(data[0..4]) == a.code && data[4] == a.flags && Get(data[5..8]) == HeaderLen(a) + DataLen(a.data)
    ensures VBit(a.flags) ==> Get(data[8..12]) == a.vendor
  {
    hide Header, Put, Get, DataLen;
    Widths();
    HeaderFields(a);
    GetPut(a.code, 4);
    GetPut(HeaderLen(a) + DataLen(a.data), 3);
    GetPut(a.vendor, 4);
    Within(data, HeaderLen(a), 0, 4);
    Within(data, HeaderLen(a), 5, 8);
    assert data[4] == data[..HeaderLen(a)][4];
    if VBit(a.flags) { Within(data, HeaderLen(a), 8, 12); }
  }

  /** Framing finds exactly the written header and payload, whatever follows. */
  lemma FrameWire(a: AVP, rest: Bytes)
    requires a.length == HeaderLen(a) + DataLen(a.data) < 0x100_0000 && (!VBit(a.flags) ==> a.vendor == 0)
    ensures Frame(Wire(a) + rest) == Some(RawOf(a))
  {
    hide Wire, Header, Payload, DataLen, Put, Get;
    WireParts(a, rest);
    FieldsRead(a, Wire(a) + rest);
  }

  /** A conforming AVP is read back whatever follows it. */
  lemma {:induction false} Reads(a: AVP, rest: Bytes, view: View, depth: nat, exempt: bool)
    requires Conforms(a, view, depth, exempt)
    ensures var r := DecodeAVP(Wire(a) + rest, view, depth, exempt);
            r.Item? && r.avp == a && Forgiven(r.fault, exempt)
    decreases a, 0
  {
    FrameWire(a, rest);
    if a.data.Grouped? {
      ReadsAll(a.data.members, view, depth + 1, exempt || IsFailedAVP(a.code, a.vendor));
      InterpretsGroup(a, view, depth, exempt);
    } else {
      InterpretsLeaf(a, view, depth, exempt);
    }
    assert DecodeAVP(Wire(a) + rest, view, depth, exempt) == Interpret(RawOf(a), view, depth, exempt);
  }

  lemma InterpretsGroup(a: AVP, view: View, depth: nat, exempt: bool)
    requires a.data.Grouped? && TypeOf(view, a.code, a.vendor) == Some(GroupedType) && depth < view.maxDepth
    requires DecodeGroup(WireAll(a.data.members), view, depth + 1, exempt || IsFailedAVP(a.code, a.vendor))
             == Members(a.data.members, None)
    ensures Interpret(RawOf(a), view, depth, exempt) == Item(a, None)
  {
  }

  lemma InterpretsLeaf(a: AVP, view: View, depth: nat, exempt: bool)
    requires Conforms(a, view, depth, exempt) && !a.data.Grouped?
    ensures var r := Interpret(RawOf(a), view, depth, exempt);
            r.Item? && r.avp == a && Forgiven(r.fault, exempt)
  {
    if a.data.Leaf? { SerializeThenDecode(a.data.value); }
  }

  lemma {:induction false} ReadsAll(ms: seq<AVP>, view: View, depth: nat, exempt: bool)
    requires ConformsAll(ms, view, depth, exempt)
    ensures DecodeGroup(WireAll(ms), view, depth, exempt) == Members(ms, None)
    decreases ms, 0
  {
    if ms != [] {
      var rest := WireAll(ms[1..]);
      Reads(ms[0], rest, view, depth, exempt);
      ReadsAll(ms[1..], view, depth, exempt);
      assert WireAll(ms)[Len(ms[0])..] == rest;
      assert [ms[0]] + ms[1..] == ms;
    }
  }

  /** Inside a Failed-AVP only over-deep nesting is left to report. */
  lemma {:induction false} ExemptFaults(b: Bytes, view: View, depth: nat)
    ensures var r := DecodeGroup(b, view, depth, true);
            r.Members? && r.fault.Some? ==> r.fault.value.tooDeep
    decreases |b|
  {
    if b != [] {
      match DecodeAVP(b, view, depth, true)
      case Item(a, _) => if Len(a) <= |b| { ExemptFaults(b[Len(a)..], view, depth); }
      case Framing(_) =>
    }
  }

  /** What decodes without a fault conforms. */
  lemma {:induction false} DecodedConforms(data: Bytes, view: View, depth: nat, exempt: bool)
    ensures var r := DecodeAVP(data, view, depth, exempt);
            r.Item? && Forgiven(r.fault, exempt) ==> Conforms(r.avp, view, depth, exempt)
    decreases |data|, 0
  {
    hide Frame, Interpret, DecodeGroup, DataLen, ConformsAll;
    var r := DecodeAVP(data, view, depth, exempt);
    if r.Item? && Forgiven(r.fault, exempt) {
      var raw := Frame(data).value;
      var inner := exempt || IsFailedAVP(raw.code, raw.vendor);
      Lossless.DecodedStands(data, view, depth, exempt);
      FrameFits(data);
      if TypeOf(view, raw.code, raw.vendor) == Some(GroupedType) && depth < view.maxDepth {
        DecodedAllConform(raw.data.octets, view, depth + 1, inner);
        if exempt { ExemptFaults(raw.data.octets, view, depth + 1); }
        GroupConforms(raw, view, depth, exempt);
      } else {
        UngroupedConforms(raw, view, depth, exempt);
      }
    }
  }

  lemma FrameFits(data: Bytes)
    requires Frame(data).Some?
    ensures var raw := Frame(data).value;
            raw.length < 0x100_0000 && (!VBit(raw.flags) ==> raw.vendor == 0)
  {
    Widths();
    GetBound(data[5..8]);
  }

  lemma GroupConforms(raw: AVP, view: View, depth: nat, exempt: bool)
    requires raw.data.Raw? && TypeOf(view, raw.code, raw.vendor) == Some(GroupedType) && depth < view.maxDepth
    requires var r := Interpret(raw, view, depth, exempt); r.Item? && Forgiven(r.fault, exempt)
    requires var inner := exempt || IsFailedAVP(raw.code, raw.vendor);
             var g := DecodeGroup(raw.data.octets, view, depth + 1, inner);
             && (g.Members? && g.fault.None? ==> ConformsAll(g.members, view, depth + 1, inner))
             && (exempt && g.Members? && g.fault.Some? ==> g.fault.value.tooDeep)
    ensures var a := Interpret(raw, view, depth, exempt).avp;
            && a == raw.(data := a.data) && a.data.Grouped?
            && ConformsAll(a.data.members, view, depth + 1, exempt || IsFailedAVP(a.code, a.vendor))
  {
    hide DecodeGroup, ConformsAll;
  }

  lemma UngroupedConforms(raw: AVP, view: View, depth: nat, exempt: bool)
    requires raw.data.Raw?
    requires var r := Interpret(raw, view, depth, exempt); r.Item? && Forgiven(r.fault, exempt)
    requires TypeOf(view, raw.code, raw.vendor) == Some(GroupedType) ==> depth >= view.maxDepth
    ensures var a := Interpret(raw, view, depth, exempt).avp;
            var known := TypeOf(view, a.code, a.vendor);
            a == raw.(data := a.data) &&
            match a.data
            case Leaf(v) => InRange(v) && known == Some(KindOf(v))
            case Raw(o) => known.None? || (exempt && known.value != GroupedType && Undecodable(known.value, o))
            case _ => false
  {
    match TypeOf(view, raw.code, raw.vendor)
    case None =>
    case Some(GroupedType) =>
    case Some(t) => DecodeThenSerialize(t, raw.data.octets);
  }

  lemma {:induction false} DecodedAllConform(b: Bytes, view: View, depth: nat, exempt: bool)
    ensures var r := DecodeGroup(b, view, depth, exempt);
            r.Members? && r.fault.None? ==> ConformsAll(r.members, view, depth, exempt)
    decreases |b|, 1
  {
    var r := DecodeGroup(b, view, depth, exempt);
    if r.Members? && r.fault.None? && b != [] {
      var a := DecodeAVP(b, view, depth, exempt).avp;
      DecodedConforms(b, view, depth, exempt);
      DecodedAllConform(b[Len(a)..], view, depth, exempt);
      var ms := DecodeGroup(b[Len(a)..], view, depth, exempt).members;
      assert r.members == [a] + ms && r.members[1..] == ms;
    }
  }

  /** Round trip, both ways: a tree is read back unchanged and without a
      fault exactly when it conforms to the dictionary view. */
  lemma RoundTrips(ms: seq<AVP>, view: View, depth: nat, exempt: bool)
    ensures ConformsAll(ms, view, depth, exempt)
            <==> DecodeGroup(WireAll(ms), view, depth, exempt) == Members(ms, None)
  {
    if ConformsAll(ms, view, depth, exempt) { ReadsAll(ms, view, depth, exempt); }
    DecodedAllConform(WireAll(ms), view, depth, exempt);
  }

  /** Fault-free decoding is canonical: two bodies that decode to the same
      members differ at most in padding, and re-encoding settles it. */
  lemma Canonical(b: Bytes, view: View, depth: nat, exempt: bool)
    requires DecodeGroup(b, view, depth, exempt).Members? && DecodeGroup(b, view, depth, exempt).fault.None?
    ensures var ms := DecodeGroup(b, view, depth, exempt).members;
            DecodeGroup(WireAll(ms), view, depth, exempt) == DecodeGroup(b, view, depth, exempt)
  {
    DecodedAllConform(b, view, depth, exempt);
    ReadsAll(DecodeGroup(b, view, depth, exempt).members, view, depth, exempt);
  }
}

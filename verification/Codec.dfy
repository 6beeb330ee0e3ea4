/** The AVP and Grouped AVP formats (diam/avp.go, diam/group.go): the length,
    the wire image and the decoder, all as functions of values. */
module Codec {
  import opened Octets
  import opened Datatypes

  datatype Data = Raw(octets: Bytes) | Leaf(value: LeafValue) | Grouped(members: seq<AVP>)

  /** `length` counts header and payload; padding is excluded. */
  datatype AVP = AVP(code: Word, flags: Byte, length: nat, vendor: Word, data: Data)

  const FAILED_AVP := 279
  const INVALID_AVP_VALUE := 5004
  const INVALID_AVP_LENGTH := 5014

  /** What one application sees of a dictionary snapshot. */
  datatype View = View(types: map<(Word, Word), TypeId>, maxDepth: nat)

  predicate VBit(flags: Byte) {
    flags >= 128
  }

  function HeaderLen(a: AVP): (n: nat)
    ensures n == 8 || n == 12
  {
    if VBit(a.flags) then 12 else 8
  }

  function DataLen(d: Data): nat
    decreases d, 0
  {
    match d
    case Raw(o) => |o|
    case Leaf(v) => ValueLen(v)
    case Grouped(ms) => SumLen(ms)
  }

  function PaddingLen(d: Data): nat {
    if d.Grouped? then 0 else Pad(DataLen(d))
  }

  function Len(a: AVP): (n: nat)
    ensures n >= 8
    decreases a, 0
  {
    HeaderLen(a) + DataLen(a.data) + PaddingLen(a.data)
  }

  function SumLen(ms: seq<AVP>): nat
    decreases ms, 0
  {
    if ms == [] then 0 else Len(ms[0]) + SumLen(ms[1..])
  }

  function Header(a: AVP): (b: Bytes)
    ensures |b| == HeaderLen(a)
  {
    Put(a.code, 4) + [a.flags] + Put(HeaderLen(a) + DataLen(a.data), 3)
    + (if VBit(a.flags) then Put(a.vendor, 4) else [])
  }

  function Payload(d: Data): (b: Bytes)
    ensures |b| == DataLen(d)
    decreases d, 0
  {
    match d
    case Raw(o) => o
    case Leaf(v) => SerializedLength(v); Serialize(v)
    case Grouped(ms) => WireAll(ms)
  }

  /** The octets AVP.SerializeTo writes. */
  function Wire(a: AVP): (b: Bytes)
    ensures |b| == Len(a)
    decreases a, 0
  {
    Header(a) + Payload(a.data) + Zeros(PaddingLen(a.data))
  }

  function WireAll(ms: seq<AVP>): (b: Bytes)
    ensures |b| == SumLen(ms)
    decreases ms, 0
  {
    if ms == [] then [] else Wire(ms[0]) + WireAll(ms[1..])
  }

  // ---- Decoding -------------------------------------------------------------

  /** A recoverable payload failure: the octets are kept, and the evidence
      for a Failed-AVP is the hierarchy leading to the offending AVP. */
  datatype Fault = Fault(resultCode: nat, evidence: AVP, tooDeep: bool)

  /** Framing means that the next AVP boundary is lost. */
  datatype Decoded = Framing(evidence: AVP) | Item(avp: AVP, fault: Option<Fault>)

  datatype DecodedGroup = LostFraming(evidence: AVP) | Members(members: seq<AVP>, fault: Option<Fault>)

  function NewAVP(code: Word, flags: Byte, vendor: Word, data: Data): AVP {
    AVP(code, flags, (if VBit(flags) then 12 else 8) + DataLen(data), vendor, data)
  }

  function TypeOf(view: View, code: Word, vendor: Word): Option<TypeId> {
    if (code, vendor) in view.types then Some(view.types[(code, vendor)]) else None
  }

  function MinimumPayload(t: TypeId): nat {
    match t
    case AddressType => 2
    case EnumeratedType | Float32Type | IPv4Type | Integer32Type | TimeType | Unsigned32Type => 4
    case Float64Type | Integer64Type | Unsigned64Type => 8
    case IPv6Type => 16
    case _ => 0
  }

  function WordAt(b: Bytes, i: nat): Word
    requires i + 4 <= |b|
  {
    GetBound(b[i..i + 4]); Widths(); Get(b[i..i + 4])
  }

  /** failedAVPFromWire: the header as far as it goes, zero-filled, with a
      zero payload of the minimum size of its type. */
  function FailedFromWire(data: Bytes, view: View): AVP {
    var h := (if |data| < 12 then data + Zeros(12 - |data|) else data)[..12];
    var vendor := if VBit(h[4]) then WordAt(h, 8) else 0;
    var size := match TypeOf(view, WordAt(h, 0), vendor) case Some(t) => MinimumPayload(t) case None => 0;
    NewAVP(WordAt(h, 0), h[4], vendor, Raw(Zeros(size)))
  }

  /** newAVPDecodeError */
  function NewFault(a: AVP, t: TypeId, tooDeep: bool): Fault {
    var low := MinimumPayload(t);
    var badLength := low > 0 && (DataLen(a.data) < low || (t != AddressType && DataLen(a.data) != low));
    var data := if !badLength && t == GroupedType then Raw([]) else a.data;
    Fault(if badLength then INVALID_AVP_LENGTH else INVALID_AVP_VALUE, NewAVP(a.code, a.flags, a.vendor, data), tooDeep)
  }

  /** withGroupedParent */
  function Enclosed(parent: AVP, evidence: AVP): AVP {
    NewAVP(parent.code, parent.flags, parent.vendor, Grouped([evidence]))
  }

  predicate IsFailedAVP(code: Word, vendor: Word) {
    code == FAILED_AVP && vendor == 0
  }

  /** The header and raw payload in front of `data`, if its framing allows it. */
  function Frame(data: Bytes): (r: Option<AVP>)
    ensures r.Some? ==> r.value.data.Raw? && |r.value.data.octets| < |data|
  {
    if |data| < 8 then None else
    var flags, length := data[4], Get(data[5..8]);
    var header := if VBit(flags) then 12 else 8;
    if |data| < length || length < header then None
    else Some(AVP(WordAt(data, 0), flags, length, if VBit(flags) then WordAt(data, 8) else 0, Raw(data[header..length])))
  }

  /** What the dictionary makes of a framed AVP. */
  function Interpret(raw: AVP, view: View, depth: nat, exempt: bool): Decoded
    requires raw.data.Raw?
    decreases |raw.data.octets|, 2
  {
    var payload := raw.data.octets;
    match TypeOf(view, raw.code, raw.vendor)
    case None => Item(raw, None)
    case Some(GroupedType) =>
      if depth >= view.maxDepth then Item(raw, Some(NewFault(raw, GroupedType, true)))
      else Regroup(raw, DecodeGroup(payload, view, depth + 1, exempt || IsFailedAVP(raw.code, raw.vendor)))
    case Some(t) =>
      if Undecodable(t, payload) then Item(raw, Some(NewFault(raw, t, false)))
      else DecodeThenSerialize(t, payload); Item(raw.(data := Leaf(Decode(t, payload).value)), None)
  }

  /** A group whose members fail keeps its payload and adds itself to the evidence. */
  function Regroup(raw: AVP, inner: DecodedGroup): Decoded {
    match inner
    case LostFraming(evidence) => Framing(Enclosed(raw, evidence))
    case Members(ms, None) => Item(raw.(data := Grouped(ms)), None)
    case Members(_, Some(f)) => Item(raw, Some(f.(evidence := Enclosed(raw, f.evidence))))
  }

  predicate Undecodable(t: TypeId, o: Bytes)
    requires t != GroupedType
  {
    Decode(t, o).None? || ValueLen(Decode(t, o).value) != |o|
  }

  /** decodeAVP, for an AVP enclosed by `depth` Grouped AVPs; `exempt` inside a Failed-AVP. */
  function DecodeAVP(data: Bytes, view: View, depth: nat, exempt: bool): Decoded
    decreases |data|, 0
  {
    match Frame(data)
    case None => Framing(FailedFromWire(data, view))
    case Some(raw) => Interpret(raw, view, depth, exempt)
  }

  /** Inside a Failed-AVP an undecodable member is evidence, not a failure. */
  predicate Forgiven(fault: Option<Fault>, exempt: bool) {
    fault.None? || (exempt && !fault.value.tooDeep)
  }

  /** decodeGroupedFromBytes, which also is decodeAVPs at depth 0: the members
      in order and the first failure that is not forgiven. */
  function DecodeGroup(b: Bytes, view: View, depth: nat, exempt: bool): DecodedGroup
    decreases |b|, 1
  {
    if b == [] then Members([], None) else
    match DecodeAVP(b, view, depth, exempt)
    case Framing(evidence) => LostFraming(evidence)
    case Item(a, fault) =>
      if Len(a) > |b| then LostFraming(a) else
      match DecodeGroup(b[Len(a)..], view, depth, exempt)
      case LostFraming(evidence) => LostFraming(evidence)
      case Members(ms, later) => Members([a] + ms, if Forgiven(fault, exempt) then later else fault)
  }
}

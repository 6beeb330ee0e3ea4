/** Nothing the decoder accepts is lost: the decoded AVPs tile the body, and
    serializing them gives the same octets back, with padding zeroed. */
module Lossless {
  import opened Octets
  import opened Datatypes
  import opened Codec

  /** Octet `i` of the wire image of `a` is padding after some AVP of the tree. */
  predicate PaddingAt(a: AVP, i: nat)
    decreases a, 0
  {
    var h := HeaderLen(a);
    match a.data
    case Grouped(ms) => i >= h && PaddingAtAll(ms, i - h)
    case _ => i >= h + DataLen(a.data)
  }

  predicate PaddingAtAll(ms: seq<AVP>, i: nat)
    decreases ms, 0
  {
    ms != [] && if i < Len(ms[0]) then PaddingAt(ms[0], i) else PaddingAtAll(ms[1..], i - Len(ms[0]))
  }

  /** `wire` is `b` with the padding octets of `ms` set to zero. */
  predicate ZeroPadded(ms: seq<AVP>, b: Bytes, wire: Bytes) {
    && |wire| == |b|
    && forall i :: 0 <= i < |b| ==> wire[i] == if PaddingAtAll(ms, i) then 0 else b[i]
  }

  /** The header and payload of `a` stand in front of `data`. */
  predicate Stands(a: AVP, data: Bytes) {
    && a.length == HeaderLen(a) + DataLen(a.data) <= |data|
    && forall i :: 0 <= i < a.length ==> Wire(a)[i] == if PaddingAt(a, i) then 0 else data[i]
  }

  /** Framing keeps the header octets and the payload as they are. */
  lemma FrameOctets(data: Bytes)
    requires Frame(data).Some?
    ensures var raw := Frame(data).value;
            && raw.length == HeaderLen(raw) + |raw.data.octets| <= |data|
            && Header(raw) == data[..HeaderLen(raw)]
            && raw.data.octets == data[HeaderLen(raw)..raw.length]
  {
    PutGet(data[0..4]);
    PutGet(data[5..8]);
    if VBit(data[4]) { PutGet(data[8..12]); }
    assert data[..8] == data[0..4] + [data[4]] + data[5..8];
  }

  /** Placing the header: what is left is where the payload's octets come from. */
  lemma FromPayload(a: AVP, data: Bytes)
    requires a.length == HeaderLen(a) + DataLen(a.data) <= |data|
    requires Header(a) == data[..HeaderLen(a)]
    requires forall i :: 0 <= i < DataLen(a.data) ==>
               Payload(a.data)[i] == if PaddingAt(a, HeaderLen(a) + i) then 0 else data[HeaderLen(a) + i]
    ensures Stands(a, data)
  {
    var h := HeaderLen(a);
    forall i | 0 <= i < a.length
      ensures Wire(a)[i] == if PaddingAt(a, i) then 0 else data[i]
    {
      if i < h {
        assert Wire(a)[i] == Header(a)[i] == data[..h][i];
        assert !PaddingAt(a, i);
      } else {
        assert Wire(a)[i] == Payload(a.data)[i - h];
        assert HeaderLen(a) + (i - h) == i;
      }
    }
  }

  /** Interpreting changes neither header nor length. */
  predicate SameFrame(a: AVP, raw: AVP) {
    a.(data := raw.data) == raw
  }

  /** Interpreting a framed AVP keeps its payload octets, up to inner padding. */
  lemma {:induction false} InterpretKeeps(raw: AVP, view: View, depth: nat, exempt: bool)
    requires raw.data.Raw?
    ensures var r := Interpret(raw, view, depth, exempt);
            r.Item? ==> SameFrame(r.avp, raw) && KeepsPayload(r.avp, raw.data.octets)
    decreases |raw.data.octets|, 2
  {
    var payload := raw.data.octets;
    match TypeOf(view, raw.code, raw.vendor)
    case Some(GroupedType) =>
      GroupTiles(payload, view, depth + 1, exempt || IsFailedAVP(raw.code, raw.vendor));
    case Some(t) =>
      DecodeThenSerialize(t, payload);
    case None =>
  }

  predicate KeepsPayload(a: AVP, payload: Bytes) {
    match a.data
    case Grouped(ms) => SumLen(ms) == |payload| && ZeroPadded(ms, payload, WireAll(ms))
    case _ => Payload(a.data) == payload
  }

  /** One decoded AVP, failed or not, stands in front of its input. */
  lemma {:induction false} DecodedStands(data: Bytes, view: View, depth: nat, exempt: bool)
    ensures var r := DecodeAVP(data, view, depth, exempt); r.Item? ==> Stands(r.avp, data)
    decreases |data|, 0
  {
    var r := DecodeAVP(data, view, depth, exempt);
    if r.Item? {
      FrameOctets(data);
      InterpretKeeps(Frame(data).value, view, depth, exempt);
      KeptStands(r.avp, Frame(data).value, data);
    }
  }

  lemma KeptStands(a: AVP, raw: AVP, data: Bytes)
    requires raw.data.Raw? && SameFrame(a, raw) && KeepsPayload(a, raw.data.octets)
    requires raw.length == HeaderLen(raw) + |raw.data.octets| <= |data|
    requires Header(raw) == data[..HeaderLen(raw)] && raw.data.octets == data[HeaderLen(raw)..raw.length]
    ensures Stands(a, data)
  {
    var h := HeaderLen(a);
    assert Header(a) == Header(raw);
    forall i | 0 <= i < DataLen(a.data)
      ensures Payload(a.data)[i] == if PaddingAt(a, h + i) then 0 else data[h + i]
    {
      assert raw.data.octets[i] == data[h + i];
    }
    FromPayload(a, data);
  }

  lemma OwnPadding(a: AVP, i: nat)
    requires HeaderLen(a) + DataLen(a.data) <= i < Len(a)
    ensures PaddingAt(a, i) && Wire(a)[i] == 0
  {
  }

  lemma Tile(a: AVP, ms: seq<AVP>, b: Bytes)
    requires Stands(a, b) && Len(a) <= |b|
    requires ZeroPadded(ms, b[Len(a)..], WireAll(ms))
    ensures SumLen([a] + ms) == |b| && ZeroPadded([a] + ms, b, WireAll([a] + ms))
  {
    var all := [a] + ms;
    assert all[1..] == ms && WireAll(all) == Wire(a) + WireAll(ms);
    forall i | 0 <= i < |b|
      ensures WireAll(all)[i] == if PaddingAtAll(all, i) then 0 else b[i]
    {
      if i < Len(a) {
        if i >= a.length { OwnPadding(a, i); }
      } else {
        assert b[Len(a)..][i - Len(a)] == b[i];
      }
    }
  }

  /** The decoded members tile the payload exactly. */
  lemma {:induction false} GroupTiles(b: Bytes, view: View, depth: nat, exempt: bool)
    ensures var r := DecodeGroup(b, view, depth, exempt);
            r.Members? ==> SumLen(r.members) == |b| && ZeroPadded(r.members, b, WireAll(r.members))
    decreases |b|, 1
  {
    var r := DecodeGroup(b, view, depth, exempt);
    if r.Members? && b != [] {
      var a := DecodeAVP(b, view, depth, exempt).avp;
      DecodedStands(b, view, depth, exempt);
      GroupTiles(b[Len(a)..], view, depth, exempt);
      Tile(a, DecodeGroup(b[Len(a)..], view, depth, exempt).members, b);
    }
  }
}

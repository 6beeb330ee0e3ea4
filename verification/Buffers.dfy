/** The codec's loops: serializers that fill a buffer in place and decoders
    that advance an offset and append members (diam/avp.go, diam/group.go,
    diam/message.go). */
module Buffers {
  import opened Octets
  import opened Datatypes
  import opened Codec
  import opened Messages

  /** `s` with `w` written at offset `at`. */
  function Splice(s: Bytes, at: nat, w: Bytes): (r: Bytes)
    requires at + |w| <= |s|
    ensures |r| == |s|
  {
    seq(|s|, i requires 0 <= i < |s| => if at <= i < at + |w| then w[i - at] else s[i])
  }

  predicate SameOutside(s: Bytes, t: Bytes, lo: nat, hi: nat) {
    |s| == |t| && forall i :: 0 <= i < |s| && !(lo <= i < hi) ==> s[i] == t[i]
  }

  lemma SpliceTwice(s: Bytes, at: nat, u: Bytes, v: Bytes)
    requires at + |u| + |v| <= |s|
    ensures Splice(Splice(s, at, u), at + |u|, v) == Splice(s, at, u + v)
  {
  }

  lemma SpliceOutside(s: Bytes, at: nat, w: Bytes, t: Bytes, lo: nat, hi: nat)
    requires at <= lo && at + |w| <= hi <= |s| && SameOutside(Splice(s, at, w), t, lo, hi)
    ensures SameOutside(s, t, at, hi)
  {
  }

  lemma HeaderThenMembers(a: AVP, s: Bytes, at: nat)
    requires a.data.Grouped? && at + Len(a) <= |s|
    ensures Splice(Splice(s, at, Codec.Header(a)), at + HeaderLen(a), WireAll(a.data.members)) == Splice(s, at, Wire(a))
  {
    SpliceTwice(s, at, Codec.Header(a), WireAll(a.data.members));
    assert Wire(a) == Codec.Header(a) + WireAll(a.data.members);
  }

  lemma Spliced(s: Bytes, at: nat, u: Bytes, v: Bytes, w: Bytes)
    requires w == u + v && at + |w| <= |s|
    ensures Splice(Splice(s, at, u), at + |u|, v) == Splice(s, at, w)
  {
    SpliceTwice(s, at, u, v);
  }

  method Copy(src: Bytes, b: array<Byte>, at: nat)
    requires at + |src| <= b.Length
    modifies b
    ensures b[..] == Splice(old(b[..]), at, src)
  {
    for i := 0 to |src|
      invariant b[..] == Splice(old(b[..]), at, src[..i])
    {
      b[at + i] := src[i];
      assert src[..i + 1] == src[..i] + [src[i]];
    }
    assert src[..|src|] == src;
  }

  lemma SpliceSame(s: Bytes, at: nat, w: Bytes)
    requires at + |w| <= |s|
    ensures SameOutside(s, Splice(s, at, w), at, at + |w|)
  {
  }

  method SerializeLeaf(a: AVP, b: array<Byte>, at: nat)
    requires !a.data.Grouped? && at + Len(a) <= b.Length
    modifies b
    ensures b[..] == Splice(old(b[..]), at, Wire(a))
  {
    ghost var s := b[..];
    var header, payload, zeros := Codec.Header(a), Payload(a.data), Zeros(PaddingLen(a.data));
    Copy(header, b, at);
    Copy(payload, b, at + |header|);
    Spliced(s, at, header, payload, header + payload);
    Copy(zeros, b, at + |header + payload|);
    Spliced(s, at, header + payload, zeros, Wire(a));
  }

  /** AVP.SerializeTo, at offset `at` of `b`: the wire image is written there,
      nothing outside it changes, and only an invalid Address is refused. */
  method SerializeTo(a: AVP, b: array<Byte>, at: nat) returns (ok: bool)
    requires at + Len(a) <= b.Length
    modifies b
    ensures ok <==> Serializable(a)
    ensures ok ==> b[..] == Splice(old(b[..]), at, Wire(a))
    ensures SameOutside(old(b[..]), b[..], at, at + Len(a))
    decreases a, 1
  {
    ghost var s := b[..];
    if a.data.Grouped? {
      Copy(Codec.Header(a), b, at);
      ok := SerializeAll(a.data.members, b, at + HeaderLen(a));
      HeaderThenMembers(a, s, at);
      SpliceOutside(s, at, Codec.Header(a), b[..], at + HeaderLen(a), at + Len(a));
    } else if a.data.Leaf? && a.data.value.Address? && !ValidFamily(a.data.value.family, |a.data.value.octets|) {
      ok := false;
    } else {
      SerializeLeaf(a, b, at);
      SpliceSame(s, at, Wire(a));
      ok := true;
    }
  }

  lemma WireRest(ms: seq<AVP>, i: nat)
    requires i < |ms|
    ensures WireAll(ms[i..]) == Wire(ms[i]) + WireAll(ms[i + 1..])
  {
    assert ms[i..][1..] == ms[i + 1..];
  }

  lemma Reassociate(w: Bytes, u: Bytes, v: Bytes, all: Bytes, rest: Bytes)
    requires w + rest == all && rest == u + v
    ensures (w + u) + v == all && |w| + |u| <= |all|
  {
  }

  lemma SerializableRest(ms: seq<AVP>, i: nat)
    requires i < |ms|
    ensures SerializableAll(ms[i..]) <==> Serializable(ms[i]) && SerializableAll(ms[i + 1..])
  {
    assert ms[i..][1..] == ms[i + 1..];
  }

  /** The member loop shared by AVP.SerializeTo and Message.serializeTo. */
  method SerializeAll(ms: seq<AVP>, b: array<Byte>, at: nat) returns (ok: bool)
    requires at + SumLen(ms) <= b.Length
    modifies b
    ensures ok <==> SerializableAll(ms)
    ensures ok ==> b[..] == Splice(old(b[..]), at, WireAll(ms))
    ensures SameOutside(old(b[..]), b[..], at, at + SumLen(ms))
    decreases ms, 0
  {
    hide Wire, Serializable;
    ghost var s, w := b[..], [];
    var offset, i := at, 0;
    while i < |ms|
      invariant i <= |ms| && offset == at + |w|
      invariant w + WireAll(ms[i..]) == WireAll(ms)
      invariant SerializableAll(ms) <==> SerializableAll(ms[i..])
      invariant b[..] == Splice(s, at, w)
    {
      WireRest(ms, i);
      Reassociate(w, Wire(ms[i]), WireAll(ms[i + 1..]), WireAll(ms), WireAll(ms[i..]));
      SerializableRest(ms, i);
      ok := SerializeTo(ms[i], b, offset);
      if !ok {
        SpliceOutside(s, at, w, b[..], offset, offset + Len(ms[i]));
        return;
      }
      Spliced(s, at, w, Wire(ms[i]), w + Wire(ms[i]));
      w := w + Wire(ms[i]);
      offset, i := offset + Len(ms[i]), i + 1;
    }
    assert ms[i..] == [] && w == WireAll(ms);
    SpliceSame(s, at, w);
    ok := true;
  }

  /** Message.Serialize: a fresh buffer holding the header and the AVPs. */
  method SerializeMessage(m: Message) returns (r: Option<Bytes>)
    ensures r == MessageWire(m)
  {
    var l := HEADER_LENGTH + SumLen(m.avps);
    if l > MAX_MESSAGE_LENGTH {
      return None;
    }
    var b := new Byte[l](_ => 0);
    var header := HeaderWire(m.header.(length := l));
    Copy(header, b, 0);
    var ok := SerializeAll(m.avps, b, HEADER_LENGTH);
    if !ok {
      return None;
    }
    assert b[..] == header + WireAll(m.avps);
    r := Some(b[..]);
  }

  // ---- Decoding loops -----------------------------------------------------------

  /** The members read so far, followed by the outcome for the remaining octets. */
  function Prepend(ms: seq<AVP>, fault: Option<Fault>, rest: DecodedGroup): DecodedGroup {
    match rest
    case LostFraming(_) => rest
    case Members(more, later) => Members(ms + more, if fault.Some? then fault else later)
  }

  lemma PrependItem(ms: seq<AVP>, fault: Option<Fault>, b: Bytes, view: View, depth: nat, exempt: bool)
    requires b != [] && DecodeAVP(b, view, depth, exempt).Item?
    requires Len(DecodeAVP(b, view, depth, exempt).avp) <= |b|
    ensures var Item(a, failure) := DecodeAVP(b, view, depth, exempt);
            var next := if fault.None? && !Forgiven(failure, exempt) then failure else fault;
            Prepend(ms, fault, DecodeGroup(b, view, depth, exempt))
            == Prepend(ms + [a], next, DecodeGroup(b[Len(a)..], view, depth, exempt))
  {
    var Item(a, failure) := DecodeAVP(b, view, depth, exempt);
    match DecodeGroup(b[Len(a)..], view, depth, exempt)
    case LostFraming(_) =>
    case Members(more, _) => assert ms + ([a] + more) == (ms + [a]) + more;
  }

  lemma LosesFraming(b: Bytes, view: View, depth: nat, exempt: bool)
    requires b != []
    ensures match DecodeAVP(b, view, depth, exempt)
            case Framing(evidence) => DecodeGroup(b, view, depth, exempt) == LostFraming(evidence)
            case Item(a, _) => Len(a) > |b| ==> DecodeGroup(b, view, depth, exempt) == LostFraming(a)
  {
  }

  /** decodeGroupedFromBytes */
  method DecodeGroupedFromBytes(b: Bytes, view: View, depth: nat, exempt: bool) returns (r: DecodedGroup)
    ensures r == DecodeGroup(b, view, depth, exempt)
  {
    var members: seq<AVP>, fault: Option<Fault>, rest := [], None, b;
    while rest != []
      invariant DecodeGroup(b, view, depth, exempt) == Prepend(members, fault, DecodeGroup(rest, view, depth, exempt))
      decreases |rest|
    {
      LosesFraming(rest, view, depth, exempt);
      var item := DecodeAVP(rest, view, depth, exempt);
      if item.Framing? {
        return LostFraming(item.evidence);
      }
      var advance := Len(item.avp);
      if advance > |rest| {
        return LostFraming(item.avp);
      }
      PrependItem(members, fault, rest, view, depth, exempt);
      if fault.None? && !Forgiven(item.fault, exempt) {
        fault := item.fault;
      }
      members := members + [item.avp];
      rest := rest[advance..];
    }
    r := Members(members, fault);
  }

  lemma {:induction false} UnknownAppend(ms: seq<AVP>, a: AVP, view: View)
    ensures UnknownAll(ms + [a], view)
            == UnknownAll(ms, view) + match Unknown(a, view) case Some(u) => [u] case None => []
    decreases ms
  {
    if ms == [] {
      assert (ms + [a])[1..] == [];
    } else {
      UnknownAppend(ms[1..], a, view);
      assert (ms + [a])[1..] == ms[1..] + [a];
    }
  }

  /** Message.decodeAVPs: the members, the first payload fault and the unknown
      mandatory hierarchies of a body, or the evidence of lost framing. */
  method DecodeAVPs(b: Bytes, view: View) returns (r: DecodedGroup, unknown: seq<AVP>)
    ensures r == DecodeGroup(b, view, 0, false)
    ensures r.Members? ==> unknown == UnknownAll(r.members, view)
  {
    var members: seq<AVP>, fault: Option<Fault>, rest := [], None, b;
    unknown := [];
    while rest != []
      invariant DecodeGroup(b, view, 0, false) == Prepend(members, fault, DecodeGroup(rest, view, 0, false))
      invariant unknown == UnknownAll(members, view)
      decreases |rest|
    {
      LosesFraming(rest, view, 0, false);
      var item := DecodeAVP(rest, view, 0, false);
      if item.Framing? {
        return LostFraming(item.evidence), unknown;
      }
      var advance := Len(item.avp);
      if advance > |rest| {
        return LostFraming(item.avp), unknown;
      }
      PrependItem(members, fault, rest, view, 0, false);
      if fault.None? {
        fault := item.fault;
      }
      UnknownAppend(members, item.avp, view);
      members := members + [item.avp];
      var failed := Unknown(item.avp, view);
      if failed.Some? {
        unknown := unknown + [failed.value];
      }
      rest := rest[advance..];
    }
    r := Members(members, fault);
  }

  // ---- Search -------------------------------------------------------------------

  /** All AVPs of a tree, each group before its members. */
  function Preorder(ms: seq<AVP>): seq<AVP>
    decreases ms, 0
  {
    if ms == [] then [] else PreorderOf(ms[0]) + Preorder(ms[1..])
  }

  function PreorderOf(a: AVP): seq<AVP>
    decreases a, 0
  {
    [a] + if a.data.Grouped? then Preorder(a.data.members) else []
  }

  predicate Matches(a: AVP, code: Word, vendor: Word) {
    a.code == code && a.vendor == vendor
  }

  function Matching(ms: seq<AVP>, code: Word, vendor: Word): seq<AVP> {
    if ms == [] then []
    else if Matches(ms[0], code, vendor) then [ms[0]] + Matching(ms[1..], code, vendor)
    else Matching(ms[1..], code, vendor)
  }

  lemma {:induction false} MatchingAppend(xs: seq<AVP>, ys: seq<AVP>, code: Word, vendor: Word)
    ensures Matching(xs + ys, code, vendor) == Matching(xs, code, vendor) + Matching(ys, code, vendor)
  {
    if xs == [] {
      assert xs + ys == ys;
    } else {
      MatchingAppend(xs[1..], ys, code, vendor);
      assert (xs + ys)[1..] == xs[1..] + ys;
    }
  }

  lemma {:induction false} PreorderAppend(ms: seq<AVP>, i: nat)
    requires i < |ms|
    ensures Preorder(ms[..i + 1]) == Preorder(ms[..i]) + PreorderOf(ms[i])
    decreases ms
  {
    if i == 0 {
      assert ms[..1][1..] == [];
    } else {
      PreorderAppend(ms[1..], i - 1);
      assert ms[..i + 1][1..] == ms[1..][..i] && ms[..i][1..] == ms[1..][..i - 1];
    }
  }

  function FirstOf(ms: seq<AVP>): seq<AVP> {
    if ms == [] then [] else ms[..1]
  }

  lemma {:induction false} FirstOfPrefix(ms: seq<AVP>, i: nat, code: Word, vendor: Word)
    requires i <= |ms| && Matching(Preorder(ms[..i]), code, vendor) != []
    ensures FirstOf(Matching(Preorder(ms), code, vendor)) == FirstOf(Matching(Preorder(ms[..i]), code, vendor))
    decreases |ms| - i
  {
    if i < |ms| {
      PreorderAppend(ms, i);
      MatchingAppend(Preorder(ms[..i]), PreorderOf(ms[i]), code, vendor);
      FirstOfPrefix(ms, i + 1, code, vendor);
    } else {
      assert ms[..i] == ms;
    }
  }

  lemma {:induction false} InnerSmaller(ms: seq<AVP>, i: nat)
    requires i < |ms|
    ensures 0 < SumLen(ms) && (ms[i].data.Grouped? ==> SumLen(ms[i].data.members) < SumLen(ms))
  {
    if i == 0 {
      assert Len(ms[0]) >= 8 + DataLen(ms[0].data);
    } else {
      InnerSmaller(ms[1..], i - 1);
    }
  }

  /** members: none unless the AVP is Grouped. */
  function Inner(a: AVP): seq<AVP> {
    if a.data.Grouped? then a.data.members else []
  }

  lemma MatchingStep(ms: seq<AVP>, i: nat, code: Word, vendor: Word)
    requires i < |ms|
    ensures Matching(Preorder(ms[..i + 1]), code, vendor)
            == Matching(Preorder(ms[..i]), code, vendor)
               + (if Matches(ms[i], code, vendor) then [ms[i]] else [])
               + Matching(Preorder(Inner(ms[i])), code, vendor)
  {
    PreorderAppend(ms, i);
    MatchingAppend(Preorder(ms[..i]), PreorderOf(ms[i]), code, vendor);
    MatchingAppend([ms[i]], Preorder(Inner(ms[i])), code, vendor);
    assert PreorderOf(ms[i]) == [ms[i]] + Preorder(Inner(ms[i]));
    assert Matching([ms[i]], code, vendor) == if Matches(ms[i], code, vendor) then [ms[i]] else [];
  }

  /** The search can stop at a match when nothing matched before it. */
  lemma FirstHere(ms: seq<AVP>, i: nat, code: Word, vendor: Word)
    requires i < |ms| && Matching(Preorder(ms[..i]), code, vendor) == [] && Matches(ms[i], code, vendor)
    ensures FirstOf(Matching(Preorder(ms), code, vendor)) == [ms[i]]
  {
    MatchingStep(ms, i, code, vendor);
    FirstOfPrefix(ms, i + 1, code, vendor);
  }

  lemma FirstInside(ms: seq<AVP>, i: nat, code: Word, vendor: Word)
    requires i < |ms| && Matching(Preorder(ms[..i]), code, vendor) == [] && !Matches(ms[i], code, vendor)
    requires Matching(Preorder(Inner(ms[i])), code, vendor) != []
    ensures FirstOf(Matching(Preorder(ms), code, vendor)) == FirstOf(Matching(Preorder(Inner(ms[i])), code, vendor))
  {
    MatchingStep(ms, i, code, vendor);
    FirstOfPrefix(ms, i + 1, code, vendor);
  }

  /** findAVPs: every AVP of the tree with this code and Vendor-Id in
      depth-first order, or with `first` only the first of them. */
  method FindAVPs(avps: seq<AVP>, code: Word, vendor: Word, first: bool) returns (found: seq<AVP>)
    ensures var all := Matching(Preorder(avps), code, vendor);
            found == if first then FirstOf(all) else all
    decreases SumLen(avps)
  {
    found := [];
    var i := 0;
    while i < |avps|
      invariant i <= |avps|
      invariant found == Matching(Preorder(avps[..i]), code, vendor)
      invariant first ==> found == []
    {
      InnerSmaller(avps, i);
      if first && Matches(avps[i], code, vendor) {
        FirstHere(avps, i, code, vendor);
        return [avps[i]];
      }
      var inside := FindAVPs(Inner(avps[i]), code, vendor, first);
      if first && inside != [] {
        FirstInside(avps, i, code, vendor);
        return inside;
      }
      MatchingStep(avps, i, code, vendor);
      found := found + (if Matches(avps[i], code, vendor) then [avps[i]] else []) + inside;
      i := i + 1;
    }
    assert avps[..i] == avps;
  }
}

/** Leaf AVP values (diam/datatype): what each decoder makes of a payload and
    what its serializer writes back. Floats are held as their bit pattern. */
module Datatypes {
  import opened Octets

  datatype TypeId =
    | AddressType | DiameterIdentityType | DiameterURIType | EnumeratedType | Float32Type | Float64Type
    | GroupedType | IPFilterRuleType | IPv4Type | Integer32Type | Integer64Type | OctetStringType
    | QoSFilterRuleType | TimeType | UTF8StringType | Unsigned32Type | Unsigned64Type | IPv6Type

  datatype Value =
    | Text(kind: TypeId, octets: Bytes)
    | Number(kind: TypeId, n: int)
    | Fixed(kind: TypeId, octets: Bytes)
    | Address(family: nat, octets: Bytes)
    | Time(unix: int)

  const RFC868_OFFSET := 2208988800
  const POST_ROLLOVER_UNIX_OFFSET := 2085978496

  predicate IsText(t: TypeId) {
    t in {DiameterIdentityType, DiameterURIType, IPFilterRuleType, OctetStringType, QoSFilterRuleType, UTF8StringType}
  }

  predicate IsNumber(t: TypeId) {
    t in {EnumeratedType, Integer32Type, Integer64Type, Unsigned32Type, Unsigned64Type}
  }

  predicate IsSigned(t: TypeId) {
    t in {EnumeratedType, Integer32Type, Integer64Type}
  }

  /** Octet count of a fixed-size type; the variable ones have none. */
  function Width(t: TypeId): nat {
    match t
    case Integer64Type | Unsigned64Type | Float64Type => 8
    case IPv6Type => 16
    case _ => 4
  }

  /** Two's complement reading of a `k`-octet number. */
  function Signed(n: nat, k: nat): int {
    if 2 * n < Pow256(k) then n else n - Pow256(k)
  }

  /** The conversion back, for a number within the signed or unsigned `k`-octet range. */
  function Unsigned(n: int, k: nat): nat {
    if 0 <= n then n else if 0 <= n + Pow256(k) then n + Pow256(k) else 0
  }

  function ValidFamily(family: nat, size: nat): bool {
    0 < family < 65535 && (family == 1 ==> size == 4) && (family == 2 ==> size == 16)
  }

  /** datatype.Decode. A fixed-size decoder given the wrong number of octets
      returns a zero value and no error; the caller compares lengths. */
  function Decode(t: TypeId, b: Bytes): Option<Value>
    requires t != GroupedType
  {
    if IsText(t) then Some(Text(t, b))
    else if IsNumber(t) then
      var n := if |b| == Width(t) then Get(b) else 0;
      Some(Number(t, if IsSigned(t) then Signed(n, Width(t)) else n))
    else if t == AddressType then
      if |b| < 2 || !ValidFamily(Get(b[..2]), |b| - 2) then None else Some(Address(Get(b[..2]), b[2..]))
    else if t == TimeType then
      if |b| != 4 then None
      else if b[0] < 128 then Some(Time(Get(b) + POST_ROLLOVER_UNIX_OFFSET))
      else Some(Time(Get(b) - RFC868_OFFSET))
    else Some(Fixed(t, if |b| == Width(t) then b else Zeros(Width(t))))
  }

  function ValueLen(v: Value): nat {
    match v
    case Text(_, b) => |b|
    case Number(t, _) => Width(t)
    case Fixed(t, _) => Width(t)
    case Address(_, b) => 2 + |b|
    case Time(_) => 4
  }

  function Serialize(v: Value): Bytes {
    match v
    case Text(_, b) => b
    case Number(t, n) => Put(Unsigned(n, Width(t)), Width(t))
    case Fixed(_, b) => b
    case Address(f, b) => Put(f, 2) + b
    case Time(u) => Put((u + RFC868_OFFSET) % 0x1_0000_0000, 4)
  }

  /** Values a Go variable of the leaf's type can hold. */
  predicate Representable(v: Value) {
    match v
    case Text(t, _) => IsText(t)
    case Number(t, n) =>
      && IsNumber(t)
      && (if IsSigned(t) then -(Pow256(Width(t)) as int) <= 2 * n < Pow256(Width(t)) else 0 <= n < Pow256(Width(t)))
    case Fixed(t, b) => t in {Float32Type, Float64Type, IPv4Type, IPv6Type} && |b| == Width(t)
    case Address(f, b) => f < 65536
    case Time(u) => true
  }

  type LeafValue = v: Value | Representable(v) witness Time(0)

  /** Values the decoders produce: valid addresses and times the wire can tell apart. */
  predicate InRange(v: Value) {
    && Representable(v)
    && (v.Address? ==> ValidFamily(v.family, |v.octets|))
    && (v.Time? ==> 0x8000_0000 - RFC868_OFFSET <= v.unix < 0x8000_0000 + POST_ROLLOVER_UNIX_OFFSET)
  }

  lemma SerializedLength(v: LeafValue)
    ensures |Serialize(v)| == ValueLen(v)
  {
  }

  function KindOf(v: Value): TypeId {
    match v
    case Address(_, _) => AddressType
    case Time(_) => TimeType
    case _ => v.kind
  }

  lemma NumberRoundTrip(t: TypeId, b: Bytes)
    requires IsNumber(t) && |b| == Width(t)
    ensures var v := Number(t, if IsSigned(t) then Signed(Get(b), Width(t)) else Get(b));
            InRange(v) && Serialize(v) == b
  {
    GetBound(b);
    PutGet(b);
  }

  lemma ZeroNumber(t: TypeId)
    requires IsNumber(t)
    ensures Signed(0, Width(t)) == 0 && InRange(Number(t, 0))
  {
  }

  lemma TimeRoundTrip(b: Bytes)
    requires |b| == 4
    ensures var v := Decode(TimeType, b); v.Some? && InRange(v.value) && Serialize(v.value) == b
  {
    Widths();
    GetBound(b);
    PutGet(b);
    TopBit(b);
  }

  lemma AddressRoundTrip(b: Bytes)
    ensures var v := Decode(AddressType, b);
            v.Some? ==> InRange(v.value) && v.value.Address? && ValueLen(v.value) == |b| && Serialize(v.value) == b
  {
    if |b| >= 2 {
      PutGet(b[..2]);
      assert b == b[..2] + b[2..];
    }
  }

  /** Serializing inverts decoding whenever the decoder consumed every octet. */
  lemma DecodeThenSerialize(t: TypeId, b: Bytes)
    requires t != GroupedType
    ensures Decode(t, b).Some? ==> Decoded(t, b, Decode(t, b).value)
  {
    if IsNumber(t) {
      if |b| == Width(t) { NumberRoundTrip(t, b); } else { ZeroNumber(t); }
    } else if t == TimeType {
      if |b| == 4 { TimeRoundTrip(b); }
    } else if t == AddressType {
      AddressRoundTrip(b);
    }
  }

  /** `v` is in range and of kind `t`, and its octets are `b` when it is as long as `b`. */
  predicate Decoded(t: TypeId, b: Bytes, v: Value) {
    && InRange(v)
    && KindOf(v) == t
    && |Serialize(v)| == ValueLen(v)
    && (ValueLen(v) == |b| ==> Serialize(v) == b)
  }

  lemma TopBit(b: Bytes)
    requires |b| == 4
    ensures b[0] < 128 <==> Get(b) < 0x8000_0000
  {
    var high: int := b[0];
    assert b[..3][..2][..1] == [b[0]];
    assert Get(b[..3][..2][..1]) == high;
    assert Get(b[..3][..2]) == high * 256 + b[1];
    assert Get(b[..3]) == (high * 256 + b[1]) * 256 + b[2];
  }

  lemma NumberInverse(v: Value)
    requires InRange(v) && v.Number?
    ensures |Serialize(v)| == ValueLen(v) && Decode(v.kind, Serialize(v)) == Some(v)
  {
    GetPut(Unsigned(v.n, Width(v.kind)), Width(v.kind));
  }

  lemma AddressInverse(v: Value)
    requires InRange(v) && v.Address?
    ensures |Serialize(v)| == ValueLen(v) && Decode(AddressType, Serialize(v)) == Some(v)
  {
    Widths();
    GetPut(v.family, 2);
    assert Serialize(v)[..2] == Put(v.family, 2) && Serialize(v)[2..] == v.octets;
  }

  lemma TimeInverse(v: Value)
    requires InRange(v) && v.Time?
    ensures |Serialize(v)| == ValueLen(v) && Decode(TimeType, Serialize(v)) == Some(v)
  {
    Widths();
    GetPut((v.unix + RFC868_OFFSET) % 0x1_0000_0000, 4);
    TopBit(Serialize(v));
  }

  /** Decoding inverts serializing on every value in range. */
  lemma SerializeThenDecode(v: Value)
    requires InRange(v)
    ensures |Serialize(v)| == ValueLen(v) && KindOf(v) != GroupedType && Decode(KindOf(v), Serialize(v)) == Some(v)
  {
    if v.Number? {
      NumberInverse(v);
    } else if v.Address? {
      AddressInverse(v);
    } else if v.Time? {
      TimeInverse(v);
    }
  }
}

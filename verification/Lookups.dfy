/** DNS lookups as chains of answered questions, aliases first, and when they
    expire (dnsdiam/discover.go). */
module Lookups {
  import opened Octets
  import opened Srv

  type Name = string

  datatype Kind = CNAME | NAPTR | SRVKind | A | AAAA

  datatype Transport = TLS | DTLS | TCP | SCTP

  datatype Flag = Service | Address | NonTerminal | Unusable

  /** A NAPTR record: its parsed service field, or none if malformed. */
  datatype Naptr = Naptr(order: nat, preference: nat, service: Option<Offer>, regexp: bool, flag: Flag, replacement: Option<Name>)

  datatype Offer = Offer(diameter: bool, extended: bool, app: Word, protocols: seq<Transport>)

  datatype Addr = V4(bits: nat) | V6(bits: nat)

  datatype Payload =
    | Alias(target: Option<Name>) | Rewrite(naptr: Naptr) | Server(srv: SRV) | Numeric(address: Addr) | Absent

  /** Names are absolute; none stands for one that `absolute` rejects. */
  datatype Record = Record(owner: Option<Name>, kind: Kind, ttl: Word, payload: Payload)

  datatype Answer = Answer(records: seq<Record>, receivedAt: int, nameError: bool, negativeExpires: Option<int>)

  datatype Err = Limit | NoService | Invalid | Unauthorized | DNS

  datatype Result<T> = Ok(value: T) | Fail(err: Err)

  /** A record and the time its TTL runs out. */
  datatype Dated = Dated(record: Record, deadline: int)

  /** The records found and when the first of them, or of the aliases to them, expires. */
  datatype Found = Found(records: seq<Dated>, expires: Option<int>)

  /** What the search is given: the resolver's replies, query by query; the names
      of the realm or delegated by it; the host names among SRV targets; the application. */
  datatype Zone = Zone(replies: seq<Result<Answer>>, permitted: set<Name>, hosts: map<string, Name>, app: Word)

  datatype Question = Question(name: Name, kind: Kind)

  const MAX_RECORDS := 1024
  /** 253 characters and the final dot. */
  const MAX_NAME := 254

  // ---- Deadlines ---------------------------------------------------------------------------------------

  /** A wire TTL with its high bit set is zero (RFC 2181 section 8). */
  function TtlDeadline(received: int, ttl: Word): int {
    received + if ttl >= 0x8000_0000 then 0 else ttl
  }

  /** earlier: none is no time at all. */
  function Earlier(a: Option<int>, b: Option<int>): (r: Option<int>)
    ensures a.Some? ==> r.Some? && r.value <= a.value
    ensures b.Some? ==> r.Some? && r.value <= b.value
    ensures r == a || r == b
  {
    if a.None? || (b.Some? && b.value < a.value) then b else a
  }

  /** The first deadline of some records. */
  function Soonest(records: seq<Dated>): Option<int> {
    if records == [] then None
    else Earlier(Soonest(records[..|records| - 1]), Some(records[|records| - 1].deadline))
  }

  /** `e` is the first of the records' deadlines and the extra time, and is none only if there are none. */
  ghost predicate First(e: Option<int>, records: seq<Dated>, extra: Option<int>) {
    && (forall d :: d in records ==> e.Some? && e.value <= d.deadline)
    && (extra.Some? ==> e.Some? && e.value <= extra.value)
    && (e.Some? && e != extra ==> exists d :: d in records && d.deadline == e.value)
  }

  lemma FirstBoth(a: Option<int>, s: seq<Dated>, extra: Option<int>, b: Option<int>, t: seq<Dated>)
    requires First(a, s, extra) && First(b, t, None)
    ensures First(Earlier(a, b), s + t, extra)
  {
    var e := Earlier(a, b);
    forall d | d in s + t ensures e.Some? && e.value <= d.deadline {
      assert d in s || d in t;
    }
    if e.Some? && e != extra {
      var d :| (d in s || d in t) && d.deadline == e.value;
      assert d in s + t;
    }
  }

  lemma FirstOr(a: Option<int>, s: seq<Dated>, extra: Option<int>)
    requires First(a, s, None)
    ensures First(Earlier(a, extra), s, extra)
  {
  }

  lemma {:induction false} SoonestFirst(records: seq<Dated>)
    ensures First(Soonest(records), records, None)
  {
    if records != [] {
      var front, last := records[..|records| - 1], records[|records| - 1];
      SoonestFirst(front);
      assert last in [last];
      FirstBoth(Soonest(front), front, None, Some(last.deadline), [last]);
      assert records == front + [last];
    }
  }

  // ---- Lookups -----------------------------------------------------------------------------------------

  /** A question asked as query number `query`. */
  datatype Hop = Hop(query: nat, name: Name, kind: Kind)

  /** One lookup: the questions that were answered with an alias, then the last one. */
  type Chain = seq<Hop>

  function Received(z: Zone, q: nat): Result<Answer> {
    if q >= |z.replies| then Fail(DNS)
    else if z.replies[q].Ok? && |z.replies[q].value.records| > MAX_RECORDS then Fail(Limit)
    else z.replies[q]
  }

  /** The records of an answer that `name` owns and that are of one kind. */
  function Picked(answer: Answer, n: nat, name: Name, kind: Kind): seq<Dated>
    requires n <= |answer.records|
  {
    if n == 0 then []
    else
      var r := answer.records[n - 1];
      Picked(answer, n - 1, name, kind)
      + if r.owner == Some(name) && r.kind == kind then [Dated(r, TtlDeadline(answer.receivedAt, r.ttl))] else []
  }

  /** Every record of that kind that the reply holds for the name asked about. */
  function Held(z: Zone, h: Hop, kind: Kind): seq<Dated> {
    var r := Received(z, h.query);
    if r.Ok? then Picked(r.value, |r.value.records|, h.name, kind) else []
  }

  /** The reply is one permitted alias and nothing of the kind asked for. */
  ghost predicate AliasOf(z: Zone, h: Hop, next: Name) {
    && Received(z, h.query).Ok? && !Received(z, h.query).value.nameError
    && Held(z, h, h.kind) == [] && next in z.permitted
    && |Held(z, h, CNAME)| == 1 && Held(z, h, CNAME)[0].record.payload == Alias(Some(next))
  }

  /** The aliases lead from `start` to `name`. */
  ghost predicate Leads(z: Zone, c: Chain, start: Name, kind: Kind, name: Name) {
    if c == [] then name == start
    else
      var h := c[|c| - 1];
      h.kind == kind && Leads(z, c[..|c| - 1], start, kind, h.name) && AliasOf(z, h, name)
  }

  /** The questions of a lookup, the last one answered or not. */
  ghost predicate Follows(z: Zone, c: Chain, start: Name, kind: Kind) {
    c != [] && c[|c| - 1].kind == kind && Leads(z, c[..|c| - 1], start, kind, c[|c| - 1].name)
  }

  /** The lookup ends in an answer, which is no alias unless the name does not exist. */
  ghost predicate Finds(z: Zone, c: Chain, start: Name, kind: Kind) {
    && Follows(z, c, start, kind)
    && var r := Received(z, c[|c| - 1].query);
       r.Ok? && (if r.value.nameError then Data(z, c) == [] else Held(z, c[|c| - 1], CNAME) == [])
  }

  /** What a lookup found. */
  function Data(z: Zone, c: Chain): seq<Dated> {
    if c == [] then [] else Held(z, c[|c| - 1], c[|c| - 1].kind)
  }

  /** The aliases a lookup met. */
  function Aliases(z: Zone, c: Chain): seq<Dated> {
    if c == [] then [] else Aliases(z, c[..|c| - 1]) + Held(z, c[|c| - 1], CNAME)
  }

  function AliasExpiry(z: Zone, c: Chain): Option<int> {
    if c == [] then None else Earlier(AliasExpiry(z, c[..|c| - 1]), Soonest(Held(z, c[|c| - 1], CNAME)))
  }

  function NegativeExpiry(z: Zone, c: Chain): Option<int> {
    var r := if c == [] then Fail(DNS) else Received(z, c[|c| - 1].query);
    if r.Ok? then r.value.negativeExpires else None
  }

  /** When a lookup expires. */
  function LookupExpiry(z: Zone, c: Chain): Option<int> {
    Earlier(AliasExpiry(z, c), if Data(z, c) == [] then NegativeExpiry(z, c) else Soonest(Data(z, c)))
  }

  function LookupRecords(z: Zone, c: Chain): seq<Dated> {
    Aliases(z, c) + Data(z, c)
  }

  /** How long an empty answer may be relied on. */
  function EmptyExpiry(z: Zone, c: Chain): Option<int> {
    if Data(z, c) == [] then NegativeExpiry(z, c) else None
  }

  lemma {:induction false} AliasFirst(z: Zone, c: Chain)
    ensures First(AliasExpiry(z, c), Aliases(z, c), None)
  {
    if c != [] {
      var front, held := c[..|c| - 1], Held(z, c[|c| - 1], CNAME);
      AliasFirst(z, front);
      SoonestFirst(held);
      FirstBoth(AliasExpiry(z, front), Aliases(z, front), None, Soonest(held), held);
    }
  }

  /** A lookup expires with the first alias it met or record it found. */
  lemma LookupFirst(z: Zone, c: Chain)
    ensures First(LookupExpiry(z, c), LookupRecords(z, c), EmptyExpiry(z, c))
  {
    AliasFirst(z, c);
    if Data(z, c) == [] {
      assert LookupRecords(z, c) == Aliases(z, c);
      FirstOr(AliasExpiry(z, c), Aliases(z, c), NegativeExpiry(z, c));
    } else {
      SoonestFirst(Data(z, c));
      FirstBoth(AliasExpiry(z, c), Aliases(z, c), None, Soonest(Data(z, c)), Data(z, c));
    }
  }

  /** A lookup begins with the name it was made for. */
  lemma {:induction false} LeadsFrom(z: Zone, c: Chain, start: Name, kind: Kind, name: Name)
    requires c != [] && Leads(z, c, start, kind, name)
    ensures c[0].name == start && c[0].kind == kind
  {
    if |c| > 1 { LeadsFrom(z, c[..|c| - 1], start, kind, c[|c| - 1].name); }
  }

  /** The questions were asked. */
  ghost predicate Genuine(asked: seq<Question>, c: Chain) {
    forall h :: h in c ==> h.query < |asked| && asked[h.query] == Question(h.name, h.kind)
  }

  lemma GenuineLater(asked: seq<Question>, more: seq<Question>, c: Chain)
    requires Genuine(asked, c) && asked <= more
    ensures Genuine(more, c)
  {
  }

  // ---- One more question -------------------------------------------------------------------------------

  /** What one answer says about the name asked for. */
  datatype Sifted = Sifted(alias: Option<Dated>, records: seq<Dated>, nameError: bool, negativeExpires: Option<int>)

  ghost predicate Reports(z: Zone, h: Hop, s: Sifted) {
    && Received(z, h.query).Ok? && (s.alias.Some? ==> s.records == [])
    && s.nameError == Received(z, h.query).value.nameError && s.negativeExpires == Received(z, h.query).value.negativeExpires
    && s.records == Held(z, h, h.kind) && Held(z, h, CNAME) == if s.alias.None? then [] else [s.alias.value]
  }

  /** Every owner is a name, and there is no alias, or one that is wanted and
      stands alone. */
  ghost predicate Orderly(answer: Answer, name: Name, kind: Kind, noAlias: bool) {
    && (forall d :: d in answer.records ==> d.owner.Some?)
    && var n := |Picked(answer, |answer.records|, name, CNAME)|;
       n == 0 || (n == 1 && !noAlias && Picked(answer, |answer.records|, name, kind) == [])
  }

  lemma InOrderly(answer: Answer, name: Name, kind: Kind, noAlias: bool)
    requires forall j :: 0 <= j < |answer.records| ==> answer.records[j].owner.Some?
    ensures Orderly(answer, name, kind, noAlias) <==>
              var n := |Picked(answer, |answer.records|, name, CNAME)|;
              n == 0 || (n == 1 && !noAlias && Picked(answer, |answer.records|, name, kind) == [])
  {
    hide Picked;
  }

  lemma Nameless(answer: Answer, name: Name, kind: Kind, noAlias: bool, i: nat)
    requires i < |answer.records| && answer.records[i].owner.None?
    ensures !Orderly(answer, name, kind, noAlias)
  {
    hide Picked;
    assert answer.records[i] in answer.records;
  }

  lemma Overaliased(answer: Answer, name: Name, kind: Kind, noAlias: bool, i: nat)
    requires i <= |answer.records| && |Picked(answer, i, name, CNAME)| > if noAlias then 0 else 1
    ensures !Orderly(answer, name, kind, noAlias)
  {
    hide Picked;
    PickedGrows(answer, i, name, CNAME);
  }

  lemma PickedNone(answer: Answer, name: Name, kind: Kind)
    ensures Picked(answer, 0, name, kind) == [] && Picked(answer, 0, name, CNAME) == []
  {
  }

  lemma PickedStep(answer: Answer, i: nat, name: Name, kind: Kind)
    requires i < |answer.records|
    ensures var r := answer.records[i];
            var d := Dated(r, TtlDeadline(answer.receivedAt, r.ttl));
            && Picked(answer, i + 1, name, kind)
               == Picked(answer, i, name, kind) + (if r.owner == Some(name) && r.kind == kind then [d] else [])
            && Picked(answer, i + 1, name, CNAME)
               == Picked(answer, i, name, CNAME) + (if r.owner == Some(name) && r.kind == CNAME then [d] else [])
  {
  }

  lemma PickedGrows(answer: Answer, i: nat, name: Name, kind: Kind)
    requires i <= |answer.records|
    ensures |Picked(answer, i, name, kind)| <= |Picked(answer, |answer.records|, name, kind)|
    decreases |answer.records| - i
  {
    if i < |answer.records| { PickedGrows(answer, i + 1, name, kind); }
  }

  lemma Asks(past: seq<Question>, asked: seq<Question>, c: Chain, h: Hop)
    requires Genuine(past, c) && asked == past + [Question(h.name, h.kind)] && h.query == |past|
    ensures Genuine(asked, c + [h])
  {
    forall g | g in c + [h] ensures g.query < |asked| && asked[g.query] == Question(g.name, g.kind) {
      assert g in c || g == h;
    }
  }

  lemma LeadsNowhere(z: Zone, asked: seq<Question>, start: Name, kind: Kind)
    ensures Leads(z, [], start, kind, start) && AliasExpiry(z, []) == None && Genuine(asked, [])
  {
  }

  lemma HopFollows(z: Zone, c: Chain, h: Hop, start: Name, kind: Kind)
    requires Leads(z, c, start, kind, h.name) && h.kind == kind
    ensures Follows(z, c + [h], start, kind) && (c + [h])[|c + [h]| - 1] == h
  {
    assert (c + [h])[..|c|] == c;
  }

  lemma HopLeads(z: Zone, c: Chain, h: Hop, start: Name, kind: Kind, s: Sifted)
    requires Leads(z, c, start, kind, h.name) && h.kind == kind && Reports(z, h, s) && !s.nameError
    requires s.alias.Some? && s.alias.value.record.payload.Alias? && s.alias.value.record.payload.target.Some?
    requires s.alias.value.record.payload.target.value in z.permitted
    ensures Leads(z, c + [h], start, kind, s.alias.value.record.payload.target.value)
  {
    assert (c + [h])[..|c|] == c;
  }

  lemma HopFinds(z: Zone, c: Chain, h: Hop, start: Name, kind: Kind, s: Sifted)
    requires Leads(z, c, start, kind, h.name) && h.kind == kind && Reports(z, h, s)
    requires if s.nameError then s.records == [] else s.alias.None?
    ensures Finds(z, c + [h], start, kind) && Data(z, c + [h]) == s.records
    ensures LookupExpiry(z, c + [h])
         == Earlier(AliasExpiry(z, c + [h]), if s.records == [] then s.negativeExpires else Soonest(s.records))
  {
    HopFollows(z, c, h, start, kind);
  }

  lemma AliasStep(z: Zone, c: Chain, h: Hop, s: Sifted)
    requires Reports(z, h, s)
    ensures AliasExpiry(z, c + [h])
         == if s.alias.None? then AliasExpiry(z, c) else Earlier(AliasExpiry(z, c), Some(s.alias.value.deadline))
  {
    assert (c + [h])[..|c|] == c;
    if s.alias.Some? {
      assert [s.alias.value][..0] == [];
      assert Soonest([s.alias.value]) == Some(s.alias.value.deadline);
    }
  }
}

/** The S-NAPTR and SRV search (dnsdiam/discover.go): bounded in queries, depth and
    candidates, and every candidate has its route. */
module Discovery {
  import opened Octets
  import opened Srv
  import opened Lookups
  import opened Routes

  // ---- Where a search stands ---------------------------------------------------------------------------

  ghost function Entered(realm: Name, picks: seq<Naptr>): Name {
    if picks == [] then realm else Target(picks[|picks| - 1])
  }

  ghost function Before(realm: Name, picks: seq<Naptr>): set<Name> {
    if picks == [] then {} else Visited(realm, picks[..|picks| - 1])
  }

  /** The search has come along these lookups to these records. */
  ghost predicate At(z: Zone, asked: seq<Question>, realm: Name, transport: Transport, rewrites: seq<Chain>, picks: seq<Naptr>,
                     start: Option<int>, records: seq<Dated>) {
    && Reaches(z, realm, transport, rewrites, picks) && WayAsked(asked, rewrites) && |rewrites| == |picks| + 1
    && (picks != [] ==> LoopFree(realm, picks[..|picks| - 1]))
    && start == WayExpiry(z, rewrites) && records == Data(z, rewrites[|picks|])
  }

  lemma AtLater(z: Zone, asked: seq<Question>, more: seq<Question>, realm: Name, transport: Transport, rewrites: seq<Chain>,
                picks: seq<Naptr>, start: Option<int>, records: seq<Dated>)
    requires At(z, asked, realm, transport, rewrites, picks, start, records) && asked <= more
    ensures At(z, more, realm, transport, rewrites, picks, start, records)
  {
    hide Reaches, Genuine;
    forall c | c in rewrites ensures Genuine(more, c) {
      GenuineLater(asked, more, c);
    }
  }

  /** A name not visited before keeps the way free of loops. */
  lemma Entering(z: Zone, asked: seq<Question>, realm: Name, transport: Transport, rewrites: seq<Chain>, picks: seq<Naptr>,
                 start: Option<int>, records: seq<Dated>)
    requires At(z, asked, realm, transport, rewrites, picks, start, records) && Entered(realm, picks) !in Before(realm, picks)
    ensures |rewrites| == |picks| + 1 && records == Data(z, rewrites[|picks|])
    ensures LoopFree(realm, picks) && Before(realm, picks) + {Entered(realm, picks)} == Visited(realm, picks)
  {
    hide Reaches, WayExpiry, WayAsked;
  }

  lemma SuitsUsable(z: Zone, records: seq<Dated>, n: Naptr, transport: Transport, extended: bool)
    requires Backed(records, n) && (forall d :: d in records ==> WellFormed(d))
    requires Suits(z, n, transport, extended) && (extended <==> exists d :: d in records && Extended(d))
    ensures Usable(z, records, n, transport)
  {
    hide Suits, Backed;
  }

  lemma AtRoot(z: Zone, asked: seq<Question>, realm: Name, transport: Transport, root: Chain)
    requires Finds(z, root, realm, NAPTR) && Genuine(asked, root)
    ensures At(z, asked, realm, transport, [root], [], LookupExpiry(z, root), Data(z, root))
  {
    hide Finds, Genuine, LookupExpiry, Data;
    assert [root][..0] == [] && WayExpiry(z, []) == None;
    assert Earlier(None, LookupExpiry(z, root)) == LookupExpiry(z, root);
    forall c | c in [root] ensures Genuine(asked, c) {
      assert c == root;
    }
  }

  lemma AtStep(z: Zone, past: seq<Question>, asked: seq<Question>, realm: Name, transport: Transport, rewrites: seq<Chain>,
               picks: seq<Naptr>, start: Option<int>, n: Naptr, chain: Chain)
    requires |rewrites| == |picks| + 1 && At(z, past, realm, transport, rewrites, picks, start, Data(z, rewrites[|picks|]))
    requires past <= asked && LoopFree(realm, picks)
    requires Usable(z, Data(z, rewrites[|picks|]), n, transport) && n.flag.NonTerminal?
    requires Finds(z, chain, Target(n), NAPTR) && Genuine(asked, chain)
    ensures At(z, asked, realm, transport, rewrites + [chain], picks + [n], Earlier(start, LookupExpiry(z, chain)), Data(z, chain))
    ensures Entered(realm, picks + [n]) == Target(n) && Before(realm, picks + [n]) == Visited(realm, picks)
  {
    hide Finds, Genuine, Usable, Data, LookupExpiry;
    AtLater(z, past, asked, realm, transport, rewrites, picks, start, Data(z, rewrites[|picks|]));
    assert (rewrites + [chain])[..|rewrites|] == rewrites && (picks + [n])[..|picks|] == picks;
  }

  /** A candidate for one server of the service, with what led to it. */
  ghost predicate Served(z: Zone, asked: seq<Question>, c: Candidate, e: End, service: Chain, name: Name,
                         transport: Transport, start: Option<int>, n: Naptr) {
    && Ended(z, c, e, name, start) && e.service == Some(service) && EndAsked(asked, e)
    && c.transport == transport && c.order == n.order && c.preference == n.preference
  }

  ghost predicate AllServed(z: Zone, asked: seq<Question>, found: seq<Candidate>, ends: seq<End>, service: Chain, name: Name,
                            transport: Transport, start: Option<int>, n: Naptr) {
    |found| == |ends| && forall i :: 0 <= i < |found| ==> Served(z, asked, found[i], ends[i], service, name, transport, start, n)
  }

  lemma ServedLater(z: Zone, asked: seq<Question>, more: seq<Question>, found: seq<Candidate>, ends: seq<End>, service: Chain,
                    name: Name, transport: Transport, start: Option<int>, n: Naptr)
    requires AllServed(z, asked, found, ends, service, name, transport, start, n) && asked <= more
    ensures AllServed(z, more, found, ends, service, name, transport, start, n)
  {
    hide Ended;
    forall i | 0 <= i < |found| ensures Served(z, more, found[i], ends[i], service, name, transport, start, n) {
      assert Served(z, asked, found[i], ends[i], service, name, transport, start, n);
      GenuineLater(asked, more, ends[i].v4);
    }
  }

  lemma NoneServed(z: Zone, asked: seq<Question>, ordered: seq<SRV>, service: Chain, name: Name,
                   transport: Transport, start: Option<int>, n: Naptr)
    ensures AllServed(z, asked, [], [], service, name, transport, start, n) && ByPriority([]) && NotBehind([], ordered, 0)
  {
  }

  lemma ServedMore(z: Zone, asked: seq<Question>, found: seq<Candidate>, ends: seq<End>, c: Candidate, e: End, service: Chain,
                   name: Name, transport: Transport, start: Option<int>, n: Naptr)
    requires AllServed(z, asked, found, ends, service, name, transport, start, n)
    requires Served(z, asked, c, e, service, name, transport, start, n)
    ensures AllServed(z, asked, found + [c], ends + [e], service, name, transport, start, n)
  {
    hide Served;
  }

  ghost function Along(way: Way, ends: seq<End>): seq<Route> {
    seq(|ends|, i requires 0 <= i < |ends| => Route(way, ends[i]))
  }

  lemma RoutedToHost(z: Zone, asked: seq<Question>, realm: Name, depth: nat, way: Way, start: Option<int>, n: Naptr,
                     c: Candidate, r: Route)
    requires way.last == Some(n) && |way.rewrites| == |way.picks| + 1 <= depth && LoopFree(realm, way.picks)
    requires At(z, asked, realm, c.transport, way.rewrites, way.picks, start, Data(z, way.rewrites[|way.picks|]))
    requires Usable(z, Data(z, way.rewrites[|way.picks|]), n, c.transport) && n.flag.Address?
    requires c.order == n.order && c.preference == n.preference && c.priority == 0 && c.weight == 0
    requires c.host == Target(n) && c.port == DefaultPort(c.transport)
    requires r == Route(way, End(None, NO_SERVER, r.end.v4, r.end.v6)) && Genuine(asked, r.end.v4) && Genuine(asked, r.end.v6)
    requires Addressed(z, c.addresses, c.host, false, r.end.v4, r.end.v6)
    requires Some(c.expires) == HostExpiry(z, HostExpiry(z, start, r.end.v4), r.end.v6)
    ensures AllAccounted(z, asked, realm, depth, [c], [r])
  {
    hide Reaches, WayExpiry, LoopFree, WayAsked, Addressed, HostExpiry, Genuine, Backed, Data, AllAccounted;
    OneAccounted(z, asked, realm, depth, c, r);
  }

  lemma RoutedByRecord(z: Zone, asked: seq<Question>, realm: Name, depth: nat, transport: Transport, way: Way, start: Option<int>,
                       n: Naptr, service: Chain, found: seq<Candidate>, ends: seq<End>)
    requires way.last == Some(n) && |way.rewrites| == |way.picks| + 1 <= depth && LoopFree(realm, way.picks)
    requires At(z, asked, realm, transport, way.rewrites, way.picks, start, Data(z, way.rewrites[|way.picks|]))
    requires Usable(z, Data(z, way.rewrites[|way.picks|]), n, transport) && n.flag.Service?
    requires AllServed(z, asked, found, ends, service, Target(n), transport, start, n)
    ensures AllAccounted(z, asked, realm, depth, found, Along(way, ends)) && Over(found, transport)
  {
    hide Ended, Reaches, WayExpiry, Usable, LoopFree, EndAsked, WayAsked;
    forall i | 0 <= i < |found| ensures Accounted(z, asked, realm, depth, found[i], Along(way, ends)[i]) {
      assert Served(z, asked, found[i], ends[i], service, Target(n), transport, start, n);
    }
  }

  lemma RoutedDirectly(z: Zone, asked: seq<Question>, realm: Name, depth: nat, transport: Transport, root: Chain, n: Naptr,
                       service: Chain, found: seq<Candidate>, ends: seq<End>)
    requires Finds(z, root, realm, NAPTR) && Genuine(asked, root) && Data(z, root) == [] && 0 < depth
    requires n.order == 0 && n.preference == 0
    requires AllServed(z, asked, found, ends, service, ServiceName(realm, transport), transport, LookupExpiry(z, root), n)
    ensures AllAccounted(z, asked, realm, depth, found, Along(Way([root], [], None), ends)) && Over(found, transport)
  {
    hide Ended, EndAsked, Finds, Genuine, LookupExpiry;
    var way := Way([root], [], None);
    AtRoot(z, asked, realm, transport, root);
    forall i | 0 <= i < |found| ensures Accounted(z, asked, realm, depth, found[i], Along(way, ends)[i]) {
      assert Served(z, asked, found[i], ends[i], service, ServiceName(realm, transport), transport, LookupExpiry(z, root), n);
    }
  }

  // ---- The order of NAPTR records ----------------------------------------------------------------------

  predicate Precedes(a: Naptr, b: Naptr) {
    a.order < b.order || (a.order == b.order && a.preference <= b.preference)
  }

  function InsertNaptr(s: seq<Naptr>, x: Naptr): (r: seq<Naptr>)
    ensures forall n :: n in r <==> n in s || n == x
  {
    if s == [] || Precedes(s[|s| - 1], x) then s + [x]
    else
      assert s == s[..|s| - 1] + [s[|s| - 1]];
      InsertNaptr(s[..|s| - 1], x) + [s[|s| - 1]]
  }

  /** The stable sort by order and preference. */
  function InOrder(s: seq<Naptr>): (r: seq<Naptr>)
    ensures forall n :: n in r <==> n in s
  {
    if s == [] then []
    else
      assert s == s[..|s| - 1] + [s[|s| - 1]];
      InsertNaptr(InOrder(s[..|s| - 1]), s[|s| - 1])
  }

  ghost predicate Preferred(s: seq<Naptr>) {
    forall i, j :: 0 <= i < j < |s| ==> Precedes(s[i], s[j])
  }

  lemma {:induction false} InsertPreferred(s: seq<Naptr>, x: Naptr)
    requires Preferred(s)
    ensures Preferred(InsertNaptr(s, x))
  {
    if s != [] && !Precedes(s[|s| - 1], x) {
      var last := |s| - 1;
      var front := InsertNaptr(s[..last], x);
      InsertPreferred(s[..last], x);
      forall i | 0 <= i < |front| ensures Precedes(front[i], s[last]) {
        assert front[i] in front;
      }
      assert InsertNaptr(s, x) == front + [s[last]];
    }
  }

  /** Lower order first, then lower preference (RFC 3958 section 2.2). */
  lemma {:induction false} InOrderPreferred(s: seq<Naptr>)
    ensures Preferred(InOrder(s))
  {
    if s != [] {
      InOrderPreferred(s[..|s| - 1]);
      InsertPreferred(InOrder(s[..|s| - 1]), s[|s| - 1]);
    }
  }

  // ---- Nothing usable is passed over -------------------------------------------------------------------

  function Wanted(f: Flag): Kind {
    match f
    case Service => SRVKind
    case Address => A
    case NonTerminal => NAPTR
    case Unusable => CNAME
  }

  /** Every usable record was followed: the question it leads to was asked. */
  ghost predicate Pursued(z: Zone, asked: seq<Question>, records: seq<Dated>, transport: Transport) {
    forall n :: Usable(z, records, n, transport) && |Target(n)| <= MAX_NAME ==> Question(Target(n), Wanted(n.flag)) in asked
  }

  lemma Malformed(z: Zone, asked: seq<Question>, records: seq<Dated>, transport: Transport)
    requires exists d :: d in records && !WellFormed(d)
    ensures Pursued(z, asked, records, transport)
  {
  }

  lemma AllFormed(records: seq<Dated>)
    requires forall d :: d in records ==> WellFormed(d)
    ensures forall n :: Backed(records, n) ==> n.service.Some?
  {
  }

  lemma AnyExtended(records: seq<Dated>, naptrs: seq<Naptr>)
    requires (forall d :: d in records ==> WellFormed(d)) && forall n :: n in naptrs <==> Backed(records, n)
    requires forall n :: n in naptrs ==> n.service.Some?
    ensures (exists n :: n in naptrs && n.service.value.extended) <==> exists d :: d in records && Extended(d)
  {
    if n :| n in naptrs && n.service.value.extended {
      var d :| d in records && d.record.payload == Rewrite(n);
      assert Extended(d);
    }
    if d :| d in records && Extended(d) {
      assert Backed(records, d.record.payload.naptr);
    }
  }

  ghost predicate FollowedUp(z: Zone, asked: seq<Question>, n: Naptr, transport: Transport, extended: bool) {
    Suits(z, n, transport, extended) && |Target(n)| <= MAX_NAME ==> Question(Target(n), Wanted(n.flag)) in asked
  }

  lemma AllPursued(z: Zone, asked: seq<Question>, records: seq<Dated>, naptrs: seq<Naptr>, transport: Transport, extended: bool)
    requires forall n :: n in naptrs <==> Backed(records, n)
    requires extended <==> exists d :: d in records && Extended(d)
    requires forall j :: 0 <= j < |naptrs| ==> FollowedUp(z, asked, naptrs[j], transport, extended)
    ensures Pursued(z, asked, records, transport)
  {
    forall n | Usable(z, records, n, transport) && |Target(n)| <= MAX_NAME ensures Question(Target(n), Wanted(n.flag)) in asked {
      var j :| 0 <= j < |naptrs| && naptrs[j] == n;
      assert FollowedUp(z, asked, naptrs[j], transport, extended);
    }
  }

  /** Every server at a permitted host was tried. */
  ghost predicate Tried(z: Zone, asked: seq<Question>, v: SRV) {
    v.target in z.hosts && z.hosts[v.target] in z.permitted && |z.hosts[v.target]| <= MAX_NAME
    ==> Question(z.hosts[v.target], A) in asked
  }

  ghost predicate AllTried(z: Zone, asked: seq<Question>, servers: seq<SRV>) {
    forall v :: v in servers ==> v.target != "." && Tried(z, asked, v)
  }

  lemma TriedLater(z: Zone, asked: seq<Question>, more: seq<Question>, servers: seq<SRV>)
    requires AllTried(z, asked, servers) && asked <= more
    ensures AllTried(z, more, servers)
  {
  }

  /** Each record is a server, none says that there is no service, and every
      one at a permitted host was tried. */
  ghost predicate Exhausted(z: Zone, asked: seq<Question>, records: seq<Dated>) {
    forall d :: d in records ==>
      d.record.payload.Server? && d.record.payload.srv.target != "." && Tried(z, asked, d.record.payload.srv)
  }

  ghost predicate ByPriority(found: seq<Candidate>) {
    forall i, j :: 0 <= i < j < |found| ==> found[i].priority <= found[j].priority
  }

  /** No candidate found comes behind a server still to be tried. */
  ghost predicate NotBehind(found: seq<Candidate>, ordered: seq<SRV>, i: nat) {
    forall c, j :: c in found && i <= j < |ordered| ==> c.priority <= ordered[j].priority
  }

  lemma NotBehindNext(found: seq<Candidate>, ordered: seq<SRV>, i: nat)
    requires NotBehind(found, ordered, i)
    ensures NotBehind(found, ordered, i + 1)
  {
  }

  lemma PriorityMore(found: seq<Candidate>, ordered: seq<SRV>, i: nat, c: Candidate)
    requires i < |ordered| && Ascending(ordered) && c.priority == ordered[i].priority
    requires ByPriority(found) && NotBehind(found, ordered, i)
    ensures ByPriority(found + [c]) && NotBehind(found + [c], ordered, i + 1)
  {
    forall b, j | b in found + [c] && i + 1 <= j < |ordered| ensures b.priority <= ordered[j].priority {
      assert b in found || b == c;
    }
    forall k | 0 <= k < |found| ensures found[k].priority <= c.priority {
      assert found[k] in found;
    }
  }

  ghost function ServersOf(records: seq<Dated>): seq<SRV>
    requires forall d :: d in records ==> d.record.payload.Server?
  {
    seq(|records|, i requires 0 <= i < |records| => assert records[i] in records; records[i].record.payload.srv)
  }

  /** The servers as ordered are those on record. */
  lemma SameServers(records: seq<Dated>, servers: seq<SRV>, ordered: seq<SRV>)
    requires |servers| == |records| && forall i :: 0 <= i < |records| ==> records[i].record.payload == Server(servers[i])
    requires multiset(servers) == multiset(ordered)
    ensures forall v :: v in ordered ==> Offering(records, v)
    ensures forall d :: d in records ==> d.record.payload.Server? && d.record.payload.srv in ordered
  {
    forall v ensures v in servers <==> v in ordered {
      assert v in servers <==> v in multiset(servers);
      assert v in ordered <==> v in multiset(ordered);
    }
    forall v | v in ordered ensures Offering(records, v) {
      var i :| 0 <= i < |servers| && servers[i] == v;
      assert records[i] in records;
    }
  }

  /** No transport given asks for TLS. */
  function Requested(transports: seq<Transport>): seq<Transport> {
    if transports == [] then [TLS] else transports
  }

  ghost predicate Repeats(transports: seq<Transport>) {
    exists i, j :: 0 <= i < j < |transports| && transports[i] == transports[j]
  }

  /** Where the search for one transport begins was asked about. */
  ghost predicate Sought(z: Zone, asked: seq<Question>, realm: Name, records: seq<Dated>, t: Transport) {
    if records == [] then |ServiceName(realm, t)| <= MAX_NAME ==> Question(ServiceName(realm, t), SRVKind) in asked
    else Pursued(z, asked, records, t)
  }

  lemma SoughtLater(z: Zone, asked: seq<Question>, more: seq<Question>, realm: Name, records: seq<Dated>, ts: seq<Transport>)
    requires asked <= more && forall j :: 0 <= j < |ts| ==> Sought(z, asked, realm, records, ts[j])
    ensures forall j :: 0 <= j < |ts| ==> Sought(z, more, realm, records, ts[j])
  {
  }

  ghost predicate Over(found: seq<Candidate>, transport: Transport) {
    forall c :: c in found ==> c.transport == transport
  }

  predicate OfFamily(d: Dated, v6: bool) {
    d.record.payload.Numeric? && d.record.payload.address.V6? == v6
  }

  /** How one turn of a lookup ends. */
  datatype Turned = Settled(found: Found) | Onward(name: Name, expires: Option<int>)

  class Search {
    const zone: Zone
    const maxQueries: nat
    const maxDepth: nat
    const maxCandidates: nat
    var queries: nat
    ghost var asked: seq<Question>

    ghost predicate Valid()
      reads this
    {
      queries == |asked| <= maxQueries && 0 < maxDepth
    }

    constructor (zone: Zone, maxQueries: nat, maxDepth: nat, maxCandidates: nat)
      requires 0 < maxDepth
      ensures Valid() && asked == [] && this.zone == zone
      ensures this.maxQueries == maxQueries && this.maxDepth == maxDepth && this.maxCandidates == maxCandidates
    {
      this.zone, this.maxQueries, this.maxDepth, this.maxCandidates := zone, maxQueries, maxDepth, maxCandidates;
      queries, asked := 0, [];
    }

    /** query: the next reply, unless the budget is used up. */
    method Query(name: Name, kind: Kind) returns (r: Result<Answer>)
      requires Valid()
      modifies this
      ensures Valid()
      ensures old(queries) == maxQueries ==> r == Fail(Limit) && asked == old(asked)
      ensures old(queries) < maxQueries ==> r == Received(zone, old(queries)) && asked == old(asked) + [Question(name, kind)]
    {
      if queries >= maxQueries { return Fail(Limit); }
      r := if queries < |zone.replies| then zone.replies[queries] else Fail(DNS);
      queries, asked := queries + 1, asked + [Question(name, kind)];
      if r.Ok? && |r.value.records| > MAX_RECORDS { r := Fail(Limit); }
    }

    /** The records of one answer that belong to `name`: its alias, if any, and
        those asked for. It is refused if an owner is no name, or there is an
        alias too many or beside the records asked for. */
    method Sift(answer: Answer, name: Name, kind: Kind, noAlias: bool)
      returns (r: Result<(Option<Dated>, seq<Dated>)>)
      requires kind != CNAME
      ensures r.Ok? || r == Fail(Invalid)
      ensures r.Ok? ==> r.value.1 == Picked(answer, |answer.records|, name, kind)
      ensures r.Ok? ==> Picked(answer, |answer.records|, name, CNAME) == if r.value.0.None? then [] else [r.value.0.value]
      ensures r.Ok? <==> Orderly(answer, name, kind, noAlias)
    {
      hide Orderly, Picked;
      PickedNone(answer, name, kind);
      var alias: Option<Dated>, records: seq<Dated> := None, [];
      for i := 0 to |answer.records|
        invariant records == Picked(answer, i, name, kind)
        invariant Picked(answer, i, name, CNAME) == if alias.None? then [] else [alias.value]
        invariant noAlias ==> alias.None?
        invariant forall j :: 0 <= j < i ==> answer.records[j].owner.Some?
      {
        var record := answer.records[i];
        PickedStep(answer, i, name, kind);
        if record.owner.None? {
          Nameless(answer, name, kind, noAlias, i);
          return Fail(Invalid);
        }
        if record.owner.value == name {
          var dated := Dated(record, TtlDeadline(answer.receivedAt, record.ttl));
          if record.kind == CNAME {
            if noAlias || alias.Some? {
              Overaliased(answer, name, kind, noAlias, i + 1);
              return Fail(Invalid);
            }
            alias := Some(dated);
          } else if record.kind == kind {
            records := records + [dated];
          }
        }
      }
      InOrderly(answer, name, kind, noAlias);
      if alias.Some? && records != [] { return Fail(Invalid); }
      r := Ok((alias, records));
    }

    /** Ask one question and sift the answer. */
    method Ask(name: Name, kind: Kind, noAlias: bool) returns (r: Result<Sifted>)
      requires Valid() && kind != CNAME
      modifies this
      ensures Valid()
      ensures old(queries) == maxQueries ==> r == Fail(Limit) && asked == old(asked)
      ensures old(queries) < maxQueries ==> asked == old(asked) + [Question(name, kind)]
      ensures r == Fail(DNS) ==> Received(zone, old(queries)) == Fail(DNS)
      ensures r.Ok? ==> Reports(zone, Hop(old(queries), name, kind), r.value) && (noAlias ==> r.value.alias.None?)
    {
      var answer := Query(name, kind);
      if answer.Fail? { return Fail(answer.err); }
      var sifted := Sift(answer.value, name, kind, noAlias);
      if sifted.Fail? { return Fail(sifted.err); }
      r := Ok(Sifted(sifted.value.0, sifted.value.1, answer.value.nameError, answer.value.negativeExpires));
    }

    /** One turn of a lookup that has come to `name`: it ends, or goes on to an alias. */
    method Turn(name: Name, kind: Kind, noAlias: bool, expires: Option<int>, ghost start: Name, ghost chain: Chain)
      returns (r: Result<Turned>, ghost longer: Chain)
      requires Valid() && kind != CNAME && Genuine(asked, chain)
      requires Leads(zone, chain, start, kind, name) && expires == AliasExpiry(zone, chain)
      modifies this
      ensures Valid() && old(asked) <= asked && queries <= old(queries) + 1
      ensures Genuine(asked, longer) && |longer| <= |chain| + 1
      ensures r.Ok? && r.value.Settled? ==>
                Finds(zone, longer, start, kind) && r.value.found == Found(Data(zone, longer), LookupExpiry(zone, longer))
      ensures r.Ok? && r.value.Onward? ==>
                !noAlias && Leads(zone, longer, start, kind, r.value.name) && r.value.expires == AliasExpiry(zone, longer)
      ensures r == Fail(DNS) ==> Follows(zone, longer, start, kind) && Received(zone, longer[|longer| - 1].query) == Fail(DNS)
      ensures r != Fail(Limit) ==> Question(name, kind) in asked
    {
      hide Leads, AliasExpiry, Genuine, Soonest, LookupExpiry, Data, Finds, Follows, Received, Held, Reports, AliasOf;
      longer := chain;
      ghost var hop, past, left := Hop(queries, name, kind), asked, queries < maxQueries;
      var answer := Ask(name, kind, noAlias);
      if left {
        Asks(past, asked, chain, hop);
        HopFollows(zone, chain, hop, start, kind);
        longer := chain + [hop];
        assert asked[|past|] == Question(name, kind);
      }
      if answer.Fail? { return Fail(answer.err), longer; }
      var alias, records := answer.value.alias, answer.value.records;
      var soonest := expires;
      if alias.Some? {
        soonest := Earlier(expires, Some(alias.value.deadline));
        if !alias.value.record.payload.Alias? || alias.value.record.payload.target.None? { return Fail(Invalid), longer; }
        if alias.value.record.payload.target.value !in zone.permitted { return Fail(Unauthorized), longer; }
      }
      AliasStep(zone, chain, hop, answer.value);
      if answer.value.nameError || records != [] || alias.None? {
        soonest := Earlier(soonest, if records == [] then answer.value.negativeExpires else Soonest(records));
        if answer.value.nameError && records != [] { return Fail(Invalid), longer; }
        HopFinds(zone, chain, hop, start, kind, answer.value);
        return Ok(Settled(Found(records, soonest))), longer;
      }
      HopLeads(zone, chain, hop, start, kind, answer.value);
      r := Ok(Onward(alias.value.record.payload.target.value, soonest));
    }

    /** lookup: follow aliases, at most maxDepth of them. */
    method Lookup(start: Name, kind: Kind, noAlias: bool) returns (r: Result<Found>, ghost chain: Chain)
      requires Valid() && kind != CNAME
      modifies this
      ensures Valid() && old(asked) <= asked && queries <= old(queries) + maxDepth && Genuine(asked, chain)
      ensures r.Ok? ==> Finds(zone, chain, start, kind) && r.value == Found(Data(zone, chain), LookupExpiry(zone, chain))
      ensures r == Fail(DNS) ==> Follows(zone, chain, start, kind) && Received(zone, chain[|chain| - 1].query) == Fail(DNS)
      ensures noAlias ==> |chain| <= 1
      ensures r != Fail(Limit) && |start| <= MAX_NAME ==> Question(start, kind) in asked
    {
      hide Leads, AliasExpiry, Genuine, LookupExpiry, Data, Finds, Follows, Received;
      chain := [];
      LeadsNowhere(zone, asked, start, kind);
      if |start| > MAX_NAME { return Fail(Invalid), []; }
      var name, seen: set<Name>, expires: Option<int>, steps := start, {}, None, 0;
      while steps < maxDepth
        invariant Valid() && old(asked) <= asked && queries <= old(queries) + steps && steps <= maxDepth
        invariant Genuine(asked, chain) && Leads(zone, chain, start, kind, name) && expires == AliasExpiry(zone, chain)
        invariant noAlias ==> chain == []
        invariant if steps == 0 then chain == [] && name == start else !noAlias && Question(start, kind) in asked
        decreases maxDepth - steps
      {
        if name in seen { return Fail(Limit), chain; }
        seen, steps := seen + {name}, steps + 1;
        var turned;
        turned, chain := Turn(name, kind, noAlias, expires, start, chain);
        if turned.Fail? { return Fail(turned.err), chain; }
        if turned.value.Settled? { return Ok(turned.value.found), chain; }
        name, expires := turned.value.name, turned.value.expires;
      }
      r := Fail(Limit);
    }

    /** One family of a host's addresses, behind those known. */
    method ResolveFamily(host: Name, v6: bool, noAlias: bool, addresses: seq<Addr>, expiry: Option<int>)
      returns (r: Result<(seq<Addr>, Option<int>)>, ghost c: Chain)
      requires Valid()
      modifies this
      ensures Valid() && old(asked) <= asked
      ensures r.Ok? ==> LookedUp(zone, c, host, if v6 then AAAA else A, noAlias) && Genuine(asked, c)
      ensures r.Ok? ==> r.value == (Gather(addresses, Data(zone, c)), HostExpiry(zone, expiry, c))
      ensures r != Fail(Limit) && |host| <= MAX_NAME ==> Question(host, if v6 then AAAA else A) in asked
    {
      hide Leads, Genuine, AliasExpiry, LookupExpiry, Picked;
      var data;
      data, c := Lookup(host, if v6 then AAAA else A, noAlias);
      if data.Fail? {
        if data.err != DNS { return Fail(data.err), c; }
        return Ok((addresses, expiry)), c;
      }
      if data.value.records == [] { return Ok((addresses, expiry)), c; }
      var more := AddAddresses(addresses, data.value.records, v6);
      if more.None? { return Fail(Invalid), c; }
      r := Ok((more.value, Earlier(expiry, data.value.expires)));
    }

    /** resolveHost: both address families, within what the caller's records allow. */
    method ResolveHost(host: Name, transport: Transport, port: nat, start: Option<int>, n: Naptr, srv: SRV, noAlias: bool)
      returns (r: Result<Candidate>, ghost v4: Chain, ghost v6: Chain)
      requires Valid()
      modifies this
      ensures Valid() && old(asked) <= asked
      ensures r.Ok? ==> Addressed(zone, r.value.addresses, host, noAlias, v4, v6) && Genuine(asked, v4) && Genuine(asked, v6)
      ensures r.Ok? ==> Some(r.value.expires) == HostExpiry(zone, HostExpiry(zone, start, v4), v6)
      ensures r.Ok? ==> r.value == Candidate(transport, host, port, r.value.addresses, r.value.expires,
                                             n.order, n.preference, srv.priority, srv.weight)
      ensures r != Fail(Limit) && |host| <= MAX_NAME ==> Question(host, A) in asked
    {
      hide LookedUp, Gather, HostExpiry;
      v6 := [];
      var first, second;
      first, v4 := ResolveFamily(host, false, noAlias, [], start);
      if first.Fail? { return Fail(first.err), v4, v6; }
      ghost var past := asked;
      second, v6 := ResolveFamily(host, true, noAlias, first.value.0, first.value.1);
      if second.Fail? { return Fail(second.err), v4, v6; }
      GenuineLater(past, asked, v4);
      var addresses, expiry := second.value.0, second.value.1;
      if addresses == [] { return Fail(NoService), v4, v6; }
      if expiry.None? { return Fail(Invalid), v4, v6; }
      r := Ok(Candidate(transport, host, port, addresses, expiry.value, n.order, n.preference, srv.priority, srv.weight));
    }

    /** One server of a service: its host must be a permitted name and resolve. */
    method ResolveServer(v: SRV, transport: Transport, expiry: Option<int>, n: Naptr,
                         ghost service: Chain, ghost name: Name, ghost start: Option<int>)
      returns (r: Result<Candidate>, ghost e: End)
      requires Valid() && Finds(zone, service, name, SRVKind) && Genuine(asked, service) && Offering(Data(zone, service), v)
      requires expiry == Earlier(start, LookupExpiry(zone, service))
      modifies this
      ensures Valid() && old(asked) <= asked && Genuine(asked, service)
      ensures r.Ok? ==> Served(zone, asked, r.value, e, service, name, transport, start, n) && r.value.priority == v.priority
      ensures r != Fail(Limit) ==> Tried(zone, asked, v)
    {
      hide Finds, Genuine, Data, LookupExpiry, Addressed, HostExpiry, Offering;
      e := End(Some(service), v, [], []);
      if v.target !in zone.hosts { return Fail(Invalid), e; }
      if zone.hosts[v.target] !in zone.permitted { return Fail(Unauthorized), e; }
      ghost var past := asked;
      ghost var v4, v6;
      r, v4, v6 := ResolveHost(zone.hosts[v.target], transport, v.port, expiry, n, v, true);
      GenuineLater(past, asked, service);
      e := End(Some(service), v, v4, v6);
    }

    /** resolveSRV: the servers in weighted order, those that resolve. */
    method ResolveSRV(name: Name, transport: Transport, start: Option<int>, n: Naptr)
      returns (r: Result<seq<Candidate>>, ghost service: Chain, ghost ends: seq<End>)
      requires Valid()
      modifies this
      ensures Valid() && old(asked) <= asked
      ensures r.Ok? ==> 0 < |r.value| <= maxCandidates && AllServed(zone, asked, r.value, ends, service, name, transport, start, n)
      ensures r.Ok? ==> ByPriority(r.value) && Exhausted(zone, asked, Data(zone, service))
      ensures r != Fail(Limit) && |name| <= MAX_NAME ==> Question(name, SRVKind) in asked
    {
      hide Finds, Genuine, Data, LookupExpiry, Order, Ascending, Offering, Served, AllServed, ByPriority, NotBehind, Tried;
      ends := [];
      var data;
      data, service := Lookup(name, SRVKind, false);
      if data.Fail? { return Fail(data.err), service, []; }
      if data.value.records == [] { return Fail(NoService), service, []; }
      var expiry := Earlier(start, data.value.expires);
      var ordered, _ := Ranked(data.value.records);
      if ordered.None? { return Fail(Invalid), service, []; }
      var found: seq<Candidate> := [];
      NoneServed(zone, asked, ordered.value, service, name, transport, start, n);
      for i := 0 to |ordered.value|
        invariant Valid() && old(asked) <= asked && Genuine(asked, service)
        invariant |name| <= MAX_NAME ==> Question(name, SRVKind) in asked
        invariant |found| <= maxCandidates && AllServed(zone, asked, found, ends, service, name, transport, start, n)
        invariant ByPriority(found) && NotBehind(found, ordered.value, i) && AllTried(zone, asked, ordered.value[..i])
      {
        var v := ordered.value[i];
        assert ordered.value[..i + 1] == ordered.value[..i] + [v];
        NotBehindNext(found, ordered.value, i);
        if v.target == "." { return Fail(NoService), service, []; }
        ghost var past := asked;
        ghost var e;
        var c;
        c, e := ResolveServer(v, transport, expiry, n, service, name, start);
        if c == Fail(Limit) { return Fail(Limit), service, []; }
        TriedLater(zone, past, asked, ordered.value[..i]);
        ServedLater(zone, past, asked, found, ends, service, name, transport, start, n);
        if c.Ok? {
          ServedMore(zone, asked, found, ends, c.value, e, service, name, transport, start, n);
          PriorityMore(found, ordered.value, i, c.value);
          found, ends := found + [c.value], ends + [e];
          if |found| > maxCandidates { return Fail(Limit), service, []; }
        }
      }
      if found == [] { return Fail(NoService), service, []; }
      assert ordered.value[..|ordered.value|] == ordered.value;
      r := Ok(found);
    }

    /** walk: the NAPTR records in order, non-terminal ones followed to a depth. */
    method Walk(name: Name, data: Found, transport: Transport, start: Option<int>, path: set<Name>, depth: nat,
                ghost realm: Name, ghost rewrites: seq<Chain>, ghost picks: seq<Naptr>)
      returns (r: Result<seq<Candidate>>, ghost routes: seq<Route>)
      requires Valid() && At(zone, asked, realm, transport, rewrites, picks, start, data.records)
      requires depth == |picks| && name == Entered(realm, picks) && path == Before(realm, picks)
      modifies this
      ensures Valid() && old(asked) <= asked
      ensures depth >= maxDepth || name in path ==> r == Fail(Limit)
      ensures r.Ok? ==> 0 < |r.value| <= maxCandidates && AllAccounted(zone, asked, realm, maxDepth, r.value, routes)
      ensures r.Ok? ==> Over(r.value, transport)
      ensures r != Fail(Limit) ==> Pursued(zone, asked, data.records, transport)
      decreases if depth < maxDepth then maxDepth - depth else 0, 1
    {
      hide AllAccounted, Suits, Data, Backed, Pursued, At, LoopFree, Visited, Before, Entered, Usable;
      routes := [];
      if depth >= maxDepth || name in path { return Fail(Limit), []; }
      Entering(zone, asked, realm, transport, rewrites, picks, start, data.records);
      var rules := Rewrites(data.records);
      if rules.None? {
        Malformed(zone, asked, data.records, transport);
        return Fail(Invalid), [];
      }
      var naptrs := InOrder(rules.value);
      assert forall n :: n in naptrs <==> Backed(data.records, n);
      AllFormed(data.records);
      var extended := exists n :: n in naptrs && n.service.value.extended;
      AnyExtended(data.records, naptrs);
      var found: seq<Candidate> := [];
      NoneAccounted(zone, asked, realm, maxDepth);
      for i := 0 to |naptrs|
        invariant Valid() && old(asked) <= asked && At(zone, asked, realm, transport, rewrites, picks, start, data.records)
        invariant |found| <= maxCandidates && AllAccounted(zone, asked, realm, maxDepth, found, routes) && Over(found, transport)
        invariant forall j :: 0 <= j < i ==> FollowedUp(zone, asked, naptrs[j], transport, extended)
      {
        var n := naptrs[i];
        if Suits(zone, n, transport, extended) {
          assert Usable(zone, data.records, n, transport) by { SuitsUsable(zone, data.records, n, transport, extended); }
          ghost var past := asked;
          ghost var reached;
          var more;
          more, reached := Follow(n, transport, start, path + {name}, depth, realm, rewrites, picks);
          if more == Fail(Limit) { return Fail(Limit), []; }
          AtLater(zone, past, asked, realm, transport, rewrites, picks, start, data.records);
          AllLater(zone, past, asked, realm, maxDepth, found, routes);
          if more.Ok? {
            AllBoth(zone, asked, realm, maxDepth, found, routes, more.value, reached);
            found, routes := found + more.value, routes + reached;
            if |found| > maxCandidates { return Fail(Limit), []; }
          }
        }
      }
      AllPursued(zone, asked, data.records, naptrs, transport, extended);
      if found == [] { return Fail(NoService), []; }
      r := Ok(found);
    }

    /** Where one NAPTR record leads: servers, a host, or further records. */
    method Follow(n: Naptr, transport: Transport, start: Option<int>, path: set<Name>, depth: nat,
                  ghost realm: Name, ghost rewrites: seq<Chain>, ghost picks: seq<Naptr>)
      returns (r: Result<seq<Candidate>>, ghost routes: seq<Route>)
      requires Valid() && |rewrites| == |picks| + 1
      requires At(zone, asked, realm, transport, rewrites, picks, start, Data(zone, rewrites[|picks|]))
      requires depth == |picks| < maxDepth && LoopFree(realm, picks) && path == Visited(realm, picks)
      requires Usable(zone, Data(zone, rewrites[|picks|]), n, transport)
      modifies this
      ensures Valid() && old(asked) <= asked
      ensures r.Ok? ==> AllAccounted(zone, asked, realm, maxDepth, r.value, routes) && Over(r.value, transport)
      ensures r != Fail(Limit) && |Target(n)| <= MAX_NAME ==> Question(Target(n), Wanted(n.flag)) in asked
      decreases maxDepth - depth, 0
    {
      hide AllAccounted, Finds, AllServed, Addressed, HostExpiry, Genuine, LookupExpiry, Backed, At, LoopFree, Visited,
           Before, Entered, Data, Sourced, WayExpiry;
      routes := [];
      var target := n.replacement.value;
      ghost var way := Way(rewrites, picks, Some(n));
      ghost var past := asked;
      match n.flag
      case Service =>
        ghost var service, ends;
        r, service, ends := ResolveSRV(target, transport, start, n);
        AtLater(zone, past, asked, realm, transport, rewrites, picks, start, Data(zone, rewrites[|picks|]));
        if r.Ok? {
          routes := Along(way, ends);
          RoutedByRecord(zone, asked, realm, maxDepth, transport, way, start, n, service, r.value, ends);
        }
      case Address =>
        var c;
        ghost var v4, v6;
        c, v4, v6 := ResolveHost(target, transport, DefaultPort(transport), start, n, NO_SERVER, false);
        AtLater(zone, past, asked, realm, transport, rewrites, picks, start, Data(zone, rewrites[|picks|]));
        if c.Fail? { return Fail(c.err), []; }
        r, routes := Ok([c.value]), [Route(way, End(None, NO_SERVER, v4, v6))];
        RoutedToHost(zone, asked, realm, maxDepth, way, start, n, c.value, routes[0]);
      case NonTerminal =>
        var next;
        ghost var chain;
        next, chain := Lookup(target, NAPTR, false);
        if next.Fail? { return Fail(next.err), []; }
        AtStep(zone, past, asked, realm, transport, rewrites, picks, start, n, chain);
        r, routes := Walk(target, next.value, transport, Earlier(start, next.value.expires), path, depth + 1,
                          realm, rewrites + [chain], picks + [n]);
      case Unusable => return Fail(Invalid), [];
    }

    /** Discover: every transport in turn, from the realm's own records. */
    method Discover(realm: Name, transports: seq<Transport>)
      returns (r: Result<seq<Candidate>>, ghost root: Chain, ghost routes: seq<Route>)
      requires Valid()
      modifies this
      ensures Valid() && old(asked) <= asked
      ensures r.Ok? ==> 0 < |r.value| <= maxCandidates && AllAccounted(zone, asked, realm, maxDepth, r.value, routes)
      ensures r.Ok? ==> forall c :: c in r.value ==> c.transport in Requested(transports)
      ensures r.Ok? ==> Finds(zone, root, realm, NAPTR) && Genuine(asked, root)
      ensures r.Ok? ==> forall t :: t in Requested(transports) ==> Sought(zone, asked, realm, Data(zone, root), t)
      ensures Repeats(transports) ==> r == Fail(Invalid)
    {
      hide AllAccounted, Reaches, Finds, AllServed, Genuine, LookupExpiry, Pursued, Data, At, WayExpiry;
      root, routes := [], [];
      var ts := Requested(transports);
      var repeated := AnyRepeated(transports);
      if repeated { return Fail(Invalid), [], []; }
      var data;
      data, root := Lookup(realm, NAPTR, false);
      if data.Fail? { return Fail(data.err), root, []; }
      var found: seq<Candidate> := [];
      NoneAccounted(zone, asked, realm, maxDepth);
      for i := 0 to |ts|
        invariant Valid() && old(asked) <= asked && Genuine(asked, root)
        invariant |found| <= maxCandidates && AllAccounted(zone, asked, realm, maxDepth, found, routes)
        invariant forall c :: c in found ==> c.transport in ts
        invariant forall j :: 0 <= j < i ==> Sought(zone, asked, realm, data.value.records, ts[j])
      {
        ghost var past := asked;
        ghost var reached: seq<Route> := [];
        var more;
        if data.value.records == [] {
          var none := Naptr(0, 0, None, false, Service, None);
          ghost var service, ends;
          more, service, ends := ResolveSRV(ServiceName(realm, ts[i]), ts[i], data.value.expires, none);
          if more.Ok? {
            reached := Along(Way([root], [], None), ends);
            GenuineLater(past, asked, root);
            RoutedDirectly(zone, asked, realm, maxDepth, ts[i], root, none, service, more.value, ends);
          }
        } else {
          AtRoot(zone, asked, realm, ts[i], root);
          more, reached := Walk(realm, data.value, ts[i], data.value.expires, {}, 0, realm, [root], []);
        }
        if more == Fail(Limit) { return Fail(Limit), root, []; }
        AllLater(zone, past, asked, realm, maxDepth, found, routes);
        GenuineLater(past, asked, root);
        SoughtLater(zone, past, asked, realm, data.value.records, ts[..i]);
        if more.Ok? {
          AllBoth(zone, asked, realm, maxDepth, found, routes, more.value, reached);
          found, routes := found + more.value, routes + reached;
          if |found| > maxCandidates { return Fail(Limit), root, []; }
        }
      }
      if found == [] { return Fail(NoService), root, []; }
      r := Ok(found);
    }
  }

  method AnyRepeated(transports: seq<Transport>) returns (r: bool)
    ensures r <==> Repeats(transports)
  {
    var seen: set<Transport> := {};
    for i := 0 to |transports|
      invariant forall t :: t in seen <==> t in transports[..i]
      invariant !Repeats(transports[..i])
    {
      if transports[i] in seen {
        var j :| 0 <= j < i && transports[..i][j] == transports[i];
        return true;
      }
      seen := seen + {transports[i]};
    }
    assert transports[..|transports|] == transports;
    r := false;
  }

  /** The servers on record, ordered by some draws. */
  method Ranked(records: seq<Dated>) returns (r: Option<seq<SRV>>, ghost draws: seq<int>)
    ensures r.Some? ==>
              && |records| <= |draws| && (forall d :: d in records ==> d.record.payload.Server?)
              && r == Order(ServersOf(records), draws)
    ensures r.Some? ==> Ascending(r.value) && (forall v :: v in r.value ==> Offering(records, v))
    ensures r.Some? ==> forall d :: d in records ==> d.record.payload.Server? && d.record.payload.srv in r.value
  {
    hide Order, Ascending;
    draws := [];
    var servers := Servers(records);
    if servers.None? { return None, []; }
    var drawn: seq<int> := *;
    if |drawn| < |records| { drawn := drawn + seq(|records|, _ => 0); }
    draws := drawn;
    assert servers.value == ServersOf(records);
    r := OrderSRV(servers.value, drawn);
    if r.Some? {
      OrderSorts(servers.value, drawn);
      SameServers(records, servers.value, r.value);
    }
  }

  method Servers(records: seq<Dated>) returns (r: Option<seq<SRV>>)
    ensures r.None? <==> exists d :: d in records && !d.record.payload.Server?
    ensures r.Some? ==> |r.value| == |records| && forall i :: 0 <= i < |records| ==> records[i].record.payload == Server(r.value[i])
  {
    var servers: seq<SRV> := [];
    for i := 0 to |records|
      invariant |servers| == i && forall j :: 0 <= j < i ==> records[j].record.payload == Server(servers[j])
    {
      if !records[i].record.payload.Server? {
        assert records[i] in records;
        return None;
      }
      servers := servers + [records[i].record.payload.srv];
    }
    r := Some(servers);
  }

  /** The NAPTR payloads, if each is one with a well-formed service field. */
  method Rewrites(records: seq<Dated>) returns (r: Option<seq<Naptr>>)
    ensures r.Some? ==> forall n :: n in r.value <==> Backed(records, n)
    ensures r.None? <==> exists d :: d in records && !WellFormed(d)
  {
    var naptrs: seq<Naptr> := [];
    for i := 0 to |records|
      invariant forall n :: n in naptrs ==> Backed(records, n)
      invariant forall j :: 0 <= j < i ==> WellFormed(records[j]) && records[j].record.payload.naptr in naptrs
    {
      var payload := records[i].record.payload;
      if !payload.Rewrite? || payload.naptr.service.None? {
        assert records[i] in records;
        return None;
      }
      assert records[i] in records && Backed(records, payload.naptr);
      naptrs := naptrs + [payload.naptr];
    }
    r := Some(naptrs);
  }

  /** Add one family's addresses; none if a record is not of that family. */
  method AddAddresses(s: seq<Addr>, records: seq<Dated>, v6: bool) returns (r: Option<seq<Addr>>)
    ensures r.None? <==> exists d :: d in records && !OfFamily(d, v6)
    ensures r.Some? ==> r.value == Gather(s, records)
  {
    var addresses := s;
    for i := 0 to |records|
      invariant addresses == Gather(s, records[..i])
      invariant forall j :: 0 <= j < i ==> OfFamily(records[j], v6)
    {
      if !OfFamily(records[i], v6) {
        assert records[i] in records;
        return None;
      }
      var address := records[i].record.payload.address;
      assert records[..i + 1][..i] == records[..i];
      if address !in addresses { addresses := addresses + [address]; }
    }
    assert records[..|records|] == records;
    r := Some(addresses);
  }
}

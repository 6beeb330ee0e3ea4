/** How a discovered peer is reached from its realm (RFC 3958 section 2.2;
    dnsdiam/discover.go): NAPTR lookups, an SRV lookup and address lookups, each for
    a name that a record of the one before gives. A candidate expires with the first
    record on its route. */
module Routes {
  import opened Octets
  import opened Srv
  import opened Lookups

  datatype Candidate = Candidate(transport: Transport, host: Name, port: nat, addresses: seq<Addr>, expires: int,
                                 order: nat, preference: nat, priority: nat, weight: nat)

  // ---- The end of a route: servers and addresses -------------------------------------------------------

  /** The addresses on record, each once, behind those already known. */
  function Gather(s: seq<Addr>, records: seq<Dated>): seq<Addr> {
    if records == [] then s
    else
      var front, last := Gather(s, records[..|records| - 1]), records[|records| - 1].record.payload;
      if last.Numeric? && last.address !in front then front + [last.address] else front
  }

  ghost predicate OnRecord(a: Addr, records: seq<Dated>) {
    exists d :: d in records && d.record.payload == Numeric(a)
  }

  lemma {:induction false} GatherIn(s: seq<Addr>, records: seq<Dated>, a: Addr)
    ensures a in Gather(s, records) <==> a in s || OnRecord(a, records)
  {
    if records != [] {
      var front, last := records[..|records| - 1], records[|records| - 1];
      GatherIn(s, front, a);
      assert records == front + [last];
      if OnRecord(a, front) {
        var d :| d in front && d.record.payload == Numeric(a);
        assert d in records;
      }
      if last.record.payload == Numeric(a) { assert last in records; }
      if OnRecord(a, records) {
        var d :| d in records && d.record.payload == Numeric(a);
        assert d in front || d == last;
      }
    }
  }

  function DefaultPort(transport: Transport): nat {
    if transport.TLS? || transport.DTLS? then 5868 else 3868
  }

  /** Both families were looked up, without aliases if so asked, and these are the addresses. */
  ghost predicate Addressed(z: Zone, addresses: seq<Addr>, host: Name, noAlias: bool, v4: Chain, v6: Chain) {
    && LookedUp(z, v4, host, A, noAlias) && LookedUp(z, v6, host, AAAA, noAlias)
    && addresses == Gather(Gather([], Data(z, v4)), Data(z, v6)) && addresses != []
  }

  /** A lookup that found something, nothing, or got no answer. */
  ghost predicate LookedUp(z: Zone, c: Chain, host: Name, kind: Kind, noAlias: bool) {
    && Follows(z, c, host, kind) && (noAlias ==> |c| == 1)
    && (Received(z, c[|c| - 1].query) == Fail(DNS) || Finds(z, c, host, kind))
  }

  /** Addresses that were found bound the expiry. */
  function HostExpiry(z: Zone, start: Option<int>, c: Chain): Option<int> {
    if Data(z, c) == [] then start else Earlier(start, LookupExpiry(z, c))
  }

  /** The SRV lookup and the server chosen, if any, and the two address lookups. */
  datatype End = End(service: Option<Chain>, server: SRV, v4: Chain, v6: Chain)

  const NO_SERVER := SRV(0, 0, 0, "")

  function ServiceExpiry(z: Zone, start: Option<int>, service: Option<Chain>): Option<int> {
    if service.None? then start else Earlier(start, LookupExpiry(z, service.value))
  }

  function EndExpiry(z: Zone, start: Option<int>, e: End): Option<int> {
    HostExpiry(z, HostExpiry(z, ServiceExpiry(z, start, e.service), e.v4), e.v6)
  }

  ghost predicate Offering(records: seq<Dated>, v: SRV) {
    exists d :: d in records && d.record.payload == Server(v)
  }

  /** The host and port come from a server that the service's answer offers, or
      from the name itself. */
  ghost predicate Hosted(z: Zone, c: Candidate, service: Option<Chain>, v: SRV, entry: Name) {
    && c.host in z.permitted && c.priority == v.priority && c.weight == v.weight
    && match service
       case Some(s) =>
         && Finds(z, s, entry, SRVKind) && Offering(Data(z, s), v)
         && v.target in z.hosts && c.host == z.hosts[v.target] && c.port == v.port
       case None => v == NO_SERVER && c.host == entry && c.port == DefaultPort(c.transport)
  }

  /** The candidate is what this end of a route gives, entered by `entry` with expiry `start`. */
  ghost predicate Ended(z: Zone, c: Candidate, e: End, entry: Name, start: Option<int>) {
    && Hosted(z, c, e.service, e.server, entry)
    && Addressed(z, c.addresses, c.host, e.service.Some?, e.v4, e.v6)
    && Some(c.expires) == EndExpiry(z, start, e)
  }

  ghost predicate EndAsked(asked: seq<Question>, e: End) {
    Genuine(asked, e.v4) && Genuine(asked, e.v6) && (e.service.Some? ==> Genuine(asked, e.service.value))
  }

  // ---- Routes: from the realm through NAPTR records ----------------------------------------------------

  /** The NAPTR lookups made, the non-terminal records followed between them and
      the terminal one, if there is any. */
  datatype Way = Way(rewrites: seq<Chain>, picks: seq<Naptr>, last: Option<Naptr>)

  datatype Route = Route(way: Way, end: End)

  function Target(n: Naptr): Name {
    if n.replacement.Some? then n.replacement.value else ""
  }

  predicate Serves(o: Offer, transport: Transport, app: Word) {
    o.diameter && (o.extended ==> o.app == app) && (o.protocols != [] ==> transport in o.protocols)
  }

  predicate WellFormed(d: Dated) {
    d.record.payload.Rewrite? && d.record.payload.naptr.service.Some?
  }

  predicate Extended(d: Dated) {
    WellFormed(d) && d.record.payload.naptr.service.value.extended
  }

  /** A NAPTR record that may be followed for this application and transport;
      if any names an application, only those that do. */
  predicate Suits(z: Zone, n: Naptr, transport: Transport, extended: bool) {
    && n.service.Some? && Serves(n.service.value, transport, z.app) && (extended ==> n.service.value.extended)
    && !n.regexp && !n.flag.Unusable? && n.replacement.Some? && Target(n) in z.permitted
  }

  /** Some record holds this NAPTR. */
  ghost predicate Backed(records: seq<Dated>, n: Naptr) {
    exists d :: d in records && d.record.payload == Rewrite(n)
  }

  ghost predicate Usable(z: Zone, records: seq<Dated>, n: Naptr, transport: Transport) {
    && Backed(records, n) && (forall d :: d in records ==> WellFormed(d))
    && Suits(z, n, transport, exists d :: d in records && Extended(d))
  }

  /** The lookups begin at the realm, and each is for the replacement of a usable
      non-terminal record of the one before. */
  ghost predicate Reaches(z: Zone, realm: Name, transport: Transport, rewrites: seq<Chain>, picks: seq<Naptr>)
    decreases |picks|
  {
    && |rewrites| == |picks| + 1
    && if picks == [] then Finds(z, rewrites[0], realm, NAPTR)
       else
         var n, front := picks[|picks| - 1], rewrites[..|picks|];
         && Reaches(z, realm, transport, front, picks[..|picks| - 1])
         && Usable(z, Data(z, front[|front| - 1]), n, transport) && n.flag.NonTerminal?
         && Finds(z, rewrites[|picks|], Target(n), NAPTR)
  }

  ghost function Visited(realm: Name, picks: seq<Naptr>): set<Name> {
    if picks == [] then {realm} else Visited(realm, picks[..|picks| - 1]) + {Target(picks[|picks| - 1])}
  }

  /** No name is rewritten twice. */
  ghost predicate LoopFree(realm: Name, picks: seq<Naptr>) {
    picks == [] || (LoopFree(realm, picks[..|picks| - 1]) && Target(picks[|picks| - 1]) !in Visited(realm, picks[..|picks| - 1]))
  }

  function WayExpiry(z: Zone, rewrites: seq<Chain>): Option<int> {
    if rewrites == [] then None
    else Earlier(WayExpiry(z, rewrites[..|rewrites| - 1]), LookupExpiry(z, rewrites[|rewrites| - 1]))
  }

  /** The owner name of the realm's own SRV records. */
  function ServiceName(realm: Name, transport: Transport): Name {
    match transport
    case TLS => "_diameters._tcp." + realm
    case DTLS => "_diameters._sctp." + realm
    case TCP => "_diameter._tcp." + realm
    case SCTP => "_diameter._sctp." + realm
  }

  /** The name at which NAPTR records end. */
  function Entry(realm: Name, transport: Transport, last: Option<Naptr>): Name {
    if last.None? then ServiceName(realm, transport) else Target(last.value)
  }

  /** Either the realm has no NAPTR records and its own service name is entered,
      or the terminal record says where. */
  ghost predicate Enters(z: Zone, c: Candidate, w: Way, service: bool) {
    && w.rewrites != []
    && match w.last
       case None => w.picks == [] && Data(z, w.rewrites[0]) == [] && service && c.order == 0 && c.preference == 0
       case Some(n) =>
         && Usable(z, Data(z, w.rewrites[|w.rewrites| - 1]), n, c.transport) && (if service then n.flag.Service? else n.flag.Address?)
         && c.order == n.order && c.preference == n.preference
  }

  /** The candidate is what the route from the realm leads to. */
  ghost predicate Sourced(z: Zone, realm: Name, c: Candidate, r: Route) {
    && Reaches(z, realm, c.transport, r.way.rewrites, r.way.picks) && LoopFree(realm, r.way.picks)
    && Enters(z, c, r.way, r.end.service.Some?)
    && Ended(z, c, r.end, Entry(realm, c.transport, r.way.last), WayExpiry(z, r.way.rewrites))
  }

  ghost predicate WayAsked(asked: seq<Question>, rewrites: seq<Chain>) {
    forall c :: c in rewrites ==> Genuine(asked, c)
  }

  ghost predicate Accounted(z: Zone, asked: seq<Question>, realm: Name, depth: nat, c: Candidate, r: Route) {
    && Sourced(z, realm, c, r) && |r.way.rewrites| <= depth
    && WayAsked(asked, r.way.rewrites) && EndAsked(asked, r.end)
  }

  /** Every candidate has its route, all of whose questions were asked. */
  ghost predicate AllAccounted(z: Zone, asked: seq<Question>, realm: Name, depth: nat, found: seq<Candidate>, routes: seq<Route>) {
    |found| == |routes| && forall i :: 0 <= i < |found| ==> Accounted(z, asked, realm, depth, found[i], routes[i])
  }

  lemma AccountedLater(z: Zone, asked: seq<Question>, more: seq<Question>, realm: Name, depth: nat, c: Candidate, r: Route)
    requires Accounted(z, asked, realm, depth, c, r) && asked <= more
    ensures Accounted(z, more, realm, depth, c, r)
  {
    hide Sourced;
    forall ch | ch in r.way.rewrites ensures Genuine(more, ch) {
      GenuineLater(asked, more, ch);
    }
  }

  lemma AllLater(z: Zone, asked: seq<Question>, more: seq<Question>, realm: Name, depth: nat, found: seq<Candidate>, routes: seq<Route>)
    requires AllAccounted(z, asked, realm, depth, found, routes) && asked <= more
    ensures AllAccounted(z, more, realm, depth, found, routes)
  {
    hide Accounted;
    forall i | 0 <= i < |found| ensures Accounted(z, more, realm, depth, found[i], routes[i]) {
      AccountedLater(z, asked, more, realm, depth, found[i], routes[i]);
    }
  }

  lemma AllBoth(z: Zone, asked: seq<Question>, realm: Name, depth: nat, found: seq<Candidate>, routes: seq<Route>,
                more: seq<Candidate>, ways: seq<Route>)
    requires AllAccounted(z, asked, realm, depth, found, routes) && AllAccounted(z, asked, realm, depth, more, ways)
    ensures AllAccounted(z, asked, realm, depth, found + more, routes + ways)
  {
    hide Accounted;
    var all, to := found + more, routes + ways;
    forall i | 0 <= i < |all| ensures Accounted(z, asked, realm, depth, all[i], to[i]) {
      if i < |found| {
        assert all[i] == found[i] && to[i] == routes[i];
      } else {
        assert all[i] == more[i - |found|] && to[i] == ways[i - |found|];
      }
    }
  }

  lemma NoneAccounted(z: Zone, asked: seq<Question>, realm: Name, depth: nat)
    ensures AllAccounted(z, asked, realm, depth, [], [])
  {
  }

  lemma OneAccounted(z: Zone, asked: seq<Question>, realm: Name, depth: nat, c: Candidate, r: Route)
    requires Accounted(z, asked, realm, depth, c, r)
    ensures AllAccounted(z, asked, realm, depth, [c], [r])
  {
    hide Accounted;
  }

  // ---- When a candidate expires ------------------------------------------------------------------------

  function HostRecords(z: Zone, c: Chain): seq<Dated> {
    if Data(z, c) == [] then [] else LookupRecords(z, c)
  }

  function WayRecords(z: Zone, rewrites: seq<Chain>): seq<Dated> {
    if rewrites == [] then [] else WayRecords(z, rewrites[..|rewrites| - 1]) + LookupRecords(z, rewrites[|rewrites| - 1])
  }

  function ServiceRecords(z: Zone, service: Option<Chain>): seq<Dated> {
    if service.None? then [] else LookupRecords(z, service.value)
  }

  /** Every record on the route: whole answers, with the aliases to them. */
  function RouteRecords(z: Zone, r: Route): seq<Dated> {
    WayRecords(z, r.way.rewrites) + ServiceRecords(z, r.end.service) + HostRecords(z, r.end.v4) + HostRecords(z, r.end.v6)
  }

  lemma HostFirst(z: Zone, start: Option<int>, records: seq<Dated>, x: Option<int>, c: Chain)
    requires First(start, records, x)
    ensures First(HostExpiry(z, start, c), records + HostRecords(z, c), x)
  {
    hide First, LookupExpiry, LookupRecords;
    LookupFirst(z, c);
    if Data(z, c) == [] {
      assert records + HostRecords(z, c) == records;
    } else {
      FirstBoth(start, records, x, LookupExpiry(z, c), LookupRecords(z, c));
    }
  }

  lemma ServiceFirst(z: Zone, start: Option<int>, records: seq<Dated>, x: Option<int>, service: Option<Chain>)
    requires First(start, records, x) && (service.Some? ==> Data(z, service.value) != [])
    ensures First(ServiceExpiry(z, start, service), records + ServiceRecords(z, service), x)
  {
    hide First, LookupExpiry, LookupRecords;
    if service.None? {
      assert records + ServiceRecords(z, service) == records;
    } else {
      LookupFirst(z, service.value);
      FirstBoth(start, records, x, LookupExpiry(z, service.value), LookupRecords(z, service.value));
    }
  }

  lemma {:induction false} WayFirst(z: Zone, realm: Name, transport: Transport, rewrites: seq<Chain>, picks: seq<Naptr>)
    requires Reaches(z, realm, transport, rewrites, picks) && (picks != [] ==> Data(z, rewrites[|picks|]) != [])
    ensures First(WayExpiry(z, rewrites), WayRecords(z, rewrites), EmptyExpiry(z, rewrites[0]))
    decreases |picks|
  {
    hide First, LookupExpiry, LookupRecords, Finds, Data;
    var last := rewrites[|picks|];
    LookupFirst(z, last);
    if picks == [] {
      assert rewrites[..0] == [];
      assert WayRecords(z, rewrites) == LookupRecords(z, last);
    } else {
      var front := rewrites[..|picks|];
      assert Data(z, front[|front| - 1]) != [];
      WayFirst(z, realm, transport, front, picks[..|picks| - 1]);
      FirstBoth(WayExpiry(z, front), WayRecords(z, front), EmptyExpiry(z, rewrites[0]), LookupExpiry(z, last), LookupRecords(z, last));
    }
  }

  /** A candidate expires exactly with the first of all the records on its route,
      or with the realm's empty NAPTR answer if that is sooner: it outlives none. */
  lemma ExpiresFirst(z: Zone, realm: Name, c: Candidate, r: Route)
    requires Sourced(z, realm, c, r)
    ensures First(Some(c.expires), RouteRecords(z, r), EmptyExpiry(z, r.way.rewrites[0]))
  {
    hide First, Finds, WayExpiry, Addressed;
    var w, e, x := r.way.rewrites, r.end, EmptyExpiry(z, r.way.rewrites[0]);
    WayFirst(z, realm, c.transport, w, r.way.picks);
    ServiceFirst(z, WayExpiry(z, w), WayRecords(z, w), x, e.service);
    var start, records := ServiceExpiry(z, WayExpiry(z, w), e.service), WayRecords(z, w) + ServiceRecords(z, e.service);
    HostFirst(z, start, records, x, e.v4);
    HostFirst(z, HostExpiry(z, start, e.v4), records + HostRecords(z, e.v4), x, e.v6);
  }

  /** Its addresses are exactly those on record for its host, in either family. */
  lemma AddressesOnRecord(z: Zone, realm: Name, c: Candidate, r: Route, a: Addr)
    requires Sourced(z, realm, c, r)
    ensures a in c.addresses <==> OnRecord(a, Data(z, r.end.v4)) || OnRecord(a, Data(z, r.end.v6))
  {
    GatherIn([], Data(z, r.end.v4), a);
    GatherIn(Gather([], Data(z, r.end.v4)), Data(z, r.end.v6), a);
  }
}

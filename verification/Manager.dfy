/** The Manager's own fields and the loops that run under pendingMu
    (diam/peer/send.go, diam/peer/renewal.go), proved against the steps. */
module Manager {
  import opened Octets
  import opened Failover
  import opened FailoverSafety

  const WORDS := 0x1_0000_0000

  /** uint32 addition. */
  function Add(n: Word, d: nat): Word
    requires d <= WORDS
  {
    if n + d < WORDS then n + d else n + d - WORDS
  }

  /** How many increments lead from `n` to `h`; at least one. */
  function Distance(n: Word, h: Word): nat {
    if h > n then h - n else h - n + WORDS
  }

  function Upto(n: nat): (u: set<int>)
    ensures |u| == n && forall i :: i in u <==> 0 <= i < n
  {
    if n == 0 then {} else Upto(n - 1) + {n - 1}
  }

  predicate Eligible(st: State, s: Session, avoid: Word, skip: bool, hop: Word) {
    Free(st, s, hop) && (!skip || hop != avoid)
  }

  function UsedHops(st: State, s: Session): set<Word> {
    (set k | k in st.pending && k.session == s :: k.hop) + (set k | k in st.controls && k.session == s :: k.hop)
  }

  lemma UsedHop(st: State, s: Session, hop: Word)
    ensures hop in UsedHops(st, s) <==> !Free(st, s, hop)
  {
    assert Slot(s, hop).session == s && Slot(s, hop).hop == hop;
  }

  /** Unless every id is taken, one is left for the scan to find. */
  lemma SomeEligible(st: State, s: Session, avoid: Word, skip: bool) returns (hop: Word)
    requires |UsedHops(st, s) + (if skip then {avoid} else {})| < WORDS
    ensures Eligible(st, s, avoid, skip, hop)
  {
    var used: set<int> := UsedHops(st, s) + (if skip then {avoid} else {});
    if Upto(WORDS) <= used {
      Shrinks(Upto(WORDS), used);
      assert false;
    } else {
      hop :| hop in Upto(WORDS) && hop !in used;
      UsedHop(st, s, hop);
    }
  }

  lemma NextStep(n: Word, h: Word)
    requires h != Add(n, 1)
    ensures Distance(Add(n, 1), h) == Distance(n, h) - 1
  {
  }

  lemma AddAdd(n: Word, d: nat)
    requires d < WORDS
    ensures Add(Add(n, d), 1) == Add(n, d + 1)
  {
  }

  /** Take one attempt away, and claim the request if it was the current one. */
  method GiveUp(q: Request, s: Session) returns (n: Request, current: bool)
    ensures n == Detach(q, s) && current == (n.failovering && !q.failovering)
  {
    n := q.(entries := q.entries - {s});
    current := !n.done && !n.failovering && n.current == Some(s);
    if current { n := n.(failovering := true, owner := Claimed); }
  }

  /** Drain one attempt in place, or take it away. */
  method Freeze(q: Request, k: Slot, drain: set<Slot>) returns (n: Request, current: bool)
    requires k.session in q.entries && q.entries[k.session].hop == k.hop
    ensures n == Closed(q, k.session, drain) && current == (n.failovering && !q.failovering)
  {
    if k in drain {
      n, current := q.(entries := q.entries[k.session := q.entries[k.session].(drain := true)]), false;
    } else {
      n, current := GiveUp(q, k.session);
    }
  }

  class Manager {
    var requests: map<nat, Request>
    var pending: map<Slot, nat>
    var controls: set<Slot>
    var nextHop: Word
    var retired: set<Session>
    var closing: set<Session>
    var gone: set<Session>
    ghost var exchanges: set<Slot>
    ghost var writers: map<Slot, nat>

    ghost function Abs(): State
      reads this
    {
      State(requests, pending, controls, exchanges, writers, nextHop, retired, closing, gone)
    }

    /** nextHopIDLocked: the first id after the last one that is free on the
        session and, for a retransmission, not the previous attempt's. */
    method NextHopID(s: Session, avoid: Word, skip: bool) returns (hop: Word)
      requires exists h: Word :: Eligible(Abs(), s, avoid, skip, h)
      modifies this`nextHop
      ensures nextHop == hop && Eligible(Abs(), s, avoid, skip, hop)
      ensures forall d :: 0 < d < Distance(old(nextHop), hop) ==> !Eligible(Abs(), s, avoid, skip, Add(old(nextHop), d))
    {
      ghost var goal: Word :| Eligible(Abs(), s, avoid, skip, goal);
      ghost var start, n := nextHop, 0;
      while true
        invariant n < WORDS && nextHop == Add(start, n)
        invariant forall h: Word :: Eligible(Abs(), s, avoid, skip, h) == old(Eligible(Abs(), s, avoid, skip, h))
        invariant forall d :: 0 < d <= n ==> !Eligible(Abs(), s, avoid, skip, Add(start, d))
        invariant Distance(nextHop, goal) == Distance(start, goal) - n
        decreases Distance(nextHop, goal)
      {
        AddAdd(start, n);
        ghost var before := nextHop;
        nextHop := Add(nextHop, 1);
        hop := nextHop;
        n := n + 1;
        if Slot(s, hop) !in pending && Slot(s, hop) !in controls && (!skip || hop != avoid) {
          assert Distance(start, hop) == n || n == WORDS;
          return;
        }
        NextStep(before, goal);
      }
    }

    /** How many requests are reserved on a peer, over all its sessions. */
    method PeerPending(actor: nat) returns (n: nat)
      ensures n == |Usage(pending, actor)|
    {
      var todo, seen := pending.Keys, {};
      n := 0;
      while todo != {}
        invariant todo <= pending.Keys && seen == pending.Keys - todo
        invariant n == |Within(seen, actor)|
        decreases todo
      {
        var k :| k in todo;
        WithinAdd(seen, k, actor);
        if k.session.actor == actor { n := n + 1; }
        todo, seen := todo - {k}, seen + {k};
      }
      assert Within(seen, actor) == Usage(pending, actor);
    }

    /** complete: once only, every reservation of the request goes with it. */
    method Complete(r: nat, outcome: Outcome)
      requires r in requests
      modifies this`requests, this`pending
      ensures Abs() == Failover.Complete(old(Abs()), r, outcome)
    {
      var q := requests[r];
      if q.done { return; }
      requests := requests[r := Finished(q, outcome)];
      var todo := q.entries.Keys;
      while todo != {}
        invariant todo <= q.entries.Keys && requests == old(requests)[r := Finished(q, outcome)]
        invariant pending == old(pending) - (set s | s in q.entries.Keys - todo :: Slot(s, q.entries[s].hop))
        decreases todo
      {
        var s :| s in todo;
        pending := pending - {Slot(s, q.entries[s].hop)};
        todo := todo - {s};
      }
      assert (set s | s in q.entries.Keys - todo :: Slot(s, q.entries[s].hop)) == Slots(q);
    }

    /** reserveAndSend's locked region. */
    method Reserve(r: nat, s: Session, generation: nat, retransmission: bool, limit: nat, owner: Owner)
      returns (outcome: Admission)
      requires r in requests
      requires exists h: Word :: Eligible(Abs(), s, requests[r].lastHop, retransmission, h)
      modifies this`requests, this`pending, this`nextHop
      ensures outcome.Refused? <==> old(requests[r].done || !Usable(Abs(), s))
      ensures outcome.Full? <==> !outcome.Refused? && |Usage(old(pending), s.actor)| >= limit
      ensures !outcome.Reserved? ==> Abs() == old(Abs())
      ensures outcome.Reserved? ==>
                && MayReserve(old(Abs()), limit, old(requests[r]), s, outcome.hop, retransmission)
                && Abs() == Failover.Reserve(old(Abs()), r, s, generation, outcome.hop, retransmission, owner)
    {
      var q := requests[r];
      ghost var h: Word :| Eligible(Abs(), s, q.lastHop, retransmission, h);
      if q.done { return Refused; }
      if s in retired || s in closing || s in gone { return Refused; }
      var n := PeerPending(s.actor);
      if n >= limit { return Full; }
      assert Eligible(Abs(), s, q.lastHop, retransmission, h);
      var hop := NextHopID(s, q.lastHop, retransmission);
      pending := pending[Slot(s, hop) := r];
      requests := requests[r := Failover.Reserved(q, s, generation, hop, retransmission).(owner := owner)];
      outcome := Admission.Reserved(hop);
    }

    method CloseOne(k: Slot, drain: set<Slot>) returns (current: bool)
      requires k in pending && Enters(requests, k, pending[k])
      modifies this`requests, this`pending
      ensures var r := old(pending)[k];
              && requests == old(requests)[r := Closed(old(requests)[r], k.session, drain)]
              && current == (requests[r].failovering && !old(requests)[r].failovering)
      ensures pending == if k in drain then old(pending) else old(pending) - {k}
    {
      var q;
      q, current := Freeze(requests[pending[k]], k, drain);
      requests := requests[pending[k] := q];
      if k !in drain { pending := pending - {k}; }
    }

    /** closeAdmission: attempts the connection already owns are drained in
        place; the others are given up, and claimed if they were current. */
    method CloseAdmission(s: Session, drain: set<Slot>) returns (unsent: set<nat>)
      requires Mirror(requests, pending)
      modifies this`requests, this`pending, this`closing
      ensures Abs() == Failover.CloseAdmission(old(Abs()), s, drain)
      ensures unsent == Newly(old(requests), requests)
    {
      hide Covers, Swept, Newly, Names, Mirror, Closed;
      SweepStart(requests, pending, s, q => Closed(q, s, drain));
      closing := closing + {s};
      unsent := {};
      var todo := SlotsOn(pending, s);
      ghost var visited: set<Slot> := {};
      while todo != {}
        invariant Covers(SlotsOn(old(pending), s), todo, visited)
        invariant closing == old(closing) + {s} && pending == Kept(old(pending), visited, drain)
        invariant Swept(old(requests), requests, Names(old(pending), visited), q => Closed(q, s, drain))
        invariant unsent == Newly(old(requests), requests)
        decreases todo
      {
        var k :| k in todo;
        CoversStep(SlotsOn(old(pending), s), todo, visited, k);
        Untouched(old(requests), old(pending), visited, k);
        SweptStep(old(requests), requests, old(pending), visited, k, q => Closed(q, s, drain));
        KeptStep(old(pending), visited, drain, k);
        var r := pending[k];
        var current := CloseOne(k, drain);
        if current { unsent := unsent + {r}; }
        todo, visited := todo - {k}, visited + {k};
      }
      SweptAll(old(requests), requests, old(pending), visited, s, q => Closed(q, s, drain));
      KeptAll(old(pending), visited, drain, s);
    }

    /** failoverSession: claim the unfinished requests that wait on the session. */
    method FailoverSession(s: Session) returns (claimed: set<nat>)
      requires Mirror(requests, pending)
      modifies this`requests
      ensures Abs() == Failover.FailoverSession(old(Abs()), s)
      ensures claimed == Newly(old(requests), requests)
    {
      claimed := {};
      var todo := SlotsOn(pending, s);
      ghost var visited: set<Slot> := {};
      while todo != {}
        invariant Covers(SlotsOn(old(pending), s), todo, visited)
        invariant Swept(old(requests), requests, Names(pending, visited), q => Claim(q, s))
        invariant claimed == Newly(old(requests), requests)
        decreases todo
      {
        var k :| k in todo;
        CoversStep(SlotsOn(old(pending), s), todo, visited, k);
        Untouched(old(requests), pending, visited, k);
        SweptStep(old(requests), requests, pending, visited, k, q => Claim(q, s));
        var r := pending[k];
        var q := requests[r];
        if !q.done && !q.failovering && q.current == Some(s) {
          q := q.(failovering := true, owner := Claimed);
          claimed := claimed + {r};
        }
        requests := requests[r := q];
        todo, visited := todo - {k}, visited + {k};
      }
      SweptAll(old(requests), requests, pending, visited, s, q => Claim(q, s));
    }

    /** claimRetiredRequests: the session's reservations and control ids go. */
    method ClaimRetired(s: Session) returns (claimed: set<nat>)
      requires Mirror(requests, pending)
      modifies this`requests, this`pending, this`controls
      ensures Abs() == Failover.ClaimRetired(old(Abs()), s)
      ensures claimed == Newly(old(requests), requests)
    {
      hide Covers, Swept, Newly, Names, Mirror, Detach;
      SweepStart(requests, pending, s, q => Detach(q, s));
      claimed := {};
      var todo := SlotsOn(pending, s);
      ghost var visited: set<Slot> := {};
      while todo != {}
        invariant Covers(SlotsOn(old(pending), s), todo, visited)
        invariant pending == old(pending) && controls == old(controls)
        invariant Swept(old(requests), requests, Names(pending, visited), q => Detach(q, s))
        invariant claimed == Newly(old(requests), requests)
        decreases todo
      {
        var k :| k in todo;
        CoversStep(SlotsOn(old(pending), s), todo, visited, k);
        Untouched(old(requests), pending, visited, k);
        SweptStep(old(requests), requests, pending, visited, k, q => Detach(q, s));
        var r := pending[k];
        var q := requests[r];
        var current;
        q, current := GiveUp(q, s);
        if current { claimed := claimed + {r}; }
        requests := requests[r := q];
        todo, visited := todo - {k}, visited + {k};
      }
      SweptAll(old(requests), requests, pending, visited, s, q => Detach(q, s));
      pending := map k | k in pending && k.session != s :: pending[k];
      controls := set k | k in controls && k.session != s;
    }
  }

  ghost predicate Covers<T(!new)>(all: set<T>, todo: set<T>, visited: set<T>) {
    forall k :: (k in all <==> k in todo || k in visited) && (k in todo ==> k !in visited)
  }

  lemma CoversStep<T(!new)>(all: set<T>, todo: set<T>, visited: set<T>, k: T)
    requires Covers(all, todo, visited) && k in todo
    ensures Covers(all, todo - {k}, visited + {k}) && k in all && k !in visited && visited <= all
  {
  }

  function SlotsOn(pending: map<Slot, nat>, s: Session): set<Slot> {
    set k | k in pending && k.session == s
  }

  ghost function Names(pending: map<Slot, nat>, slots: set<Slot>): set<nat> {
    set k | k in slots && k in pending :: pending[k]
  }

  /** The named requests have been changed by `f`, the others not at all. */
  ghost predicate Swept(was: map<nat, Request>, now: map<nat, Request>, names: set<nat>, f: Request -> Request) {
    now.Keys == was.Keys && forall r :: r in was ==> now[r] == if r in names then f(was[r]) else was[r]
  }

  lemma SweepStart(requests: map<nat, Request>, pending: map<Slot, nat>, s: Session, f: Request -> Request)
    ensures Covers(SlotsOn(pending, s), SlotsOn(pending, s), {})
    ensures Swept(requests, requests, Names(pending, {}), f) && Newly(requests, requests) == {}
  {
  }

  lemma SweptStep(was: map<nat, Request>, now: map<nat, Request>, pending: map<Slot, nat>, visited: set<Slot>, k: Slot,
                  f: Request -> Request)
    requires Swept(was, now, Names(pending, visited), f) && k in pending && pending[k] in was
    requires pending[k] !in Names(pending, visited)
    ensures pending[k] in now && now[pending[k]] == was[pending[k]]
    ensures Swept(was, now[pending[k] := f(was[pending[k]])], Names(pending, visited + {k}), f)
    ensures Newly(was, now[pending[k] := f(was[pending[k]])])
            == if f(was[pending[k]]).failovering && !was[pending[k]].failovering then Newly(was, now) + {pending[k]}
               else Newly(was, now)
  {
    assert Names(pending, visited + {k}) == Names(pending, visited) + {pending[k]};
  }

  /** After the last slot the sweep is the step's own comprehension. */
  lemma SweptAll(was: map<nat, Request>, now: map<nat, Request>, pending: map<Slot, nat>, visited: set<Slot>, s: Session,
                 f: Request -> Request)
    requires Swept(was, now, Names(pending, visited), f) && Covers(SlotsOn(pending, s), {}, visited)
    ensures now == map r | r in was :: if r in Holders(pending, s) then f(was[r]) else was[r]
  {
    assert Names(pending, visited) == Holders(pending, s);
  }

  ghost function Kept(pending: map<Slot, nat>, visited: set<Slot>, drain: set<Slot>): map<Slot, nat> {
    map k | k in pending && (k in visited ==> k in drain) :: pending[k]
  }

  lemma KeptStep(pending: map<Slot, nat>, visited: set<Slot>, drain: set<Slot>, k: Slot)
    requires k in pending && k !in visited
    ensures k in Kept(pending, visited, drain)
    ensures Kept(pending, visited + {k}, drain)
            == if k in drain then Kept(pending, visited, drain) else Kept(pending, visited, drain) - {k}
  {
  }

  lemma KeptAll(pending: map<Slot, nat>, visited: set<Slot>, drain: set<Slot>, s: Session)
    requires Covers(SlotsOn(pending, s), {}, visited)
    ensures Kept(pending, visited, drain) == map k | k in pending && (k.session == s ==> k in drain) :: pending[k]
  {
  }

  /** The requests that became claimed. */
  ghost function Newly(was: map<nat, Request>, now: map<nat, Request>): set<nat> {
    set r | r in now && r in was && now[r].failovering && !was[r].failovering
  }

  /** A session holds a request once: the next slot names one not yet visited. */
  lemma Untouched(requests: map<nat, Request>, pending: map<Slot, nat>, visited: set<Slot>, k: Slot)
    requires Mirror(requests, pending) && k in pending && k !in visited
    requires visited <= SlotsOn(pending, k.session)
    ensures Enters(requests, k, pending[k]) && pending[k] !in Names(pending, visited)
  {
    forall x | x in visited && x in pending
      ensures pending[x] != pending[k]
    {
      assert Enters(requests, x, pending[x]) && Enters(requests, k, pending[k]);
    }
  }

  datatype Admission = Reserved(hop: Word) | Refused | Full

  function Within(slots: set<Slot>, actor: nat): set<Slot> {
    set k | k in slots && k.session.actor == actor
  }

  lemma WithinAdd(slots: set<Slot>, k: Slot, actor: nat)
    requires k !in slots
    ensures |Within(slots + {k}, actor)| == |Within(slots, actor)| + if k.session.actor == actor then 1 else 0
  {
    assert Within(slots + {k}, actor) == Within(slots, actor) + if k.session.actor == actor then {k} else {};
  }
}

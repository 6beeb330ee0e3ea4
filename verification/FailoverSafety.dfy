/** What every interleaving of the failover steps keeps. */
module FailoverSafety {
  import opened Octets
  import opened Failover

  // ---- One request --------------------------------------------------------------

  /** The reservations so far: one per peer, T on all but the first, the same
      message, and an id that differs from the previous attempt's. */
  ghost predicate History(q: Request) {
    && (forall i :: 0 <= i < |q.sent| ==>
          q.sent[i].session.actor in q.attempted && q.sent[i].msg == q.msg && (q.sent[i].retransmitted <==> i > 0))
    && (forall i, j :: 0 <= i < j < |q.sent| ==> q.sent[i].session.actor != q.sent[j].session.actor)
    && (forall i, j :: 0 <= i && j == i + 1 < |q.sent| ==> q.sent[i].hop != q.sent[j].hop)
    && (q.current == if q.sent == [] then None else Some(q.sent[|q.sent| - 1].session))
    && (q.sent != [] ==> q.lastHop == q.sent[|q.sent| - 1].hop)
  }

  /** At most one goroutine may reserve next, and an unfinished request that
      nobody is failing over still waits on its current session. */
  ghost predicate Owned(q: Request) {
    && (q.owner.Sending? <==> q.sent == [])
    && (q.owner.Sending? ==> q.entries == map[] && q.queued == {} && !q.failovering)
    && (!q.done ==> (q.failovering <==> q.owner.Claimed? || q.owner.Retrying? || q.owner.Settling?))
    && (q.owner.Retrying? ==> q.attempted <= q.owner.excluded)
    && (q.owner.Settling? ==> q.current == Some(q.owner.on))
    && (!q.done && q.owner.Nobody? ==> q.current.Some? && q.current.value in q.entries)
  }

  ghost predicate Local(q: Request) {
    && |q.results| == (if q.done then 1 else 0)
    && (q.results != [] && q.results[0].Answered? ==> Matches(q, q.results[0].answer))
    && (forall s :: s in q.entries ==> s.actor in q.attempted)
    && (forall s :: s in q.queued ==> s.actor in q.attempted)
    && History(q) && Owned(q)
  }

  /** A live current session still holds the reservation. */
  ghost predicate Attached(q: Request, retired: set<Session>, closing: set<Session>) {
    !q.done && q.current.Some? && q.current.value !in retired && q.current.value !in closing ==>
      q.current.value in q.entries
  }

  lemma ReservedLocal(q: Request, s: Session, generation: nat, hop: Word, t: bool, owner: Owner)
    requires Local(q) && !q.done && s.actor !in q.attempted
    requires if t then q.owner.Retrying? && hop != q.lastHop && owner == Settling(s) else q.owner.Sending? && owner == Nobody
    ensures Local(Reserved(q, s, generation, hop, t).(owner := owner))
  {
    var n := Reserved(q, s, generation, hop, t).(owner := owner);
    assert n.sent[..|q.sent|] == q.sent;
    forall i, j | 0 <= i < j < |n.sent|
      ensures n.sent[i].session.actor != n.sent[j].session.actor
      ensures j == i + 1 ==> n.sent[i].hop != n.sent[j].hop
    {
      if j == |q.sent| { assert n.sent[i] == q.sent[i]; }
    }
  }

  lemma FinishedLocal(q: Request, outcome: Outcome)
    requires Local(q) && !q.done && (outcome.Answered? ==> Matches(q, outcome.answer))
    ensures Local(Finished(q, outcome))
  {
  }

  lemma ClaimLocal(q: Request, s: Session)
    requires Local(q) && s in q.entries
    ensures Local(Claim(q, s))
  {
  }

  lemma DetachLocal(q: Request, s: Session)
    requires Local(q) && s in q.entries
    ensures Local(Detach(q, s))
  {
  }

  lemma ClosedLocal(q: Request, s: Session, drain: set<Slot>)
    requires Local(q) && s in q.entries
    ensures Local(Closed(q, s, drain))
  {
    DetachLocal(q, s);
  }

  // ---- The shared maps ------------------------------------------------------------

  /** The request is unfinished and entered on the session under this id. */
  predicate Enters(requests: map<nat, Request>, k: Slot, r: nat) {
    && r in requests && !requests[r].done
    && k.session in requests[r].entries && requests[r].entries[k.session].hop == k.hop
  }

  /** pending and the entries of unfinished requests mirror each other. */
  ghost predicate Mirror(requests: map<nat, Request>, pending: map<Slot, nat>) {
    && (forall k :: k in pending ==> Enters(requests, k, pending[k]))
    && (forall k, r :: Enters(requests, k, r) ==> k in pending && pending[k] == r)
  }

  ghost predicate Requests(st: State) {
    forall r :: r in st.requests ==> Local(st.requests[r]) && Attached(st.requests[r], st.retired, st.closing)
  }

  /** A session that is neither retired nor closed. */
  predicate LiveSession(st: State, s: Session) {
    s !in st.retired && s !in st.gone
  }

  /** On a live session an id in use is recorded once: ids of
      control exchanges, of selected writers and of pending requests are
      disjoint, save that a writer's id may still be its own request's. */
  ghost predicate Ids(st: State) {
    && (forall k: Slot :: LiveSession(st, k.session) ==> (k in st.controls <==> k in st.exchanges || k in st.writers))
    && (forall k: Slot :: LiveSession(st, k.session) && k in st.exchanges ==> k !in st.pending && k !in st.writers)
    && (forall k :: k in st.writers && k in st.pending ==> st.writers[k] == st.pending[k])
  }

  /** A selected request is off its session's queue and will not come back. */
  ghost predicate Writers(requests: map<nat, Request>, writers: map<Slot, nat>) {
    forall k :: k in writers ==>
      && writers[k] in requests
      && k.session !in requests[writers[k]].queued && k.session.actor in requests[writers[k]].attempted
  }

  ghost predicate WithinLimit(limit: nat, pending: map<Slot, nat>) {
    forall a :: |Usage(pending, a)| <= limit
  }

  ghost predicate Maps(limit: nat, st: State) {
    && Mirror(st.requests, st.pending) && Ids(st)
    && Writers(st.requests, st.writers) && WithinLimit(limit, st.pending)
  }

  ghost predicate Inv(limit: nat, st: State) {
    Requests(st) && Maps(limit, st)
  }

  lemma Shrinks<T>(a: set<T>, b: set<T>)
    requires a <= b
    ensures |a| <= |b|
    decreases b
  {
    if a != b {
      var x :| x in b && x !in a;
      Shrinks(a, b - {x});
    }
  }

  lemma StillWithin(limit: nat, pending: map<Slot, nat>, fewer: map<Slot, nat>)
    requires WithinLimit(limit, pending) && fewer.Keys <= pending.Keys
    ensures WithinLimit(limit, fewer)
  {
    forall a ensures |Usage(fewer, a)| <= limit {
      Shrinks(Usage(fewer, a), Usage(pending, a));
    }
  }

  lemma Held(requests: map<nat, Request>, pending: map<Slot, nat>, s: Session, r: nat)
    requires Mirror(requests, pending) && r in requests
    ensures r in Holders(pending, s) <==> !requests[r].done && s in requests[r].entries
  {
    if !requests[r].done && s in requests[r].entries {
      assert Enters(requests, Slot(s, requests[r].entries[s].hop), r);
    }
  }

  // ---- Changing one request --------------------------------------------------------

  lemma RequestsUpdate(st: State, next: State, r: nat, q: Request)
    requires Requests(st) && next.requests == st.requests[r := q] && Local(q) && Attached(q, st.retired, st.closing)
    requires next.retired == st.retired && next.closing == st.closing
    ensures Requests(next)
  {
  }

  /** The request keeps its ids, or it had none. */
  lemma MirrorUpdate(requests: map<nat, Request>, pending: map<Slot, nat>, r: nat, q: Request)
    requires Mirror(requests, pending)
    requires if r in requests then SameIds(requests[r], q) else q.entries == map[]
    ensures Mirror(requests[r := q], pending)
  {
    var next := requests[r := q];
    forall k, o
      ensures Enters(next, k, o) <==> Enters(requests, k, o)
    {
    }
  }

  ghost predicate SameIds(q: Request, n: Request) {
    && n.done == q.done && n.entries.Keys == q.entries.Keys
    && forall s :: s in n.entries ==> n.entries[s].hop == q.entries[s].hop
  }

  lemma MirrorReserve(requests: map<nat, Request>, pending: map<Slot, nat>, r: nat, q: Request, s: Session, attempt: Attempt)
    requires Mirror(requests, pending) && r in requests && !requests[r].done && !q.done
    requires s !in requests[r].entries && Slot(s, attempt.hop) !in pending
    requires q.entries == requests[r].entries[s := attempt]
    ensures Mirror(requests[r := q], pending[Slot(s, attempt.hop) := r])
  {
    var next := requests[r := q];
    forall k, o
      ensures Enters(next, k, o) <==> Enters(requests, k, o) || (k == Slot(s, attempt.hop) && o == r)
    {
    }
  }

  lemma MirrorComplete(requests: map<nat, Request>, pending: map<Slot, nat>, r: nat, q: Request)
    requires Mirror(requests, pending) && r in requests && !requests[r].done
    requires q.done && q.entries == requests[r].entries
    ensures Mirror(requests[r := q], pending - Slots(q))
  {
    var next := requests[r := q];
    forall k, o | Enters(next, k, o)
      ensures k in pending - Slots(q) && pending[k] == o
    {
      assert Enters(requests, k, o);
      if k in Slots(q) { assert Enters(requests, k, r); }
    }
    forall k | k in pending && k !in Slots(q)
      ensures Enters(next, k, pending[k])
    {
      assert Enters(requests, k, pending[k]);
    }
  }

  lemma WritersUpdate(requests: map<nat, Request>, writers: map<Slot, nat>, r: nat, q: Request)
    requires Writers(requests, writers) && r in requests
    requires requests[r].attempted <= q.attempted
    requires forall s :: s in q.queued && s !in requests[r].queued ==> s.actor !in requests[r].attempted
    ensures Writers(requests[r := q], writers)
  {
  }

  /** A step that leaves one request's ids alone. */
  lemma MapsUpdate(limit: nat, st: State, r: nat, q: Request)
    requires Maps(limit, st) && r in st.requests && SameIds(st.requests[r], q)
    requires st.requests[r].attempted <= q.attempted && q.queued <= st.requests[r].queued
    ensures Maps(limit, st.(requests := st.requests[r := q]))
  {
    MirrorUpdate(st.requests, st.pending, r, q);
    WritersUpdate(st.requests, st.writers, r, q);
  }

  // ---- Reserving -------------------------------------------------------------------

  lemma UsageReserve(pending: map<Slot, nat>, k: Slot, r: nat, a: nat)
    requires k !in pending
    ensures |Usage(pending[k := r], a)| == |Usage(pending, a)| + if a == k.session.actor then 1 else 0
  {
    assert Usage(pending[k := r], a) == Usage(pending, a) + if a == k.session.actor then {k} else {};
  }

  lemma LimitReserve(limit: nat, pending: map<Slot, nat>, k: Slot, r: nat)
    requires WithinLimit(limit, pending) && |Usage(pending, k.session.actor)| < limit && k !in pending
    ensures WithinLimit(limit, pending[k := r])
  {
    var more := pending[k := r];
    forall a ensures |Usage(more, a)| <= limit {
      UsageReserve(pending, k, r, a);
    }
  }

  lemma ReserveMaps(limit: nat, st: State, r: nat, s: Session, generation: nat, hop: Word, t: bool, owner: Owner)
    requires Maps(limit, st) && r in st.requests && MayReserve(st, limit, st.requests[r], s, hop, t)
    requires s.actor !in st.requests[r].attempted && s !in st.requests[r].entries
    ensures Maps(limit, Reserve(st, r, s, generation, hop, t, owner))
  {
    var n := Reserved(st.requests[r], s, generation, hop, t).(owner := owner);
    var next := Reserve(st, r, s, generation, hop, t, owner);
    MirrorReserve(st.requests, st.pending, r, n, s, Attempt(hop, generation, false, false));
    WritersUpdate(st.requests, st.writers, r, n);
    LimitReserve(limit, st.pending, Slot(s, hop), r);
    assert Ids(next);
  }

  lemma ReserveRequests(limit: nat, st: State, r: nat, s: Session, generation: nat, hop: Word, t: bool, owner: Owner)
    requires Requests(st) && r in st.requests && MayReserve(st, limit, st.requests[r], s, hop, t)
    requires s.actor !in st.requests[r].attempted
    requires if t then st.requests[r].owner.Retrying? && owner == Settling(s)
             else st.requests[r].owner.Sending? && owner == Nobody
    ensures s !in st.requests[r].entries
    ensures Requests(Reserve(st, r, s, generation, hop, t, owner))
  {
    assert Local(st.requests[r]);
    ReservedLocal(st.requests[r], s, generation, hop, t, owner);
    RequestsUpdate(st, Reserve(st, r, s, generation, hop, t, owner), r,
                   Reserved(st.requests[r], s, generation, hop, t).(owner := owner));
  }

  // ---- Completing ------------------------------------------------------------------

  lemma CompleteRequests(st: State, r: nat, outcome: Outcome)
    requires Requests(st) && r in st.requests
    requires outcome.Answered? ==> Matches(st.requests[r], outcome.answer)
    ensures Requests(Complete(st, r, outcome))
  {
    var q := st.requests[r];
    assert Local(q);
    if !q.done {
      FinishedLocal(q, outcome);
      RequestsUpdate(st, Complete(st, r, outcome), r, Finished(q, outcome));
    }
  }

  lemma CompleteMaps(limit: nat, st: State, r: nat, outcome: Outcome)
    requires Maps(limit, st) && r in st.requests
    ensures Maps(limit, Complete(st, r, outcome))
  {
    var q := st.requests[r];
    if !q.done {
      var next := Complete(st, r, outcome);
      var n := Finished(q, outcome);
      MirrorComplete(st.requests, st.pending, r, n);
      assert Slots(q) == Slots(n);
      WritersUpdate(st.requests, st.writers, r, n);
      StillWithin(limit, st.pending, next.pending);
      assert Ids(next);
    }
  }

  lemma CompleteKeeps(limit: nat, st: State, r: nat, outcome: Outcome)
    requires Inv(limit, st) && r in st.requests
    requires outcome.Answered? ==> Matches(st.requests[r], outcome.answer)
    ensures Inv(limit, Complete(st, r, outcome))
  {
    CompleteRequests(st, r, outcome);
    CompleteMaps(limit, st, r, outcome);
  }

  // ---- Losing a session ---------------------------------------------------------------

  /** What losing `s` does to a request: nothing, unless `s` holds it; then its
      entry there goes or keeps its id, and it may be claimed. */
  ghost predicate Loses(q: Request, n: Request, s: Session) {
    && n.done == q.done && n.queued == q.queued && n.attempted == q.attempted
    && (forall x :: x in n.entries ==> x in q.entries && n.entries[x].hop == q.entries[x].hop)
    && (forall x :: x in q.entries && x != s ==> x in n.entries)
    && (q.done || s !in q.entries ==> n == q)
  }

  /** `next` has lost `s`: ids elsewhere are untouched, and the ids kept on `s`
      are exactly those still entered. */
  ghost predicate Lost(requests: map<nat, Request>, next: map<nat, Request>, pending: map<Slot, nat>,
                       fewer: map<Slot, nat>, s: Session) {
    && next.Keys == requests.Keys
    && (forall r :: r in requests ==> Loses(requests[r], next[r], s))
    && (forall k :: k in fewer ==> k in pending && fewer[k] == pending[k])
    && (forall k :: k in pending && k.session != s ==> k in fewer)
    && (forall k :: k in pending && k.session == s && pending[k] in next ==> (k in fewer <==> s in next[pending[k]].entries))
  }

  lemma MirrorLost(requests: map<nat, Request>, next: map<nat, Request>, pending: map<Slot, nat>,
                   fewer: map<Slot, nat>, s: Session)
    requires Mirror(requests, pending) && Lost(requests, next, pending, fewer, s)
    ensures Mirror(next, fewer)
  {
    forall k | k in fewer
      ensures Enters(next, k, fewer[k])
    {
      assert Enters(requests, k, pending[k]) && Loses(requests[fewer[k]], next[fewer[k]], s);
    }
    forall k, r | Enters(next, k, r)
      ensures k in fewer && fewer[k] == r
    {
      assert Loses(requests[r], next[r], s);
      assert Enters(requests, k, r);
    }
  }

  lemma WritersLost(requests: map<nat, Request>, next: map<nat, Request>, writers: map<Slot, nat>, s: Session)
    requires Writers(requests, writers) && next.Keys == requests.Keys
    requires forall r :: r in requests ==> Loses(requests[r], next[r], s)
    ensures Writers(next, writers)
  {
    forall k | k in writers
      ensures k.session !in next[writers[k]].queued && k.session.actor in next[writers[k]].attempted
    {
      assert Loses(requests[writers[k]], next[writers[k]], s);
    }
  }

  lemma LostMaps(limit: nat, st: State, next: State, s: Session)
    requires Maps(limit, st)
    requires Lost(st.requests, next.requests, st.pending, next.pending, s)
    requires next.writers == st.writers && next.exchanges == st.exchanges
    requires next.retired == st.retired && next.gone == st.gone
    requires forall k: Slot :: LiveSession(st, k.session) ==> (k in next.controls <==> k in st.controls)
    ensures Maps(limit, next)
  {
    MirrorLost(st.requests, next.requests, st.pending, next.pending, s);
    WritersLost(st.requests, next.requests, st.writers, s);
    StillWithin(limit, st.pending, next.pending);
    assert Ids(next);
  }

  /** What the loss of a session makes of a request that it holds. */
  lemma LosesOne(q: Request, s: Session, drain: set<Slot>)
    requires s in q.entries && !q.done
    ensures Loses(q, Closed(q, s, drain), s) && Loses(q, Detach(q, s), s) && Loses(q, Claim(q, s), s)
  {
  }

  lemma CloseRequests(st: State, s: Session, drain: set<Slot>)
    requires Requests(st) && Mirror(st.requests, st.pending)
    ensures Requests(CloseAdmission(st, s, drain))
  {
    var next := CloseAdmission(st, s, drain);
    forall r | r in next.requests
      ensures Local(next.requests[r]) && Attached(next.requests[r], next.retired, next.closing)
    {
      Held(st.requests, st.pending, s, r);
      assert Local(st.requests[r]) && Attached(st.requests[r], st.retired, st.closing);
      if r in Holders(st.pending, s) { ClosedKeeps(st.requests[r], s, drain, st.retired, st.closing); }
    }
  }

  lemma ClosedKeeps(q: Request, s: Session, drain: set<Slot>, retired: set<Session>, closing: set<Session>)
    requires Local(q) && Attached(q, retired, closing) && s in q.entries
    ensures Local(Closed(q, s, drain)) && Attached(Closed(q, s, drain), retired, closing + {s})
  {
    ClosedLocal(q, s, drain);
  }

  lemma CloseMaps(limit: nat, st: State, s: Session, drain: set<Slot>)
    requires Maps(limit, st)
    ensures Maps(limit, CloseAdmission(st, s, drain))
  {
    var next := CloseAdmission(st, s, drain);
    forall r | r in st.requests
      ensures Loses(st.requests[r], next.requests[r], s)
    {
      Held(st.requests, st.pending, s, r);
      if r in Holders(st.pending, s) { LosesOne(st.requests[r], s, drain); }
    }
    CloseLost(st, s, drain);
    LostMaps(limit, st, next, s);
  }

  lemma CloseLost(st: State, s: Session, drain: set<Slot>)
    requires Mirror(st.requests, st.pending)
    requires var next := CloseAdmission(st, s, drain).requests;
             forall r :: r in st.requests ==> Loses(st.requests[r], next[r], s)
    ensures Lost(st.requests, CloseAdmission(st, s, drain).requests, st.pending, CloseAdmission(st, s, drain).pending, s)
  {
    var next := CloseAdmission(st, s, drain);
    forall k | k in st.pending && k.session == s
      ensures k in next.pending <==> s in next.requests[st.pending[k]].entries
    {
      assert Enters(st.requests, k, st.pending[k]) && st.pending[k] in Holders(st.pending, s);
    }
  }

  lemma FailRequests(st: State, s: Session)
    requires Requests(st) && Mirror(st.requests, st.pending)
    ensures Requests(FailoverSession(st, s))
  {
    var next := FailoverSession(st, s);
    forall r | r in next.requests
      ensures Local(next.requests[r]) && Attached(next.requests[r], next.retired, next.closing)
    {
      Held(st.requests, st.pending, s, r);
      assert Local(st.requests[r]) && Attached(st.requests[r], st.retired, st.closing);
      if r in Holders(st.pending, s) { ClaimLocal(st.requests[r], s); }
    }
  }

  lemma FailMaps(limit: nat, st: State, s: Session)
    requires Maps(limit, st)
    ensures Maps(limit, FailoverSession(st, s))
  {
    var next := FailoverSession(st, s);
    forall r | r in st.requests
      ensures Loses(st.requests[r], next.requests[r], s) && next.requests[r].entries == st.requests[r].entries
    {
      Held(st.requests, st.pending, s, r);
      if r in Holders(st.pending, s) { LosesOne(st.requests[r], s, {}); }
    }
    assert Lost(st.requests, next.requests, st.pending, next.pending, s) by {
      forall k | k in st.pending ensures Enters(st.requests, k, st.pending[k]) {}
    }
    LostMaps(limit, st, next, s);
  }

  lemma RetiredRequests(st: State, s: Session)
    requires Requests(st) && Mirror(st.requests, st.pending) && s in st.retired
    ensures Requests(ClaimRetired(st, s))
  {
    var next := ClaimRetired(st, s);
    forall r | r in next.requests
      ensures Local(next.requests[r]) && Attached(next.requests[r], next.retired, next.closing)
    {
      Held(st.requests, st.pending, s, r);
      assert Local(st.requests[r]) && Attached(st.requests[r], st.retired, st.closing);
      if r in Holders(st.pending, s) { DetachedKeeps(st.requests[r], s, st.retired, st.closing); }
    }
  }

  lemma DetachedKeeps(q: Request, s: Session, retired: set<Session>, closing: set<Session>)
    requires Local(q) && Attached(q, retired, closing) && s in q.entries && s in retired
    ensures Local(Detach(q, s)) && Attached(Detach(q, s), retired, closing)
  {
    DetachLocal(q, s);
  }

  lemma RetiredMaps(limit: nat, st: State, s: Session)
    requires Maps(limit, st) && s in st.retired
    ensures Maps(limit, ClaimRetired(st, s))
  {
    var next := ClaimRetired(st, s);
    forall r | r in st.requests
      ensures Loses(st.requests[r], next.requests[r], s)
      ensures !st.requests[r].done ==> s !in next.requests[r].entries
    {
      Held(st.requests, st.pending, s, r);
      if r in Holders(st.pending, s) { LosesOne(st.requests[r], s, {}); }
    }
    assert Lost(st.requests, next.requests, st.pending, next.pending, s) by {
      forall k | k in st.pending ensures Enters(st.requests, k, st.pending[k]) {}
    }
    LostMaps(limit, st, next, s);
  }

  // ---- Writers and control exchanges ------------------------------------------------------

  /** What writeOne leaves of the request it takes from the queue. */
  function Selected(st: State, q: Request, s: Session): Request {
    var n := q.(queued := q.queued - {s});
    if q.done || q.current != Some(s) || s in st.retired || s in st.closing then n
    else n.(entries := q.entries[s := AttemptOn(q, s).(writing := true)])
  }

  lemma SelectedLocal(st: State, q: Request, s: Session)
    requires Local(q) && Attached(q, st.retired, st.closing)
    ensures Local(Selected(st, q, s)) && Attached(Selected(st, q, s), st.retired, st.closing)
    ensures !q.done && q.current == Some(s) && s !in st.retired && s !in st.closing ==> s in q.entries
  {
  }

  lemma SelectMaps(limit: nat, st: State, r: nat, s: Session)
    requires Maps(limit, st) && r in st.requests && s in st.requests[r].queued
    requires var q := st.requests[r]; !q.done && q.current == Some(s) && s !in st.retired && s !in st.closing ==> s in q.entries
    requires var q := st.requests[r]; s.actor in q.attempted
    ensures Maps(limit, Select(st, r, s))
  {
    var q := st.requests[r];
    var n := Selected(st, q, s);
    var mid := st.(requests := st.requests[r := n]);
    MapsUpdate(limit, st, r, n);
    if !q.done && q.current == Some(s) && s !in st.retired && s !in st.closing {
      var k := Slot(s, q.entries[s].hop);
      assert Enters(st.requests, k, r);
      assert Select(st, r, s) == mid.(controls := st.controls + {k}, writers := st.writers[k := r]);
      SelectIds(mid, r, k);
    }
  }

  lemma SelectIds(st: State, r: nat, k: Slot)
    requires Ids(st) && Writers(st.requests, st.writers) && k in st.pending && st.pending[k] == r
    requires r in st.requests
    requires k.session !in st.requests[r].queued && k.session.actor in st.requests[r].attempted
    ensures Ids(st.(controls := st.controls + {k}, writers := st.writers[k := r]))
    ensures Writers(st.requests, st.writers[k := r])
  {
  }

  /** The id of a request being selected is not already a selected writer's. */
  lemma SelectedOnce(limit: nat, st: State, r: nat, s: Session)
    requires Inv(limit, st) && r in st.requests && s in st.requests[r].queued && s in st.requests[r].entries
    requires !st.requests[r].done
    ensures Slot(s, st.requests[r].entries[s].hop) !in st.writers
  {
    assert Enters(st.requests, Slot(s, st.requests[r].entries[s].hop), r);
  }

  // ---- All steps ------------------------------------------------------------------------

  lemma SettleLocal(st: State, q: Request)
    requires Local(q) && Attached(q, st.retired, st.closing) && q.owner.Settling?
    ensures var lost := LostSession(st, q, q.owner.on);
            Local(q.(failovering := lost, owner := if lost then Claimed else Nobody))
  {
  }

  lemma SubmitRequests(limit: nat, st: State, r: nat, msg: Msg)
    requires Requests(st) && r !in st.requests
    ensures Requests(Apply(limit, st, Submit(r, msg)))
  {
    var q := Request(msg, {}, map[], false, false, 0, None, {}, [], [], Sending);
    RequestsUpdate(st, Apply(limit, st, Submit(r, msg)), r, q);
  }

  lemma SubmitMaps(limit: nat, st: State, r: nat, msg: Msg)
    requires Maps(limit, st) && r !in st.requests
    ensures Maps(limit, Apply(limit, st, Submit(r, msg)))
  {
    MirrorUpdate(st.requests, st.pending, r, Request(msg, {}, map[], false, false, 0, None, {}, [], [], Sending));
  }

  /** An answer changes nothing, or completes a request it matches. */
  lemma Receives(st: State, s: Session, hop: Word, generation: nat, answer: Msg, closing: bool)
    ensures var next := Answer(st, s, hop, generation, answer, closing); var k := Slot(s, hop);
            next == st || (k in st.pending && st.pending[k] in st.requests && Matches(st.requests[st.pending[k]], answer)
                           && next == Complete(st, st.pending[k], Answered(answer)))
  {
  }

  lemma ReceiveKeeps(limit: nat, st: State, s: Session, hop: Word, generation: nat, answer: Msg, closing: bool)
    requires Inv(limit, st)
    ensures Inv(limit, Answer(st, s, hop, generation, answer, closing))
  {
    Receives(st, s, hop, generation, answer, closing);
    if Answer(st, s, hop, generation, answer, closing) != st {
      CompleteKeeps(limit, st, st.pending[Slot(s, hop)], Answered(answer));
    }
  }

  lemma LoseKeeps(limit: nat, st: State, s: Session)
    requires Maps(limit, st)
    ensures Maps(limit, st.(gone := st.gone + {s}))
    ensures s in st.gone ==> Maps(limit, DropControls(st, s))
  {
    assert Ids(st.(gone := st.gone + {s}));
    if s in st.gone { assert Ids(DropControls(st, s)); }
  }

  lemma RetireKeeps(limit: nat, st: State, s: Session)
    requires Inv(limit, st)
    ensures Requests(st.(retired := st.retired + {s})) && Maps(limit, st.(retired := st.retired + {s}))
  {
    var next := st.(retired := st.retired + {s});
    forall r | r in next.requests
      ensures Local(next.requests[r]) && Attached(next.requests[r], next.retired, next.closing)
    {
      assert Local(st.requests[r]) && Attached(st.requests[r], st.retired, st.closing);
    }
    assert Ids(next);
  }

  /** A step on the control ids only. */
  lemma ControlKeeps(limit: nat, st: State, step: Step)
    requires Maps(limit, st) && Enabled(limit, st, step)
    requires step.ReleaseWriter? || step.OpenExchange? || step.CloseExchange?
    ensures Maps(limit, Apply(limit, st, step))
  {
    var next := Apply(limit, st, step);
    assert Ids(next);
    assert Writers(next.requests, next.writers);
  }

  lemma SameRequests(st: State, next: State)
    requires Requests(st) && next.requests == st.requests && next.retired == st.retired && next.closing == st.closing
    ensures Requests(next)
  {
  }

  /** A step of a request's own goroutine that moves no reservation. */
  predicate OwnerStep(step: Step) {
    step.SendRefused? || step.RetryStart? || step.RetryRefused? || step.RetrySettle?
  }

  lemma OwnerRequests(limit: nat, st: State, step: Step)
    requires Requests(st) && Enabled(limit, st, step) && OwnerStep(step)
    ensures Requests(Apply(limit, st, step))
  {
    var q := st.requests[step.r];
    assert Local(q) && Attached(q, st.retired, st.closing);
    OwnerLocal(limit, st, step);
    RequestsUpdate(st, Apply(limit, st, step), step.r, Apply(limit, st, step).requests[step.r]);
  }

  lemma OwnerLocal(limit: nat, st: State, step: Step)
    requires Enabled(limit, st, step) && OwnerStep(step)
    requires Local(st.requests[step.r]) && Attached(st.requests[step.r], st.retired, st.closing)
    ensures var n := Apply(limit, st, step).requests[step.r]; Local(n) && Attached(n, st.retired, st.closing)
  {
    if step.RetrySettle? { SettleLocal(st, st.requests[step.r]); }
  }

  lemma OwnerMaps(limit: nat, st: State, step: Step)
    requires Maps(limit, st) && Enabled(limit, st, step) && OwnerStep(step)
    ensures Maps(limit, Apply(limit, st, step))
  {
    MapsUpdate(limit, st, step.r, Apply(limit, st, step).requests[step.r]);
  }

  lemma ReserveKeeps(limit: nat, st: State, step: Step)
    requires Inv(limit, st) && Enabled(limit, st, step) && (step.SendReserve? || step.RetryReserve?)
    ensures Inv(limit, Apply(limit, st, step))
  {
    var owner := if step.SendReserve? then Nobody else Settling(step.s);
    assert Local(st.requests[step.r]);
    ReserveRequests(limit, st, step.r, step.s, step.generation, step.hop, step.RetryReserve?, owner);
    ReserveMaps(limit, st, step.r, step.s, step.generation, step.hop, step.RetryReserve?, owner);
  }

  lemma SelectRequests(st: State, r: nat, s: Session)
    requires Requests(st) && r in st.requests && s in st.requests[r].queued
    ensures Requests(Select(st, r, s))
    ensures var q := st.requests[r]; !q.done && q.current == Some(s) && s !in st.retired && s !in st.closing ==> s in q.entries
    ensures s.actor in st.requests[r].attempted
  {
    var q := st.requests[r];
    assert Local(q) && Attached(q, st.retired, st.closing);
    SelectedLocal(st, q, s);
    RequestsUpdate(st, Select(st, r, s), r, Selected(st, q, s));
  }

  predicate SharedStep(step: Step) {
    step.Close? || step.Fail? || step.Retire? || step.TakeRetired? || step.Lose? || step.Drop?
    || step.ReleaseWriter? || step.OpenExchange? || step.CloseExchange?
  }

  lemma SharedKeeps(limit: nat, st: State, step: Step)
    requires Inv(limit, st) && Enabled(limit, st, step) && SharedStep(step)
    ensures Inv(limit, Apply(limit, st, step))
  {
    hide Requests, Mirror, Ids, Writers, WithinLimit;
    match step
    case Close(s, drain) => CloseRequests(st, s, drain); CloseMaps(limit, st, s, drain);
    case Fail(s) => FailRequests(st, s); FailMaps(limit, st, s);
    case Retire(s) => RetireKeeps(limit, st, s);
    case TakeRetired(s) => RetiredRequests(st, s); RetiredMaps(limit, st, s);
    case Lose(s) => LoseKeeps(limit, st, s); SameRequests(st, Apply(limit, st, step));
    case Drop(s) => LoseKeeps(limit, st, s); SameRequests(st, Apply(limit, st, step));
    case ReleaseWriter(_) => ControlKeeps(limit, st, step); SameRequests(st, Apply(limit, st, step));
    case OpenExchange(_, _) => ControlKeeps(limit, st, step); SameRequests(st, Apply(limit, st, step));
    case CloseExchange(_) => ControlKeeps(limit, st, step); SameRequests(st, Apply(limit, st, step));
  }

  /** Every step keeps the invariant. */
  lemma Keeps(limit: nat, st: State, step: Step)
    requires Inv(limit, st) && Enabled(limit, st, step)
    ensures Inv(limit, Apply(limit, st, step))
  {
    if SharedStep(step) {
      SharedKeeps(limit, st, step);
    } else if OwnerStep(step) {
      OwnerRequests(limit, st, step);
      OwnerMaps(limit, st, step);
    } else if step.SendReserve? || step.RetryReserve? {
      ReserveKeeps(limit, st, step);
    } else {
      match step
      case Submit(r, msg) => SubmitRequests(limit, st, r, msg); SubmitMaps(limit, st, r, msg);
      case Finish(r) => CompleteKeeps(limit, st, r, Failed);
      case Receive(s, hop, generation, answer, closing) => ReceiveKeeps(limit, st, s, hop, generation, answer, closing);
      case SelectWriter(r, s) => SelectRequests(st, r, s); SelectMaps(limit, st, r, s);
    }
  }

  // ---- Whole runs ---------------------------------------------------------------------

  lemma {:induction false} RunKeeps(limit: nat, st: State, run: seq<Step>, end: State)
    requires Inv(limit, st) && Run(limit, st, run, end)
    ensures Inv(limit, end)
    decreases run
  {
    if run != [] {
      Keeps(limit, st, run[0]);
      RunKeeps(limit, Apply(limit, st, run[0]), run[1..], end);
    }
  }

  lemma Reached(limit: nat, run: seq<Step>, end: State)
    requires Run(limit, INITIAL, run, end)
    ensures Inv(limit, end)
  {
    assert forall a :: Usage(INITIAL.pending, a) == {};
    RunKeeps(limit, INITIAL, run, end);
  }

  /** In every run a request has at most one result, and exactly one once done;
      an answer it got matches it; unfinished, its reservations are exactly its
      entries; finished, it has none. */
  lemma ExactlyOnce(limit: nat, run: seq<Step>, end: State, r: nat)
    requires Run(limit, INITIAL, run, end) && r in end.requests
    ensures var q := end.requests[r];
            && |q.results| == (if q.done then 1 else 0)
            && (forall i :: 0 <= i < |q.results| && q.results[i].Answered? ==> Matches(q, q.results[i].answer))
            && (!q.done ==> forall s, hop :: Slot(s, hop) in end.pending && end.pending[Slot(s, hop)] == r
                                             <==> s in q.entries && q.entries[s].hop == hop)
            && (q.done ==> forall k :: k in end.pending ==> end.pending[k] != r)
  {
    Reached(limit, run, end);
    assert Local(end.requests[r]);
    MirrorExact(end.requests, end.pending, r);
  }

  lemma MirrorExact(requests: map<nat, Request>, pending: map<Slot, nat>, r: nat)
    requires Mirror(requests, pending) && r in requests
    ensures !requests[r].done ==>
              forall s, hop :: Slot(s, hop) in pending && pending[Slot(s, hop)] == r
                               <==> s in requests[r].entries && requests[r].entries[s].hop == hop
    ensures requests[r].done ==> forall k :: k in pending ==> pending[k] != r
  {
    forall s, hop | !requests[r].done
      ensures Slot(s, hop) in pending && pending[Slot(s, hop)] == r
              <==> s in requests[r].entries && requests[r].entries[s].hop == hop
    {
      assert Enters(requests, Slot(s, hop), r) <==> s in requests[r].entries && requests[r].entries[s].hop == hop;
    }
    forall k | requests[r].done && k in pending
      ensures pending[k] != r
    {
      assert Enters(requests, k, pending[k]);
    }
  }

  /** In every run the reservations of a request go to different peers, carry
      its message, set T on all but the first, and change the id each time. */
  lemma Discipline(limit: nat, run: seq<Step>, end: State, r: nat)
    requires Run(limit, INITIAL, run, end) && r in end.requests
    ensures History(end.requests[r])
  {
    Reached(limit, run, end);
    assert Local(end.requests[r]);
  }

  /** So with finitely many peers it is reserved at most once for each of them. */
  lemma {:induction false} Distinct(sent: seq<Sent>, peers: set<nat>)
    requires forall i, j :: 0 <= i < j < |sent| ==> sent[i].session.actor != sent[j].session.actor
    requires forall i :: 0 <= i < |sent| ==> sent[i].session.actor in peers
    ensures |sent| <= |peers|
    decreases sent
  {
    if sent != [] {
      var last := |sent| - 1;
      Distinct(sent[..last], peers - {sent[last].session.actor});
    }
  }

  lemma AttemptsBounded(limit: nat, run: seq<Step>, end: State, r: nat, peers: set<nat>)
    requires Run(limit, INITIAL, run, end) && r in end.requests
    requires forall i :: 0 <= i < |end.requests[r].sent| ==> end.requests[r].sent[i].session.actor in peers
    ensures |end.requests[r].sent| <= |peers|
  {
    Discipline(limit, run, end, r);
    Distinct(end.requests[r].sent, peers);
  }

  /** No request is forgotten: unfinished and first sent, it is being failed
      over, or its current session still holds a reservation for it. */
  lemma NotForgotten(limit: nat, run: seq<Step>, end: State, r: nat)
    requires Run(limit, INITIAL, run, end) && r in end.requests
    requires !end.requests[r].done && end.requests[r].sent != [] && !end.requests[r].failovering
    ensures var q := end.requests[r];
            q.current.Some? && q.current.value in q.entries
            && Slot(q.current.value, q.entries[q.current.value].hop) in end.pending
            && end.pending[Slot(q.current.value, q.entries[q.current.value].hop)] == r
  {
    Reached(limit, run, end);
    var q := end.requests[r];
    assert Local(q);
    assert Enters(end.requests, Slot(q.current.value, q.entries[q.current.value].hop), r);
  }

  /** A failover always has its owner: while `failovering` is set on an
      unfinished request one goroutine is about to move it on. */
  lemma OneOwner(limit: nat, run: seq<Step>, end: State, r: nat)
    requires Run(limit, INITIAL, run, end) && r in end.requests && !end.requests[r].done
    ensures end.requests[r].failovering <==>
              end.requests[r].owner.Claimed? || end.requests[r].owner.Retrying? || end.requests[r].owner.Settling?
    ensures end.requests[r].owner.Retrying? ==> end.requests[r].attempted <= end.requests[r].owner.excluded
  {
    Reached(limit, run, end);
    assert Local(end.requests[r]);
  }

  /** In every run, an id about to be reserved on a live session, or opened for
      a control exchange, is nobody else's there; and no peer exceeds the limit. */
  lemma UniqueIds(limit: nat, run: seq<Step>, end: State, s: Session, hop: Word)
    requires Run(limit, INITIAL, run, end) && LiveSession(end, s)
    ensures Free(end, s, hop) ==> Slot(s, hop) !in end.pending && Slot(s, hop) !in end.exchanges && Slot(s, hop) !in end.writers
    ensures Slot(s, hop) in end.exchanges ==> Slot(s, hop) !in end.pending && Slot(s, hop) !in end.writers
    ensures Slot(s, hop) in end.pending && Slot(s, hop) in end.writers ==> end.pending[Slot(s, hop)] == end.writers[Slot(s, hop)]
    ensures |Usage(end.pending, s.actor)| <= limit
  {
    Reached(limit, run, end);
  }

  /** What no step takes back. */
  ghost predicate Evolves(q: Request, n: Request) {
    && n.msg == q.msg && q.sent <= n.sent && q.results <= n.results && q.attempted <= n.attempted
    && (q.done ==> n.done && n.sent == q.sent && n.results == q.results)
  }

  lemma SharedEvolves(limit: nat, st: State, step: Step, r: nat)
    requires Enabled(limit, st, step) && r in st.requests && SharedStep(step)
    ensures r in Apply(limit, st, step).requests && Evolves(st.requests[r], Apply(limit, st, step).requests[r])
  {
    match step
    case Close(s, drain) => LossEvolves(st.requests[r], s, drain);
    case Fail(s) => LossEvolves(st.requests[r], s, {});
    case TakeRetired(s) => LossEvolves(st.requests[r], s, {});
    case _ =>
  }

  lemma CompleteEvolves(st: State, o: nat, outcome: Outcome, r: nat)
    requires o in st.requests && r in st.requests
    ensures r in Complete(st, o, outcome).requests && Evolves(st.requests[r], Complete(st, o, outcome).requests[r])
  {
  }

  lemma ReserveEvolves(st: State, o: nat, s: Session, generation: nat, hop: Word, t: bool, owner: Owner, r: nat)
    requires o in st.requests && r in st.requests && !st.requests[o].done
    ensures r in Reserve(st, o, s, generation, hop, t, owner).requests
    ensures Evolves(st.requests[r], Reserve(st, o, s, generation, hop, t, owner).requests[r])
  {
  }

  lemma OwnerEvolves(limit: nat, st: State, step: Step, r: nat)
    requires Enabled(limit, st, step) && r in st.requests && OwnerStep(step)
    ensures r in Apply(limit, st, step).requests && Evolves(st.requests[r], Apply(limit, st, step).requests[r])
  {
  }

  lemma StepEvolves(limit: nat, st: State, step: Step, r: nat)
    requires Enabled(limit, st, step) && r in st.requests
    ensures r in Apply(limit, st, step).requests && Evolves(st.requests[r], Apply(limit, st, step).requests[r])
  {
    hide Complete, Reserve, CloseAdmission, FailoverSession, ClaimRetired;
    if SharedStep(step) {
      SharedEvolves(limit, st, step, r);
    } else if !OwnerStep(step) {
      match step
      case Submit(_, _) =>
      case SendReserve(o, s, generation, hop) => ReserveEvolves(st, o, s, generation, hop, false, Nobody, r);
      case RetryReserve(o, s, generation, hop) => ReserveEvolves(st, o, s, generation, hop, true, Settling(s), r);
      case Finish(o) => CompleteEvolves(st, o, Failed, r);
      case Receive(s, hop, generation, answer, closing) =>
        Receives(st, s, hop, generation, answer, closing);
        if Apply(limit, st, step) != st { CompleteEvolves(st, st.pending[Slot(s, hop)], Answered(answer), r); }
      case SelectWriter(o, s) => assert o == r ==> Select(st, o, s).requests[r] == Selected(st, st.requests[r], s);
    } else {
      OwnerEvolves(limit, st, step, r);
    }
  }

  lemma LossEvolves(q: Request, s: Session, drain: set<Slot>)
    ensures Evolves(q, Closed(q, s, drain)) && Evolves(q, Detach(q, s)) && Evolves(q, Claim(q, s))
  {
  }

  /** From any reachable state on, a request keeps its message; its reservations,
      the peers attempted and its result are only ever added to. */
  lemma {:induction false} RunEvolves(limit: nat, st: State, run: seq<Step>, end: State, r: nat)
    requires Inv(limit, st) && Run(limit, st, run, end) && r in st.requests
    ensures r in end.requests && Evolves(st.requests[r], end.requests[r])
    decreases run
  {
    if run != [] {
      Keeps(limit, st, run[0]);
      StepEvolves(limit, st, run[0], r);
      RunEvolves(limit, Apply(limit, st, run[0]), run[1..], end, r);
    }
  }
}

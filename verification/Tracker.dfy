/** Request ownership on one connection generation (diam/pending_requests.go).
    Tickets are named by the order of their creation; every locked region of
    PendingRequests and RequestWrite is one step. */
module Tracker {
  import opened Octets

  datatype Key = Key(hop: Word, end: Word, command: Word, application: Word)

  datatype Ticket = Ticket(key: Key, cancelled: bool, failed: bool, previous: Option<nat>)

  /** `writes` are the BeginWrite calls whose outcome is still to be reported. */
  datatype Tracker = Tracker(
    tickets: seq<Ticket>, pending: map<Key, nat>, reserved: map<Key, nat>, closing: bool, writes: multiset<nat>)

  const EMPTY: Tracker := Tracker([], map[], map[], false, multiset{})

  datatype Step =
    | Prepare(key: Key)
    | Cancel(t: nat)
    | Release(t: nat)
    | Publish(key: Key)
    | Admit(t: nat)
    | Begin(key: Key)
    | End(t: nat, written: bool)
    | Close
    | Match(key: Key, consume: bool)

  // ---- The steps ------------------------------------------------------------------

  function Fresh(key: Key): Ticket {
    Ticket(key, false, false, None)
  }

  /** The nearest ticket along `previous` links that may own the key again. */
  function Live(tickets: seq<Ticket>, t: Option<nat>): (r: Option<nat>)
    requires Older(tickets) && (t.Some? ==> t.value < |tickets|)
    ensures r.Some? ==> r.value < |tickets| && !tickets[r.value].failed && !tickets[r.value].cancelled
    ensures r.Some? ==> t.Some? && r.value <= t.value && tickets[r.value].key == tickets[t.value].key
    decreases if t.Some? then t.value + 1 else 0
  {
    if t.None? || !(tickets[t.value].failed || tickets[t.value].cancelled) then t
    else
      assert OlderAt(tickets, t.value);
      Live(tickets, tickets[t.value].previous)
  }

  /** Rollback links lead to older tickets of the same key. */
  ghost predicate Older(tickets: seq<Ticket>) {
    forall t :: 0 <= t < |tickets| ==> OlderAt(tickets, t)
  }

  predicate OlderAt(tickets: seq<Ticket>, t: nat)
    requires t < |tickets|
  {
    tickets[t].previous.Some? ==>
      tickets[t].previous.value < t && tickets[tickets[t].previous.value].key == tickets[t].key
  }

  function Owner(st: Tracker, key: Key): Option<nat> {
    if key in st.pending then Some(st.pending[key]) else None
  }

  function Give(st: Tracker, key: Key, owner: Option<nat>): Tracker {
    if owner.Some? then st.(pending := st.pending[key := owner.value]) else st.(pending := st.pending - {key})
  }

  /** BeginWrite: nothing when Closing or cancelled; otherwise the reserved or a
      fresh ticket takes the key and remembers the ticket it displaced. */
  function Began(st: Tracker, key: Key): Tracker
    requires key in st.reserved ==> st.reserved[key] < |st.tickets|
  {
    if st.closing || (key in st.reserved && st.tickets[st.reserved[key]].cancelled) then st
    else
      var base := if key in st.reserved then st else st.(tickets := st.tickets + [Fresh(key)]);
      var t := if key in st.reserved then st.reserved[key] else |st.tickets|;
      var link := if Owner(st, key) == Some(t) then base.tickets[t].previous else Owner(st, key);
      base.(tickets := base.tickets[t := base.tickets[t].(previous := link)], pending := base.pending[key := t],
            writes := base.writes + multiset{t})
  }

  /** The outcome of a write: success drops the links, failure rolls back. */
  function Ended(st: Tracker, t: nat, written: bool): Tracker
    requires t < |st.tickets| && Older(st.tickets)
  {
    var rest := st.(writes := st.writes - multiset{t});
    var key := st.tickets[t].key;
    if written then rest.(tickets := st.tickets[t := st.tickets[t].(previous := None)])
    else
      assert OlderAt(st.tickets, t);
      OlderUpdate(st.tickets, t, st.tickets[t].(failed := true));
      var failed := st.tickets[t := st.tickets[t].(failed := true)];
      var after := rest.(tickets := failed);
      if Owner(st, key) == Some(t) then Give(after, key, Live(failed, st.tickets[t].previous)) else after
  }

  predicate Enabled(st: Tracker, step: Step) {
    match step
    case Cancel(t) => t < |st.tickets|
    case Release(t) => t < |st.tickets|
    case Admit(t) => t < |st.tickets|
    case End(t, _) => t in st.writes
    case _ => true
  }

  predicate OwnedBy(tickets: seq<Ticket>, k: Key, t: nat) {
    t < |tickets| && tickets[t].key == k && !tickets[t].cancelled
  }

  ghost predicate Newest(tickets: seq<Ticket>, k: Key, t: nat) {
    && t < |tickets| && tickets[t].key == k
    && forall u :: 0 <= u < |tickets| && tickets[u].key == k ==> u <= t
  }

  /** A key is owned by an uncancelled ticket of its own. */
  ghost predicate Owners(tickets: seq<Ticket>, pending: map<Key, nat>) {
    forall k :: k in pending ==> OwnedBy(tickets, k, pending[k])
  }

  /** A reservation is the newest ticket of its key. */
  ghost predicate Reserves(tickets: seq<Ticket>, reserved: map<Key, nat>) {
    forall k :: k in reserved ==> Newest(tickets, k, reserved[k])
  }

  ghost predicate Well(st: Tracker) {
    && Older(st.tickets) && Owners(st.tickets, st.pending) && Reserves(st.tickets, st.reserved)
    && (forall t :: t in st.writes ==> t < |st.tickets|)
  }

  lemma EndedWritten(st: Tracker, t: nat)
    requires Well(st) && t in st.writes
    ensures t < |st.tickets|
    ensures Ended(st, t, true)
         == st.(writes := st.writes - multiset{t}, tickets := st.tickets[t := st.tickets[t].(previous := None)])
  {
    hide Owners, Reserves;
  }

  /** What EndWrite leaves behind after a failed write. */
  lemma EndedFailed(st: Tracker, t: nat)
    requires Well(st) && t in st.writes
    ensures t < |st.tickets|
    ensures var failed := st.tickets[t := st.tickets[t].(failed := true)];
            var rest := st.(writes := st.writes - multiset{t}, tickets := failed);
            && Older(failed) && (failed[t].previous.Some? ==> failed[t].previous.value < |failed|)
            && Ended(st, t, false) == if Owner(st, st.tickets[t].key) == Some(t)
                                      then Give(rest, st.tickets[t].key, Live(failed, failed[t].previous)) else rest
  {
    hide Owners, Reserves;
    assert OlderAt(st.tickets, t);
    OlderUpdate(st.tickets, t, st.tickets[t].(failed := true));
  }

  lemma BeganNot(st: Tracker, key: Key)
    requires Well(st)
    ensures key in st.reserved ==> st.reserved[key] < |st.tickets|
    ensures st.closing || (key in st.reserved && st.tickets[st.reserved[key]].cancelled) ==> Began(st, key) == st
  {
    hide Older, Owners;
    if key in st.reserved { assert Newest(st.tickets, key, st.reserved[key]); }
  }

  /** What BeginWrite leaves behind, in the terms in which it computes it. */
  lemma BeganAs(st: Tracker, key: Key, t: nat, all: seq<Ticket>)
    requires !st.closing && (key in st.reserved ==> st.reserved[key] < |st.tickets| && !st.tickets[st.reserved[key]].cancelled)
    requires t == if key in st.reserved then st.reserved[key] else |st.tickets|
    requires var base := if key in st.reserved then st.tickets else st.tickets + [Fresh(key)];
             all == if Owner(st, key) == Some(t) then base else base[t := base[t].(previous := Owner(st, key))]
    ensures Began(st, key) == st.(tickets := all, pending := st.pending[key := t], writes := st.writes + multiset{t})
  {
    var base := if key in st.reserved then st.tickets else st.tickets + [Fresh(key)];
    assert base[t := base[t].(previous := base[t].previous)] == base;
  }

  lemma OlderHere(tickets: seq<Ticket>, t: nat)
    requires Older(tickets) && t < |tickets|
    ensures OlderAt(tickets, t)
  {
  }

  lemma ReservedHere(st: Tracker, key: Key)
    requires Well(st) && key in st.reserved
    ensures st.reserved[key] < |st.tickets|
  {
    assert Newest(st.tickets, key, st.reserved[key]);
  }

  function Apply(st: Tracker, step: Step): Tracker
    requires Well(st) && Enabled(st, step)
  {
    match step
    case Prepare(key) =>
      st.(tickets := st.tickets + [Fresh(key)], reserved := st.reserved[key := |st.tickets|])
    case Cancel(t) =>
      var key := st.tickets[t].key;
      var gone := st.(tickets := st.tickets[t := st.tickets[t].(cancelled := true)]);
      if Owner(st, key) == Some(t) then gone.(pending := st.pending - {key}) else gone
    case Release(t) =>
      var key := st.tickets[t].key;
      if key in st.reserved && st.reserved[key] == t then st.(reserved := st.reserved - {key}) else st
    case Publish(key) =>
      if key in st.reserved then st else st.(tickets := st.tickets + [Fresh(key)])
    case Admit(t) =>
      if st.tickets[t].cancelled || st.closing then st else st.(pending := st.pending[st.tickets[t].key := t])
    case Begin(key) => Began(st, key)
    case End(t, written) => Ended(st, t, written)
    case Close => st.(closing := true)
    case Match(key, consume) => if consume then st.(pending := st.pending - {key}) else st
  }

  ghost predicate Run(st: Tracker, run: seq<Step>, end: Tracker)
    requires Well(st)
    decreases run
  {
    if run == [] then st == end
    else Enabled(st, run[0]) && (WellKept(st, run[0]); Run(Apply(st, run[0]), run[1..], end))
  }

  // ---- What every step keeps ----------------------------------------------------------

  lemma OlderUpdate(tickets: seq<Ticket>, t: nat, n: Ticket)
    requires Older(tickets) && t < |tickets| && n.key == tickets[t].key
    requires n.previous.Some? ==> n.previous.value < t && tickets[n.previous.value].key == n.key
    ensures Older(tickets[t := n])
  {
    var next := tickets[t := n];
    forall u | 0 <= u < |next|
      ensures OlderAt(next, u)
    {
      assert OlderAt(tickets, u);
    }
  }

  lemma OlderGrow(tickets: seq<Ticket>, key: Key)
    requires Older(tickets)
    ensures Older(tickets + [Fresh(key)])
  {
    var next := tickets + [Fresh(key)];
    forall u | 0 <= u < |next|
      ensures OlderAt(next, u)
    {
      if u < |tickets| { assert OlderAt(tickets, u); }
    }
  }

  lemma OwnersUpdate(tickets: seq<Ticket>, pending: map<Key, nat>, t: nat, n: Ticket)
    requires Owners(tickets, pending) && t < |tickets| && n.key == tickets[t].key
    requires n.cancelled ==> tickets[t].cancelled || n.key !in pending || pending[n.key] != t
    ensures Owners(tickets[t := n], pending)
  {
    forall k | k in pending ensures OwnedBy(tickets[t := n], k, pending[k]) {
      assert OwnedBy(tickets, k, pending[k]);
    }
  }

  lemma ReservesUpdate(tickets: seq<Ticket>, reserved: map<Key, nat>, t: nat, n: Ticket)
    requires Reserves(tickets, reserved) && t < |tickets| && n.key == tickets[t].key
    ensures Reserves(tickets[t := n], reserved)
  {
    var next := tickets[t := n];
    forall k | k in reserved ensures Newest(next, k, reserved[k]) {
      assert Newest(tickets, k, reserved[k]);
      assert forall u :: 0 <= u < |tickets| ==> next[u].key == tickets[u].key;
    }
  }

  lemma Grows(tickets: seq<Ticket>, pending: map<Key, nat>, reserved: map<Key, nat>, key: Key)
    requires Owners(tickets, pending) && Reserves(tickets, reserved)
    ensures Owners(tickets + [Fresh(key)], pending)
    ensures key !in reserved ==> Reserves(tickets + [Fresh(key)], reserved)
    ensures Reserves(tickets + [Fresh(key)], reserved[key := |tickets|])
  {
    var next := tickets + [Fresh(key)];
    forall k | k in pending ensures OwnedBy(next, k, pending[k]) {
      assert OwnedBy(tickets, k, pending[k]);
    }
    forall k | k in reserved && k != key ensures Newest(next, k, reserved[k]) {
      assert Newest(tickets, k, reserved[k]);
    }
    assert Newest(next, key, |tickets|);
  }

  /** A change to one ticket that keeps its key and does not cancel an owner. */
  lemma UpdateWell(st: Tracker, t: nat, n: Ticket)
    requires Well(st) && t < |st.tickets| && n.key == st.tickets[t].key
    requires n.previous.Some? ==> n.previous.value < t && st.tickets[n.previous.value].key == n.key
    requires n.cancelled ==> st.tickets[t].cancelled || Owner(st, n.key) != Some(t)
    ensures Well(st.(tickets := st.tickets[t := n]))
  {
    OlderUpdate(st.tickets, t, n);
    OwnersUpdate(st.tickets, st.pending, t, n);
    ReservesUpdate(st.tickets, st.reserved, t, n);
  }

  lemma GrowWell(st: Tracker, key: Key)
    requires Well(st)
    ensures key !in st.reserved ==> Well(st.(tickets := st.tickets + [Fresh(key)]))
    ensures Well(st.(tickets := st.tickets + [Fresh(key)], reserved := st.reserved[key := |st.tickets|]))
  {
    OlderGrow(st.tickets, key);
    Grows(st.tickets, st.pending, st.reserved, key);
  }

  lemma GiveWell(st: Tracker, key: Key, owner: Option<nat>)
    requires Well(st) && (owner.Some? ==> OwnedBy(st.tickets, key, owner.value))
    ensures Well(Give(st, key, owner))
  {
  }

  lemma LinkWell(st: Tracker, key: Key, t: nat)
    requires Well(st) && Newest(st.tickets, key, t) && !st.tickets[t].cancelled
    ensures var link := if Owner(st, key) == Some(t) then st.tickets[t].previous else Owner(st, key);
            Well(st.(tickets := st.tickets[t := st.tickets[t].(previous := link)], pending := st.pending[key := t],
                     writes := st.writes + multiset{t}))
  {
    var link := if Owner(st, key) == Some(t) then st.tickets[t].previous else Owner(st, key);
    assert OlderAt(st.tickets, t);
    if key in st.pending { assert OwnedBy(st.tickets, key, st.pending[key]); }
    var linked := st.(tickets := st.tickets[t := st.tickets[t].(previous := link)]);
    UpdateWell(st, t, st.tickets[t].(previous := link));
    GiveWell(linked, key, Some(t));
  }

  lemma BeginWell(st: Tracker, key: Key)
    requires Well(st)
    ensures Well(Began(st, key))
  {
    if key in st.reserved {
      assert Newest(st.tickets, key, st.reserved[key]);
      if !st.tickets[st.reserved[key]].cancelled { LinkWell(st, key, st.reserved[key]); }
    } else {
      var base := st.(tickets := st.tickets + [Fresh(key)]);
      GrowWell(st, key);
      assert Newest(base.tickets, key, |st.tickets|);
      LinkWell(base, key, |st.tickets|);
    }
  }

  lemma EndWell(st: Tracker, t: nat, written: bool)
    requires Well(st) && t < |st.tickets|
    ensures Well(Ended(st, t, written))
  {
    assert OlderAt(st.tickets, t);
    var key := st.tickets[t].key;
    var rest := st.(writes := st.writes - multiset{t});
    if written {
      UpdateWell(rest, t, st.tickets[t].(previous := None));
    } else {
      var after := rest.(tickets := st.tickets[t := st.tickets[t].(failed := true)]);
      UpdateWell(rest, t, st.tickets[t].(failed := true));
      GiveWell(after, key, Live(after.tickets, st.tickets[t].previous));
    }
  }

  lemma CancelWell(st: Tracker, t: nat)
    requires Well(st) && t < |st.tickets|
    ensures Well(Apply(st, Cancel(t)))
  {
    assert OlderAt(st.tickets, t);
    var key := st.tickets[t].key;
    var free := if Owner(st, key) == Some(t) then Give(st, key, None) else st;
    GiveWell(st, key, None);
    UpdateWell(free, t, st.tickets[t].(cancelled := true));
  }

  /** Every step keeps the links acyclic and the owners uncancelled. */
  lemma WellKept(st: Tracker, step: Step)
    requires Well(st) && Enabled(st, step)
    ensures Well(Apply(st, step))
  {
    match step
    case Begin(key) => BeginWell(st, key);
    case End(t, written) => EndWell(st, t, written);
    case Prepare(key) => GrowWell(st, key);
    case Publish(key) => GrowWell(st, key);
    case Cancel(t) => CancelWell(st, t);
    case Admit(t) => if !st.tickets[t].cancelled { GiveWell(st, st.tickets[t].key, Some(t)); }
    case Match(key, consume) => GiveWell(st, key, None);
    case _ =>
  }

  // ---- Whole runs ------------------------------------------------------------------

  lemma {:induction false} RunWell(st: Tracker, run: seq<Step>, end: Tracker)
    requires Well(st) && Run(st, run, end)
    ensures Well(end)
    decreases run
  {
    if run != [] {
      WellKept(st, run[0]);
      RunWell(Apply(st, run[0]), run[1..], end);
    }
  }

  /** In every run rollback links lead to older tickets, so following them
      ends, and no cancelled ticket owns a key. */
  lemma Sound(run: seq<Step>, end: Tracker)
    requires Run(EMPTY, run, end)
    ensures forall t :: 0 <= t < |end.tickets| && end.tickets[t].previous.Some? ==> end.tickets[t].previous.value < t
    ensures forall k :: k in end.pending ==> end.pending[k] < |end.tickets| && !end.tickets[end.pending[k]].cancelled
  {
    RunWell(EMPTY, run, end);
    forall t | 0 <= t < |end.tickets| && end.tickets[t].previous.Some?
      ensures end.tickets[t].previous.value < t
    {
      assert OlderAt(end.tickets, t);
    }
    forall k | k in end.pending
      ensures end.pending[k] < |end.tickets| && !end.tickets[end.pending[k]].cancelled
    {
      assert OwnedBy(end.tickets, k, end.pending[k]);
    }
  }

  lemma StepFrozen(st: Tracker, step: Step)
    requires Well(st) && Enabled(st, step) && st.closing
    ensures Apply(st, step).closing && Apply(st, step).pending.Keys <= st.pending.Keys
  {
  }

  /** Closing freezes ownership: from then on the owned keys only shrink. */
  lemma {:induction false} Frozen(st: Tracker, run: seq<Step>, end: Tracker)
    requires Well(st) && Run(st, run, end) && st.closing
    ensures end.closing && end.pending.Keys <= st.pending.Keys
    decreases run
  {
    if run != [] {
      WellKept(st, run[0]);
      StepFrozen(st, run[0]);
      Frozen(Apply(st, run[0]), run[1..], end);
    }
  }
}

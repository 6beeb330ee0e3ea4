/** What a failed write may give back (diam/pending_requests.go:162-214). */
module Rollback {
  import opened Octets
  import opened Tracker

  // ---- Failed tickets --------------------------------------------------------------

  ghost predicate OwnersUnfailed(st: Tracker) {
    forall k :: k in st.pending && st.pending[k] < |st.tickets| ==> !st.tickets[st.pending[k]].failed
  }

  /** A write of a reserved ticket that has already failed once. */
  predicate Revives(st: Tracker, step: Step)
    requires Enabled(st, step) && (step.Begin? && step.key in st.reserved ==> st.reserved[step.key] < |st.tickets|)
  {
    && !st.closing
    && match step
       case Begin(key) =>
         key in st.reserved && st.tickets[st.reserved[key]].failed && !st.tickets[st.reserved[key]].cancelled
       case Admit(t) => st.tickets[t].failed && !st.tickets[t].cancelled
       case _ => false
  }

  lemma ReservedValid(st: Tracker, key: Key)
    requires Well(st) && key in st.reserved
    ensures st.reserved[key] < |st.tickets|
  {
    assert Newest(st.tickets, key, st.reserved[key]);
  }

  lemma BeginUnfailed(st: Tracker, key: Key)
    requires Well(st) && OwnersUnfailed(st)
    ensures key in st.reserved ==> st.reserved[key] < |st.tickets|
    ensures OwnersUnfailed(Began(st, key)) <==> !Revives(st, Begin(key))
  {
    var next := Began(st, key);
    if key in st.reserved { ReservedValid(st, key); }
    forall k | k in st.pending ensures OwnedBy(st.tickets, k, st.pending[k]) {}
    if next != st { assert key in next.pending; }
  }

  lemma EndUnfailed(st: Tracker, t: nat, written: bool)
    requires Well(st) && OwnersUnfailed(st) && t < |st.tickets|
    ensures OwnersUnfailed(Ended(st, t, written))
  {
    hide Reserves, Older, Live;
    OlderHere(st.tickets, t);
    var next := Ended(st, t, written);
    forall k | k in next.pending && next.pending[k] < |next.tickets| ensures !next.tickets[next.pending[k]].failed {
      if k in st.pending { assert OwnedBy(st.tickets, k, st.pending[k]); }
    }
  }

  /** An owner that has failed appears exactly when a failed ticket that is
      still reserved is written again. */
  lemma FailedOwner(st: Tracker, step: Step)
    requires Well(st) && OwnersUnfailed(st) && Enabled(st, step)
    ensures step.Begin? && step.key in st.reserved ==> st.reserved[step.key] < |st.tickets|
    ensures OwnersUnfailed(Apply(st, step)) <==> !Revives(st, step)
  {
    match step
    case Begin(key) => BeginUnfailed(st, key);
    case End(t, written) => EndUnfailed(st, t, written);
    case Admit(t) =>
      if !st.closing && !st.tickets[t].cancelled { assert st.tickets[t].key in Apply(st, step).pending; }
    case _ => forall k | k in st.pending ensures OwnedBy(st.tickets, k, st.pending[k]) {}
  }

  /** Only BeginWrite and the outcome it reports: no reservation, no native gate. */
  ghost predicate BeginOnly(run: seq<Step>) {
    forall i :: 0 <= i < |run| ==> !run[i].Prepare? && !run[i].Admit?
  }

  lemma ReservesNothing(st: Tracker, step: Step)
    requires Well(st) && Enabled(st, step) && !step.Prepare? && st.reserved == map[]
    ensures Apply(st, step).reserved == map[]
  {
  }

  lemma {:induction false} BeginOnlyRun(st: Tracker, run: seq<Step>, end: Tracker)
    requires Well(st) && st.reserved == map[] && OwnersUnfailed(st) && Run(st, run, end) && BeginOnly(run)
    ensures OwnersUnfailed(end)
    decreases run
  {
    if run != [] {
      WellKept(st, run[0]);
      ReservesNothing(st, run[0]);
      FailedOwner(st, run[0]);
      BeginOnlyRun(Apply(st, run[0]), run[1..], end);
    }
  }

  /** On a connection tracked by BeginWrite alone no owner has failed. */
  lemma NeverFailed(run: seq<Step>, end: Tracker)
    requires Run(EMPTY, run, end) && BeginOnly(run)
    ensures forall k :: k in end.pending ==> end.pending[k] < |end.tickets| && !end.tickets[end.pending[k]].failed
  {
    BeginOnlyRun(EMPTY, run, end);
    RunWell(EMPTY, run, end);
    forall k | k in end.pending ensures OwnedBy(end.tickets, k, end.pending[k]) {}
  }

  lemma RunCons(st: Tracker, step: Step, run: seq<Step>, end: Tracker)
    requires Well(st) && Enabled(st, step) && Well(Apply(st, step)) && Run(Apply(st, step), run, end)
    ensures Run(st, [step] + run, end)
  {
    assert ([step] + run)[1..] == run;
  }

  function ReservedOne(key: Key, failed: bool): Tracker {
    Tracker([Ticket(key, false, failed, None)], map[], map[key := 0], false, multiset{})
  }

  /** The reserved ticket is written: it owns the key, failed before or not. */
  lemma WriteReserved(key: Key, failed: bool)
    ensures var st := ReservedOne(key, failed);
            Well(st) && Well(Apply(st, Begin(key)))
            && Apply(st, Begin(key)) == st.(pending := map[key := 0], writes := multiset{0})
  {
    var st := ReservedOne(key, failed);
    assert Newest(st.tickets, key, 0);
    WellKept(st, Begin(key));
  }

  lemma FailReserved(key: Key)
    ensures var st := ReservedOne(key, false).(pending := map[key := 0], writes := multiset{0});
            Well(st) && Enabled(st, End(0, false)) && Apply(st, End(0, false)) == ReservedOne(key, true)
  {
    WriteReserved(key, false);
  }

  /** With a reservation it can happen: the same ticket written twice, first in vain. */
  lemma FailedOwnerExists(key: Key) returns (run: seq<Step>, end: Tracker)
    ensures Run(EMPTY, run, end) && key in end.pending
    ensures end.pending[key] < |end.tickets| && end.tickets[end.pending[key]].failed
  {
    var written := ReservedOne(key, false).(pending := map[key := 0], writes := multiset{0});
    WriteReserved(key, false);
    FailReserved(key);
    WriteReserved(key, true);
    end := Apply(ReservedOne(key, true), Begin(key));
    run := [];
    RunCons(ReservedOne(key, true), Begin(key), run, end);
    run := [Begin(key)] + run;
    RunCons(written, End(0, false), run, end);
    run := [End(0, false)] + run;
    RunCons(ReservedOne(key, false), Begin(key), run, end);
    run := [Begin(key)] + run;
    assert Apply(EMPTY, Prepare(key)) == ReservedOne(key, false);
    RunCons(EMPTY, Prepare(key), run, end);
    run := [Prepare(key)] + run;
  }

  // ---- Consumed tickets --------------------------------------------------------------

  predicate WritesReserved(st: Tracker, key: Key) {
    && !st.closing && key in st.reserved
    && st.reserved[key] < |st.tickets| && !st.tickets[st.reserved[key]].cancelled
  }

  /** The tickets whose ownership an answer has consumed and that have not been
      written again since. */
  function Dead(st: Tracker, dead: set<nat>, step: Step): set<nat> {
    match step
    case Match(key, consume) =>
      if consume then dead + (set t | 0 <= t < |st.tickets| && st.tickets[t].key == key) else dead
    case Begin(key) => if WritesReserved(st, key) then dead - {st.reserved[key]} else dead
    case _ => dead
  }

  /** No ticket from `t` on back along the links is dead. */
  ghost predicate Alive(tickets: seq<Ticket>, t: nat, dead: set<nat>)
    requires Older(tickets) && t < |tickets|
    decreases t
  {
    && t !in dead
    && (assert OlderAt(tickets, t); tickets[t].previous.Some? ==> Alive(tickets, tickets[t].previous.value, dead))
  }

  ghost predicate OwnersAlive(st: Tracker, dead: set<nat>)
    requires Older(st.tickets)
  {
    forall k :: k in st.pending && st.pending[k] < |st.tickets| ==> Alive(st.tickets, st.pending[k], dead)
  }

  /** What does not lengthen a link does not hurt. */
  lemma {:induction false} AliveCut(tickets: seq<Ticket>, t: nat, dead: set<nat>, u: nat, n: Ticket)
    requires Older(tickets) && t < |tickets| && u < |tickets| && Older(tickets[u := n]) && Alive(tickets, t, dead)
    requires u > t || n.previous == tickets[u].previous || n.previous.None?
    ensures Alive(tickets[u := n], t, dead)
    decreases t
  {
    assert OlderAt(tickets, t);
    if tickets[t].previous.Some? { AliveCut(tickets, tickets[t].previous.value, dead, u, n); }
  }

  lemma {:induction false} AliveGrow(tickets: seq<Ticket>, t: nat, dead: set<nat>, key: Key)
    requires Older(tickets) && t < |tickets| && Older(tickets + [Fresh(key)]) && Alive(tickets, t, dead)
    ensures Alive(tickets + [Fresh(key)], t, dead)
    decreases t
  {
    assert OlderAt(tickets, t);
    if tickets[t].previous.Some? { AliveGrow(tickets, tickets[t].previous.value, dead, key); }
  }

  /** Links stay within a key, so the tickets of another key may die. */
  lemma {:induction false} AliveElsewhere(tickets: seq<Ticket>, t: nat, dead: set<nat>, more: set<nat>)
    requires Older(tickets) && t < |tickets| && Alive(tickets, t, dead)
    requires forall u :: u in more && u < |tickets| && tickets[u].key == tickets[t].key ==> u in dead
    ensures Alive(tickets, t, more)
    decreases t
  {
    assert OlderAt(tickets, t);
    if tickets[t].previous.Some? { AliveElsewhere(tickets, tickets[t].previous.value, dead, more); }
  }

  lemma {:induction false} AliveBack(tickets: seq<Ticket>, t: nat, dead: set<nat>)
    requires Older(tickets) && t < |tickets| && Alive(tickets, t, dead)
    ensures var r := Live(tickets, Some(t)); r.Some? ==> Alive(tickets, r.value, dead)
    decreases t
  {
    assert OlderAt(tickets, t);
    if tickets[t].previous.Some? { AliveBack(tickets, tickets[t].previous.value, dead); }
  }

  lemma UpdateAlive(st: Tracker, dead: set<nat>, u: nat, n: Ticket)
    requires Well(st) && OwnersAlive(st, dead) && u < |st.tickets| && Older(st.tickets[u := n])
    requires n.previous == st.tickets[u].previous || n.previous.None?
    ensures OwnersAlive(st.(tickets := st.tickets[u := n]), dead)
  {
    forall k | k in st.pending && st.pending[k] < |st.tickets|
      ensures Alive(st.tickets[u := n], st.pending[k], dead)
    {
      AliveCut(st.tickets, st.pending[k], dead, u, n);
    }
  }

  lemma GrowAlive(st: Tracker, dead: set<nat>, key: Key)
    requires Well(st) && OwnersAlive(st, dead)
    ensures Older(st.tickets + [Fresh(key)])
    ensures OwnersAlive(st.(tickets := st.tickets + [Fresh(key)]), dead)
  {
    OlderGrow(st.tickets, key);
    forall k | k in st.pending && st.pending[k] < |st.tickets| + 1
      ensures Alive(st.tickets + [Fresh(key)], st.pending[k], dead)
    {
      assert OwnedBy(st.tickets, k, st.pending[k]);
      AliveGrow(st.tickets, st.pending[k], dead, key);
    }
  }

  lemma EndAlive(st: Tracker, dead: set<nat>, t: nat, written: bool)
    requires Well(st) && OwnersAlive(st, dead) && t < |st.tickets|
    ensures Well(Ended(st, t, written)) && OwnersAlive(Ended(st, t, written), dead)
  {
    EndWell(st, t, written);
    assert OlderAt(st.tickets, t);
    OlderUpdate(st.tickets, t, st.tickets[t].(previous := None));
    OlderUpdate(st.tickets, t, st.tickets[t].(failed := true));
    UpdateAlive(st, dead, t, st.tickets[t].(previous := None));
    UpdateAlive(st, dead, t, st.tickets[t].(failed := true));
    var failed := st.tickets[t := st.tickets[t].(failed := true)];
    if Owner(st, st.tickets[t].key) == Some(t) && st.tickets[t].previous.Some? {
      assert Alive(failed, t, dead);
      AliveBack(failed, st.tickets[t].previous.value, dead);
    }
  }

  /** The begun ticket takes the key: it heads a chain of living tickets. */
  lemma LinkAlive(st: Tracker, dead: set<nat>, key: Key, t: nat)
    requires Well(st) && OwnersAlive(st, dead) && Newest(st.tickets, key, t) && !st.tickets[t].cancelled
    ensures var link := if Owner(st, key) == Some(t) then st.tickets[t].previous else Owner(st, key);
            var next := st.(tickets := st.tickets[t := st.tickets[t].(previous := link)], pending := st.pending[key := t],
                            writes := st.writes + multiset{t});
            Well(next) && OwnersAlive(next, dead - {t})
  {
    var link := if Owner(st, key) == Some(t) then st.tickets[t].previous else Owner(st, key);
    var n := st.tickets[t].(previous := link);
    var linked := st.tickets[t := n];
    LinkWell(st, key, t);
    assert OlderAt(st.tickets, t);
    forall k | k in st.pending && k != key
      ensures st.pending[k] < |linked| && Alive(linked, st.pending[k], dead - {t})
    {
      assert OwnedBy(st.tickets, k, st.pending[k]);
      AliveApart(st.tickets, st.pending[k], dead, t, n);
      AliveElsewhere(linked, st.pending[k], dead, dead - {t});
    }
    if link.Some? {
      if key in st.pending { assert OwnedBy(st.tickets, key, st.pending[key]); }
      assert link.value < t && Alive(st.tickets, link.value, dead);
      AliveCut(st.tickets, link.value, dead, t, n);
      AliveElsewhere(linked, link.value, dead, dead - {t});
    }
    assert OlderAt(linked, t);
  }

  /** Changing a link of one key leaves the chains of the others. */
  lemma {:induction false} AliveApart(tickets: seq<Ticket>, t: nat, dead: set<nat>, u: nat, n: Ticket)
    requires Older(tickets) && t < |tickets| && u < |tickets| && Older(tickets[u := n]) && Alive(tickets, t, dead)
    requires tickets[u].key != tickets[t].key
    ensures Alive(tickets[u := n], t, dead)
    decreases t
  {
    assert OlderAt(tickets, t);
    if tickets[t].previous.Some? { AliveApart(tickets, tickets[t].previous.value, dead, u, n); }
  }

  lemma BeginFreshAlive(st: Tracker, dead: set<nat>, key: Key)
    requires Well(st) && OwnersAlive(st, dead) && key !in st.reserved && !st.closing && |st.tickets| !in dead
    ensures Well(Began(st, key)) && OwnersAlive(Began(st, key), dead)
  {
    var base := st.(tickets := st.tickets + [Fresh(key)]);
    GrowAlive(st, dead, key);
    GrowWell(st, key);
    assert Newest(base.tickets, key, |st.tickets|);
    LinkAlive(base, dead, key, |st.tickets|);
    assert dead - {|st.tickets|} == dead;
  }

  lemma BeginAlive(st: Tracker, dead: set<nat>, key: Key)
    requires Well(st) && OwnersAlive(st, dead) && (forall t :: t in dead ==> t < |st.tickets|)
    ensures Well(Began(st, key)) && OwnersAlive(Began(st, key), Dead(st, dead, Begin(key)))
  {
    if key in st.reserved {
      assert Newest(st.tickets, key, st.reserved[key]);
      if WritesReserved(st, key) { LinkAlive(st, dead, key, st.reserved[key]); }
    } else if !st.closing {
      BeginFreshAlive(st, dead, key);
    }
  }

  lemma MatchAlive(st: Tracker, dead: set<nat>, key: Key, consume: bool)
    requires Well(st) && OwnersAlive(st, dead)
    ensures OwnersAlive(Apply(st, Match(key, consume)), Dead(st, dead, Match(key, consume)))
  {
    var more := Dead(st, dead, Match(key, consume));
    if consume {
      forall k | k in st.pending && k != key && st.pending[k] < |st.tickets|
        ensures Alive(st.tickets, st.pending[k], more)
      {
        assert OwnedBy(st.tickets, k, st.pending[k]);
        AliveElsewhere(st.tickets, st.pending[k], dead, more);
      }
    }
  }

  lemma CancelAlive(st: Tracker, dead: set<nat>, t: nat)
    requires Well(st) && OwnersAlive(st, dead) && t < |st.tickets| && Well(Apply(st, Cancel(t)))
    ensures OwnersAlive(Apply(st, Cancel(t)), dead)
  {
    UpdateAlive(st, dead, t, st.tickets[t].(cancelled := true));
  }

  /** Every step but the native gate's keeps dead tickets away from ownership. */
  lemma AliveKept(st: Tracker, dead: set<nat>, step: Step)
    requires Well(st) && Enabled(st, step) && OwnersAlive(st, dead) && !step.Admit?
    requires forall t :: t in dead ==> t < |st.tickets|
    ensures Well(Apply(st, step)) && OwnersAlive(Apply(st, step), Dead(st, dead, step))
  {
    WellKept(st, step);
    match step
    case Begin(key) => BeginAlive(st, dead, key);
    case End(t, written) => EndAlive(st, dead, t, written);
    case Prepare(key) => GrowAlive(st, dead, key);
    case Publish(key) => GrowAlive(st, dead, key);
    case Cancel(t) => CancelAlive(st, dead, t);
    case Match(key, consume) => MatchAlive(st, dead, key, consume);
    case _ =>
  }

  lemma DeadExist(st: Tracker, dead: set<nat>, step: Step)
    requires Well(st) && Enabled(st, step) && forall t :: t in dead ==> t < |st.tickets|
    ensures forall t :: t in Dead(st, dead, step) ==> t < |Apply(st, step).tickets|
  {
  }

  ghost function DeadAfter(st: Tracker, dead: set<nat>, run: seq<Step>, end: Tracker): set<nat>
    requires Well(st) && Run(st, run, end)
    decreases run
  {
    if run == [] then dead
    else
      WellKept(st, run[0]);
      DeadAfter(Apply(st, run[0]), Dead(st, dead, run[0]), run[1..], end)
  }

  lemma {:induction false} AliveRun(st: Tracker, dead: set<nat>, run: seq<Step>, end: Tracker)
    requires Well(st) && Run(st, run, end) && OwnersAlive(st, dead) && (forall t :: t in dead ==> t < |st.tickets|)
    requires forall i :: 0 <= i < |run| ==> !run[i].Admit?
    ensures Well(end) && OwnersAlive(end, DeadAfter(st, dead, run, end))
    decreases run
  {
    if run != [] {
      AliveKept(st, dead, run[0]);
      DeadExist(st, dead, run[0]);
      AliveRun(Apply(st, run[0]), Dead(st, dead, run[0]), run[1..], end);
    }
  }

  /** In every run of BeginWrite, with or without reservations, no write failure
      gives a key back to a ticket whose ownership an answer has consumed. */
  lemma ConsumedStaysConsumed(run: seq<Step>, end: Tracker)
    requires Run(EMPTY, run, end) && forall i :: 0 <= i < |run| ==> !run[i].Admit?
    ensures forall k :: k in end.pending ==> end.pending[k] !in DeadAfter(EMPTY, {}, run, end)
  {
    AliveRun(EMPTY, {}, run, end);
    forall k | k in end.pending
      ensures end.pending[k] !in DeadAfter(EMPTY, {}, run, end)
    {
      assert OwnedBy(end.tickets, k, end.pending[k]);
      assert Alive(end.tickets, end.pending[k], DeadAfter(EMPTY, {}, run, end));
    }
  }
}

/** PendingRequests and writeGate as the objects they are
    (diam/pending_requests.go, diam/write_gate.go). */
module Publication {
  import opened Octets
  import opened Tracker

  datatype Refusal = RequestCompleted | ConnectionClosing

  /** A write is accepted, has to wait for a channel, or is refused. */
  datatype Attempt = Acquired | Wait(channel: nat) | Refused(why: Refusal)

  /** Back along the tickets displaced, past those that failed or were cancelled. */
  method FirstLive(tickets: seq<Ticket>, start: Option<nat>) returns (previous: Option<nat>)
    requires Older(tickets) && (start.Some? ==> start.value < |tickets|)
    ensures previous == Live(tickets, start)
  {
    previous := start;
    while previous.Some? && (tickets[previous.value].failed || tickets[previous.value].cancelled)
      invariant previous.Some? ==> previous.value < |tickets|
      invariant Live(tickets, start) == Live(tickets, previous)
      decreases if previous.Some? then previous.value + 1 else 0
    {
      OlderHere(tickets, previous.value);
      previous := tickets[previous.value].previous;
    }
  }

  class PendingRequests {
    var tickets: seq<Ticket>
    var pending: map<Key, nat>
    var reserved: map<Key, nat>
    var closing: bool
    ghost var writes: multiset<nat>

    ghost function Abs(): Tracker
      reads this
    {
      Tracker(tickets, pending, reserved, closing, writes)
    }

    constructor ()
      ensures Abs() == EMPTY
    {
      tickets, pending, reserved, closing, writes := [], map[], map[], false, multiset{};
    }

    method PrepareWrite(key: Key) returns (t: nat)
      requires Well(Abs())
      modifies this
      ensures Well(Abs()) && Abs() == Apply(old(Abs()), Prepare(key))
      ensures reserved[key] == t
    {
      WellKept(Abs(), Prepare(key));
      t := |tickets|;
      tickets, reserved := tickets + [Fresh(key)], reserved[key := t];
    }

    method CancelWrite(t: nat)
      requires Well(Abs()) && t < |tickets|
      modifies this
      ensures Well(Abs()) && Abs() == Apply(old(Abs()), Cancel(t))
    {
      WellKept(Abs(), Cancel(t));
      var key := tickets[t].key;
      tickets := tickets[t := tickets[t].(cancelled := true)];
      if key in pending && pending[key] == t { pending := pending - {key}; }
    }

    method ReleaseWrite(t: nat)
      requires Well(Abs()) && t < |tickets|
      modifies this
      ensures Well(Abs()) && Abs() == Apply(old(Abs()), Release(t))
    {
      WellKept(Abs(), Release(t));
      var key := tickets[t].key;
      if key in reserved && reserved[key] == t { reserved := reserved - {key}; }
    }

    /** BeginWrite: the ticket that now owns the key, or none. */
    method BeginWrite(key: Key) returns (ticket: Option<nat>)
      requires Well(Abs())
      modifies this
      ensures Well(Abs()) && Abs() == Apply(old(Abs()), Begin(key))
      ensures ticket.None? ==> Abs() == old(Abs())
      ensures ticket.Some? ==> key in pending && pending[key] == ticket.value && ticket.value in writes
    {
      hide Well, Began;
      WellKept(Abs(), Begin(key));
      BeganNot(Abs(), key);
      if closing { return None; }
      var all, t := tickets, |tickets|;
      if key in reserved {
        ReservedHere(Abs(), key);
        t := reserved[key];
        if tickets[t].cancelled { return None; }
      } else {
        all := tickets + [Fresh(key)];
      }
      if key !in pending || pending[key] != t {
        all := all[t := all[t].(previous := if key in pending then Some(pending[key]) else None)];
      }
      BeganAs(Abs(), key, t, all);
      tickets, pending := all, pending[key := t];
      writes := writes + multiset{t};
      ticket := Some(t);
    }

    /** The outcome of a begun write. A failure walks back to the nearest ticket
        that has neither failed nor been cancelled. */
    method EndWrite(t: nat, written: bool)
      requires Well(Abs()) && t in writes
      modifies this
      ensures Well(Abs()) && Abs() == Apply(old(Abs()), End(t, written))
    {
      hide Well, Older, Live, Ended;
      WellKept(Abs(), End(t, written));
      if written { EndedWritten(Abs(), t); } else { EndedFailed(Abs(), t); }
      writes := writes - multiset{t};
      if written {
        tickets := tickets[t := tickets[t].(previous := None)];
        return;
      }
      tickets := tickets[t := tickets[t].(failed := true)];
      var key := tickets[t].key;
      if key in pending && pending[key] == t {
        var previous := FirstLive(tickets, tickets[t].previous);
        if previous.None? { pending := pending - {key}; } else { pending := pending[key := previous.value]; }
      }
    }

    method CloseAdmission()
      requires Well(Abs())
      modifies this`closing
      ensures Well(Abs()) && Abs() == Apply(old(Abs()), Close)
    {
      closing := true;
    }

    /** MatchAnswer: true exactly when a request owns the answer's key. */
    method MatchAnswer(key: Key, consume: bool) returns (matched: bool)
      requires Well(Abs())
      modifies this`pending
      ensures matched <==> key in old(pending)
      ensures Well(Abs()) && Abs() == Apply(old(Abs()), Match(key, consume))
    {
      WellKept(Abs(), Match(key, consume));
      if key !in pending { return false; }
      if consume { pending := pending - {key}; }
      matched := true;
    }
  }

  class WriteGate {
    var held: bool
    var ready: Option<nat>
    var channels: nat
    var signalled: set<nat>

    /** Channels handed out are numbered; only a held gate has waiters' channel
        open, and no closed channel is handed out again. */
    ghost predicate Valid()
      reads this
    {
      && (ready.Some? ==> held && ready.value < channels && ready.value !in signalled)
      && forall c :: c in signalled ==> c < channels
    }

    constructor ()
      ensures Valid() && !held
    {
      held, ready, channels, signalled := false, None, 0, {};
    }

    /** attempt: taking the gate and owning the answer are one step. A ticket is
        admitted exactly when it is uncancelled, Closing is not latched and the
        gate is free; otherwise nothing of it is recorded. */
    method TryAcquire(p: PendingRequests, ticket: Option<nat>) returns (outcome: Attempt)
      requires Valid() && Well(p.Abs()) && (ticket.Some? ==> ticket.value < |p.tickets|)
      modifies this, p`pending
      ensures Valid() && Well(p.Abs()) && signalled == old(signalled)
      ensures outcome.Acquired? <==>
                !old(held) && (ticket.Some? ==> !old(p.closing) && !old(p.tickets)[ticket.value].cancelled)
      ensures held == (old(held) || outcome.Acquired?)
      ensures p.Abs() == if outcome.Acquired? && ticket.Some? then Apply(old(p.Abs()), Admit(ticket.value)) else old(p.Abs())
      ensures outcome.Acquired? && ticket.Some? ==> Owner(p.Abs(), p.tickets[ticket.value].key) == ticket
      ensures outcome.Wait? ==> held && ready == Some(outcome.channel) && outcome.channel !in signalled
      ensures outcome == Refused(RequestCompleted) ==> ticket.Some? && p.tickets[ticket.value].cancelled
      ensures outcome == Refused(ConnectionClosing) ==> ticket.Some? && p.closing
    {
      if held {
        if ready.None? { ready, channels := Some(channels), channels + 1; }
        return Wait(ready.value);
      }
      if ticket.Some? {
        if p.tickets[ticket.value].cancelled { return Refused(RequestCompleted); }
        if p.closing { return Refused(ConnectionClosing); }
        WellKept(p.Abs(), Admit(ticket.value));
        p.pending := p.pending[p.tickets[ticket.value].key := ticket.value];
      }
      held := true;
      outcome := Acquired;
    }

    /** unlock: the channel every waiter was given is closed. */
    method Unlock()
      requires Valid()
      modifies this
      ensures Valid() && !held
      ensures signalled == old(signalled) + if old(ready).Some? then {old(ready).value} else {}
    {
      held := false;
      if ready.Some? { signalled, ready := signalled + {ready.value}, None; }
    }
  }
}

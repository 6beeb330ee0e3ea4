/** The actor as an object (diam/peer/actor.go): its event handlers change its
    state and legs in place. */
module PeerActor {
  import opened Octets
  import opened PeerState
  import opened Peers

  class Peer {
    const side: Side
    /** How this side's identity compares with the other's. */
    const order: int
    var state: State
    var i: Option<nat>
    var r: Option<nat>
    var active: Option<nat>
    /** The connections, as far as this side can see and change them. */
    var conns: map<nat, Conn>

    ghost function Abs(): View
      reads this
    {
      View(Actor(state, i, r, active), conns)
    }

    constructor (side: Side, order: int)
      ensures Abs() == View(IDLE, map[]) && this.side == side && this.order == order
    {
      this.side, this.order := side, order;
      state, i, r, active, conns := Closed, None, None, None, map[];
    }

    method CloseConnection(c: Option<nat>)
      modifies this`conns
      ensures conns == CloseLeg(old(conns), side, c)
    {
      if c.Some? && c.value in conns {
        conns := conns[c.value := conns[c.value].(closed := conns[c.value].closed + {side})];
      }
    }

    method Fail()
      modifies this
      ensures Abs() == Failed(old(Abs()), side)
    {
      CloseConnection(i);
      CloseConnection(r);
      state, i, r, active := Closed, None, None, None;
    }

    /** A transition to R-Open: accept the responder leg and send its CEA. */
    method Accept(clock: nat, sent: bool)
      modifies this
      ensures Abs() == Activated(old(Abs()), side, clock, sent)
    {
      if r.None? || r.value !in conns {
        Fail();
        return;
      }
      state, active := ROpen, r;
      conns := conns[r.value := conns[r.value].(acceptedAt := clock + 2, ceaSent := sent)];
      if !sent { CloseConnection(r); }
    }

    method Elect(clock: nat, sent: bool)
      modifies this
      ensures Abs() == Elected(old(Abs()), side, order, clock, sent)
    {
      if order == 0 {
        Fail();
      } else if order > 0 {
        CloseConnection(i);
        i := None;
        Accept(clock, sent);
      }
    }

    method DialDone(c: nat, clock: nat, sent: bool)
      modifies this
      ensures Abs() == OnDial(old(Abs()), side, c, order, clock, sent)
    {
      if state != WaitConnAck && state != WaitConnAckElect { return; }
      i, conns := Some(c), conns[c := Conn(side, {}, false, false, clock + 1, 0, 0)];
      state := Transition(state, IAck).value;
      if state == WaitReturns { Elect(clock, sent); }
    }

    method ReceiveCER(c: nat, clock: nat, sent: bool)
      requires c in conns
      modifies this
      ensures Abs() == OnCER(old(Abs()), side, c, order, clock, sent)
    {
      conns := conns[c := conns[c].(cerRead := true)];
      if state != Closed && state != WaitConnAck && state != WaitICEA {
        CloseConnection(Some(c));
        return;
      }
      r := Some(c);
      var before := state;
      state := Transition(state, RConnCER).value;
      if before == Closed {
        Accept(clock, sent);
      } else if state == WaitReturns {
        Elect(clock, sent);
      }
    }

    method OpenInitiator(c: nat, clock: nat)
      requires c in conns
      modifies this
      ensures Abs() == OnCEA(old(Abs()), side, c, clock)
    {
      var row := Transition(state, ICEA);
      if row.None? { return; }
      if state == WaitReturns {
        CloseConnection(r);
        r := None;
      }
      state, active := row.value, Some(c);
      conns := conns[c := conns[c].(openedAt := clock + 2)];
    }

    method ConnectionGone(c: nat, clock: nat, sent: bool)
      modifies this
      ensures Abs() == OnGone(old(Abs()), side, c, clock, sent)
    {
      if i == Some(c) {
        i := None;
        var row := Transition(state, IDisc);
        if row.None? { return; }
        if state == WaitReturns {
          Accept(clock, sent);
        } else {
          if state != WaitICEA { active := None; }
          state := row.value;
        }
      } else if r == Some(c) {
        r := None;
        var row := Transition(state, RDisc);
        if row.None? { return; }
        if row.value == Closed { active := None; }
        state := row.value;
      }
    }
  }

  // ---- The table ------------------------------------------------------------------------

  /** The event of the table that a step is, if it is one. */
  function EventOf(v: View, step: Step): Option<Event> {
    match step
    case Start => Some(EvStart)
    case Dial(_, _) => Some(IAck)
    case DialFail(_) => Some(INack)
    case ReceiveCER(_, _) => Some(RConnCER)
    case ReceiveCEA(_) => Some(ICEA)
    case Gone(c, _) => if v.actor.i == Some(c) then Some(IDisc) else if v.actor.r == Some(c) then Some(RDisc) else None
    case Disconnect => Some(EvStop)
    case ReceiveDPA => Some(IDPA)
    case Fail | RefuseCER(_) | CloseConn(_) => None
  }

  /** A responder leg is there to be accepted. */
  predicate Accepts(v: View, step: Step) {
    || step.ReceiveCER?
    || (v.actor.r.Some? && (v.actor.r.value in v.conns || (step.Dial? && v.actor.r.value == step.c)))
  }

  /** Entering Wait-Returns holds the election; R-Open needs its leg. */
  function Entered(s: State, n: State, order: int, accepts: bool): State {
    if n == s then s
    else if n.WaitReturns? then
      if order == 0 then Closed
      else if order < 0 then WaitReturns
      else if accepts && Transition(WaitReturns, WinElection).Some? then Transition(WaitReturns, WinElection).value
      else Closed
    else if n.ROpen? && !accepts then Closed
    else n
  }

  /** What the table makes of a step: its row, or nothing where it has none. */
  function Tabled(v: View, order: int, step: Step): State {
    var s := v.actor.state;
    match EventOf(v, step)
    case None => if step.Fail? then Closed else s
    case Some(e) => if Transition(s, e).None? then s else Entered(s, Transition(s, e).value, order, Accepts(v, step))
  }

  lemma DialByTable(v: View, x: Side, c: nat, order: int, clock: nat, sent: bool)
    ensures OnDial(v, x, c, order, clock, sent).actor.state == Tabled(v, order, Dial(c, sent))
  {
    hide Elected;
    ElectedState(Dialled(v, x, c, clock), x, order, clock, sent);
  }

  lemma CERByTable(v: View, x: Side, c: nat, order: int, clock: nat, sent: bool)
    requires c in v.conns
    ensures OnCER(v, x, c, order, clock, sent).actor.state == Tabled(v, order, ReceiveCER(c, sent))
  {
    hide Elected;
    var read := v.conns[c := v.conns[c].(cerRead := true)];
    ElectedState(View(v.actor.(r := Some(c), state := WaitReturns), read), x, order, clock, sent);
  }

  lemma GoneByTable(v: View, x: Side, c: nat, order: int, clock: nat, sent: bool)
    ensures OnGone(v, x, c, clock, sent).actor.state == Tabled(v, order, Gone(c, sent))
  {
  }

  lemma HandlesByTable(v: View, x: Side, order: int, clock: nat, step: Step)
    requires step.ReceiveCER? || step.RefuseCER? || step.ReceiveCEA? ==> step.c in v.conns
    requires step.Start? ==> v.actor.state.Closed?
    requires step.Disconnect? ==> v.actor.state.IOpen? || v.actor.state.ROpen?
    ensures Handle(v, x, order, clock, step).actor.state == Tabled(v, order, step)
  {
    hide OnDial, OnCER, OnGone, CloseLeg;
    match step
    case Dial(c, sent) => DialByTable(v, x, c, order, clock, sent);
    case ReceiveCER(c, sent) => CERByTable(v, x, c, order, clock, sent);
    case Gone(c, sent) => GoneByTable(v, x, c, order, clock, sent);
    case _ =>
  }

  lemma ElectedState(v: View, x: Side, order: int, clock: nat, sent: bool)
    ensures Elected(v, x, order, clock, sent).actor.state
         == if order == 0 then Closed
            else if order < 0 then v.actor.state
            else if v.actor.r.Some? && v.actor.r.value in v.conns then ROpen else Closed
  {
  }

  /** In every world, a step takes the actor where the row of its own event does;
      with no such row it stays, and only a failure closes it out of turn. */
  lemma FollowsTable(w: World, ids: Identities, x: Side, step: Step)
    requires Enabled(w, x, step)
    ensures ActorOf(Apply(w, ids, x, step), x).state == Tabled(View(ActorOf(w, x), w.conns), Order(ids, x), step)
    ensures ActorOf(Apply(w, ids, x, step), Other(x)) == ActorOf(w, Other(x))
  {
    HandlesByTable(View(ActorOf(w, x), w.conns), x, Order(ids, x), w.clock, step);
  }
}

/** Two actors and the transport connections between them
    (diam/peer/actor.go): each handler of an event is one step. */
module Peers {
  import opened Octets
  import opened PeerState

  datatype Side = Local | Remote

  /** A connection: who dialled it, which ends are closed, whether the CER has
      been read and the CEA sent, and when it was dialled, accepted as an active
      leg by its acceptor, and opened by its dialler. Zero is never; a step takes
      two ticks, so that what it dials is older than what it accepts. */
  datatype Conn = Conn(dialler: Side, closed: set<Side>, cerRead: bool, ceaSent: bool, bornAt: nat, acceptedAt: nat, openedAt: nat)

  datatype Actor = Actor(state: State, i: Option<nat>, r: Option<nat>, active: Option<nat>)

  /** One actor's view while it handles an event. */
  datatype View = View(actor: Actor, conns: map<nat, Conn>)

  datatype World = World(local: Actor, remote: Actor, conns: map<nat, Conn>, clock: nat)

  const IDLE: Actor := Actor(Closed, None, None, None)

  const QUIET: World := World(IDLE, IDLE, map[], 0)

  function Other(x: Side): Side {
    if x.Local? then Remote else Local
  }

  function ActorOf(w: World, x: Side): Actor {
    if x.Local? then w.local else w.remote
  }

  // ---- Handlers ---------------------------------------------------------------------

  function CloseLeg(conns: map<nat, Conn>, x: Side, c: Option<nat>): map<nat, Conn> {
    if c.Some? && c.value in conns then conns[c.value := conns[c.value].(closed := conns[c.value].closed + {x})]
    else conns
  }

  /** fail: both legs are closed. */
  function Failed(v: View, x: Side): View {
    View(IDLE, CloseLeg(CloseLeg(v.conns, x, v.actor.i), x, v.actor.r))
  }

  /** R-Open: the responder leg becomes active and its CEA is sent, or the leg
      turns out to be closed already. */
  function Activated(v: View, x: Side, clock: nat, sent: bool): View {
    if v.actor.r.None? || v.actor.r.value !in v.conns then Failed(v, x)
    else
      var r := v.actor.r.value;
      var k := v.conns[r].(acceptedAt := clock + 2, ceaSent := sent, closed := if sent then v.conns[r].closed else v.conns[r].closed + {x});
      View(v.actor.(state := ROpen, active := Some(r)), v.conns[r := k])
  }

  /** elect, in Wait-Returns: equal identities fail, the winner discards I. */
  function Elected(v: View, x: Side, order: int, clock: nat, sent: bool): View {
    if order == 0 then Failed(v, x)
    else if order > 0 then
      Activated(View(v.actor.(i := None), CloseLeg(v.conns, x, v.actor.i)), x, clock, sent)
    else v
  }

  /** The new connection becomes the initiator leg and its CER is sent. */
  function Dialled(v: View, x: Side, c: nat, clock: nat): View {
    View(v.actor.(i := Some(c), state := if v.actor.state.WaitConnAck? then WaitICEA else WaitReturns),
         v.conns[c := Conn(x, {}, false, false, clock + 1, 0, 0)])
  }

  function OnDial(v: View, x: Side, c: nat, order: int, clock: nat, sent: bool): View {
    match v.actor.state
    case WaitConnAck => Dialled(v, x, c, clock)
    case WaitConnAckElect => Elected(Dialled(v, x, c, clock), x, order, clock, sent)
    case _ => v
  }

  function OnDialFailed(v: View, x: Side, clock: nat, sent: bool): View {
    match v.actor.state
    case WaitConnAck => Failed(v, x)
    case WaitConnAckElect => Activated(v, x, clock, sent)
    case _ => v
  }

  function OnCER(v: View, x: Side, c: nat, order: int, clock: nat, sent: bool): View
    requires c in v.conns
  {
    var read := View(v.actor, v.conns[c := v.conns[c].(cerRead := true)]);
    match v.actor.state
    case Closed => Activated(View(read.actor.(r := Some(c)), read.conns), x, clock, sent)
    case WaitConnAck => View(read.actor.(r := Some(c), state := WaitConnAckElect), read.conns)
    case WaitICEA => Elected(View(read.actor.(r := Some(c), state := WaitReturns), read.conns), x, order, clock, sent)
    case _ => View(read.actor, CloseLeg(read.conns, x, Some(c)))
  }

  /** I-Open: the initiator leg becomes active. */
  function Opened(a: Actor, conns: map<nat, Conn>, c: nat, clock: nat): View
    requires c in conns
  {
    View(a.(state := IOpen, active := Some(c)), conns[c := conns[c].(openedAt := clock + 2)])
  }

  /** openInitiator: in Wait-Returns the responder leg is closed first. */
  function OnCEA(v: View, x: Side, c: nat, clock: nat): View
    requires c in v.conns
  {
    match v.actor.state
    case WaitICEA => Opened(v.actor, v.conns, c, clock)
    case WaitReturns => Opened(v.actor.(r := None), CloseLeg(v.conns, x, v.actor.r), c, clock)
    case _ => v
  }

  /** onGone, and retireResponder for the responder leg. */
  function OnGone(v: View, x: Side, c: nat, clock: nat, sent: bool): View {
    if v.actor.i == Some(c) then
      var gone := View(v.actor.(i := None), v.conns);
      match v.actor.state
      case WaitReturns => Activated(gone, x, clock, sent)
      case IOpen | Closing => View(gone.actor.(state := Closed, active := None), v.conns)
      case WaitICEA => View(gone.actor.(state := Closed), v.conns)
      case _ => gone
    else if v.actor.r == Some(c) then
      var gone := View(v.actor.(r := None), v.conns);
      match v.actor.state
      case ROpen | Closing => View(gone.actor.(state := Closed, active := None), v.conns)
      case WaitConnAckElect => View(gone.actor.(state := WaitConnAck), v.conns)
      case WaitReturns => View(gone.actor.(state := WaitICEA), v.conns)
      case _ => gone
    else v
  }

  function OnDPA(v: View, x: Side): View {
    if v.actor.state.Closing? then View(v.actor.(state := Closed, active := None), CloseLeg(v.conns, x, v.actor.active)) else v
  }

  // ---- Steps ---------------------------------------------------------------------------

  datatype Step =
    | Start
    | Dial(c: nat, sent: bool)
    | DialFail(sent: bool)
    | ReceiveCER(c: nat, sent: bool)
    | RefuseCER(c: nat)
    | ReceiveCEA(c: nat)
    | Gone(c: nat, sent: bool)
    | CloseConn(c: nat)
    | Fail
    | Disconnect
    | ReceiveDPA

  /** A CER or CEA reaches only an end that is still open, once; a connection
      is reported gone after this end has closed. */
  predicate Enabled(w: World, x: Side, step: Step) {
    match step
    case Start => ActorOf(w, x).state.Closed?
    case Dial(c, _) => c !in w.conns
    case ReceiveCER(c, _) => c in w.conns && w.conns[c].dialler == Other(x) && !w.conns[c].cerRead && x !in w.conns[c].closed
    case RefuseCER(c) => c in w.conns && w.conns[c].dialler == Other(x) && !w.conns[c].cerRead
    case ReceiveCEA(c) =>
      && c in w.conns && w.conns[c].dialler == x && w.conns[c].ceaSent && w.conns[c].openedAt == 0
      && x !in w.conns[c].closed && ActorOf(w, x).i == Some(c)
    case Gone(c, _) => c in w.conns && x in w.conns[c].closed
    case CloseConn(c) => c in w.conns
    case Disconnect => ActorOf(w, x).state.IOpen? || ActorOf(w, x).state.ROpen?
    case _ => true
  }

  /** `order` is how this side's identity compares with the other's. */
  function Handle(v: View, x: Side, order: int, clock: nat, step: Step): View
    requires step.ReceiveCER? || step.RefuseCER? || step.ReceiveCEA? ==> step.c in v.conns
  {
    match step
    case Start => View(v.actor.(state := WaitConnAck), v.conns)
    case Dial(c, sent) => OnDial(v, x, c, order, clock, sent)
    case DialFail(sent) => OnDialFailed(v, x, clock, sent)
    case ReceiveCER(c, sent) => OnCER(v, x, c, order, clock, sent)
    case RefuseCER(c) => View(v.actor, CloseLeg(v.conns[c := v.conns[c].(cerRead := true)], x, Some(c)))
    case ReceiveCEA(c) => OnCEA(v, x, c, clock)
    case Gone(c, sent) => OnGone(v, x, c, clock, sent)
    case CloseConn(c) => View(v.actor, CloseLeg(v.conns, x, Some(c)))
    case Fail => Failed(v, x)
    case Disconnect => View(v.actor.(state := Closing), v.conns)
    case ReceiveDPA => OnDPA(v, x)
  }

  /** The DiameterIdentity of each side. */
  datatype Identities = Identities(local: Bytes, remote: Bytes)

  /** Each side compares its own identity with the other's. */
  function Order(ids: Identities, x: Side): int {
    if x.Local? then CompareIdentity(ids.local, ids.remote) else CompareIdentity(ids.remote, ids.local)
  }

  function Apply(w: World, ids: Identities, x: Side, step: Step): World
    requires Enabled(w, x, step)
  {
    var v := Handle(View(ActorOf(w, x), w.conns), x, Order(ids, x), w.clock, step);
    World(if x.Local? then v.actor else w.local, if x.Remote? then v.actor else w.remote, v.conns, w.clock + 2)
  }

  ghost predicate Run(ids: Identities, w: World, run: seq<(Side, Step)>, end: World)
    decreases run
  {
    if run == [] then w == end
    else Enabled(w, run[0].0, run[0].1) && Run(ids, Apply(w, ids, run[0].0, run[0].1), run[1..], end)
  }
}

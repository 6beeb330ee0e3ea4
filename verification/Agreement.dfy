/** Two peers that are both open agree on the connection
    (diam/peer/transition.go, diam/peer/actor.go). */
module Agreement {
  import opened Octets
  import opened PeerState
  import opened Peers

  /** When this side made the connection its active leg. */
  function Uses(k: Conn, x: Side): nat {
    if k.dialler == x then k.openedAt else k.acceptedAt
  }

  predicate Open(k: Conn, x: Side) {
    x !in k.closed
  }

  /** The initiator leg is waiting for its CEA. */
  predicate Awaits(a: Actor, c: nat) {
    a.i == Some(c) && (a.state.WaitICEA? || a.state.WaitReturns?)
  }

  // ---- What one side keeps -----------------------------------------------------------

  /** A dialled connection that was never opened is closed, or the one awaited. */
  ghost predicate Pending(x: Side, a: Actor, conns: map<nat, Conn>) {
    forall c :: c in conns && conns[c].dialler == x && Open(conns[c], x) && conns[c].openedAt == 0 ==> Awaits(a, c)
  }

  /** Of two dialled connections still open here, the earlier was opened before
      the later was dialled. */
  predicate OneDialPair(x: Side, k: Conn, l: Conn) {
    k.dialler == x == l.dialler && Open(k, x) && Open(l, x) && k.bornAt < l.bornAt ==> 0 < k.openedAt < l.bornAt
  }

  ghost predicate OneDial(x: Side, conns: map<nat, Conn>) {
    forall c, d :: c in conns && d in conns ==> OneDialPair(x, conns[c], conns[d])
  }

  /** Whatever was dialled before a connection was accepted, and is still open
      here, had been opened by then. */
  predicate AcceptAfterPair(x: Side, k: Conn, l: Conn) {
    k.dialler != x == l.dialler && Open(l, x) && l.bornAt < k.acceptedAt ==> 0 < l.openedAt < k.acceptedAt
  }

  ghost predicate AcceptAfter(x: Side, conns: map<nat, Conn>) {
    forall c, d :: c in conns && d in conns ==> AcceptAfterPair(x, conns[c], conns[d])
  }

  /** The active leg is the one most recently put to use. */
  ghost predicate Latest(x: Side, a: Actor, conns: map<nat, Conn>) {
    a.active.Some? ==>
      && a.active.value in conns && 0 < Uses(conns[a.active.value], x)
      && forall c :: c in conns ==> Uses(conns[c], x) <= Uses(conns[a.active.value], x)
  }

  /** Its CER has been read, but it has not been accepted yet. */
  predicate Fresh(x: Side, k: Conn) {
    k.dialler != x && k.acceptedAt == 0 && k.cerRead
  }

  ghost predicate Legs(x: Side, a: Actor, conns: map<nat, Conn>) {
    && (!a.state.IOpen? && !a.state.ROpen? && !a.state.Closing? ==> a.active.None?)
    && (a.state.IOpen? ==> a.active.Some? && a.active.value in conns && conns[a.active.value].dialler == x)
    && (a.state.ROpen? ==> a.active.Some? && a.active.value in conns && conns[a.active.value].dialler != x)
    && (a.state.WaitConnAckElect? || a.state.WaitReturns? ==>
          a.r.Some? && a.r.value in conns && Fresh(x, conns[a.r.value]))
    && (forall c :: c in conns && conns[c].dialler != x && !conns[c].cerRead ==> conns[c].acceptedAt == 0)
  }

  /** Times run forward, and an opened connection was accepted before. */
  ghost predicate Timely(conns: map<nat, Conn>, clock: nat) {
    && (forall c :: c in conns ==> TimelyConn(conns[c], clock))
    && (forall c, d :: c in conns && d in conns && c != d ==> conns[c].bornAt != conns[d].bornAt)
  }

  predicate TimelyConn(k: Conn, clock: nat) {
    && 0 < k.bornAt <= clock
    && (0 < k.acceptedAt ==> k.bornAt < k.acceptedAt <= clock)
    && (0 < k.openedAt ==> 0 < k.acceptedAt < k.openedAt <= clock)
    && (k.ceaSent ==> 0 < k.acceptedAt)
  }

  ghost predicate Keeps(x: Side, a: Actor, conns: map<nat, Conn>) {
    Pending(x, a, conns) && OneDial(x, conns) && AcceptAfter(x, conns) && Latest(x, a, conns) && Legs(x, a, conns)
  }

  ghost predicate Inv(w: World) {
    Timely(w.conns, w.clock) && Keeps(Local, w.local, w.conns) && Keeps(Remote, w.remote, w.conns)
  }

  // ---- Agreement ------------------------------------------------------------------------

  predicate IsOpen(a: Actor) {
    a.state.IOpen? || a.state.ROpen?
  }

  /** Both open, on connections neither end of which is closed: the same one. */
  lemma Agrees(w: World)
    requires Inv(w) && IsOpen(w.local) && IsOpen(w.remote)
    requires w.conns[w.local.active.value].closed == {} && w.conns[w.remote.active.value].closed == {}
    ensures w.local.active == w.remote.active
  {
    var c, d := w.local.active.value, w.remote.active.value;
    var k, l := w.conns[c], w.conns[d];
    assert TimelyConn(k, w.clock) && TimelyConn(l, w.clock) && (c != d ==> k.bornAt != l.bornAt);
    assert Uses(l, Local) <= Uses(k, Local) && Uses(k, Remote) <= Uses(l, Remote);
    assert OneDialPair(Local, k, l) && OneDialPair(Local, l, k) && OneDialPair(Remote, k, l) && OneDialPair(Remote, l, k);
    assert AcceptAfterPair(Local, k, l) && AcceptAfterPair(Local, l, k);
    assert AcceptAfterPair(Remote, k, l) && AcceptAfterPair(Remote, l, k);
    assert Open(k, Local) && Open(k, Remote) && Open(l, Local) && Open(l, Remote);
    assert k.dialler == Remote ==> 0 < k.openedAt || w.remote.state.WaitReturns? || w.remote.state.WaitICEA?;
    assert l.dialler == Local ==> 0 < l.openedAt || w.local.state.WaitReturns? || w.local.state.WaitICEA?;
  }

  // ---- What a step leaves alone ------------------------------------------------------------

  /** Nothing of the other side's changes; a new connection is dialled here. */
  ghost predicate SameFor(y: Side, conns: map<nat, Conn>, next: map<nat, Conn>) {
    && (forall c :: c in conns ==> c in next && SameConn(y, conns[c], next[c]))
    && (forall c :: c in next && c !in conns ==> next[c].dialler != y && next[c].acceptedAt == 0)
  }

  predicate SameConn(y: Side, k: Conn, n: Conn) {
    && n.dialler == k.dialler && n.bornAt == k.bornAt && Uses(n, y) == Uses(k, y)
    && (y in n.closed <==> y in k.closed) && (n.dialler != y ==> n.cerRead == k.cerRead)
  }

  lemma SameThrough(y: Side, a: map<nat, Conn>, b: map<nat, Conn>, c: map<nat, Conn>)
    requires SameFor(y, a, b) && SameFor(y, b, c)
    ensures SameFor(y, a, c)
  {
    forall k | k in a ensures k in c && SameConn(y, a[k], c[k]) {
      assert SameConn(y, a[k], b[k]) && SameConn(y, b[k], c[k]);
    }
    forall k | k in c && k !in a ensures c[k].dialler != y && c[k].acceptedAt == 0 {
      if k in b { assert SameConn(y, b[k], c[k]); }
    }
  }

  lemma OtherPairs(y: Side, conns: map<nat, Conn>, next: map<nat, Conn>)
    requires OneDial(y, conns) && AcceptAfter(y, conns) && SameFor(y, conns, next)
    ensures OneDial(y, next) && AcceptAfter(y, next)
  {
    forall c, d | c in next && d in next
      ensures OneDialPair(y, next[c], next[d]) && AcceptAfterPair(y, next[c], next[d])
    {
      if c in conns && d in conns {
        assert OneDialPair(y, conns[c], conns[d]) && AcceptAfterPair(y, conns[c], conns[d]);
        assert SameConn(y, conns[c], next[c]) && SameConn(y, conns[d], next[d]);
      }
    }
  }

  lemma OtherKeeps(y: Side, a: Actor, conns: map<nat, Conn>, next: map<nat, Conn>)
    requires Keeps(y, a, conns) && SameFor(y, conns, next)
    ensures Keeps(y, a, next)
  {
    OtherPairs(y, conns, next);
    forall c | c in conns ensures SameConn(y, conns[c], next[c]) {}
  }

  // ---- The handlers' parts ------------------------------------------------------------------

  /** What does not depend on the actor's own state. */
  ghost predicate Base(x: Side, conns: map<nat, Conn>) {
    && OneDial(x, conns) && AcceptAfter(x, conns)
    && (forall c :: c in conns && conns[c].dialler != x && !conns[c].cerRead ==> conns[c].acceptedAt == 0)
  }

  /** No dialled connection is both open here and still waiting. */
  ghost predicate Settled(x: Side, conns: map<nat, Conn>) {
    forall c :: c in conns && conns[c].dialler == x && Open(conns[c], x) ==> 0 < conns[c].openedAt
  }

  /** Ending or reading this side's end of one connection. */
  ghost predicate Narrows(x: Side, conns: map<nat, Conn>, next: map<nat, Conn>) {
    && next.Keys == conns.Keys
    && forall c :: c in conns ==> NarrowsConn(x, conns[c], next[c])
  }

  predicate NarrowsConn(x: Side, k: Conn, n: Conn) {
    && n == k.(closed := n.closed, cerRead := n.cerRead)
    && (k.closed == n.closed || n.closed == k.closed + {x}) && (k.cerRead ==> n.cerRead)
    && (n.cerRead != k.cerRead ==> k.dialler != x)
  }

  lemma NarrowTimes(x: Side, conns: map<nat, Conn>, next: map<nat, Conn>, clock: nat)
    requires Narrows(x, conns, next) && Timely(conns, clock)
    ensures Timely(next, clock)
  {
    forall c | c in conns ensures NarrowsConn(x, conns[c], next[c]) && TimelyConn(next[c], clock) {
      assert TimelyConn(conns[c], clock);
    }
  }

  lemma NarrowPairs(x: Side, conns: map<nat, Conn>, next: map<nat, Conn>, clock: nat)
    requires Narrows(x, conns, next) && Timely(conns, clock) && Base(x, conns)
    ensures Base(x, next) && Timely(next, clock)
  {
    hide Timely;
    NarrowTimes(x, conns, next, clock);
    forall c, d | c in next && d in next
      ensures OneDialPair(x, next[c], next[d]) && AcceptAfterPair(x, next[c], next[d])
    {
      assert OneDialPair(x, conns[c], conns[d]) && AcceptAfterPair(x, conns[c], conns[d]);
    }
  }

  lemma NarrowOther(x: Side, conns: map<nat, Conn>, next: map<nat, Conn>)
    requires Narrows(x, conns, next)
    ensures SameFor(Other(x), conns, next)
  {
    forall c | c in conns ensures SameConn(Other(x), conns[c], next[c]) {
      assert NarrowsConn(x, conns[c], next[c]);
    }
  }

  lemma NarrowPending(x: Side, a: Actor, conns: map<nat, Conn>, next: map<nat, Conn>)
    requires Narrows(x, conns, next)
    ensures Pending(x, a, conns) ==> Pending(x, a, next)
    ensures Settled(x, conns) ==> Settled(x, next)
  {
    forall c | c in conns ensures NarrowsConn(x, conns[c], next[c]) {}
  }

  lemma NarrowLegs(x: Side, a: Actor, conns: map<nat, Conn>, next: map<nat, Conn>)
    requires Narrows(x, conns, next) && Latest(x, a, conns) && Legs(x, a, conns)
    ensures Latest(x, a, next) && Legs(x, a, next)
  {
    forall c | c in conns ensures NarrowsConn(x, conns[c], next[c]) && Uses(next[c], x) == Uses(conns[c], x) {}
  }

  lemma NarrowKeeps(x: Side, a: Actor, conns: map<nat, Conn>, next: map<nat, Conn>, clock: nat)
    requires Narrows(x, conns, next) && Timely(conns, clock) && Keeps(x, a, conns)
    ensures Keeps(x, a, next) && Timely(next, clock) && SameFor(Other(x), conns, next)
  {
    NarrowPairs(x, conns, next, clock);
    NarrowOther(x, conns, next);
    NarrowPending(x, a, conns, next);
    NarrowLegs(x, a, conns, next);
  }

  lemma CloseNarrows(x: Side, conns: map<nat, Conn>, c: Option<nat>)
    ensures Narrows(x, conns, CloseLeg(conns, x, c))
    ensures c.Some? && c.value in conns ==> !Open(CloseLeg(conns, x, c)[c.value], x)
  {
  }

  /** With the awaited leg closed, nothing is awaited. */
  lemma CloseSettles(x: Side, a: Actor, conns: map<nat, Conn>)
    requires Pending(x, a, conns)
    ensures Settled(x, CloseLeg(conns, x, a.i))
    ensures !a.state.WaitICEA? && !a.state.WaitReturns? ==> Settled(x, conns)
  {
  }

  lemma FailKeeps(x: Side, v: View, clock: nat)
    requires Keeps(x, v.actor, v.conns) && Timely(v.conns, clock)
    ensures Keeps(x, Failed(v, x).actor, Failed(v, x).conns) && Timely(Failed(v, x).conns, clock)
    ensures SameFor(Other(x), v.conns, Failed(v, x).conns)
  {
    var cut := CloseLeg(v.conns, x, v.actor.i);
    var all := CloseLeg(cut, x, v.actor.r);
    CloseNarrows(x, v.conns, v.actor.i);
    CloseSettles(x, v.actor, v.conns);
    NarrowKeeps(x, v.actor, v.conns, cut, clock);
    CloseNarrows(x, cut, v.actor.r);
    NarrowKeeps(x, v.actor, cut, all, clock);
    NarrowPending(x, v.actor, cut, all);
    SameThrough(Other(x), v.conns, cut, all);
    IdleKeeps(x, all);
  }

  /** An actor without legs keeps everything once nothing is awaited. */
  lemma IdleKeeps(x: Side, conns: map<nat, Conn>)
    requires Base(x, conns) && Settled(x, conns)
    ensures Keeps(x, IDLE, conns)
  {
  }

  /** The responder leg can become active: it was read and never accepted. */
  ghost predicate Acceptable(x: Side, v: View) {
    v.actor.r.Some? && v.actor.r.value in v.conns && Fresh(x, v.conns[v.actor.r.value])
  }

  lemma ActivateTimes(x: Side, v: View, clock: nat, sent: bool)
    requires Acceptable(x, v) && Timely(v.conns, clock + 1)
    ensures Timely(Activated(v, x, clock, sent).conns, clock + 2)
  {
    var next := Activated(v, x, clock, sent).conns;
    forall c | c in next ensures TimelyConn(next[c], clock + 2) {
      assert TimelyConn(v.conns[c], clock + 1);
    }
  }

  lemma ActivatePairs(x: Side, v: View, clock: nat, sent: bool)
    requires Acceptable(x, v) && Base(x, v.conns) && Settled(x, v.conns) && Timely(v.conns, clock + 1)
    ensures Base(x, Activated(v, x, clock, sent).conns)
  {
    var next := Activated(v, x, clock, sent).conns;
    forall c, d | c in next && d in next
      ensures OneDialPair(x, next[c], next[d]) && AcceptAfterPair(x, next[c], next[d])
    {
      assert OneDialPair(x, v.conns[c], v.conns[d]) && AcceptAfterPair(x, v.conns[c], v.conns[d]);
      assert TimelyConn(v.conns[d], clock + 1);
    }
  }

  lemma ActivateOther(x: Side, v: View, clock: nat, sent: bool)
    requires Acceptable(x, v)
    ensures SameFor(Other(x), v.conns, Activated(v, x, clock, sent).conns)
  {
  }

  lemma ActivateLegs(x: Side, v: View, clock: nat, sent: bool)
    requires Acceptable(x, v) && Base(x, v.conns) && Settled(x, v.conns) && Timely(v.conns, clock + 1)
    ensures var n := Activated(v, x, clock, sent);
            Pending(x, n.actor, n.conns) && Latest(x, n.actor, n.conns) && Legs(x, n.actor, n.conns)
  {
    var next := Activated(v, x, clock, sent).conns;
    forall c | c in v.conns ensures Uses(next[c], x) <= clock + 2 {
      assert TimelyConn(v.conns[c], clock + 1);
    }
  }

  /** The responder leg becomes active while nothing is awaited. */
  lemma ActivateKeeps(x: Side, v: View, clock: nat, sent: bool)
    requires Acceptable(x, v) && Base(x, v.conns) && Settled(x, v.conns) && Timely(v.conns, clock + 1)
    ensures Done(x, v.conns, Activated(v, x, clock, sent), clock)
  {
    ActivateTimes(x, v, clock, sent);
    ActivatePairs(x, v, clock, sent);
    ActivateLegs(x, v, clock, sent);
    ActivateOther(x, v, clock, sent);
  }

  /** What a handler must establish from the connections it started with. */
  ghost predicate Done(x: Side, conns: map<nat, Conn>, n: View, clock: nat) {
    Keeps(x, n.actor, n.conns) && Timely(n.conns, clock + 2) && SameFor(Other(x), conns, n.conns)
  }

  lemma Later(conns: map<nat, Conn>, clock: nat, later: nat)
    requires Timely(conns, clock) && clock <= later
    ensures Timely(conns, later)
  {
    forall c | c in conns ensures TimelyConn(conns[c], later) {
      assert TimelyConn(conns[c], clock);
    }
  }

  lemma DoneThrough(x: Side, a: map<nat, Conn>, b: map<nat, Conn>, n: View, clock: nat)
    requires SameFor(Other(x), a, b) && Done(x, b, n, clock)
    ensures Done(x, a, n, clock)
  {
    SameThrough(Other(x), a, b, n.conns);
  }

  lemma FailDone(x: Side, v: View, clock: nat)
    requires Keeps(x, v.actor, v.conns) && Timely(v.conns, clock + 1)
    ensures Done(x, v.conns, Failed(v, x), clock)
  {
    FailKeeps(x, v, clock + 1);
    Later(Failed(v, x).conns, clock + 1, clock + 2);
  }

  lemma NarrowDone(x: Side, v: View, a: Actor, next: map<nat, Conn>, clock: nat)
    requires Timely(v.conns, clock + 1) && Keeps(x, a, v.conns) && Narrows(x, v.conns, next)
    ensures Done(x, v.conns, View(a, next), clock)
  {
    NarrowKeeps(x, a, v.conns, next, clock + 1);
    Later(next, clock + 1, clock + 2);
  }

  /** The winner of an election closes I before it accepts R. */
  lemma WinKeeps(x: Side, v: View, clock: nat, sent: bool)
    requires Keeps(x, v.actor, v.conns) && Timely(v.conns, clock + 1) && Acceptable(x, v)
    ensures Done(x, v.conns, Activated(View(v.actor.(i := None), CloseLeg(v.conns, x, v.actor.i)), x, clock, sent), clock)
  {
    var cut := CloseLeg(v.conns, x, v.actor.i);
    CloseNarrows(x, v.conns, v.actor.i);
    CloseSettles(x, v.actor, v.conns);
    NarrowPairs(x, v.conns, cut, clock + 1);
    NarrowOther(x, v.conns, cut);
    assert NarrowsConn(x, v.conns[v.actor.r.value], cut[v.actor.r.value]);
    ActivateKeeps(x, View(v.actor.(i := None), cut), clock, sent);
    DoneThrough(x, v.conns, cut, Activated(View(v.actor.(i := None), cut), x, clock, sent), clock);
  }

  lemma ElectKeeps(x: Side, v: View, order: int, clock: nat, sent: bool)
    requires Keeps(x, v.actor, v.conns) && Timely(v.conns, clock + 1) && v.actor.state.WaitReturns?
    ensures Done(x, v.conns, Elected(v, x, order, clock, sent), clock)
  {
    if order == 0 {
      FailDone(x, v, clock);
    } else if order > 0 {
      WinKeeps(x, v, clock, sent);
    } else {
      Later(v.conns, clock + 1, clock + 2);
    }
  }

  // ---- The handlers ------------------------------------------------------------------------

  /** A change of the actor alone: the active leg stays or goes. */
  lemma ActorKeeps(x: Side, a: Actor, n: Actor, conns: map<nat, Conn>)
    requires Keeps(x, a, conns) && Legs(x, n, conns) && (n.active == a.active || n.active.None?)
    requires Settled(x, conns) || (n.i == a.i && (n.state.WaitICEA? || n.state.WaitReturns?))
    ensures Keeps(x, n, conns)
  {
  }

  lemma Unawaited(x: Side, a: Actor, conns: map<nat, Conn>)
    requires Keeps(x, a, conns)
    requires a.i.Some? && a.i.value in conns ==> !Open(conns[a.i.value], x) || (!a.state.WaitICEA? && !a.state.WaitReturns?)
    ensures Settled(x, conns)
  {
  }

  lemma BirthTimes(x: Side, conns: map<nat, Conn>, c: nat, clock: nat)
    requires Timely(conns, clock) && c !in conns
    ensures var next := conns[c := Conn(x, {}, false, false, clock + 1, 0, 0)];
            Timely(next, clock + 1) && SameFor(Other(x), conns, next)
  {
    var next := conns[c := Conn(x, {}, false, false, clock + 1, 0, 0)];
    forall d | d in next ensures TimelyConn(next[d], clock + 1) && (d != c ==> next[d].bornAt != clock + 1) {
      if d != c { assert TimelyConn(conns[d], clock); }
    }
  }

  lemma BirthPairs(x: Side, conns: map<nat, Conn>, c: nat, clock: nat)
    requires Base(x, conns) && Settled(x, conns) && Timely(conns, clock) && c !in conns
    ensures Base(x, conns[c := Conn(x, {}, false, false, clock + 1, 0, 0)])
  {
    var next := conns[c := Conn(x, {}, false, false, clock + 1, 0, 0)];
    forall d, e | d in next && e in next
      ensures OneDialPair(x, next[d], next[e]) && AcceptAfterPair(x, next[d], next[e])
    {
      if d != c {
        assert TimelyConn(conns[d], clock);
        if e != c {
          assert OneDialPair(x, conns[d], conns[e]) && AcceptAfterPair(x, conns[d], conns[e]);
        }
      } else if e != c {
        assert TimelyConn(conns[e], clock);
      }
    }
  }

  /** Dialling: the connection that answered becomes the awaited one. */
  lemma BirthKeeps(x: Side, a: Actor, n: Actor, conns: map<nat, Conn>, c: nat, clock: nat)
    requires Keeps(x, a, conns) && Settled(x, conns) && Timely(conns, clock) && c !in conns
    requires a.state.WaitConnAck? || a.state.WaitConnAckElect?
    requires n == a.(i := Some(c), state := if a.state.WaitConnAck? then WaitICEA else WaitReturns)
    ensures Keeps(x, n, conns[c := Conn(x, {}, false, false, clock + 1, 0, 0)])
  {
    BirthPairs(x, conns, c, clock);
  }

  lemma Born(x: Side, v: View, c: nat, clock: nat)
    requires Keeps(x, v.actor, v.conns) && Timely(v.conns, clock) && c !in v.conns
    requires v.actor.state.WaitConnAck? || v.actor.state.WaitConnAckElect?
    ensures var n := Dialled(v, x, c, clock);
            Keeps(x, n.actor, n.conns) && Timely(n.conns, clock + 1) && SameFor(Other(x), v.conns, n.conns)
  {
    Unawaited(x, v.actor, v.conns);
    BirthTimes(x, v.conns, c, clock);
    BirthKeeps(x, v.actor, Dialled(v, x, c, clock).actor, v.conns, c, clock);
  }

  lemma DialElects(x: Side, v: View, c: nat, order: int, clock: nat, sent: bool)
    requires Keeps(x, v.actor, v.conns) && Timely(v.conns, clock) && c !in v.conns && v.actor.state.WaitConnAckElect?
    ensures Done(x, v.conns, Elected(Dialled(v, x, c, clock), x, order, clock, sent), clock)
  {
    Born(x, v, c, clock);
    ElectDone(x, v.conns, Dialled(v, x, c, clock), order, clock, sent);
  }

  lemma ElectDone(x: Side, conns: map<nat, Conn>, v: View, order: int, clock: nat, sent: bool)
    requires Keeps(x, v.actor, v.conns) && Timely(v.conns, clock + 1) && v.actor.state.WaitReturns?
    requires SameFor(Other(x), conns, v.conns)
    ensures Done(x, conns, Elected(v, x, order, clock, sent), clock)
  {
    ElectKeeps(x, v, order, clock, sent);
    DoneThrough(x, conns, v.conns, Elected(v, x, order, clock, sent), clock);
  }

  lemma DialDone(x: Side, v: View, c: nat, order: int, clock: nat, sent: bool)
    requires Keeps(x, v.actor, v.conns) && Timely(v.conns, clock) && c !in v.conns
    ensures Done(x, v.conns, OnDial(v, x, c, order, clock, sent), clock)
  {
    match v.actor.state
    case WaitConnAck =>
      Born(x, v, c, clock);
      Later(OnDial(v, x, c, order, clock, sent).conns, clock + 1, clock + 2);
    case WaitConnAckElect => DialElects(x, v, c, order, clock, sent);
    case _ => Stays(x, v, v.actor, clock);
  }

  lemma Stays(x: Side, v: View, n: Actor, clock: nat)
    requires Keeps(x, n, v.conns) && Timely(v.conns, clock)
    ensures Done(x, v.conns, View(n, v.conns), clock)
  {
    Later(v.conns, clock, clock + 2);
  }

  lemma DialFailDone(x: Side, v: View, clock: nat, sent: bool)
    requires Keeps(x, v.actor, v.conns) && Timely(v.conns, clock)
    ensures Done(x, v.conns, OnDialFailed(v, x, clock, sent), clock)
  {
    match v.actor.state
    case WaitConnAck => Later(v.conns, clock, clock + 1); FailDone(x, v, clock);
    case WaitConnAckElect => TakeResponder(x, v, clock, sent);
    case _ => Stays(x, v, v.actor, clock);
  }

  lemma TakeResponder(x: Side, v: View, clock: nat, sent: bool)
    requires Keeps(x, v.actor, v.conns) && Timely(v.conns, clock) && v.actor.state.WaitConnAckElect?
    ensures Done(x, v.conns, Activated(v, x, clock, sent), clock)
  {
    Later(v.conns, clock, clock + 1);
    Unawaited(x, v.actor, v.conns);
    ActivateKeeps(x, v, clock, sent);
  }

  /** Reading a CER: the connection is fresh, and nothing else has changed. */
  lemma ReadKeeps(x: Side, v: View, c: nat, clock: nat)
    requires Keeps(x, v.actor, v.conns) && Timely(v.conns, clock)
    requires c in v.conns && v.conns[c].dialler == Other(x) && !v.conns[c].cerRead
    ensures var read := v.conns[c := v.conns[c].(cerRead := true)];
            && Fresh(x, read[c]) && Narrows(x, v.conns, read)
            && Keeps(x, v.actor, read) && Timely(read, clock + 1) && SameFor(Other(x), v.conns, read)
  {
    var read := v.conns[c := v.conns[c].(cerRead := true)];
    NarrowKeeps(x, v.actor, v.conns, read, clock);
    Later(read, clock, clock + 1);
  }

  lemma CERClosed(x: Side, a: Actor, read: map<nat, Conn>, c: nat, clock: nat, sent: bool)
    requires Keeps(x, a, read) && Timely(read, clock + 1) && c in read && Fresh(x, read[c]) && a.state.Closed?
    ensures Done(x, read, Activated(View(a.(r := Some(c)), read), x, clock, sent), clock)
  {
    Unawaited(x, a, read);
    ActivateKeeps(x, View(a.(r := Some(c)), read), clock, sent);
  }

  lemma CERHeld(x: Side, a: Actor, read: map<nat, Conn>, c: nat, clock: nat)
    requires Keeps(x, a, read) && Timely(read, clock + 1) && c in read && Fresh(x, read[c]) && a.state.WaitConnAck?
    ensures Done(x, read, View(a.(r := Some(c), state := WaitConnAckElect), read), clock)
  {
    Unawaited(x, a, read);
    ActorKeeps(x, a, a.(r := Some(c), state := WaitConnAckElect), read);
    Later(read, clock + 1, clock + 2);
  }

  lemma CERElects(x: Side, a: Actor, read: map<nat, Conn>, c: nat, order: int, clock: nat, sent: bool)
    requires Keeps(x, a, read) && Timely(read, clock + 1) && c in read && Fresh(x, read[c]) && a.state.WaitICEA?
    ensures Done(x, read, Elected(View(a.(r := Some(c), state := WaitReturns), read), x, order, clock, sent), clock)
  {
    var n := View(a.(r := Some(c), state := WaitReturns), read);
    ActorKeeps(x, a, n.actor, read);
    ElectKeeps(x, n, order, clock, sent);
  }

  lemma CERRejected(x: Side, a: Actor, read: map<nat, Conn>, c: nat, clock: nat)
    requires Keeps(x, a, read) && Timely(read, clock + 1)
    ensures Done(x, read, View(a, CloseLeg(read, x, Some(c))), clock)
  {
    CloseNarrows(x, read, Some(c));
    NarrowDone(x, View(a, read), a, CloseLeg(read, x, Some(c)), clock);
  }

  lemma CERDone(x: Side, v: View, c: nat, order: int, clock: nat, sent: bool)
    requires Keeps(x, v.actor, v.conns) && Timely(v.conns, clock)
    requires c in v.conns && v.conns[c].dialler == Other(x) && !v.conns[c].cerRead
    ensures Done(x, v.conns, OnCER(v, x, c, order, clock, sent), clock)
  {
    var read := v.conns[c := v.conns[c].(cerRead := true)];
    ReadKeeps(x, v, c, clock);
    match v.actor.state {
      case Closed => CERClosed(x, v.actor, read, c, clock, sent);
      case WaitConnAck => CERHeld(x, v.actor, read, c, clock);
      case WaitICEA => CERElects(x, v.actor, read, c, order, clock, sent);
      case _ => CERRejected(x, v.actor, read, c, clock);
    }
    DoneThrough(x, v.conns, read, OnCER(v, x, c, order, clock, sent), clock);
  }

  lemma RefuseDone(x: Side, v: View, c: nat, clock: nat)
    requires Keeps(x, v.actor, v.conns) && Timely(v.conns, clock)
    requires c in v.conns && v.conns[c].dialler == Other(x) && !v.conns[c].cerRead
    ensures Done(x, v.conns, Handle(v, x, 0, clock, RefuseCER(c)), clock)
  {
    var read := v.conns[c := v.conns[c].(cerRead := true)];
    ReadKeeps(x, v, c, clock);
    CERRejected(x, v.actor, read, c, clock);
    DoneThrough(x, v.conns, read, View(v.actor, CloseLeg(read, x, Some(c))), clock);
  }

  lemma GoneLegs(x: Side, v: View, c: nat, clock: nat, sent: bool)
    requires Legs(x, v.actor, v.conns) && !(v.actor.i == Some(c) && v.actor.state.WaitReturns?)
    ensures var n := OnGone(v, x, c, clock, sent);
            n.conns == v.conns && Legs(x, n.actor, v.conns) && (n.actor.active == v.actor.active || n.actor.active.None?)
    ensures v.actor.i != Some(c) && (v.actor.state.WaitICEA? || v.actor.state.WaitReturns?) ==>
              var n := OnGone(v, x, c, clock, sent);
              n.actor.i == v.actor.i && (n.actor.state.WaitICEA? || n.actor.state.WaitReturns?)
  {
  }

  lemma LegGone(x: Side, v: View, c: nat, clock: nat, sent: bool)
    requires Keeps(x, v.actor, v.conns) && Timely(v.conns, clock)
    requires !(v.actor.i == Some(c) && v.actor.state.WaitReturns?)
    requires Settled(x, v.conns) || (v.actor.i != Some(c) && (v.actor.state.WaitICEA? || v.actor.state.WaitReturns?))
    ensures Done(x, v.conns, OnGone(v, x, c, clock, sent), clock)
  {
    GoneLegs(x, v, c, clock, sent);
    var n := OnGone(v, x, c, clock, sent);
    ActorKeeps(x, v.actor, n.actor, v.conns);
    Stays(x, v, n.actor, clock);
  }

  lemma InitiatorLost(x: Side, v: View, clock: nat, sent: bool)
    requires Keeps(x, v.actor, v.conns) && Timely(v.conns, clock) && Settled(x, v.conns) && v.actor.state.WaitReturns?
    ensures Done(x, v.conns, Activated(View(v.actor.(i := None), v.conns), x, clock, sent), clock)
  {
    Later(v.conns, clock, clock + 1);
    ActivateKeeps(x, View(v.actor.(i := None), v.conns), clock, sent);
  }

  lemma GoneDone(x: Side, v: View, c: nat, clock: nat, sent: bool)
    requires Keeps(x, v.actor, v.conns) && Timely(v.conns, clock) && c in v.conns && x in v.conns[c].closed
    ensures Done(x, v.conns, OnGone(v, x, c, clock, sent), clock)
  {
    if v.actor.i == Some(c) || (!v.actor.state.WaitICEA? && !v.actor.state.WaitReturns?) {
      Unawaited(x, v.actor, v.conns);
    }
    if v.actor.i == Some(c) && v.actor.state.WaitReturns? {
      InitiatorLost(x, v, clock, sent);
    } else {
      LegGone(x, v, c, clock, sent);
    }
  }

  // ---- Opening the initiator leg ----------------------------------------------------------------

  /** Opening a connection that was never opened cannot upset a pair. */
  lemma PairOpens(x: Side, k: Conn, l: Conn, n: Conn, m: Conn)
    requires OneDialPair(x, k, l) && AcceptAfterPair(x, k, l)
    requires n == k || (k.openedAt == 0 && n == k.(openedAt := n.openedAt))
    requires m == l || (l.openedAt == 0 && m == l.(openedAt := m.openedAt))
    ensures OneDialPair(x, n, m) && AcceptAfterPair(x, n, m)
  {
  }

  lemma OpenPairs(x: Side, conns: map<nat, Conn>, c: nat, at: nat)
    requires Base(x, conns) && c in conns && conns[c].openedAt == 0
    ensures Base(x, conns[c := conns[c].(openedAt := at)])
  {
    var next := conns[c := conns[c].(openedAt := at)];
    forall d, e | d in next && e in next
      ensures OneDialPair(x, next[d], next[e]) && AcceptAfterPair(x, next[d], next[e])
    {
      assert OneDialPair(x, conns[d], conns[e]) && AcceptAfterPair(x, conns[d], conns[e]);
      PairOpens(x, conns[d], conns[e], next[d], next[e]);
    }
  }

  lemma OpenTimes(x: Side, conns: map<nat, Conn>, c: nat, clock: nat)
    requires Timely(conns, clock) && c in conns && conns[c].dialler == x && conns[c].ceaSent
    ensures var next := conns[c := conns[c].(openedAt := clock + 2)];
            Timely(next, clock + 2) && SameFor(Other(x), conns, next)
  {
    var next := conns[c := conns[c].(openedAt := clock + 2)];
    forall d | d in next ensures TimelyConn(next[d], clock + 2) {
      assert TimelyConn(conns[d], clock);
    }
  }

  /** Only `c` can still be waiting here. */
  ghost predicate OnlyAwaits(x: Side, conns: map<nat, Conn>, c: nat) {
    forall d :: d in conns && conns[d].dialler == x && Open(conns[d], x) && d != c ==> 0 < conns[d].openedAt
  }

  lemma OpenLegs(x: Side, a: Actor, conns: map<nat, Conn>, c: nat, clock: nat)
    requires Base(x, conns) && Timely(conns, clock) && c in conns && conns[c].dialler == x && OnlyAwaits(x, conns, c)
    ensures var n := Opened(a, conns, c, clock);
            Pending(x, n.actor, n.conns) && Latest(x, n.actor, n.conns) && Legs(x, n.actor, n.conns)
  {
    var next := Opened(a, conns, c, clock).conns;
    forall d | d in conns ensures Uses(next[d], x) <= clock + 2 {
      assert TimelyConn(conns[d], clock);
    }
  }

  lemma OpenKeeps(x: Side, a: Actor, conns: map<nat, Conn>, c: nat, clock: nat)
    requires Base(x, conns) && Timely(conns, clock) && c in conns && conns[c].dialler == x && conns[c].ceaSent
    requires conns[c].openedAt == 0 && OnlyAwaits(x, conns, c)
    ensures Done(x, conns, Opened(a, conns, c, clock), clock)
  {
    OpenPairs(x, conns, c, clock + 2);
    OpenTimes(x, conns, c, clock);
    OpenLegs(x, a, conns, c, clock);
  }

  lemma OthersOpened(x: Side, a: Actor, conns: map<nat, Conn>, c: nat)
    requires Pending(x, a, conns) && a.i == Some(c)
    ensures OnlyAwaits(x, conns, c)
  {
  }

  /** The loser closes R before it opens I. */
  lemma LoseKeeps(x: Side, v: View, c: nat, clock: nat)
    requires Keeps(x, v.actor, v.conns) && Timely(v.conns, clock) && c in v.conns && v.conns[c].dialler == x
    requires v.conns[c].ceaSent && v.conns[c].openedAt == 0 && Open(v.conns[c], x) && v.actor.i == Some(c)
    requires v.actor.state.WaitReturns?
    ensures c in CloseLeg(v.conns, x, v.actor.r)
    ensures Done(x, v.conns, Opened(v.actor.(r := None), CloseLeg(v.conns, x, v.actor.r), c, clock), clock)
  {
    var cut := CloseLeg(v.conns, x, v.actor.r);
    CloseNarrows(x, v.conns, v.actor.r);
    NarrowPairs(x, v.conns, cut, clock);
    NarrowOther(x, v.conns, cut);
    NarrowPending(x, v.actor, v.conns, cut);
    OthersOpened(x, v.actor, cut, c);
    assert cut[c] == v.conns[c];
    OpenKeeps(x, v.actor.(r := None), cut, c, clock);
    DoneThrough(x, v.conns, cut, Opened(v.actor.(r := None), cut, c, clock), clock);
  }

  lemma CEADone(x: Side, v: View, c: nat, clock: nat)
    requires Keeps(x, v.actor, v.conns) && Timely(v.conns, clock) && c in v.conns && v.conns[c].dialler == x
    requires v.conns[c].ceaSent && v.conns[c].openedAt == 0 && Open(v.conns[c], x) && v.actor.i == Some(c)
    ensures Done(x, v.conns, OnCEA(v, x, c, clock), clock)
  {
    match v.actor.state
    case WaitICEA =>
      OthersOpened(x, v.actor, v.conns, c);
      OpenKeeps(x, v.actor, v.conns, c, clock);
    case WaitReturns => LoseKeeps(x, v, c, clock);
    case _ => Stays(x, v, v.actor, clock);
  }

  // ---- Whole runs -----------------------------------------------------------------------------

  lemma HandleKeeps(w: World, x: Side, order: int, step: Step)
    requires Timely(w.conns, w.clock) && Keeps(x, ActorOf(w, x), w.conns) && Enabled(w, x, step)
    ensures Done(x, w.conns, Handle(View(ActorOf(w, x), w.conns), x, order, w.clock, step), w.clock)
  {
    var v := View(ActorOf(w, x), w.conns);
    Later(w.conns, w.clock, w.clock + 1);
    match step
    case Dial(c, sent) => DialDone(x, v, c, order, w.clock, sent);
    case DialFail(sent) => DialFailDone(x, v, w.clock, sent);
    case ReceiveCER(c, sent) => CERDone(x, v, c, order, w.clock, sent);
    case RefuseCER(c) => RefuseDone(x, v, c, w.clock);
    case ReceiveCEA(c) => CEADone(x, v, c, w.clock);
    case Gone(c, sent) => GoneDone(x, v, c, w.clock, sent);
    case CloseConn(c) =>
      CloseNarrows(x, v.conns, Some(c));
      NarrowDone(x, v, v.actor, CloseLeg(v.conns, x, Some(c)), w.clock);
    case Fail => FailDone(x, v, w.clock);
    case Start => PlainDone(x, v, v.actor.(state := WaitConnAck), w.clock);
    case Disconnect => PlainDone(x, v, v.actor.(state := Closing), w.clock);
    case ReceiveDPA => DPADone(x, v, w.clock);
  }

  lemma PlainDone(x: Side, v: View, n: Actor, clock: nat)
    requires Keeps(x, v.actor, v.conns) && Timely(v.conns, clock) && Legs(x, n, v.conns)
    requires !v.actor.state.WaitICEA? && !v.actor.state.WaitReturns? && (n.active == v.actor.active || n.active.None?)
    ensures Done(x, v.conns, View(n, v.conns), clock)
  {
    Unawaited(x, v.actor, v.conns);
    ActorKeeps(x, v.actor, n, v.conns);
    Stays(x, v, n, clock);
  }

  lemma DPADone(x: Side, v: View, clock: nat)
    requires Keeps(x, v.actor, v.conns) && Timely(v.conns, clock)
    ensures Done(x, v.conns, OnDPA(v, x), clock)
  {
    Later(v.conns, clock, clock + 1);
    if v.actor.state.Closing? {
      var n := v.actor.(state := Closed, active := None);
      Unawaited(x, v.actor, v.conns);
      ActorKeeps(x, v.actor, n, v.conns);
      CloseNarrows(x, v.conns, v.actor.active);
      NarrowDone(x, v, n, CloseLeg(v.conns, x, v.actor.active), clock);
    } else {
      Stays(x, v, v.actor, clock);
    }
  }

  lemma StepKeeps(w: World, ids: Identities, x: Side, step: Step)
    requires Inv(w) && Enabled(w, x, step)
    ensures Inv(Apply(w, ids, x, step))
  {
    hide Handle, Order;
    var own := Order(ids, x);
    HandleKeeps(w, x, own, step);
    var v := Handle(View(ActorOf(w, x), w.conns), x, own, w.clock, step);
    OtherKeeps(Other(x), ActorOf(w, Other(x)), w.conns, v.conns);
  }

  lemma {:induction false} RunKeeps(ids: Identities, w: World, run: seq<(Side, Step)>, end: World)
    requires Inv(w) && Run(ids, w, run, end)
    ensures Inv(end)
    decreases run
  {
    if run != [] {
      StepKeeps(w, ids, run[0].0, run[0].1);
      RunKeeps(ids, Apply(w, ids, run[0].0, run[0].1), run[1..], end);
    }
  }

  /** In every run of two peers, if both are open on connections that neither
      has closed then it is the same connection. */
  lemma TwoPeersAgree(ids: Identities, run: seq<(Side, Step)>, end: World)
    requires Run(ids, QUIET, run, end) && IsOpen(end.local) && IsOpen(end.remote)
    ensures end.local.active.Some? && end.local.active.value in end.conns
    ensures end.remote.active.Some? && end.remote.active.value in end.conns
    ensures end.conns[end.local.active.value].closed == {} && end.conns[end.remote.active.value].closed == {} ==>
              end.local.active == end.remote.active
  {
    RunKeeps(ids, QUIET, run, end);
    if end.conns[end.local.active.value].closed == {} && end.conns[end.remote.active.value].closed == {} { Agrees(end); }
  }

  /** Whatever led them there, of two peers that hold an election one accepts the
      connection of the other and one waits for it, unless their identities differ
      in case only: then both fail. */
  lemma ElectionDecides(ids: Identities, v: View, u: View, clock: nat, sent: bool)
    requires v.actor.state.WaitReturns? && v.actor.r.Some? && v.actor.r.value in v.conns
    requires u.actor.state.WaitReturns? && u.actor.r.Some? && u.actor.r.value in u.conns
    ensures var a := Elected(v, Local, Order(ids, Local), clock, sent).actor.state;
            var b := Elected(u, Remote, Order(ids, Remote), clock, sent).actor.state;
            if Folded(ids.local) == Folded(ids.remote) then a.Closed? && b.Closed?
            else (a.ROpen? && b.WaitReturns?) || (a.WaitReturns? && b.ROpen?)
  {
    OneWinner(ids.local, ids.remote);
  }
}

/** Demultiplexing one SCTP association's streams among concurrent readers
    (diam/network_sctp.go): the single claimed receiver, the per-stream buffers
    and the restart fence. Every region under streamBuffMu is one step. */
module Demux {
  import opened Octets

  /** Where the goroutine that claimed the receiver stands. `target` is the
      stream it reads for, or none for ReadAny. */
  datatype Phase =
    | Idle
    | Looping(stream: nat)
    | Receiving(target: Option<nat>)
    | InHand(target: Option<nat>, from: nat, chunk: Bytes)
    | Ending

  /** Octets of each stream buffered, and received and delivered since the last reset. */
  datatype Demux = Demux(
    buffers: map<nat, Bytes>, phase: Phase, restart: bool, received: map<nat, Bytes>, delivered: map<nat, Bytes>)

  const FRESH: Demux := Demux(map[], Idle, false, map[], map[])

  function At(m: map<nat, Bytes>, s: nat): Bytes {
    if s in m then m[s] else []
  }

  function Append(m: map<nat, Bytes>, s: nat, b: Bytes): map<nat, Bytes> {
    m[s := At(m, s) + b]
  }

  /** Whether a reader for `target` finds nothing buffered. */
  ghost predicate Dry(buffers: map<nat, Bytes>, target: Option<nat>) {
    match target
    case Some(s) => At(buffers, s) == []
    case None => forall s :: At(buffers, s) == []
  }

  datatype Step =
    | ReadBuffered(s: nat, n: nat)
    | Claim(target: Option<nat>)
    | Recheck
    | Receive(from: nat, chunk: Bytes)
    | ReceiveRestart
    | ReceiveError
    | Settle(n: nat, failed: bool)
    | End
    | Reset

  ghost predicate Enabled(st: Demux, step: Step) {
    match step
    case ReadBuffered(s, n) => !st.restart && At(st.buffers, s) != [] && n <= |At(st.buffers, s)|
    case Claim(target) => st.phase.Idle? && !st.restart && Dry(st.buffers, target)
    case Recheck => st.phase.Looping?
    case Receive(_, _) => st.phase.Receiving?
    case ReceiveRestart => st.phase.Receiving?
    case ReceiveError => st.phase.Receiving?
    case Settle(n, _) => st.phase.InHand? && n <= |At(st.buffers, st.phase.from)| + |st.phase.chunk|
    case End => st.phase.Ending?
    case Reset => st.phase.Idle?
  }

  function Deliver(st: Demux, s: nat, n: nat): Demux
    requires n <= |At(st.buffers, s)|
  {
    st.(delivered := Append(st.delivered, s, At(st.buffers, s)[..n]), buffers := st.buffers[s := At(st.buffers, s)[n..]])
  }

  /** verifyStreamBuff: hand the chunk over, behind what is buffered if anything is. */
  function Verified(st: Demux, s: nat, chunk: Bytes, n: nat): Demux
    requires n <= |At(st.buffers, s)| + |chunk|
  {
    if At(st.buffers, s) != [] then Deliver(st.(buffers := Append(st.buffers, s, chunk)), s, n)
    else st.(delivered := Append(st.delivered, s, chunk))
  }

  ghost function Apply(st: Demux, step: Step): Demux
    requires Enabled(st, step)
  {
    match step
    case ReadBuffered(s, n) => Deliver(st, s, n)
    case Claim(target) => st.(phase := if target.Some? then Looping(target.value) else Receiving(None))
    case Recheck =>
      if st.restart || At(st.buffers, st.phase.stream) != [] then st.(phase := Ending)
      else st.(phase := Receiving(Some(st.phase.stream)))
    case Receive(from, chunk) =>
      st.(phase := InHand(st.phase.target, from, chunk), received := Append(st.received, from, chunk))
    case ReceiveRestart => st.(phase := Ending, restart := true)
    case ReceiveError => st.(phase := Ending)
    case Settle(n, failed) =>
      var s, chunk := st.phase.from, st.phase.chunk;
      if st.phase.target.None? || st.phase.target == Some(s) then Verified(st, s, chunk, n).(phase := Ending)
      else st.(buffers := Append(st.buffers, s, chunk), phase := if failed then Ending else Looping(st.phase.target.value))
    case End => st.(phase := Idle)
    case Reset => FRESH
  }

  ghost predicate Run(st: Demux, run: seq<Step>, end: Demux)
    decreases run
  {
    if run == [] then st == end
    else Enabled(st, run[0]) && Run(Apply(st, run[0]), run[1..], end)
  }

  // ---- What every step keeps -------------------------------------------------------------

  function Hand(st: Demux, s: nat): Bytes {
    if st.phase.InHand? && st.phase.from == s then st.phase.chunk else []
  }

  /** Every octet received is delivered, buffered or in hand, in that order. */
  ghost predicate Conserved(st: Demux) {
    forall s :: At(st.received, s) == At(st.delivered, s) + At(st.buffers, s) + Hand(st, s)
  }

  /** What the receiver reads for stays empty while it is on the wire, and a
      pending restart keeps everyone off it. */
  ghost predicate Alone(st: Demux) {
    && (st.phase.Receiving? || st.phase.InHand? ==> Dry(st.buffers, st.phase.target))
    && (st.restart ==> st.phase.Ending? || st.phase.Idle?)
  }

  ghost predicate Inv(st: Demux) {
    Conserved(st) && Alone(st)
  }

  /** When the chunk is handed over nothing of its stream is buffered: the
      branch that pipes it through the buffer is never taken. */
  lemma HandsOver(st: Demux)
    requires Inv(st) && st.phase.InHand? && (st.phase.target.None? || st.phase.target == Some(st.phase.from))
    ensures At(st.buffers, st.phase.from) == []
  {
  }

  lemma Resplit(d: Bytes, b: Bytes, n: nat)
    requires n <= |b|
    ensures d + b == (d + b[..n]) + b[n..]
  {
  }

  lemma DeliverKeeps(st: Demux, s: nat, n: nat)
    requires Inv(st) && n <= |At(st.buffers, s)|
    ensures Inv(Deliver(st, s, n))
  {
    var next := Deliver(st, s, n);
    forall t ensures At(next.received, t) == At(next.delivered, t) + At(next.buffers, t) + Hand(next, t) {
      assert At(st.received, t) == At(st.delivered, t) + At(st.buffers, t) + Hand(st, t);
      if t == s { Resplit(At(st.delivered, s), At(st.buffers, s), n); }
    }
  }

  lemma SettleAlone(st: Demux, n: nat, failed: bool)
    requires Inv(st) && Enabled(st, Settle(n, failed))
    ensures Alone(Apply(st, Settle(n, failed)))
  {
  }

  lemma Regroup(d: Bytes, b: Bytes, c: Bytes)
    ensures d + b + c == d + (b + c) + [] && (b == [] ==> d + b + c == (d + c) + [] + [])
  {
  }

  lemma SettleAt(st: Demux, n: nat, failed: bool, t: nat)
    requires Conserved(st) && Enabled(st, Settle(n, failed))
    requires st.phase.target.None? || st.phase.target == Some(st.phase.from) ==> At(st.buffers, st.phase.from) == []
    ensures var next := Apply(st, Settle(n, failed));
            At(next.received, t) == At(next.delivered, t) + At(next.buffers, t) + Hand(next, t)
  {
    hide Conserved;
    var next, s := Apply(st, Settle(n, failed)), st.phase.from;
    ConservedAt(st, t);
    assert Hand(next, t) == [] && next.received == st.received;
    if t == s {
      Regroup(At(st.delivered, s), At(st.buffers, s), st.phase.chunk);
    } else {
      assert At(next.delivered, t) == At(st.delivered, t) && At(next.buffers, t) == At(st.buffers, t) && Hand(st, t) == [];
    }
  }

  lemma ConservedAt(st: Demux, t: nat)
    requires Conserved(st)
    ensures At(st.received, t) == At(st.delivered, t) + At(st.buffers, t) + Hand(st, t)
  {
  }

  lemma SettleKeeps(st: Demux, n: nat, failed: bool)
    requires Inv(st) && Enabled(st, Settle(n, failed))
    ensures Inv(Apply(st, Settle(n, failed)))
  {
    SettleAlone(st, n, failed);
    var next, s := Apply(st, Settle(n, failed)), st.phase.from;
    if st.phase.target.None? || st.phase.target == Some(s) { HandsOver(st); }
    hide Alone;
    forall t ensures At(next.received, t) == At(next.delivered, t) + At(next.buffers, t) + Hand(next, t) {
      SettleAt(st, n, failed, t);
    }
  }

  lemma ReceiveKeeps(st: Demux, from: nat, chunk: Bytes)
    requires Inv(st) && st.phase.Receiving?
    ensures Inv(Apply(st, Receive(from, chunk)))
  {
    var next := Apply(st, Receive(from, chunk));
    forall t ensures At(next.received, t) == At(next.delivered, t) + At(next.buffers, t) + Hand(next, t) {
      assert At(st.received, t) == At(st.delivered, t) + At(st.buffers, t) + [];
      assert At(next.received, t) == At(st.received, t) + Hand(next, t);
    }
  }

  lemma Keeps(st: Demux, step: Step)
    requires Inv(st) && Enabled(st, step)
    ensures Inv(Apply(st, step))
  {
    match step
    case ReadBuffered(s, n) => DeliverKeeps(st, s, n);
    case Receive(from, chunk) => ReceiveKeeps(st, from, chunk);
    case Settle(n, failed) => SettleKeeps(st, n, failed);
    case _ =>
      var next := Apply(st, step);
      forall t ensures At(next.received, t) == At(next.delivered, t) + At(next.buffers, t) + Hand(next, t) {
        assert At(st.received, t) == At(st.delivered, t) + At(st.buffers, t) + Hand(st, t);
      }
  }

  // ---- Whole runs ----------------------------------------------------------------------------

  lemma {:induction false} RunKeeps(st: Demux, run: seq<Step>, end: Demux)
    requires Inv(st) && Run(st, run, end)
    ensures Inv(end)
    decreases run
  {
    if run != [] {
      Keeps(st, run[0]);
      RunKeeps(Apply(st, run[0]), run[1..], end);
    }
  }

  /** In every interleaving of readers, what each stream has delivered since the
      last reset is a prefix of what it received, in order, and the rest is
      still held. */
  lemma InOrder(run: seq<Step>, end: Demux, s: nat)
    requires Run(FRESH, run, end)
    ensures At(end.delivered, s) <= At(end.received, s)
    ensures At(end.received, s) == At(end.delivered, s) + At(end.buffers, s) + Hand(end, s)
  {
    RunKeeps(FRESH, run, end);
  }

  lemma RestartStep(st: Demux, step: Step)
    requires Inv(st) && st.restart && Enabled(st, step) && !step.Reset?
    ensures Apply(st, step).restart && Apply(st, step).delivered == st.delivered && Apply(st, step).received == st.received
  {
  }

  /** Until the reset, nothing is received or delivered past a pending restart. */
  lemma {:induction false} RestartFence(st: Demux, run: seq<Step>, end: Demux)
    requires Inv(st) && st.restart && Run(st, run, end) && forall i :: 0 <= i < |run| ==> !run[i].Reset?
    ensures end.restart && end.delivered == st.delivered && end.received == st.received
    decreases run
  {
    if run != [] {
      Keeps(st, run[0]);
      RestartStep(st, run[0]);
      RestartFence(Apply(st, run[0]), run[1..], end);
    }
  }
}

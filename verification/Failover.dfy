/** Manager requests and their failover (diam/peer/send.go): every region that
    runs under pendingMu is one step over the shared state. */
module Failover {
  import opened Octets

  datatype Session = Session(actor: nat, serial: nat)

  /** One Hop-by-Hop id on one session. */
  datatype Slot = Slot(session: Session, hop: Word)

  /** The parts of a request that failover must not change; `body` is the payload. */
  datatype Msg = Msg(endToEnd: Word, command: nat, app: Word, body: nat)

  datatype Attempt = Attempt(hop: Word, generation: nat, writing: bool, drain: bool)

  /** A reservation as it was handed to a session's writer. */
  datatype Sent = Sent(session: Session, hop: Word, retransmitted: bool, msg: Msg)

  datatype Outcome = Answered(answer: Msg) | Failed

  /** Which goroutine may reserve the request next: the Send loop before its
      first reservation, nobody while an attempt waits, or the one owner of a
      failover: named, looking for a peer, or just admitted to a session. */
  datatype Owner = Sending | Nobody | Claimed | Retrying(excluded: set<nat>) | Settling(on: Session)

  datatype Request = Request(
    msg: Msg, attempted: set<nat>, entries: map<Session, Attempt>, done: bool, failovering: bool, lastHop: Word,
    current: Option<Session>, queued: set<Session>, sent: seq<Sent>, results: seq<Outcome>, owner: Owner)

  /** `controls` is what the manager records; `exchanges` and `writers` are the
      control exchanges and selected writers that rely on it. */
  datatype State = State(
    requests: map<nat, Request>, pending: map<Slot, nat>, controls: set<Slot>, exchanges: set<Slot>,
    writers: map<Slot, nat>, nextHop: Word, retired: set<Session>, closing: set<Session>, gone: set<Session>)

  // ---- One request ----------------------------------------------------------------

  function Slots(q: Request): set<Slot> {
    set s | s in q.entries :: Slot(s, q.entries[s].hop)
  }

  function Reserved(q: Request, s: Session, generation: nat, hop: Word, retransmission: bool): Request {
    q.(entries := q.entries[s := Attempt(hop, generation, false, false)], lastHop := hop, current := Some(s),
       attempted := q.attempted + {s.actor}, queued := q.queued + {s},
       sent := q.sent + [Sent(s, hop, retransmission, q.msg)])
  }

  function Finished(q: Request, outcome: Outcome): Request {
    q.(done := true, results := q.results + [outcome])
  }

  /** Claim the request for failover if `s` is where it waits and nobody has. */
  function Claim(q: Request, s: Session): Request {
    if !q.done && !q.failovering && q.current == Some(s) then q.(failovering := true, owner := Claimed) else q
  }

  function Detach(q: Request, s: Session): Request {
    Claim(q.(entries := q.entries - {s}), s)
  }

  function AttemptOn(q: Request, s: Session): Attempt {
    if s in q.entries then q.entries[s] else Attempt(0, 0, false, false)
  }

  /** closeAdmission on one attached request: drained in place, or given up. */
  function Closed(q: Request, s: Session, drain: set<Slot>): Request {
    if Slot(s, AttemptOn(q, s).hop) in drain then q.(entries := q.entries[s := AttemptOn(q, s).(drain := true)])
    else Detach(q, s)
  }

  predicate Matches(q: Request, answer: Msg) {
    q.msg.endToEnd == answer.endToEnd && q.msg.command == answer.command && q.msg.app == answer.app
  }

  /** After admission the failover owner lets go, unless its session is already lost. */
  predicate LostSession(st: State, q: Request, s: Session) {
    && !q.done && q.current == Some(s)
    && (s in st.retired || (s in st.closing && (s !in q.entries || !q.entries[s].drain)))
  }

  // ---- The shared maps --------------------------------------------------------------

  function Holders(pending: map<Slot, nat>, s: Session): set<nat> {
    set k | k in pending && k.session == s :: pending[k]
  }

  function Usage(pending: map<Slot, nat>, actor: nat): set<Slot> {
    set k | k in pending && k.session.actor == actor
  }

  predicate Usable(st: State, s: Session) {
    s !in st.retired && s !in st.closing && s !in st.gone
  }

  predicate Free(st: State, s: Session, hop: Word) {
    Slot(s, hop) !in st.pending && Slot(s, hop) !in st.controls
  }

  function Reserve(st: State, r: nat, s: Session, generation: nat, hop: Word, retransmission: bool, owner: Owner): State
    requires r in st.requests
  {
    var q := Reserved(st.requests[r], s, generation, hop, retransmission).(owner := owner);
    st.(requests := st.requests[r := q], pending := st.pending[Slot(s, hop) := r], nextHop := hop)
  }

  function Complete(st: State, r: nat, outcome: Outcome): State
    requires r in st.requests
  {
    var q := st.requests[r];
    if q.done then st
    else st.(requests := st.requests[r := Finished(q, outcome)], pending := st.pending - Slots(q))
  }

  /** receiveAnswer, and receiveClosingAnswer when only drained attempts count. */
  function Answer(st: State, s: Session, hop: Word, generation: nat, answer: Msg, closing: bool): State {
    if s in st.retired || Slot(s, hop) !in st.pending then st
    else
      var r := st.pending[Slot(s, hop)];
      if r !in st.requests then st
      else
        var q := st.requests[r];
        if !q.done && s in q.entries && q.entries[s].generation == generation && Matches(q, answer)
           && (closing ==> q.entries[s].drain)
        then Complete(st, r, Answered(answer)) else st
  }

  function CloseAdmission(st: State, s: Session, drain: set<Slot>): State {
    var held := Holders(st.pending, s);
    st.(requests := map r | r in st.requests :: if r in held then Closed(st.requests[r], s, drain) else st.requests[r],
        pending := map k | k in st.pending && (k.session == s ==> k in drain) :: st.pending[k],
        closing := st.closing + {s})
  }

  function FailoverSession(st: State, s: Session): State {
    var held := Holders(st.pending, s);
    st.(requests := map r | r in st.requests :: if r in held then Claim(st.requests[r], s) else st.requests[r])
  }

  function ClaimRetired(st: State, s: Session): State {
    var held := Holders(st.pending, s);
    st.(requests := map r | r in st.requests :: if r in held then Detach(st.requests[r], s) else st.requests[r],
        pending := map k | k in st.pending && k.session != s :: st.pending[k],
        controls := set k | k in st.controls && k.session != s)
  }

  /** close drops the session's control ids, whoever still uses them. */
  function DropControls(st: State, s: Session): State {
    st.(controls := set k | k in st.controls && k.session != s)
  }

  /** writeOne takes a queued request: drop it, or mark it and keep its id. */
  function Select(st: State, r: nat, s: Session): State
    requires r in st.requests
  {
    var q := st.requests[r].(queued := st.requests[r].queued - {s});
    if q.done || q.current != Some(s) || s in st.retired || s in st.closing then st.(requests := st.requests[r := q])
    else
      var attempt := AttemptOn(q, s).(writing := true);
      var k := Slot(s, attempt.hop);
      st.(requests := st.requests[r := q.(entries := q.entries[s := attempt])],
          controls := st.controls + {k}, writers := st.writers[k := r])
  }

  // ---- Steps ------------------------------------------------------------------------

  datatype Step =
    | Submit(r: nat, msg: Msg)
    | SendReserve(r: nat, s: Session, generation: nat, hop: Word)
    | SendRefused(r: nat, actor: nat)
    | Finish(r: nat)
    | Receive(s: Session, hop: Word, generation: nat, answer: Msg, closing: bool)
    | Close(s: Session, drain: set<Slot>)
    | Fail(s: Session)
    | Retire(s: Session)
    | TakeRetired(s: Session)
    | Lose(s: Session)
    | Drop(s: Session)
    | RetryStart(r: nat)
    | RetryRefused(r: nat, actor: nat)
    | RetryReserve(r: nat, s: Session, generation: nat, hop: Word)
    | RetrySettle(r: nat)
    | SelectWriter(r: nat, s: Session)
    | ReleaseWriter(k: Slot)
    | OpenExchange(s: Session, hop: Word)
    | CloseExchange(k: Slot)

  /** reserveAndSend succeeds: the request is live, the session usable, the
      peer below its limit, and the id one that nextHopIDLocked may return. */
  predicate MayReserve(st: State, limit: nat, q: Request, s: Session, hop: Word, retransmission: bool) {
    && !q.done && Usable(st, s)
    && |Usage(st.pending, s.actor)| < limit
    && Free(st, s, hop) && (retransmission ==> hop != q.lastHop)
  }

  predicate Enabled(limit: nat, st: State, step: Step) {
    match step
    case Submit(r, _) => r !in st.requests
    case SendReserve(r, s, _, hop) =>
      && r in st.requests && st.requests[r].owner.Sending? && s.actor !in st.requests[r].attempted
      && MayReserve(st, limit, st.requests[r], s, hop, false)
    case SendRefused(r, _) => r in st.requests && st.requests[r].owner.Sending?
    case Finish(r) => r in st.requests
    case TakeRetired(s) => s in st.retired
    case Drop(s) => s in st.gone
    case RetryStart(r) => r in st.requests && st.requests[r].owner.Claimed?
    case RetryRefused(r, actor) =>
      r in st.requests && st.requests[r].owner.Retrying? && actor !in st.requests[r].owner.excluded
    case RetryReserve(r, s, _, hop) =>
      && r in st.requests && st.requests[r].owner.Retrying? && s.actor !in st.requests[r].owner.excluded
      && MayReserve(st, limit, st.requests[r], s, hop, true)
    case RetrySettle(r) => r in st.requests && st.requests[r].owner.Settling?
    case SelectWriter(r, s) => r in st.requests && s in st.requests[r].queued
    case ReleaseWriter(k) => k in st.writers
    case OpenExchange(s, hop) => Free(st, s, hop)
    case CloseExchange(k) => k in st.exchanges
    case _ => true
  }

  function Apply(limit: nat, st: State, step: Step): State
    requires Enabled(limit, st, step)
  {
    match step
    case Submit(r, msg) =>
      st.(requests := st.requests[r := Request(msg, {}, map[], false, false, 0, None, {}, [], [], Sending)])
    case SendReserve(r, s, generation, hop) => Reserve(st, r, s, generation, hop, false, Nobody)
    case SendRefused(r, actor) =>
      st.(requests := st.requests[r := st.requests[r].(attempted := st.requests[r].attempted + {actor})])
    case Finish(r) => Complete(st, r, Failed)
    case Receive(s, hop, generation, answer, closing) => Answer(st, s, hop, generation, answer, closing)
    case Close(s, drain) => CloseAdmission(st, s, drain)
    case Fail(s) => FailoverSession(st, s)
    case Retire(s) => st.(retired := st.retired + {s})
    case TakeRetired(s) => ClaimRetired(st, s)
    case Lose(s) => st.(gone := st.gone + {s})
    case Drop(s) => DropControls(st, s)
    case RetryStart(r) =>
      var q := st.requests[r];
      st.(requests := st.requests[r := q.(owner := if q.done then Nobody else Retrying(q.attempted))])
    case RetryRefused(r, actor) =>
      var q := st.requests[r];
      st.(requests := st.requests[r := q.(owner := Retrying(q.owner.excluded + {actor}))])
    case RetryReserve(r, s, generation, hop) => Reserve(st, r, s, generation, hop, true, Settling(s))
    case RetrySettle(r) =>
      var q := st.requests[r];
      var lost := LostSession(st, q, q.owner.on);
      st.(requests := st.requests[r := q.(failovering := lost, owner := if lost then Claimed else Nobody)])
    case SelectWriter(r, s) => Select(st, r, s)
    case ReleaseWriter(k) => st.(controls := st.controls - {k}, writers := st.writers - {k})
    case OpenExchange(s, hop) =>
      st.(controls := st.controls + {Slot(s, hop)}, exchanges := st.exchanges + {Slot(s, hop)}, nextHop := hop)
    case CloseExchange(k) => st.(controls := st.controls - {k}, exchanges := st.exchanges - {k})
  }

  const INITIAL: State := State(map[], map[], {}, {}, map[], 0, {}, {}, {})

  /** `end` is reached from `st` by the steps of `run`, in order. */
  ghost predicate Run(limit: nat, st: State, run: seq<Step>, end: State)
    decreases run
  {
    if run == [] then st == end
    else Enabled(limit, st, run[0]) && Run(limit, Apply(limit, st, run[0]), run[1..], end)
  }
}

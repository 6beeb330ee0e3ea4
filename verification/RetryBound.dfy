/** The retry loop ends (diam/peer/send.go): over every interleaving, a request is
    offered to its candidate peers a bounded number of times. */
module RetryBound {
  import opened Octets
  import opened Failover
  import opened FailoverSafety

  /** One candidate refused or reserved for request `r`. */
  predicate Offers(step: Step, r: nat) {
    (step.RetryRefused? || step.RetryReserve?) && step.r == r
  }

  function Peer(step: Step): nat
    requires step.RetryRefused? || step.RetryReserve?
  {
    if step.RetryRefused? then step.actor else step.s.actor
  }

  /** How many candidates a run offers `r` to. */
  function Offered(run: seq<Step>, r: nat): nat {
    if run == [] then 0 else (if Offers(run[0], r) then 1 else 0) + Offered(run[1..], r)
  }

  ghost predicate Among(run: seq<Step>, r: nat, peers: set<nat>) {
    forall i :: 0 <= i < |run| && Offers(run[i], r) ==> Peer(run[i]) in peers
  }

  /** 1 + 2 + ... + n. */
  function Triangle(n: nat): nat {
    if n == 0 then 0 else n + Triangle(n - 1)
  }

  lemma {:induction false} TriangleIs(n: nat)
    ensures 2 * Triangle(n) == n * (n + 1)
  {
    if n > 0 { TriangleIs(n - 1); }
  }

  lemma {:induction false} TriangleGrows(m: nat, n: nat)
    requires m <= n
    ensures Triangle(m) <= Triangle(n)
  {
    if m < n { TriangleGrows(m, n - 1); }
  }

  /** With `a` peers not attempted, `e` of them not yet refused this time. */
  function Worth(a: nat, e: nat): nat {
    if a == 0 then 0 else Triangle(a - 1) + e
  }

  /** The offers that a request may still make. */
  function Potential(q: Request, peers: set<nat>): nat {
    var a := |peers - q.attempted|;
    Worth(a, if q.owner.Retrying? then |peers - q.owner.excluded| else a)
  }

  function StatePotential(st: State, r: nat, peers: set<nat>): nat {
    if r in st.requests then Potential(st.requests[r], peers) else Triangle(|peers|)
  }

  lemma Fewer(peers: set<nat>, gone: set<nat>, more: set<nat>)
    requires gone <= more
    ensures |peers - more| <= |peers - gone|
    ensures (exists a :: a in peers && a in more && a !in gone) ==> |peers - more| < |peers - gone|
  {
    Shrinks(peers - more, peers - gone);
    if a :| a in peers && a in more && a !in gone {
      Shrinks(peers - more, (peers - gone) - {a});
    }
  }

  /** What a step that offers `r` to nobody leaves alone. */
  ghost predicate Steady(q: Request, n: Request) {
    && q.attempted <= n.attempted
    && (q.owner.Retrying? ==> n.owner == q.owner && n.attempted == q.attempted)
    && (n.owner.Retrying? && !q.owner.Retrying? ==> n.owner.excluded == n.attempted)
  }

  lemma LossSteady(q: Request, s: Session, drain: set<Slot>)
    requires Owned(q)
    ensures Steady(q, Closed(q, s, drain)) && Steady(q, Detach(q, s)) && Steady(q, Claim(q, s))
  {
  }

  lemma SharedSteady(limit: nat, st: State, step: Step, r: nat)
    requires Enabled(limit, st, step) && r in st.requests && SharedStep(step) && Owned(st.requests[r])
    ensures r in Apply(limit, st, step).requests && Steady(st.requests[r], Apply(limit, st, step).requests[r])
  {
    match step
    case Close(s, drain) => LossSteady(st.requests[r], s, drain);
    case Fail(s) => LossSteady(st.requests[r], s, {});
    case TakeRetired(s) => LossSteady(st.requests[r], s, {});
    case _ =>
  }

  lemma CompleteSteady(st: State, o: nat, outcome: Outcome, r: nat)
    requires o in st.requests && r in st.requests
    ensures r in Complete(st, o, outcome).requests && Steady(st.requests[r], Complete(st, o, outcome).requests[r])
  {
  }

  lemma StepSteady(limit: nat, st: State, step: Step, r: nat)
    requires Enabled(limit, st, step) && r in st.requests && Owned(st.requests[r]) && !Offers(step, r)
    ensures r in Apply(limit, st, step).requests && Steady(st.requests[r], Apply(limit, st, step).requests[r])
  {
    if SharedStep(step) {
      SharedSteady(limit, st, step, r);
    } else if !OwnerStep(step) {
      match step
      case Submit(_, _) =>
      case SendReserve(_, _, _, _) =>
      case RetryReserve(_, _, _, _) =>
      case Finish(o) => CompleteSteady(st, o, Failed, r);
      case Receive(s, hop, generation, answer, closing) =>
        Receives(st, s, hop, generation, answer, closing);
        if Apply(limit, st, step) != st { CompleteSteady(st, st.pending[Slot(s, hop)], Answered(answer), r); }
      case SelectWriter(o, s) => assert o == r ==> Select(st, o, s).requests[r] == Selected(st, st.requests[r], s);
    }
  }

  lemma SteadyPotential(q: Request, n: Request, peers: set<nat>)
    requires Steady(q, n)
    ensures Potential(n, peers) <= Potential(q, peers)
  {
    Fewer(peers, q.attempted, n.attempted);
    var a, b := |peers - q.attempted|, |peers - n.attempted|;
    if 0 < b < a { TriangleGrows(b, a - 1); }
  }

  /** An offer uses up at least one. */
  lemma OfferPotential(limit: nat, st: State, step: Step, r: nat, peers: set<nat>)
    requires Enabled(limit, st, step) && Offers(step, r) && Peer(step) in peers && Owned(st.requests[r])
    ensures r in Apply(limit, st, step).requests
    ensures Potential(Apply(limit, st, step).requests[r], peers) < Potential(st.requests[r], peers)
  {
    var q, n := st.requests[r], Apply(limit, st, step).requests[r];
    assert Peer(step) in peers && Peer(step) !in q.owner.excluded && q.attempted <= q.owner.excluded;
    Fewer(peers, q.attempted, q.owner.excluded);
    Fewer(peers, q.owner.excluded, q.owner.excluded + {Peer(step)});
    Fewer(peers, q.attempted, q.attempted + {Peer(step)});
    if step.RetryReserve? {
      var b := |peers - n.attempted|;
      TriangleGrows(b, |peers - q.attempted| - 1);
    }
  }

  lemma StepPotential(limit: nat, st: State, step: Step, r: nat, peers: set<nat>)
    requires Inv(limit, st) && Enabled(limit, st, step) && (Offers(step, r) ==> Peer(step) in peers)
    ensures StatePotential(Apply(limit, st, step), r, peers) + (if Offers(step, r) then 1 else 0) <= StatePotential(st, r, peers)
  {
    if r in st.requests {
      assert Local(st.requests[r]);
      if Offers(step, r) {
        OfferPotential(limit, st, step, r, peers);
      } else {
        StepSteady(limit, st, step, r);
        SteadyPotential(st.requests[r], Apply(limit, st, step).requests[r], peers);
      }
    } else {
      Fresh(limit, st, step, r, peers);
    }
  }

  lemma NotAdded(limit: nat, st: State, step: Step, r: nat)
    requires Enabled(limit, st, step) && r !in st.requests && !(step.Submit? && step.r == r)
    ensures r !in Apply(limit, st, step).requests
  {
    match step
    case Receive(s, hop, generation, answer, closing) => Receives(st, s, hop, generation, answer, closing);
    case _ =>
  }

  lemma Fresh(limit: nat, st: State, step: Step, r: nat, peers: set<nat>)
    requires Enabled(limit, st, step) && r !in st.requests
    ensures StatePotential(Apply(limit, st, step), r, peers) <= Triangle(|peers|)
  {
    if step.Submit? && step.r == r {
      assert peers - Apply(limit, st, step).requests[r].attempted == peers;
    } else {
      NotAdded(limit, st, step, r);
    }
  }

  /** From any state of the invariant, whatever the other goroutines do in
      between, a request is offered to no more candidates than its potential. */
  lemma {:induction false} OffersBounded(limit: nat, st: State, run: seq<Step>, end: State, r: nat, peers: set<nat>)
    requires Inv(limit, st) && Run(limit, st, run, end) && Among(run, r, peers)
    ensures Offered(run, r) <= StatePotential(st, r, peers)
    decreases run
  {
    if run != [] {
      Keeps(limit, st, run[0]);
      StepPotential(limit, st, run[0], r, peers);
      OffersBounded(limit, Apply(limit, st, run[0]), run[1..], end, r, peers);
    }
  }

  /** retry terminates: in every run over n peers a request is refused by or
      reserved on candidates at most n(n + 1)/2 times in all. */
  lemma RetryTerminates(limit: nat, run: seq<Step>, end: State, r: nat, peers: set<nat>)
    requires Run(limit, INITIAL, run, end) && Among(run, r, peers)
    ensures 2 * Offered(run, r) <= |peers| * (|peers| + 1)
  {
    Reached(limit, [], INITIAL);
    OffersBounded(limit, INITIAL, run, end, r, peers);
    TriangleIs(|peers|);
  }
}

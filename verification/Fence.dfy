/** Writers and renewals of one accepted transport
    (diam/accepted_generation.go, diam/write_gate.go, diam/server.go): the gate
    that owns a whole write, and the generation that may use it. */
module Fence {
  import opened Octets

  datatype Role = Writing | Renewing

  /** Where a goroutine stands. A writer: before its first check, about to try
      the gate, waiting on a channel, holding the gate, past the check that
      follows, past the check before the transport write, finished. A renewal:
      before it latches retirement, trying, waiting, holding, installed, finished. */
  datatype Place = Start | Ready | Waiting(channel: nat) | Held | Cleared | Sending | Done

  datatype Actor = Actor(role: Role, generation: nat, place: Place)

  /** `ready` is the channel current waiters were given, `signalled` the closed
      ones; `log` names the generation of every transport write. */
  datatype Fence = Fence(
    actors: map<nat, Actor>, holder: Option<nat>, ready: Option<nat>, signalled: set<nat>, channels: nat,
    current: nat, retired: set<nat>, closed: bool, log: seq<nat>)

  const OPEN: Fence := Fence(map[], None, None, {}, 0, 0, {}, false, [])

  datatype Step =
    | Spawn(a: nat, role: Role, generation: nat)
    | Begin(a: nat)
    | Attempt(a: nat)
    | Wake(a: nat)
    | GiveUp(a: nat)
    | Check(a: nat)
    | Emit(a: nat)
    | Unlock(a: nat)
    | CloseTransport

  /** writeError. */
  predicate MayWrite(st: Fence, generation: nat) {
    generation !in st.retired && st.current == generation && !st.closed
  }

  function Move(st: Fence, a: nat, place: Place): Fence
    requires a in st.actors
  {
    st.(actors := st.actors[a := st.actors[a].(place := place)])
  }

  /** writeGate.unlock: whoever was waiting is woken. */
  function Unlocked(st: Fence): Fence {
    st.(holder := None, ready := None, signalled := st.signalled + if st.ready.Some? then {st.ready.value} else {})
  }

  predicate Enabled(st: Fence, step: Step) {
    match step
    case Spawn(a, _, _) => a !in st.actors
    case CloseTransport => true
    case Begin(a) => a in st.actors && st.actors[a].place.Start?
    case Attempt(a) => a in st.actors && st.actors[a].place.Ready?
    case Wake(a) => a in st.actors && st.actors[a].place.Waiting? && st.actors[a].place.channel in st.signalled
    case GiveUp(a) => a in st.actors && (st.actors[a].place.Ready? || st.actors[a].place.Waiting?)
    case Check(a) =>
      && a in st.actors
      && if st.actors[a].role.Writing? then st.actors[a].place.Held? || st.actors[a].place.Cleared?
         else st.actors[a].place.Held?
    case Emit(a) => a in st.actors && st.actors[a].role.Writing? && st.actors[a].place.Sending?
    case Unlock(a) =>
      && a in st.actors
      && (st.actors[a].place.Held? || st.actors[a].place.Cleared? || st.actors[a].place.Sending?)
  }

  function Apply(st: Fence, step: Step): Fence
    requires Enabled(st, step)
  {
    match step
    case Spawn(a, role, generation) => st.(actors := st.actors[a := Actor(role, generation, Start)])
    case CloseTransport => st.(closed := true)
    case Begin(a) =>
      var g := st.actors[a].generation;
      if st.actors[a].role.Writing? then Move(st, a, if MayWrite(st, g) then Ready else Done)
      else if MayWrite(st, g) then Move(st, a, Ready).(retired := st.retired + {g})
      else Move(st, a, Done).(closed := true)
    case Attempt(a) =>
      if st.holder.None? then Move(st, a, Held).(holder := Some(a))
      else if st.ready.Some? then Move(st, a, Waiting(st.ready.value))
      else Move(st, a, Waiting(st.channels)).(ready := Some(st.channels), channels := st.channels + 1)
    case Wake(a) => Move(st, a, Ready)
    case GiveUp(a) => Move(st, a, Done).(closed := st.closed || st.actors[a].role.Renewing?)
    case Check(a) =>
      if st.actors[a].role.Writing? then
        if !MayWrite(st, st.actors[a].generation) then Unlocked(Move(st, a, Done))
        else Move(st, a, if st.actors[a].place.Held? then Cleared else Sending)
      else if st.closed then Unlocked(Move(st, a, Done))
      else Move(st, a, Cleared).(current := st.actors[a].generation + 1)
    case Emit(a) => st.(log := st.log + [st.actors[a].generation])
    case Unlock(a) => Unlocked(Move(st, a, Done)).(closed := st.closed || (st.actors[a].role.Renewing? && st.actors[a].place.Held?))
  }

  ghost predicate Run(st: Fence, run: seq<Step>, end: Fence)
    decreases run
  {
    if run == [] then st == end
    else Enabled(st, run[0]) && Run(Apply(st, run[0]), run[1..], end)
  }

  // ---- What every step keeps -----------------------------------------------------------

  predicate Holds(place: Place) {
    place.Held? || place.Cleared? || place.Sending?
  }

  /** The gate has one holder, and it is the goroutine past it. */
  ghost predicate Exclusive(st: Fence) {
    && (st.holder.Some? ==> st.holder.value in st.actors)
    && forall a :: a in st.actors ==> (Holds(st.actors[a].place) <==> st.holder == Some(a))
  }

  /** A waiter's channel is closed, or it is the one the holder will close. */
  ghost predicate Woken(st: Fence) {
    && (st.ready.Some? ==> st.holder.Some?)
    && forall a :: a in st.actors && st.actors[a].place.Waiting? ==>
         st.actors[a].place.channel in st.signalled
         || (st.holder.Some? && st.ready == Some(st.actors[a].place.channel))
  }

  /** A renewal that has latched retirement is the current generation's own, so
      the generation it installs is the next one. */
  ghost predicate Renewals(st: Fence) {
    forall a :: a in st.actors && st.actors[a].role.Renewing? && !st.actors[a].place.Start? && !st.actors[a].place.Done? ==>
      && st.actors[a].generation in st.retired
      && !st.actors[a].place.Sending?
      && st.current == st.actors[a].generation + (if st.actors[a].place.Cleared? then 1 else 0)
  }

  /** A writer cleared to write belongs to the current generation. */
  ghost predicate Fenced(st: Fence) {
    forall a :: a in st.actors && st.actors[a].role.Writing? && (st.actors[a].place.Cleared? || st.actors[a].place.Sending?) ==>
      st.actors[a].generation == st.current
  }

  /** At most one renewal is between latching retirement and installing. */
  ghost predicate OneRenewal(st: Fence) {
    forall a, b :: Underway(st, a) && Underway(st, b) ==> a == b
  }

  predicate Underway(st: Fence, a: nat) {
    && a in st.actors && st.actors[a].role.Renewing?
    && (st.actors[a].place.Ready? || st.actors[a].place.Waiting? || st.actors[a].place.Held?)
  }

  /** Writes are logged in generation order, none ahead of the current one. */
  ghost predicate Ordered(st: Fence) {
    && (forall i :: 0 <= i < |st.log| ==> st.log[i] <= st.current)
    && (forall i, j :: 0 <= i < j < |st.log| ==> st.log[i] <= st.log[j])
  }

  ghost predicate Inv(st: Fence) {
    Exclusive(st) && Woken(st) && Renewals(st) && OneRenewal(st) && Fenced(st) && Ordered(st)
  }

  lemma KeepsExclusive(st: Fence, step: Step)
    requires Exclusive(st) && Enabled(st, step)
    ensures Exclusive(Apply(st, step))
  {
  }

  lemma KeepsWoken(st: Fence, step: Step)
    requires Exclusive(st) && Woken(st) && Enabled(st, step)
    ensures Woken(Apply(st, step))
  {
  }

  lemma KeepsRenewals(st: Fence, step: Step)
    requires Exclusive(st) && Renewals(st) && OneRenewal(st) && Enabled(st, step)
    ensures Renewals(Apply(st, step))
  {
    if step.Check? && Underway(st, step.a) {
      forall b | b in st.actors && b != step.a
        ensures !Underway(st, b) && !Holds(st.actors[b].place)
      {
      }
      var next := Apply(st, step);
      forall b | b in next.actors && b != step.a
        ensures next.actors[b] == st.actors[b] && !Underway(st, b)
      {
      }
    }
  }

  lemma KeepsOneRenewal(st: Fence, step: Step)
    requires Renewals(st) && OneRenewal(st) && Enabled(st, step)
    ensures OneRenewal(Apply(st, step))
  {
    var next := Apply(st, step);
    forall a, b | Underway(next, a) && Underway(next, b)
      ensures a == b
    {
      assert (step.Begin? && a == step.a) || Underway(st, a);
      assert (step.Begin? && b == step.a) || Underway(st, b);
    }
  }

  lemma KeepsFenced(st: Fence, step: Step)
    requires Exclusive(st) && Fenced(st) && Enabled(st, step)
    ensures Fenced(Apply(st, step))
  {
  }

  lemma KeepsOrdered(st: Fence, step: Step)
    requires Renewals(st) && Fenced(st) && Ordered(st) && Enabled(st, step)
    ensures Ordered(Apply(st, step)) && st.current <= Apply(st, step).current
  {
  }

  lemma Keeps(st: Fence, step: Step)
    requires Inv(st) && Enabled(st, step)
    ensures Inv(Apply(st, step))
  {
    KeepsExclusive(st, step);
    KeepsWoken(st, step);
    KeepsRenewals(st, step);
    KeepsOneRenewal(st, step);
    KeepsFenced(st, step);
    KeepsOrdered(st, step);
  }

  // ---- Whole runs -------------------------------------------------------------------------

  lemma {:induction false} RunKeeps(st: Fence, run: seq<Step>, end: Fence)
    requires Inv(st) && Run(st, run, end)
    ensures Inv(end)
    decreases run
  {
    if run != [] {
      Keeps(st, run[0]);
      RunKeeps(Apply(st, run[0]), run[1..], end);
    }
  }

  /** In every run a transport write happens under the gate, alone, while the
      writer's generation is current; and a waiter is always due a wakeup. */
  lemma GenerationFence(run: seq<Step>, end: Fence)
    requires Run(OPEN, run, end)
    ensures forall a :: Enabled(end, Emit(a)) ==> end.actors[a].generation == end.current && end.holder == Some(a)
    ensures forall a, b :: a in end.actors && b in end.actors && Holds(end.actors[a].place) && Holds(end.actors[b].place) ==> a == b
    ensures forall a :: a in end.actors && end.actors[a].place.Waiting? ==>
              Enabled(end, Wake(a)) || (end.holder.Some? && end.ready == Some(end.actors[a].place.channel))
    ensures forall i, j :: 0 <= i < j < |end.log| ==> end.log[i] <= end.log[j]
  {
    RunKeeps(OPEN, run, end);
  }

  /** The wakeup is delivered: when the holder unlocks, every waiter can go on. */
  lemma UnlockWakes(st: Fence, a: nat, b: nat)
    requires Inv(st) && Enabled(st, Unlock(a)) && b in st.actors && st.actors[b].place.Waiting?
    ensures Enabled(Apply(st, Unlock(a)), Wake(b))
  {
  }

  /** Once a generation is installed, nothing is written for an older one. */
  lemma {:induction false} NoOldWrites(st: Fence, run: seq<Step>, end: Fence)
    requires Inv(st) && Run(st, run, end)
    ensures st.log <= end.log && st.current <= end.current
    ensures forall i :: |st.log| <= i < |end.log| ==> st.current <= end.log[i] <= end.current
    decreases run
  {
    if run != [] {
      var next := Apply(st, run[0]);
      Keeps(st, run[0]);
      KeepsOrdered(st, run[0]);
      NoOldWrites(next, run[1..], end);
      assert run[0].Emit? ==> next.log[|st.log|] == st.current;
    }
  }
}

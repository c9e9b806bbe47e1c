/** The accept loop, its withdrawal window and its drain, interleaved with the connection
    tasks and with time. The accept task acts in polls. Which branch a poll takes, and in which
    order it looks at what is ready, is the code's; when it is polled, and what is ready by then,
    is left to the environment. The clock is abstract; a deadline is only compared with it. */
module AcceptRuns {
  import opened Wrappers

  type Id = nat

  /** A connection task holds its registration and its permit, and on the way out drops
      first the one and then the other. */
  datatype Task = Live | Unregistered

  /** Where the accept task is: at the `select!` of an accept loop; backing off after a failed
      accept; with a connection, at the top of `connection_permit` or waiting in its `select!`;
      with a connection and a permit; and in the drain. */
  datatype Phase =
    | Accepting
    | BackingOff(until: nat)
    | Seeking(waiting: bool)
    | Holding
    | Draining
    | Aborting
    | Stopped
    | Failed

  /** `shutdown` is the outcome of the shutdown future once it is ready, `signalled` when it was
      seen. `accepted` counts the connections taken, `next` those spawned. */
  datatype State = State(
    phase: Phase, free: nat, tasks: map<Id, Task>, registry: set<Id>, next: Id, now: nat,
    shutdown: Option<bool>, signalled: Option<nat>, accepted: nat, idleChanged: bool, budgetsClosed: bool)

  datatype Config = Config(cap: nat, grace: nat, withdrawal: nat, backoff: nat)

  /** What the listener has when it is asked. */
  datatype Offer = Nobody | Connection | Broken

  /** The environment's steps, then the accept task's. `stopFirst` is the branch an unbiased
      `select!` happens to try first. */
  datatype Step =
    | Tick
    | Shutdown(ok: bool)
    | IdleChanged
    | Unregister(id: Id)
    | Release(id: Id)
    | PollAccept(offer: Offer, stopFirst: bool)
    | PollBackoff(stopFirst: bool)
    | PollPermit
    | Spawn
    | PollDrain
    | PollAbort

  function Start(c: Config): State {
    State(Accepting, c.cap, map[], {}, 0, 0, None, None, 0, false, false)
  }

  function Deadline(c: Config, s: State): nat
    requires s.signalled.Some?
  {
    s.signalled.value + c.grace
  }

  /** `started + min(withdrawal, grace)`. */
  function WithdrawalEnd(c: Config, s: State): nat
    requires s.signalled.Some?
  {
    s.signalled.value + if c.withdrawal < c.grace then c.withdrawal else c.grace
  }

  /** The end of the withdrawal is due. */
  predicate Past(c: Config, s: State) {
    s.signalled.Some? && s.now >= WithdrawalEnd(c, s)
  }

  /** `stop`: the shutdown future in the first accept loop, the withdrawal end in the second. */
  predicate StopReady(c: Config, s: State) {
    if s.signalled.None? then s.shutdown.Some? else Past(c, s)
  }

  /** The loop is left, and with it a connection in hand. */
  function Stop(c: Config, s: State): State
    requires StopReady(c, s)
  {
    if s.signalled.Some? then s.(phase := Draining)
    else if !s.shutdown.value then s.(phase := Failed)
    else s.(phase := if c.withdrawal == 0 then Draining else Accepting, signalled := Some(s.now))
  }

  function TakePermit(s: State): State
    requires s.free > 0
  {
    s.(phase := Holding, free := s.free - 1)
  }

  predicate Enabled(s: State, step: Step) {
    match step
    case Tick => true
    case Shutdown(ok) => s.shutdown.None?
    case IdleChanged => true
    case Unregister(id) => id in s.tasks && s.tasks[id].Live?
    case Release(id) => id in s.tasks && s.tasks[id].Unregistered?
    case PollAccept(offer, stopFirst) => s.phase.Accepting?
    case PollBackoff(stopFirst) => s.phase.BackingOff?
    case PollPermit => s.phase.Seeking?
    case Spawn => s.phase.Holding?
    case PollDrain => s.phase.Draining? && s.signalled.Some?
    case PollAbort => s.phase.Aborting?
  }

  function Apply(c: Config, s: State, step: Step): State
    requires Enabled(s, step)
  {
    match step
    case Tick => s.(now := s.now + 1)
    case Shutdown(ok) => s.(shutdown := Some(ok))
    case IdleChanged => s.(idleChanged := true)
    case Unregister(id) => s.(tasks := s.tasks[id := Unregistered], registry := s.registry - {id})
    case Release(id) => s.(tasks := s.tasks - {id}, free := s.free + 1)
    // The first `select!` tries its branches in any order; the second tries the end first.
    case PollAccept(offer, stopFirst) =>
      if StopReady(c, s) && (s.signalled.Some? || stopFirst || offer.Nobody?) then Stop(c, s)
      else (match offer
            case Nobody => s
            case Connection => s.(phase := Seeking(false), accepted := s.accepted + 1)
            case Broken => s.(phase := BackingOff(s.now + c.backoff)))
    case PollBackoff(stopFirst) =>
      if StopReady(c, s) && (stopFirst || s.now < s.phase.until) then Stop(c, s)
      else if s.now >= s.phase.until then s.(phase := Accepting)
      else s
    // A free permit is tried before anything else; only the wait for one, which begins by evicting
    // idle connections, looks at `stop` first.
    case PollPermit =>
      if !s.phase.waiting then (if s.free > 0 then TakePermit(s) else s.(phase := Seeking(true)))
      else if StopReady(c, s) then Stop(c, s)
      else if s.free > 0 then TakePermit(s)
      else if s.idleChanged then s.(phase := Seeking(false), idleChanged := false)
      else s
    case Spawn =>
      s.(phase := Accepting, tasks := s.tasks[s.next := Live], registry := s.registry + {s.next}, next := s.next + 1)
    // `timeout_at` asks the drain first and the clock after it.
    case PollDrain =>
      if s.tasks == map[] then s.(phase := Stopped)
      else if s.now >= Deadline(c, s) then s.(phase := Aborting, budgetsClosed := true)
      else s
    case PollAbort => if s.tasks == map[] then s.(phase := Stopped) else s
  }

  /** Which step is attempted at each moment. */
  type Schedule = nat -> Step

  /** An attempt that is not enabled does nothing, so every schedule is a run and every run is
      given by a schedule. */
  function Next(c: Config, s: State, step: Step): State {
    if Enabled(s, step) then Apply(c, s, step) else s
  }

  function At(c: Config, schedule: Schedule, n: nat): State {
    if n == 0 then Start(c) else Next(c, At(c, schedule, n - 1), schedule(n - 1))
  }

  // ----- what every run keeps -----

  function InHand(s: State): nat {
    if s.phase.Holding? then 1 else 0
  }

  /** Free permits, tasks holding one, and the one in hand make up the cap. */
  ghost predicate Conserved(c: Config, s: State) {
    s.free + |s.tasks| + InHand(s) == c.cap
  }

  ghost predicate RegistryExact(s: State) {
    && (forall id :: id in s.registry <==> id in s.tasks && s.tasks[id].Live?)
    && (forall id :: id in s.tasks ==> id < s.next)
  }

  predicate Ending(s: State) {
    s.phase.Draining? || s.phase.Aborting? || s.phase.Stopped? || s.phase.Failed?
  }

  ghost predicate Timely(c: Config, s: State) {
    && (s.signalled.Some? ==> s.signalled.value <= s.now && s.shutdown == Some(true))
    && (s.phase.Draining? || s.phase.Aborting? || s.phase.Stopped? ==> s.signalled.Some?)
    && (s.phase.Failed? ==> s.signalled.None? && s.shutdown == Some(false))
    && (s.budgetsClosed ==> s.signalled.Some? && s.now >= Deadline(c, s) && (s.phase.Aborting? || s.phase.Stopped?))
    && (s.phase.Aborting? ==> s.budgetsClosed)
    && (s.phase.Stopped? ==> s.tasks == map[])
  }

  ghost predicate Inv(c: Config, s: State) {
    Conserved(c, s) && RegistryExact(s) && Timely(c, s)
  }

  lemma SpawnStep(c: Config, s: State)
    requires RegistryExact(s) && Enabled(s, Spawn)
    ensures var t := Apply(c, s, Spawn);
            |t.tasks| == |s.tasks| + 1 && t.free == s.free && InHand(s) == 1 && InHand(t) == 0
  {
    assert s.next !in s.tasks;
    assert s.tasks[s.next := Live].Keys == s.tasks.Keys + {s.next};
  }

  lemma ReleaseStep(c: Config, s: State, id: Id)
    requires Enabled(s, Release(id))
    ensures var t := Apply(c, s, Release(id)); |t.tasks| == |s.tasks| - 1 && t.free == s.free + 1 && t.phase == s.phase
  {
    assert (s.tasks - {id}).Keys == s.tasks.Keys - {id};
  }

  lemma UnregisterStep(c: Config, s: State, id: Id)
    requires Enabled(s, Unregister(id))
    ensures var t := Apply(c, s, Unregister(id)); |t.tasks| == |s.tasks| && t.free == s.free && t.phase == s.phase
  {
    assert s.tasks[id := Unregistered].Keys == s.tasks.Keys;
  }

  lemma PermitStep(c: Config, s: State, step: Step)
    requires Enabled(s, step) && !step.Spawn? && !step.Unregister? && !step.Release?
    ensures var t := Apply(c, s, step); t.tasks == s.tasks && t.free + InHand(t) == s.free + InHand(s)
  {
  }

  lemma ConservedKept(c: Config, s: State, step: Step)
    requires Conserved(c, s) && RegistryExact(s) && Enabled(s, step)
    ensures Conserved(c, Apply(c, s, step))
  {
    hide Apply, Enabled, RegistryExact;
    match step
    case Spawn => SpawnStep(c, s);
    case Unregister(id) => UnregisterStep(c, s, id);
    case Release(id) => ReleaseStep(c, s, id);
    case _ => PermitStep(c, s, step);
  }

  lemma StepKeepsInv(c: Config, s: State, step: Step)
    requires Inv(c, s) && Enabled(s, step)
    ensures Inv(c, Apply(c, s, step))
  {
    ConservedKept(c, s, step);
    RegistryKept(c, s, step);
    TimelyKept(c, s, step);
    hide Conserved, RegistryExact, Timely, Enabled, Apply;
  }

  lemma RegistryKept(c: Config, s: State, step: Step)
    requires RegistryExact(s) && Enabled(s, step)
    ensures RegistryExact(Apply(c, s, step))
  {
    hide Deadline, WithdrawalEnd;
  }

  lemma TimelyKept(c: Config, s: State, step: Step)
    requires Timely(c, s) && Enabled(s, step)
    ensures Timely(c, Apply(c, s, step))
  {
  }

  lemma {:induction false} RunKeepsInv(c: Config, schedule: Schedule, n: nat)
    ensures Inv(c, At(c, schedule, n))
  {
    if n > 0 {
      RunKeepsInv(c, schedule, n - 1);
      hide Conserved, RegistryExact, Timely, Enabled, Apply;
      if Enabled(At(c, schedule, n - 1), schedule(n - 1)) {
        StepKeepsInv(c, At(c, schedule, n - 1), schedule(n - 1));
      }
    }
  }

  /** Permits are conserved in every state of every run, and never exceed the cap. */
  lemma PermitsConserved(c: Config, schedule: Schedule, n: nat, s: State)
    requires s == At(c, schedule, n)
    ensures s.free + |s.tasks| + InHand(s) == c.cap
    ensures s.registry <= s.tasks.Keys && |s.registry| <= c.cap
  {
    RunKeepsInv(c, schedule, n);
    hide Timely, At;
    assert s.tasks.Keys == s.registry + (s.tasks.Keys - s.registry);
  }

  /** On normal return nothing is outstanding: no connection, no registry entry, no permit. */
  lemma StoppedClean(c: Config, schedule: Schedule, n: nat, s: State)
    requires s == At(c, schedule, n) && s.phase.Stopped?
    ensures s.tasks == map[] && s.registry == {} && s.free == c.cap
  {
    RunKeepsInv(c, schedule, n);
    hide At;
    assert |s.tasks| == 0;
  }

  // ----- when accepting ends -----

  lemma EndingStays(c: Config, s: State, t: State, step: Step)
    requires t == Next(c, s, step) && Ending(s)
    ensures Ending(t) && t.accepted == s.accepted && t.next == s.next && t.registry <= s.registry
  {
  }

  /** Once an accept loop has been left for good, nothing is accepted or spawned again. */
  lemma {:induction false} NothingAcceptedAfterEnd(c: Config, schedule: Schedule, n: nat, m: nat)
    requires n <= m && Ending(At(c, schedule, n))
    ensures var s, t := At(c, schedule, n), At(c, schedule, m);
            Ending(t) && t.accepted == s.accepted && t.next == s.next && t.registry <= s.registry
  {
    hide Next, Ending;
    if n < m {
      NothingAcceptedAfterEnd(c, schedule, n, m - 1);
      EndingStays(c, At(c, schedule, m - 1), At(c, schedule, m), schedule(m - 1));
    }
  }

  /** Connections taken from the listener and not yet spawned. */
  function InFlight(s: State): nat {
    if s.phase.Seeking? || s.phase.Holding? then 1 else 0
  }

  lemma PastStep(c: Config, s: State, t: State, step: Step)
    requires t == Next(c, s, step) && Past(c, s)
    ensures Past(c, t) && t.accepted == s.accepted
    ensures s.next <= t.next && t.next + InFlight(t) <= s.next + InFlight(s)
  {
  }

  /** However busy the listener, nothing is accepted once the withdrawal end is due; and of the
      connections accepted before it, at most the one in flight is still spawned. */
  lemma {:induction false} AcceptsStopInTime(c: Config, schedule: Schedule, n: nat, m: nat)
    requires n <= m && Past(c, At(c, schedule, n))
    ensures var s, t := At(c, schedule, n), At(c, schedule, m);
            && Past(c, t) && t.accepted == s.accepted
            && s.next <= t.next && t.next + InFlight(t) <= s.next + InFlight(s) && t.next <= s.next + 1
  {
    hide Next, Past;
    if n < m {
      AcceptsStopInTime(c, schedule, n, m - 1);
      PastStep(c, At(c, schedule, m - 1), At(c, schedule, m), schedule(m - 1));
    }
  }

  /** The poll in which the shutdown is seen. */
  ghost predicate SeesShutdown(c: Config, schedule: Schedule, k: nat) {
    At(c, schedule, k).signalled.None? && At(c, schedule, k + 1).signalled.Some?
  }

  lemma SeenStep(c: Config, s: State, t: State, step: Step)
    requires t == Next(c, s, step) && s.signalled.None? && t.signalled.Some?
    ensures t.signalled == Some(s.now) && t.now == s.now && s.shutdown == Some(true)
    ensures step.PollAccept? || step.PollBackoff? || step.PollPermit?
  {
  }

  /** The moment both deadlines are measured from: the clock when the shutdown was seen. The
      withdrawal ends its own length after that or with the grace, whichever comes first. */
  lemma {:induction false} DeadlinesAreFromShutdown(c: Config, schedule: Schedule, k: nat, n: nat)
    requires SeesShutdown(c, schedule, k) && k < n
    ensures var s, seen := At(c, schedule, n), At(c, schedule, k).now;
            && s.signalled == Some(seen) && seen <= s.now
            && Deadline(c, s) == seen + c.grace
            && WithdrawalEnd(c, s) <= Deadline(c, s) && WithdrawalEnd(c, s) <= seen + c.withdrawal
            && (WithdrawalEnd(c, s) == Deadline(c, s) || WithdrawalEnd(c, s) == seen + c.withdrawal)
  {
    hide Next;
    if k + 1 < n {
      DeadlinesAreFromShutdown(c, schedule, k, n - 1);
      ClockRuns(c, At(c, schedule, n - 1), At(c, schedule, n), schedule(n - 1));
    } else {
      SeenStep(c, At(c, schedule, k), At(c, schedule, n), schedule(k));
    }
  }

  /** And there is one such poll whenever the shutdown has been seen. */
  lemma {:induction false} ShutdownWasSeen(c: Config, schedule: Schedule, n: nat) returns (k: nat)
    requires At(c, schedule, n).signalled.Some?
    ensures k < n && SeesShutdown(c, schedule, k)
    ensures schedule(k).PollAccept? || schedule(k).PollBackoff? || schedule(k).PollPermit?
    ensures At(c, schedule, k).shutdown == Some(true)
  {
    NotSeenAtStart(c, schedule);
    hide Next;
    if At(c, schedule, n - 1).signalled.None? {
      k := n - 1;
      SeenStep(c, At(c, schedule, k), At(c, schedule, n), schedule(k));
    } else {
      k := ShutdownWasSeen(c, schedule, n - 1);
    }
  }

  lemma NotSeenAtStart(c: Config, schedule: Schedule)
    ensures At(c, schedule, 0).signalled.None?
  {
  }

  // ----- backing off, and waiting for a permit -----

  /** What can be the case once an accept has failed in `s`: the back-off is still on, its time
      is up, or the loop has been left. */
  ghost predicate BacksOff(c: Config, s: State, t: State) {
    || (t.phase == BackingOff(s.now + c.backoff) && t.accepted == s.accepted)
    || t.now >= s.now + c.backoff || (s.signalled.None? && t.signalled.Some?) || Ending(t)
  }

  lemma BackoffStep(c: Config, s: State, t: State, u: State, step: Step)
    requires u == Next(c, t, step) && BacksOff(c, s, t) && (s.signalled.Some? ==> t.signalled == s.signalled)
    ensures BacksOff(c, s, u) && (s.signalled.Some? ==> u.signalled == s.signalled)
  {
    ClockRuns(c, t, u, step);
    if Ending(t) {
      EndingStays(c, t, u, step);
    } else if t.phase != BackingOff(s.now + c.backoff) {
      hide Next;
    }
  }

  lemma ClockRuns(c: Config, s: State, t: State, step: Step)
    requires t == Next(c, s, step)
    ensures s.now <= t.now && (s.signalled.Some? ==> t.signalled == s.signalled)
  {
  }

  /** Nothing is accepted for the back-off after an accept that failed, unless that loop is left. */
  lemma {:induction false} BackoffHolds(c: Config, schedule: Schedule, k: nat, n: nat)
    requires k < n && schedule(k).PollAccept? && schedule(k).offer.Broken?
    requires At(c, schedule, k).phase.Accepting? && !StopReady(c, At(c, schedule, k))
    ensures BacksOff(c, At(c, schedule, k), At(c, schedule, n))
    ensures At(c, schedule, k).signalled.Some? ==> At(c, schedule, n).signalled == At(c, schedule, k).signalled
  {
    if k + 1 < n {
      BackoffHolds(c, schedule, k, n - 1);
      BackoffStep(c, At(c, schedule, k), At(c, schedule, n - 1), At(c, schedule, n), schedule(n - 1));
    }
    hide BacksOff;
  }

  /** A poll after the back-off goes back to accepting, and one before it only looks at `stop`. */
  lemma BackoffEnds(c: Config, s: State, t: State, stopFirst: bool)
    requires s.phase.BackingOff? && t == Next(c, s, PollBackoff(stopFirst))
    ensures !StopReady(c, s) ==> (t.phase.Accepting? <==> s.now >= s.phase.until)
    ensures s.now < s.phase.until ==> t == if StopReady(c, s) then Stop(c, s) else s
    ensures s.now >= s.phase.until && StopReady(c, s) ==> t == if stopFirst then Stop(c, s) else s.(phase := Accepting)
  {
  }

  /** What a poll for a permit comes to: a permit, waiting for one, or another try from the top
      once an idle connection was reported. */
  lemma PermitPolls(c: Config, s: State, t: State)
    requires s.phase.Seeking? && t == Next(c, s, PollPermit)
    ensures t.phase.Holding? <==> s.free > 0 && (s.phase.waiting ==> !StopReady(c, s))
    ensures t.phase == Seeking(true) <==>
              s.free == 0 && (s.phase.waiting ==> !StopReady(c, s) && !s.idleChanged)
    ensures t.phase == Seeking(false) <==> s.free == 0 && s.phase.waiting && !StopReady(c, s) && s.idleChanged
    ensures t.idleChanged <==> s.idleChanged && t.phase != Seeking(false)
  {
  }

  /** A report of an idle connection is kept until a waiting connection takes it up. */
  lemma IdleReports(c: Config, s: State, t: State, step: Step)
    requires t == Next(c, s, step)
    ensures t.idleChanged <==>
            step.IdleChanged? || (s.idleChanged && !(step.PollPermit? && t.phase == Seeking(false)))
  {
  }

  // ----- does `stop` win ties? -----

  function Run(c: Config, s: State, steps: seq<Step>): State
    decreases |steps|
  {
    if steps == [] then s else Run(c, Next(c, s, steps[0]), steps[1..])
  }

  ghost predicate CanSpawn(c: Config, s: State) {
    exists steps :: Run(c, s, steps).next > s.next
  }

  /** The connection in flight can still get to a permit without looking at `stop`. */
  predicate AtTheTop(s: State) {
    s.phase.Holding? || (s.phase.Seeking? && !s.phase.waiting && (s.free > 0 || s.tasks != map[]))
  }

  lemma NotAtTheTopStep(c: Config, s: State, t: State, step: Step)
    requires t == Next(c, s, step) && Past(c, s) && !AtTheTop(s)
    ensures Past(c, t) && !AtTheTop(t) && t.next == s.next
  {
  }

  lemma {:induction false} NotAtTheTopRun(c: Config, s: State, steps: seq<Step>)
    requires Past(c, s) && !AtTheTop(s)
    ensures Run(c, s, steps).next == s.next
    decreases |steps|
  {
    hide Next, Past, AtTheTop;
    if steps != [] {
      NotAtTheTopStep(c, s, Next(c, s, steps[0]), steps[0]);
      NotAtTheTopRun(c, Next(c, s, steps[0]), steps[1..]);
    }
  }

  lemma RunStep(c: Config, s: State, step: Step, rest: seq<Step>)
    ensures Run(c, s, [step] + rest) == Run(c, Next(c, s, step), rest)
  {
    hide Next;
    assert ([step] + rest)[1..] == rest;
  }

  lemma HoldingSpawns(c: Config, s: State) returns (steps: seq<Step>)
    requires s.phase.Holding?
    ensures Run(c, s, steps).next == s.next + 1
  {
    steps := [Spawn] + [];
    RunStep(c, s, Spawn, []);
  }

  lemma FreePermitSpawns(c: Config, s: State) returns (steps: seq<Step>)
    requires s.phase == Seeking(false) && s.free > 0
    ensures Run(c, s, steps).next == s.next + 1
  {
    var rest := HoldingSpawns(c, TakePermit(s));
    steps := [PollPermit] + rest;
    RunStep(c, s, PollPermit, rest);
  }

  lemma ReleasedPermitSpawns(c: Config, s: State, id: Id) returns (steps: seq<Step>)
    requires s.phase == Seeking(false) && id in s.tasks && s.tasks[id].Unregistered?
    ensures Run(c, s, steps).next == s.next + 1
  {
    var rest := FreePermitSpawns(c, Apply(c, s, Release(id)));
    steps := [Release(id)] + rest;
    RunStep(c, s, Release(id), rest);
  }

  lemma TopSpawns(c: Config, s: State) returns (steps: seq<Step>)
    requires AtTheTop(s)
    ensures Run(c, s, steps).next == s.next + 1
  {
    if s.phase.Holding? {
      steps := HoldingSpawns(c, s);
    } else if s.free > 0 {
      steps := FreePermitSpawns(c, s);
    } else {
      assert s.tasks.Keys != {};
      var id :| id in s.tasks;
      if s.tasks[id].Live? {
        var rest := ReleasedPermitSpawns(c, Apply(c, s, Unregister(id)), id);
        steps := [Unregister(id)] + rest;
        RunStep(c, s, Unregister(id), rest);
      } else {
        steps := ReleasedPermitSpawns(c, s, id);
      }
    }
  }

  /** With the withdrawal end due, a connection can still be spawned if and only if one is in
      hand with its permit, or at the top of `connection_permit` with a permit that is free or
      can become free. One that waits for a permit is always dropped. */
  lemma SpawnsPastEnd(c: Config, s: State)
    requires Past(c, s)
    ensures CanSpawn(c, s) <==> AtTheTop(s)
  {
    if AtTheTop(s) {
      var steps := TopSpawns(c, s);
    } else {
      forall steps ensures Run(c, s, steps).next == s.next { NotAtTheTopRun(c, s, steps); }
    }
  }

  /** When a permit is free and `stop` is ready, `stop` wins if and only if the connection was
      already waiting; at the top the permit does. */
  lemma TieGoesToStop(c: Config, s: State)
    requires s.phase.Seeking? && s.free > 0 && StopReady(c, s)
    ensures Next(c, s, PollPermit) == Stop(c, s) <==> s.phase.waiting
    ensures Next(c, s, PollPermit) == TakePermit(s) <==> !s.phase.waiting
  {
  }

  // ----- how the drain ends -----

  /** A connection is still there and the grace deadline has come. */
  predicate LiveAtDeadline(c: Config, s: State) {
    s.phase.Draining? && s.signalled.Some? && s.tasks != map[] && s.now >= Deadline(c, s)
  }

  /** The drain is polled then, and finds it. */
  predicate FoundLate(c: Config, schedule: Schedule, i: nat) {
    LiveAtDeadline(c, At(c, schedule, i)) && schedule(i).PollDrain?
  }

  lemma ClosingStep(c: Config, s: State, t: State, step: Step)
    requires t == Next(c, s, step)
    ensures t.budgetsClosed <==> s.budgetsClosed || (LiveAtDeadline(c, s) && step.PollDrain?)
  {
  }

  ghost predicate SomeFoundLate(c: Config, schedule: Schedule, n: nat) {
    exists i :: 0 <= i < n && FoundLate(c, schedule, i)
  }

  lemma ClosingAt(c: Config, schedule: Schedule, n: nat)
    ensures At(c, schedule, n + 1).budgetsClosed <==> At(c, schedule, n).budgetsClosed || FoundLate(c, schedule, n)
  {
    hide Next, LiveAtDeadline;
    ClosingStep(c, At(c, schedule, n), At(c, schedule, n + 1), schedule(n));
  }

  lemma OpenAtStart(c: Config, schedule: Schedule)
    ensures !At(c, schedule, 0).budgetsClosed
  {
  }

  /** In every run the budgets are closed if and only if some poll of the drain, at or past the
      grace deadline, has found a connection left. */
  lemma {:induction false} ClosedIffFoundLate(c: Config, schedule: Schedule, n: nat)
    ensures At(c, schedule, n).budgetsClosed <==> SomeFoundLate(c, schedule, n)
  {
    OpenAtStart(c, schedule);
    hide At, FoundLate;
    if n > 0 {
      ClosedIffFoundLate(c, schedule, n - 1);
      ClosingAt(c, schedule, n - 1);
    }
  }

  /** A poll of the drain that ends it one way or the other. */
  predicate Decides(c: Config, s: State, step: Step) {
    step.PollDrain? && s.phase.Draining? && s.signalled.Some? && (s.tasks == map[] || s.now >= Deadline(c, s))
  }

  predicate Decided(s: State) {
    s.phase.Aborting? || s.phase.Stopped?
  }

  lemma DecidingStep(c: Config, s: State, t: State, step: Step)
    requires t == Next(c, s, step) && Timely(c, s)
    ensures Decided(t) <==> Decided(s) || Decides(c, s, step)
    ensures Decided(s) ==> t.budgetsClosed == s.budgetsClosed && !Decides(c, s, step)
    ensures Decides(c, s, step) ==> (t.budgetsClosed <==> s.tasks != map[])
  {
  }

  lemma DecidingAt(c: Config, schedule: Schedule, n: nat)
    ensures var s, t, step := At(c, schedule, n), At(c, schedule, n + 1), schedule(n);
            && (Decided(t) <==> Decided(s) || Decides(c, s, step))
            && (Decided(s) ==> t.budgetsClosed == s.budgetsClosed && !Decides(c, s, step))
            && (Decides(c, s, step) ==> (t.budgetsClosed <==> s.tasks != map[]))
  {
    RunKeepsInv(c, schedule, n);
    hide Next, Decides, Decided, Conserved, RegistryExact, Timely;
    DecidingStep(c, At(c, schedule, n), At(c, schedule, n + 1), schedule(n));
  }

  lemma UndecidedAtStart(c: Config, schedule: Schedule)
    ensures !Decided(At(c, schedule, 0))
  {
  }

  /** Exactly one poll decides the drain, and the budgets are closed if and only if it found a
      connection left. */
  lemma {:induction false} OnePollDecides(c: Config, schedule: Schedule, n: nat) returns (i: nat)
    requires Decided(At(c, schedule, n))
    ensures i < n && Decides(c, At(c, schedule, i), schedule(i))
    ensures forall j :: 0 <= j < n && Decides(c, At(c, schedule, j), schedule(j)) ==> j == i
    ensures At(c, schedule, n).budgetsClosed <==> At(c, schedule, i).tasks != map[]
  {
    UndecidedAtStart(c, schedule);
    hide At, Decides, Decided;
    DecidingAt(c, schedule, n - 1);
    if Decided(At(c, schedule, n - 1)) {
      i := OnePollDecides(c, schedule, n - 1);
    } else {
      i := n - 1;
      NoneDecided(c, schedule, n - 1);
    }
  }

  lemma {:induction false} NoneDecided(c: Config, schedule: Schedule, n: nat)
    requires !Decided(At(c, schedule, n))
    ensures forall j :: 0 <= j < n ==> !Decides(c, At(c, schedule, j), schedule(j))
  {
    hide At, Decides, Decided;
    if n > 0 {
      DecidingAt(c, schedule, n - 1);
      NoneDecided(c, schedule, n - 1);
    }
  }

  lemma WaitingStep(c: Config, s: State, t: State, step: Step)
    requires t == Next(c, s, step) && Due(c, s) && !step.PollDrain?
    ensures Due(c, t) && t.budgetsClosed == s.budgetsClosed
  {
  }

  /** The drain goes on past the grace deadline. */
  predicate Due(c: Config, s: State) {
    s.phase.Draining? && s.signalled.Some? && s.now >= Deadline(c, s)
  }

  lemma {:induction false} StaysDue(c: Config, schedule: Schedule, i: nat, n: nat)
    requires i <= n && Due(c, At(c, schedule, i)) && forall k :: i <= k < n ==> !schedule(k).PollDrain?
    ensures Due(c, At(c, schedule, n))
  {
    hide Next, Due;
    if i < n {
      StaysDue(c, schedule, i, n - 1);
      WaitingStep(c, At(c, schedule, n - 1), At(c, schedule, n), schedule(n - 1));
    }
  }

  lemma {:induction false} DecidedStays(c: Config, schedule: Schedule, i: nat, n: nat)
    requires i <= n && Decided(At(c, schedule, i))
    ensures Decided(At(c, schedule, n)) && At(c, schedule, n).budgetsClosed == At(c, schedule, i).budgetsClosed
  {
    hide At, Decided, Decides;
    if i < n {
      DecidedStays(c, schedule, i, n - 1);
      DecidingAt(c, schedule, n - 1);
    }
  }

  lemma DueDecides(c: Config, s: State, step: Step)
    requires Due(c, s) && step.PollDrain?
    ensures Decides(c, s, step)
  {
  }

  /** A connection left at the deadline does not by itself close the budgets: they are closed if
      and only if one is still left when the drain is next polled, whatever happens before. */
  lemma LateIsClosedIfPolled(c: Config, schedule: Schedule, i: nat, poll: nat, n: nat)
    requires LiveAtDeadline(c, At(c, schedule, i)) && i <= poll < n
    requires schedule(poll).PollDrain? && forall k :: i <= k < poll ==> !schedule(k).PollDrain?
    ensures At(c, schedule, n).budgetsClosed <==> At(c, schedule, poll).tasks != map[]
  {
    StaysDue(c, schedule, i, poll);
    hide At, Due, Decides, Decided, LiveAtDeadline;
    DueDecides(c, At(c, schedule, poll), schedule(poll));
    DecidingAt(c, schedule, poll);
    DecidedStays(c, schedule, poll + 1, n);
  }

  // ----- such runs exist -----

  predicate NobodyLeft(s: State) {
    s.tasks == map[]
  }

  lemma TieIsReached(c: Config, schedule: Schedule, n: nat)
    requires c == Config(1, 5, 1, 1) && At(c, schedule, n) == Start(c)
    requires schedule(n) == Shutdown(true) && schedule(n + 1) == PollAccept(Nobody, true)
    requires schedule(n + 2) == PollAccept(Connection, false) && schedule(n + 3) == Tick
    ensures At(c, schedule, n + 4) == State(Seeking(false), 1, map[], {}, 0, 1, Some(true), Some(0), 1, false, false)
  {
    var s := At(c, schedule, n);
    s := Next(c, s, schedule(n));
    assert At(c, schedule, n + 1) == s;
    s := Next(c, s, schedule(n + 1));
    assert At(c, schedule, n + 2) == s;
    assert s == State(Accepting, 1, map[], {}, 0, 0, Some(true), Some(0), 0, false, false);
    s := Next(c, s, schedule(n + 2));
    assert At(c, schedule, n + 3) == s;
    s := Next(c, s, schedule(n + 3));
    assert At(c, schedule, n + 4) == s;
  }

  lemma PermitIsTaken(c: Config, schedule: Schedule, n: nat)
    requires At(c, schedule, n).phase == Seeking(false) && At(c, schedule, n).free > 0
    requires schedule(n) == PollPermit && schedule(n + 1) == Spawn
    ensures At(c, schedule, n + 1).phase.Holding? && At(c, schedule, n + 2).next == At(c, schedule, n).next + 1
  {
    var s := At(c, schedule, n);
    s := Next(c, s, schedule(n));
    assert At(c, schedule, n + 1) == s;
    s := Next(c, s, schedule(n + 1));
    assert At(c, schedule, n + 2) == s;
  }

  lemma TieSchedule() returns (schedule: Schedule)
    ensures schedule(0) == Shutdown(true) && schedule(1) == PollAccept(Nobody, true)
            && schedule(2) == PollAccept(Connection, false)
    ensures schedule(3) == Tick && schedule(4) == PollPermit && schedule(5) == Spawn
  {
    schedule := Play([Shutdown(true), PollAccept(Nobody, true), PollAccept(Connection, false), Tick, PollPermit, Spawn],
                     Tick);
  }

  lemma TieIsLost(c: Config, schedule: Schedule, n: nat)
    requires c == Config(1, 5, 1, 1) && At(c, schedule, n) == Start(c)
    requires schedule(n) == Shutdown(true) && schedule(n + 1) == PollAccept(Nobody, true)
             && schedule(n + 2) == PollAccept(Connection, false)
    requires schedule(n + 3) == Tick && schedule(n + 4) == PollPermit && schedule(n + 5) == Spawn
    ensures var s := At(c, schedule, n + 4); StopReady(c, s) && Past(c, s) && s.free > 0
    ensures At(c, schedule, n + 5).phase.Holding? && At(c, schedule, n + 6).next == At(c, schedule, n + 4).next + 1
  {
    hide At, Next;
    TieIsReached(c, schedule, n);
    PermitIsTaken(c, schedule, n + 4);
  }

  /** `stop` does not win every tie: here the withdrawal end is due and a permit is free, the
      permit is taken, and a connection is spawned past the end. */
  lemma StopLosesATie() returns (c: Config, schedule: Schedule, n: nat)
    ensures var s := At(c, schedule, n); StopReady(c, s) && Past(c, s) && s.free > 0 && schedule(n).PollPermit?
    ensures At(c, schedule, n + 1).phase.Holding? && At(c, schedule, n + 2).next == At(c, schedule, n).next + 1
  {
    c := Config(1, 5, 1, 1);
    schedule := TieSchedule();
    var start: nat :| start == 0;
    assert At(c, schedule, start) == Start(c);
    n := start + 4;
    hide *;
    TieIsLost(c, schedule, start);
  }

  lemma ConnectionIsReached(c: Config, schedule: Schedule, n: nat)
    requires c == Config(1, 1, 0, 1) && At(c, schedule, n) == Start(c) && schedule(n) == PollAccept(Connection, false)
    ensures At(c, schedule, n + 1) == State(Seeking(false), 1, map[], {}, 0, 0, None, None, 1, false, false)
  {
  }

  lemma HoldingIsReached(c: Config, schedule: Schedule, n: nat)
    requires At(c, schedule, n) == State(Seeking(false), 1, map[], {}, 0, 0, None, None, 1, false, false)
    requires schedule(n) == PollPermit
    ensures At(c, schedule, n + 1) == State(Holding, 0, map[], {}, 0, 0, None, None, 1, false, false)
  {
  }

  lemma LiveIsReached(c: Config, schedule: Schedule, n: nat)
    requires At(c, schedule, n) == State(Holding, 0, map[], {}, 0, 0, None, None, 1, false, false)
    requires schedule(n) == Spawn
    ensures At(c, schedule, n + 1) == State(Accepting, 0, map[0 := Live], {0}, 1, 0, None, None, 1, false, false)
  {
  }

  lemma SpawnIsReached(c: Config, schedule: Schedule, n: nat)
    requires c == Config(1, 1, 0, 1) && At(c, schedule, n) == Start(c)
    requires schedule(n) == PollAccept(Connection, false) && schedule(n + 1) == PollPermit && schedule(n + 2) == Spawn
    ensures At(c, schedule, n + 3) == State(Accepting, 0, map[0 := Live], {0}, 1, 0, None, None, 1, false, false)
  {
    hide *;
    ConnectionIsReached(c, schedule, n);
    HoldingIsReached(c, schedule, n + 1);
    LiveIsReached(c, schedule, n + 2);
  }

  lemma DrainIsReached(c: Config, schedule: Schedule, n: nat)
    requires At(c, schedule, n) == State(Accepting, 0, map[0 := Live], {0}, 1, 0, None, None, 1, false, false)
    requires c == Config(1, 1, 0, 1)
    requires schedule(n) == Shutdown(true) && schedule(n + 1) == PollAccept(Nobody, true) && schedule(n + 2) == Tick
    ensures At(c, schedule, n + 3)
            == State(Draining, 0, map[0 := Live], {0}, 1, 1, Some(true), Some(0), 1, false, false)
  {
    var s := At(c, schedule, n);
    s := Next(c, s, schedule(n));
    assert At(c, schedule, n + 1) == s;
    s := Next(c, s, schedule(n + 1));
    assert At(c, schedule, n + 2) == s;
    assert s == State(Draining, 0, map[0 := Live], {0}, 1, 0, Some(true), Some(0), 1, false, false);
    s := Next(c, s, schedule(n + 2));
    assert At(c, schedule, n + 3) == s;
  }

  /** A connection is spawned, shutdown is seen, and the grace runs out over it. */
  lemma LateIsReached(c: Config, schedule: Schedule, n: nat)
    requires c == Config(1, 1, 0, 1) && At(c, schedule, n) == Start(c)
    requires schedule(n) == PollAccept(Connection, false) && schedule(n + 1) == PollPermit && schedule(n + 2) == Spawn
    requires schedule(n + 3) == Shutdown(true) && schedule(n + 4) == PollAccept(Nobody, true) && schedule(n + 5) == Tick
    ensures var s := At(c, schedule, n + 6);
            LiveAtDeadline(c, s) && s.tasks == map[0 := Live] && !s.budgetsClosed
  {
    hide At, Next;
    SpawnIsReached(c, schedule, n);
    DrainIsReached(c, schedule, n + 3);
    assert 0 in At(c, schedule, n + 6).tasks;
  }

  lemma TaskEnds(c: Config, schedule: Schedule, n: nat, id: Id)
    requires At(c, schedule, n).tasks == map[id := Live]
    requires schedule(n) == Unregister(id) && schedule(n + 1) == Release(id)
    ensures var s, t := At(c, schedule, n), At(c, schedule, n + 2);
            NobodyLeft(t) && t.phase == s.phase && t.signalled == s.signalled && t.budgetsClosed == s.budgetsClosed
  {
    var s := At(c, schedule, n);
    s := Next(c, s, schedule(n));
    assert At(c, schedule, n + 1) == s;
    s := Next(c, s, schedule(n + 1));
    assert At(c, schedule, n + 2) == s;
    assert s.tasks == map[];
  }

  lemma DrainReturns(c: Config, schedule: Schedule, n: nat)
    requires At(c, schedule, n).phase.Draining? && At(c, schedule, n).signalled.Some? && NobodyLeft(At(c, schedule, n))
    requires schedule(n) == PollDrain
    ensures At(c, schedule, n + 1).phase.Stopped?
            && At(c, schedule, n + 1).budgetsClosed == At(c, schedule, n).budgetsClosed
  {
  }

  lemma DrainAborts(c: Config, schedule: Schedule, n: nat)
    requires LiveAtDeadline(c, At(c, schedule, n)) && schedule(n) == PollDrain
    ensures At(c, schedule, n + 1) == At(c, schedule, n).(phase := Aborting, budgetsClosed := true)
  {
  }

  lemma AbortReturns(c: Config, schedule: Schedule, n: nat)
    requires At(c, schedule, n).phase.Aborting? && NobodyLeft(At(c, schedule, n)) && schedule(n) == PollAbort
    ensures At(c, schedule, n + 1).phase.Stopped?
            && At(c, schedule, n + 1).budgetsClosed == At(c, schedule, n).budgetsClosed
  {
  }

  lemma OpenSchedule() returns (schedule: Schedule)
    ensures schedule(0) == PollAccept(Connection, false) && schedule(1) == PollPermit && schedule(2) == Spawn
    ensures schedule(3) == Shutdown(true) && schedule(4) == PollAccept(Nobody, true) && schedule(5) == Tick
    ensures schedule(6) == Unregister(0) && schedule(7) == Release(0) && schedule(8) == PollDrain
  {
    schedule := Play([PollAccept(Connection, false), PollPermit, Spawn, Shutdown(true), PollAccept(Nobody, true), Tick,
                      Unregister(0), Release(0), PollDrain], Tick);
  }

  lemma CloseSchedule() returns (schedule: Schedule)
    ensures schedule(0) == PollAccept(Connection, false) && schedule(1) == PollPermit && schedule(2) == Spawn
    ensures schedule(3) == Shutdown(true) && schedule(4) == PollAccept(Nobody, true) && schedule(5) == Tick
    ensures schedule(6) == PollDrain && schedule(7) == Unregister(0) && schedule(8) == Release(0)
    ensures schedule(9) == PollAbort
  {
    schedule := Play([PollAccept(Connection, false), PollPermit, Spawn, Shutdown(true), PollAccept(Nobody, true), Tick,
                      PollDrain, Unregister(0), Release(0), PollAbort], Tick);
  }

  lemma OpenIsReached(c: Config, schedule: Schedule, n: nat)
    requires c == Config(1, 1, 0, 1) && At(c, schedule, n) == Start(c)
    requires schedule(n) == PollAccept(Connection, false) && schedule(n + 1) == PollPermit && schedule(n + 2) == Spawn
    requires schedule(n + 3) == Shutdown(true) && schedule(n + 4) == PollAccept(Nobody, true) && schedule(n + 5) == Tick
    requires schedule(n + 6) == Unregister(0) && schedule(n + 7) == Release(0) && schedule(n + 8) == PollDrain
    ensures LiveAtDeadline(c, At(c, schedule, n + 6))
    ensures At(c, schedule, n + 9).phase.Stopped? && !At(c, schedule, n + 9).budgetsClosed
  {
    hide At, Next, NobodyLeft;
    LateIsReached(c, schedule, n);
    TaskEnds(c, schedule, n + 6, 0);
    DrainReturns(c, schedule, n + 8);
  }

  lemma ClosedIsReached(c: Config, schedule: Schedule, n: nat)
    requires c == Config(1, 1, 0, 1) && At(c, schedule, n) == Start(c)
    requires schedule(n) == PollAccept(Connection, false) && schedule(n + 1) == PollPermit && schedule(n + 2) == Spawn
    requires schedule(n + 3) == Shutdown(true) && schedule(n + 4) == PollAccept(Nobody, true) && schedule(n + 5) == Tick
    requires schedule(n + 6) == PollDrain && schedule(n + 7) == Unregister(0) && schedule(n + 8) == Release(0)
    requires schedule(n + 9) == PollAbort
    ensures LiveAtDeadline(c, At(c, schedule, n + 6))
    ensures At(c, schedule, n + 10).phase.Stopped? && At(c, schedule, n + 10).budgetsClosed
  {
    hide At, Next, NobodyLeft;
    LateIsReached(c, schedule, n);
    DrainAborts(c, schedule, n + 6);
    TaskEnds(c, schedule, n + 7, 0);
    AbortReturns(c, schedule, n + 9);
  }

  /** A connection is left at the deadline and gone by the next poll: the budgets stay open. */
  lemma LateCanStayOpen() returns (c: Config, schedule: Schedule, i: nat, n: nat)
    ensures i < n && LiveAtDeadline(c, At(c, schedule, i))
    ensures At(c, schedule, n).phase.Stopped? && !At(c, schedule, n).budgetsClosed
  {
    c := Config(1, 1, 0, 1);
    schedule := OpenSchedule();
    var start: nat :| start == 0;
    assert At(c, schedule, start) == Start(c);
    i, n := start + 6, start + 9;
    hide *;
    OpenIsReached(c, schedule, start);
  }

  /** And polled in time it closes them, waits for the connection, and returns. */
  lemma LateCanClose() returns (c: Config, schedule: Schedule, i: nat, n: nat)
    ensures i < n && LiveAtDeadline(c, At(c, schedule, i))
    ensures At(c, schedule, n).phase.Stopped? && At(c, schedule, n).budgetsClosed
  {
    c := Config(1, 1, 0, 1);
    schedule := CloseSchedule();
    var start: nat :| start == 0;
    assert At(c, schedule, start) == Start(c);
    i, n := start + 6, start + 10;
    hide *;
    ClosedIsReached(c, schedule, start);
  }
}

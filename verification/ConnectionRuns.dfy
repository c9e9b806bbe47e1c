/** One connection task interleaved, store by store, with the accept task that evicts idle
    connections. The connection task alone starts requests, produces and flushes responses;
    the evictor may swap the idle flag at any point in between.

    Assumed of the HTTP layer: a flush that reports ready has drained the output buffer, the
    head of a response is buffered before the next flush, and nothing but its end is taken
    from a body that has said it is complete. */
module ConnectionRuns {
  import opened Connections
  import opened Wrappers

  /** Where the connection task is: between calls, or part-way through one of them. */
  datatype Pc =
    | Ready
    | Starting(stored: nat)
    | Writing(stored: nat, declared: Option<nat>, ended: bool)
    | Flushing(stored: nat)
    | Closed

  /** What the connection is doing, as the peer sees it. */
  datatype Serving =
    | Nothing
    | Handling
    | Responding(remaining: Option<nat>, produced: bool, buffered: bool)

  datatype State = State(
    idle: bool, bodyComplete: bool, request: bool, writeDeadline: bool, closing: bool,
    pc: Pc, serving: Serving, evicting: bool)

  datatype Step =
    | Start
    | StoreInStart
    | Respond(declared: Option<nat>, ended: bool)
    | StoreInWriting
    | Poll(frame: Frame, ended: bool)
    | Flush
    | StoreInFlush
    | Fail
    | EvictSwap
    | EvictSend
    | DrainSend

  function Opened(): State {
    State(false, false, false, false, false, Ready, Nothing, false)
  }

  predicate Enabled(s: State, step: Step) {
    match step
    case Start => s.pc.Ready? && !s.serving.Handling?
    case StoreInStart => s.pc.Starting?
    case Respond(declared, ended) => s.pc.Ready? && s.serving.Handling?
    case StoreInWriting => s.pc.Writing?
    case Poll(frame, ended) => s.pc.Ready? && s.serving.Responding?
      && (s.serving.produced ==> frame.End? || frame.NotReady?)
    case Flush => s.pc.Ready?
    case StoreInFlush => s.pc.Flushing?
    case Fail => !s.pc.Closed?
    case EvictSwap => !s.evicting
    case EvictSend => s.evicting
    case DrainSend => true
  }

  function Apply(s: State, step: Step): State
    requires Enabled(s, step)
  {
    match step
    // `start`: idle, request, body_complete, write_deadline, one store at a time.
    case Start => s.(idle := false, serving := Handling, pc := Starting(1))
    case StoreInStart =>
      if s.pc.stored == 1 then s.(request := true, pc := Starting(2))
      else if s.pc.stored == 2 then s.(bodyComplete := false, pc := Starting(3))
      else s.(writeDeadline := false, pc := Ready)
    // `ResponseBody::new`: `writing`, then `body_complete` for an empty body.
    case Respond(declared, ended) => s.(request := false, pc := Writing(1, declared, ended))
    case StoreInWriting =>
      if s.pc.stored == 1 then s.(writeDeadline := true, pc := s.pc.(stored := 2))
      else
        var produced := s.pc.ended || s.pc.declared == Some(0);
        s.(bodyComplete := s.bodyComplete || produced,
           serving := Responding(s.pc.declared, produced, true), pc := Ready)
    case Poll(frame, ended) =>
      var remaining := Owed(s.serving.remaining, frame);
      var complete := frame.End? || ended || remaining == Some(0);
      s.(bodyComplete := s.bodyComplete || complete,
         serving := Responding(remaining, s.serving.produced || complete,
                               s.serving.buffered || frame.Data? || frame.Trailers?))
    // `poll_flush` reports ready, then `flushed`: swap, clear the deadline, set idle, notify.
    case Flush =>
      var drained := if s.serving.Responding? then s.serving.(buffered := false) else s.serving;
      s.(bodyComplete := false, serving := drained, pc := if s.bodyComplete then Flushing(1) else Ready)
    case StoreInFlush =>
      if s.pc.stored == 1 then s.(writeDeadline := false, pc := Flushing(2))
      else if s.pc.stored == 2 then s.(idle := true, pc := Flushing(3))
      else s.(pc := Ready)
    case Fail => s.(pc := Closed)
    case EvictSwap => s.(idle := false, evicting := s.idle)
    case EvictSend => s.(closing := true, evicting := false)
    case DrainSend => s.(closing := true)
  }

  /** Which step is attempted at each moment. */
  type Schedule = nat -> Step

  /** An attempt that is not enabled does nothing, so every schedule is an interleaving and every
      interleaving is given by a schedule. */
  function Next(s: State, step: Step): State {
    if Enabled(s, step) then Apply(s, step) else s
  }

  function At(schedule: Schedule, n: nat): State {
    if n == 0 then Opened() else Next(At(schedule, n - 1), schedule(n - 1))
  }

  /** Nothing in the handler, no write deadline, and the latest response produced and flushed. */
  predicate Quiet(s: State) {
    !s.request && !s.writeDeadline && s.serving.Responding? && s.serving.produced && !s.serving.buffered
  }

  ghost predicate Inv(s: State) {
    && (s.pc.Starting? ==> s.serving.Handling? && !s.idle && 1 <= s.pc.stored <= 3)
    && (s.pc.Starting? && s.pc.stored >= 2 ==> s.request)
    && (s.pc.Starting? && s.pc.stored >= 3 ==> !s.bodyComplete)
    && (s.pc.Writing? ==> s.serving.Handling? && !s.idle && !s.request && !s.bodyComplete && 1 <= s.pc.stored <= 2)
    && (s.pc.Writing? && s.pc.stored == 1 ==> !s.writeDeadline)
    && (s.pc.Flushing? ==> s.serving.Responding? && s.serving.produced && !s.serving.buffered && !s.request)
    && (s.pc.Flushing? && s.pc.stored >= 2 ==> !s.writeDeadline)
    && (s.pc.Ready? && s.serving.Handling? ==> s.request && !s.bodyComplete && !s.writeDeadline)
    && (s.pc.Ready? && s.serving.Responding? ==> !s.request)
    && (s.pc.Ready? && s.bodyComplete ==> s.serving.Responding? && s.serving.produced)
    && (s.pc.Ready? && s.serving.Nothing? ==> !s.bodyComplete && !s.idle)
    && (s.idle ==> Quiet(s))
  }

  lemma StepKeepsInv(s: State, step: Step)
    requires Inv(s) && Enabled(s, step)
    ensures Inv(Apply(s, step))
  {
  }

  lemma {:induction false} RunKeepsInv(schedule: Schedule, n: nat)
    ensures Inv(At(schedule, n))
  {
    if n > 0 {
      RunKeepsInv(schedule, n - 1);
      hide Inv, Enabled, Apply;
      if Enabled(At(schedule, n - 1), schedule(n - 1)) {
        StepKeepsInv(At(schedule, n - 1), schedule(n - 1));
      }
    }
  }

  /** In every interleaving a connection flagged idle has no request in its handler, no write
      deadline, and its latest response fully produced and flushed. */
  lemma IdleIsQuiet(schedule: Schedule, n: nat, s: State)
    requires s == At(schedule, n) && s.idle
    ensures Quiet(s) && !s.serving.Handling?
  {
    RunKeepsInv(schedule, n);
  }

  /** So the evictor never selects a connection in the middle of a request or a response. */
  lemma EvictionSparesResponses(schedule: Schedule, n: nat)
    requires !At(schedule, n).evicting && At(schedule, n + 1).evicting
    ensures Quiet(At(schedule, n))
  {
    hide Inv, Enabled, Apply, Quiet;
    EvictsIdle(At(schedule, n), schedule(n));
    IdleIsQuiet(schedule, n, At(schedule, n));
  }

  lemma EvictsIdle(s: State, step: Step)
    requires !s.evicting && Next(s, step).evicting
    ensures s.idle
  {
  }

  ghost predicate FlushBegins(schedule: Schedule, k: nat) {
    At(schedule, k).pc.Ready? && At(schedule, k + 1).pc.Flushing?
  }

  /** A request that has started keeps the flag down until its own response has been flushed,
      whatever the evictor does meanwhile. */
  lemma {:induction false} BusyUntilFlushed(schedule: Schedule, n: nat, m: nat)
    requires n <= m && At(schedule, n).serving.Handling?
    requires forall k :: n <= k < m ==> !FlushBegins(schedule, k)
    ensures !At(schedule, m).idle && !At(schedule, m).pc.Flushing?
  {
    hide Enabled, Apply;
    RunKeepsInv(schedule, n);
    if n < m {
      BusyUntilFlushed(schedule, n, m - 1);
      assert !FlushBegins(schedule, m - 1);
      StaysBusy(At(schedule, m - 1), schedule(m - 1));
    }
  }

  lemma StaysBusy(s: State, step: Step)
    requires !s.idle && !s.pc.Flushing?
    ensures !Next(s, step).idle
    ensures Next(s, step).pc.Flushing? ==> s.pc.Ready?
  {
  }

  lemma ServingKept(s: State, step: Step)
    requires !step.Start? && !step.StoreInWriting? && !step.Poll? && !step.Flush?
    ensures Next(s, step).serving == s.serving
  {
    hide Owed;
    match step
    case Start => case StoreInStart => case Respond(_, _) => case StoreInWriting => case Poll(_, _) =>
    case Flush => case StoreInFlush => case Fail => case EvictSwap => case EvictSend => case DrainSend =>
  }

  lemma BufferedStep(s: State, step: Step)
    requires s.serving.Responding? && s.serving.buffered && !step.Flush? && !step.Start?
    ensures Next(s, step).serving.Responding? && Next(s, step).serving.buffered
  {
    if step.StoreInWriting? || step.Poll? {
      hide Owed;
    } else {
      ServingKept(s, step);
      hide Next;
    }
  }

  lemma HeadStep(s: State, step: Step)
    requires s.serving.Handling? && Next(s, step).serving.Responding?
    ensures Next(s, step).serving.buffered
  {
    if step.StoreInWriting? || step.Poll? || step.Flush? || step.Start? {
      hide Owed;
    } else {
      ServingKept(s, step);
      hide Next;
    }
  }

  /** A response, even an empty one, is in the buffer from its head on, and until it is flushed
      the connection is not idle. */
  lemma {:induction false} BufferedUntilFlush(schedule: Schedule, k: nat, n: nat)
    requires k < n && At(schedule, k).serving.Handling? && At(schedule, k + 1).serving.Responding?
    requires forall j :: k < j < n ==> !schedule(j).Flush? && !schedule(j).Start?
    ensures At(schedule, n).serving.Responding? && At(schedule, n).serving.buffered && !At(schedule, n).idle
  {
    hide Next;
    if k + 1 < n {
      BufferedUntilFlush(schedule, k, n - 1);
      BufferedStep(At(schedule, n - 1), schedule(n - 1));
    } else {
      HeadStep(At(schedule, k), schedule(k));
    }
    RunKeepsInv(schedule, n);
  }

  lemma UntouchedStep(s: State, step: Step)
    requires s.serving.Nothing? && (s.pc.Ready? || s.pc.Closed?) && !step.Start?
    requires !s.idle && !s.bodyComplete && !s.request && !s.writeDeadline
    ensures var t := Next(s, step);
            && t.serving.Nothing? && (t.pc.Ready? || t.pc.Closed?)
            && !t.idle && !t.bodyComplete && !t.request && !t.writeDeadline
  {
    hide Owed;
  }

  /** Before its first request a connection is neither busy nor idle, whatever is flushed. */
  lemma {:induction false} UntouchedUntilStarted(schedule: Schedule, n: nat)
    requires forall k :: 0 <= k < n ==> !schedule(k).Start?
    ensures var s := At(schedule, n);
            && s.serving.Nothing? && (s.pc.Ready? || s.pc.Closed?)
            && !s.idle && !s.bodyComplete && !s.request && !s.writeDeadline
  {
    hide Next;
    if n > 0 {
      UntouchedUntilStarted(schedule, n - 1);
      UntouchedStep(At(schedule, n - 1), schedule(n - 1));
    }
  }

  // ----- what the evictor and the drain do -----

  /** A swap of the evictor that found the connection idle, and sent nothing yet. */
  ghost predicate Selected(schedule: Schedule, k: nat, n: nat) {
    && k < n && schedule(k).EvictSwap? && At(schedule, k).idle && !At(schedule, k).evicting
    && forall j :: k < j < n ==> !schedule(j).EvictSend?
  }

  lemma EvictingKept(s: State, step: Step)
    requires !step.EvictSwap? && !step.EvictSend?
    ensures Next(s, step).evicting == s.evicting
  {
    hide Owed;
    match step
    case Start => case StoreInStart => case Respond(_, _) => case StoreInWriting => case Poll(_, _) =>
    case Flush => case StoreInFlush => case Fail => case EvictSwap => case EvictSend => case DrainSend =>
  }

  lemma ClosingKept(s: State, step: Step)
    requires !step.DrainSend? && !step.EvictSend?
    ensures Next(s, step).closing == s.closing
  {
    hide Owed;
    match step
    case Start => case StoreInStart => case Respond(_, _) => case StoreInWriting => case Poll(_, _) =>
    case Flush => case StoreInFlush => case Fail => case EvictSwap => case EvictSend => case DrainSend =>
  }

  lemma SelectingStep(s: State, step: Step)
    ensures Next(s, step).evicting <==>
            if step.EvictSwap? then s.evicting || s.idle else s.evicting && !step.EvictSend?
  {
    if !step.EvictSwap? && !step.EvictSend? {
      EvictingKept(s, step);
      hide Next;
    }
  }

  lemma NothingAtFirst(schedule: Schedule)
    ensures !At(schedule, 0).evicting && !At(schedule, 0).closing
  {
  }

  /** The evictor is about to tell the connection to close exactly when it has found it idle and
      has not told it since. */
  lemma {:induction false} EvictingMeans(schedule: Schedule, n: nat)
    ensures At(schedule, n).evicting <==> exists k :: Selected(schedule, k, n)
  {
    NothingAtFirst(schedule);
    if n > 0 {
      EvictingMeans(schedule, n - 1);
      SelectingStep(At(schedule, n - 1), schedule(n - 1));
      assert At(schedule, n) == Next(At(schedule, n - 1), schedule(n - 1));
      hide At, Next;
      var m := n - 1;
      if k: nat :| Selected(schedule, k, m) { assert schedule(m).EvictSend? || Selected(schedule, k, n); }
      if k: nat :| Selected(schedule, k, n) { assert k == m || Selected(schedule, k, m); }
      if schedule(n - 1).EvictSwap? && At(schedule, n - 1).idle && !At(schedule, n - 1).evicting {
        assert Selected(schedule, n - 1, n);
      }
    }
  }

  /** The drain, or the evictor after it selected the connection, sends the signal. */
  ghost predicate Sent(schedule: Schedule, k: nat) {
    schedule(k).DrainSend? || (schedule(k).EvictSend? && At(schedule, k).evicting)
  }

  lemma SendingStep(s: State, step: Step)
    ensures Next(s, step).closing <==> s.closing || step.DrainSend? || (step.EvictSend? && s.evicting)
  {
    if !step.DrainSend? && !step.EvictSend? {
      ClosingKept(s, step);
      hide Next;
    }
  }

  /** A connection is told to close by the drain or by an eviction, and stays told. */
  lemma {:induction false} ClosingMeans(schedule: Schedule, n: nat)
    ensures At(schedule, n).closing <==> exists k :: 0 <= k < n && Sent(schedule, k)
  {
    NothingAtFirst(schedule);
    if n > 0 {
      ClosingMeans(schedule, n - 1);
      SendingStep(At(schedule, n - 1), schedule(n - 1));
      assert At(schedule, n) == Next(At(schedule, n - 1), schedule(n - 1));
      assert Sent(schedule, n - 1) <==>
             schedule(n - 1).DrainSend? || (schedule(n - 1).EvictSend? && At(schedule, n - 1).evicting);
    }
  }

  // ----- the stores against the methods of `ConnectionControl` -----

  function Shown(s: State): Flags {
    Flags(s.idle, s.closing, s.request, s.bodyComplete, s.writeDeadline)
  }

  /** Left alone, the stores of `start` add up to what the method does to the flags. */
  lemma StartStores(s: State)
    requires Enabled(s, Start)
    ensures Shown(Apply(Apply(Apply(Apply(s, Start), StoreInStart), StoreInStart), StoreInStart)) == Started(Shown(s))
  {
  }

  /** So do those of `ResponseBody::new`: `writing`, then `body_complete` for an empty body. */
  lemma WritingStores(s: State, declared: Option<nat>, ended: bool)
    requires Enabled(s, Respond(declared, ended))
    ensures Shown(Apply(Apply(Apply(s, Respond(declared, ended)), StoreInWriting), StoreInWriting)) ==
            if ended || declared == Some(0) then Completed(Written(Shown(s))) else Written(Shown(s))
  {
  }

  /** And those of `flushed`, which does nothing more when the body is not complete. */
  lemma FlushedStores(s: State)
    requires Enabled(s, Flush)
    ensures s.bodyComplete ==>
              Shown(Apply(Apply(Apply(Apply(s, Flush), StoreInFlush), StoreInFlush), StoreInFlush))
                == FlushedOut(Shown(s))
    ensures !s.bodyComplete ==> Shown(Apply(s, Flush)) == FlushedOut(Shown(s))
  {
  }

  // ----- such runs exist -----

  lemma RequestIsHandled(schedule: Schedule, n: nat)
    requires At(schedule, n) == Opened() && schedule(n) == Start
    requires schedule(n + 1) == schedule(n + 2) == schedule(n + 3) == StoreInStart
    ensures At(schedule, n + 4) == State(false, false, true, false, false, Ready, Handling, false)
  {
    var s := At(schedule, n);
    s := Next(s, schedule(n));
    assert At(schedule, n + 1) == s;
    s := Next(s, schedule(n + 1));
    assert At(schedule, n + 2) == s;
    s := Next(s, schedule(n + 2));
    assert At(schedule, n + 3) == s;
    s := Next(s, schedule(n + 3));
    assert At(schedule, n + 4) == s;
  }

  lemma ResponseIsProduced(schedule: Schedule, n: nat)
    requires At(schedule, n) == State(false, false, true, false, false, Ready, Handling, false)
    requires schedule(n) == Respond(Some(5), false) && schedule(n + 1) == schedule(n + 2) == StoreInWriting
    requires schedule(n + 3) == Poll(Data(5), false)
    ensures At(schedule, n + 4) == State(false, true, false, true, false, Ready, Responding(Some(0), true, true), false)
  {
    var s := At(schedule, n);
    s := Next(s, schedule(n));
    assert At(schedule, n + 1) == s;
    s := Next(s, schedule(n + 1));
    assert At(schedule, n + 2) == s;
    s := Next(s, schedule(n + 2));
    assert At(schedule, n + 3) == s;
    s := Next(s, schedule(n + 3));
    assert At(schedule, n + 4) == s;
  }

  lemma IdleIsEvicted(schedule: Schedule, n: nat)
    requires At(schedule, n) == State(false, true, false, true, false, Ready, Responding(Some(0), true, true), false)
    requires schedule(n) == Flush && schedule(n + 1) == schedule(n + 2) == StoreInFlush && schedule(n + 3) == EvictSwap
    ensures At(schedule, n + 3).idle && !At(schedule, n + 3).evicting && At(schedule, n + 4).evicting
  {
    var s := At(schedule, n);
    s := Next(s, schedule(n));
    assert At(schedule, n + 1) == s;
    s := Next(s, schedule(n + 1));
    assert At(schedule, n + 2) == s;
    s := Next(s, schedule(n + 2));
    assert At(schedule, n + 3) == s;
    s := Next(s, schedule(n + 3));
    assert At(schedule, n + 4) == s;
  }

  lemma ServingSchedule() returns (schedule: Schedule)
    ensures schedule(0) == Start && schedule(1) == schedule(2) == schedule(3) == StoreInStart
    ensures schedule(4) == Respond(Some(5), false) && schedule(5) == schedule(6) == StoreInWriting
    ensures schedule(7) == Poll(Data(5), false)
    ensures schedule(8) == Flush && schedule(9) == schedule(10) == StoreInFlush && schedule(11) == EvictSwap
  {
    schedule := Play([Start, StoreInStart, StoreInStart, StoreInStart, Respond(Some(5), false), StoreInWriting,
                      StoreInWriting, Poll(Data(5), false), Flush, StoreInFlush, StoreInFlush, EvictSwap], Fail);
  }

  /** A request is served and flushed, the connection turns idle and is evicted. */
  lemma IdleIsReached() returns (schedule: Schedule, n: nat)
    ensures At(schedule, n).idle && !At(schedule, n).evicting && At(schedule, n + 1).evicting
  {
    schedule := ServingSchedule();
    var start: nat :| start == 0;
    assert At(schedule, start) == Opened();
    n := start + 11;
    hide *;
    RequestIsHandled(schedule, start);
    ResponseIsProduced(schedule, start + 4);
    IdleIsEvicted(schedule, start + 8);
  }
}

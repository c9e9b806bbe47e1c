/** Every interleaving of `sign_wallet`, its effects, the store and the drop guard: effects
    run side by side and may outlive the wallet, even before they are registered; a store call
    may fail before or after it commits, and the future may be dropped at any await. */
module AuditRuns {
  import opened Audit
  import opened Wrappers

  type EffectId = nat

  /** Where one effect stands. `Writing` is a record call in flight. */
  datatype Effect =
    | Beginning
    | BegunUnseen(id: int)
    | Registered(id: int)
    | Writing(id: int, kind: Kind, hash: Option<string>, committed: bool)

  datatype Exit = Returned(outcome: Outcome) | Cancelled

  /** What the signing future returned, and the attempts registered by then. */
  datatype Answer = Answer(result: Outcome, ids: seq<int>)

  /** While recording, `ids` are those attempts and `at` counts those already marked. */
  datatype Phase =
    | Running
    | Recording(result: Outcome, ids: seq<int>, at: nat, committed: bool)
    | Done(exit: Exit, dropped: seq<Attempt>, handed: seq<int>)

  /** `begun` and `log` are durable; `ran` remembers for which attempts the external effect was
      run. */
  datatype State = State(attempts: seq<Attempt>, effects: map<EffectId, Effect>, phase: Phase,
                         begun: set<int>, log: seq<Evidence>, ran: set<int>, answered: Option<Answer>)

  datatype Step =
    | StartBegin(e: EffectId)
    | CommitBegin(e: EffectId, id: int)
    | Register(e: EffectId)
    | DropBegin(e: EffectId)
    | RunEffect(e: EffectId)
    | StartRecord(e: EffectId, kind: Kind, hash: Option<string>)
    | CommitRecord(e: EffectId)
    | FinishRecord(e: EffectId)
    | FailRecord(e: EffectId)
    | FutureReturns(result: Outcome)
    | CommitOutcome
    | MarkOutcome
    | FailOutcome
    | Return
    | Cancel
    | GuardRecords(k: nat)

  function Start(): State {
    State([], map[], Running, {}, [], {}, None)
  }

  /** The guard runs on every way out: it takes over what is open at that moment. */
  function Leave(s: State, exit: Exit): State {
    s.(phase := Done(exit, s.attempts, OpenIds(s.attempts)))
  }

  predicate Enabled(s: State, step: Step) {
    match step
    case StartBegin(e) => s.phase.Running? && e !in s.effects
    case CommitBegin(e, id) => e in s.effects && s.effects[e].Beginning? && id !in s.begun
    case Register(e) => e in s.effects && s.effects[e].BegunUnseen?
    case DropBegin(e) => e in s.effects && (s.effects[e].Beginning? || s.effects[e].BegunUnseen?)
    case RunEffect(e) => e in s.effects && (s.effects[e].Registered? || s.effects[e].Writing?)
    case StartRecord(e, kind, hash) => e in s.effects && s.effects[e].Registered?
      && (kind.ExternalReturned? || (kind.OutcomeUnknown? && hash.None?))
    case CommitRecord(e) => e in s.effects && s.effects[e].Writing? && !s.effects[e].committed
    case FinishRecord(e) => e in s.effects && s.effects[e].Writing? && s.effects[e].committed
    case FailRecord(e) => e in s.effects && s.effects[e].Writing?
    case FutureReturns(result) => s.phase.Running?
    case CommitOutcome => s.phase.Recording? && s.phase.at < |s.phase.ids| && !s.phase.committed
    case MarkOutcome => s.phase.Recording? && s.phase.at < |s.phase.ids| && s.phase.committed
    case FailOutcome => s.phase.Recording? && s.phase.at < |s.phase.ids|
    case Return => s.phase.Recording? && s.phase.at == |s.phase.ids|
    case Cancel => !s.phase.Done?
    case GuardRecords(k) => s.phase.Done? && k < |s.phase.handed|
  }

  function Apply(fp: string -> string, s: State, step: Step): State
    requires Enabled(s, step)
  {
    match step
    case StartBegin(e) => s.(effects := s.effects[e := Beginning])
    case CommitBegin(e, id) => s.(begun := s.begun + {id}, effects := s.effects[e := BegunUnseen(id)])
    case Register(e) =>
      var id := s.effects[e].id;
      s.(attempts := s.attempts + [Attempt(id, false)], effects := s.effects[e := Registered(id)])
    case DropBegin(e) => s.(effects := s.effects - {e})
    case RunEffect(e) => s.(ran := s.ran + {s.effects[e].id})
    case StartRecord(e, kind, hash) => s.(effects := s.effects[e := Writing(s.effects[e].id, kind, hash, false)])
    case CommitRecord(e) =>
      var w := s.effects[e];
      s.(log := s.log + [Evidence(w.id, w.kind, w.hash)], effects := s.effects[e := w.(committed := true)])
    case FinishRecord(e) =>
      s.(attempts := Mark(s.attempts, s.effects[e].id), effects := s.effects[e := Registered(s.effects[e].id)])
    case FailRecord(e) => s.(effects := s.effects[e := Registered(s.effects[e].id)])
    case FutureReturns(result) =>
      var answered := s.(answered := Some(Answer(result, Ids(s.attempts))));
      if result.Signed? && s.attempts == [] then Leave(answered, Returned(Failed))
      else answered.(phase := Recording(result, Ids(s.attempts), 0, false))
    case CommitOutcome =>
      s.(log := s.log + [Evidence(s.phase.ids[s.phase.at], KindOf(s.phase.result), HashOf(fp, s.phase.result))],
         phase := s.phase.(committed := true))
    case MarkOutcome =>
      s.(attempts := Mark(s.attempts, s.phase.ids[s.phase.at]),
         phase := s.phase.(at := s.phase.at + 1, committed := false))
    case FailOutcome => Leave(s, Returned(Failed))
    case Return => Leave(s, Returned(s.phase.result))
    case Cancel => Leave(s, Cancelled)
    case GuardRecords(k) => s.(log := s.log + [Evidence(s.phase.handed[k], OutcomeUnknown, None)])
  }

  /** Which step the environment attempts at each moment. */
  type Schedule = nat -> Step

  /** An attempt that is not enabled does nothing, so every schedule is a run of the system and
      every run is given by a schedule. */
  function Next(fp: string -> string, s: State, step: Step): State {
    if Enabled(s, step) then Apply(fp, s, step) else s
  }

  function At(fp: string -> string, schedule: Schedule, n: nat): State {
    if n == 0 then Start() else Next(fp, At(fp, schedule, n - 1), schedule(n - 1))
  }

  // ----- what every run keeps -----

  ghost predicate Evidenced(log: seq<Evidence>, id: int) {
    exists i :: 0 <= i < |log| && log[i].attempt == id
  }

  ghost predicate HasId(attempts: seq<Attempt>, id: int) {
    exists i :: 0 <= i < |attempts| && attempts[i].id == id
  }

  /** Attempts are registered only once durably begun, and each by one effect. */
  ghost predicate Registry(s: State) {
    && DistinctIds(s.attempts)
    && (forall i :: 0 <= i < |s.attempts| ==> s.attempts[i].id in s.begun)
    && (forall id :: id in s.ran ==> HasId(s.attempts, id))
    && (forall e :: e in s.effects && s.effects[e].BegunUnseen? ==>
        s.effects[e].id in s.begun && !HasId(s.attempts, s.effects[e].id))
    && (forall e :: e in s.effects && (s.effects[e].Registered? || s.effects[e].Writing?) ==>
        HasId(s.attempts, s.effects[e].id))
    && (forall e, f :: (&& e in s.effects && f in s.effects && e != f
                        && s.effects[e].BegunUnseen? && s.effects[f].BegunUnseen?) ==>
          s.effects[e].id != s.effects[f].id)
  }

  /** A mark means evidence. */
  ghost predicate Marked(s: State) {
    && (forall i :: 0 <= i < |s.attempts| && s.attempts[i].recorded ==> Evidenced(s.log, s.attempts[i].id))
    && (forall e :: e in s.effects && s.effects[e].Writing? && s.effects[e].committed ==>
        Evidenced(s.log, s.effects[e].id))
  }

  ghost predicate Logged(fp: string -> string, s: State, result: Outcome, id: int) {
    Evidence(id, KindOf(result), HashOf(fp, result)) in s.log
  }

  /** How far the outcome has been recorded. */
  ghost predicate Progress(fp: string -> string, s: State) {
    && (s.phase.Running? ==> s.answered.None?)
    && (s.answered.Some? ==> s.answered.value.ids <= Ids(s.attempts))
    && (s.phase.Recording? ==>
          && s.answered == Some(Answer(s.phase.result, s.phase.ids)) && s.phase.at <= |s.phase.ids|
          && (s.phase.result.Signed? ==> s.phase.ids != [])
          && (forall i :: 0 <= i < s.phase.at ==>
              s.attempts[i].recorded && Logged(fp, s, s.phase.result, s.phase.ids[i]))
          && (s.phase.committed ==>
              s.phase.at < |s.phase.ids| && Logged(fp, s, s.phase.result, s.phase.ids[s.phase.at])))
  }

  /** What holds once the wallet is left, however it was left. */
  ghost predicate Left(fp: string -> string, s: State) {
    s.phase.Done? ==>
      && DistinctIds(s.phase.dropped) && s.phase.handed == OpenIds(s.phase.dropped)
      && (forall i :: 0 <= i < |s.phase.dropped| ==> s.phase.dropped[i].id in s.begun)
      && (forall i :: 0 <= i < |s.phase.dropped| && s.phase.dropped[i].recorded ==>
          Evidenced(s.log, s.phase.dropped[i].id))
      && Ids(s.phase.dropped) <= Ids(s.attempts)
      && (s.phase.exit.Returned? && s.phase.exit.outcome.Signed? ==>
            && s.answered.Some? && s.answered.value.result == s.phase.exit.outcome
            && s.answered.value.ids != [] && s.answered.value.ids <= Ids(s.phase.dropped)
            && forall i :: 0 <= i < |s.answered.value.ids| ==>
                 s.phase.dropped[i].recorded && Logged(fp, s, s.phase.exit.outcome, s.answered.value.ids[i]))
  }

  /** Success is claimed in the log only as the future's own answer. */
  ghost predicate Honest(fp: string -> string, s: State) {
    forall i :: 0 <= i < |s.log| && s.log[i].kind.WalletReturned? ==>
      && s.answered.Some? && s.answered.value.result.Signed?
      && s.log[i].hash == Some(fp(s.answered.value.result.signature))
  }

  ghost predicate Inv(fp: string -> string, s: State) {
    Registry(s) && Marked(s) && Progress(fp, s) && Left(fp, s) && Honest(fp, s)
  }

  // ----- one step -----

  lemma EvidenceStays(log: seq<Evidence>, more: Evidence)
    ensures forall id :: Evidenced(log, id) ==> Evidenced(log + [more], id)
    ensures Evidenced(log + [more], more.attempt)
  {
    var longer := log + [more];
    assert longer[|log|] == more;
    forall id | Evidenced(log, id) ensures Evidenced(longer, id) {
      var i :| 0 <= i < |log| && log[i].attempt == id;
      assert longer[i].attempt == id;
    }
  }

  lemma RegistryKept(fp: string -> string, s: State, step: Step)
    requires Registry(s) && Enabled(s, step)
    ensures Registry(Apply(fp, s, step))
  {
    hide HasId, Mark, DistinctIds;
    if step.FinishRecord? {
      MarkedRegistry(s, s.effects[step.e].id);
    } else if step.MarkOutcome? {
      MarkedRegistry(s, s.phase.ids[s.phase.at]);
    } else if step.Register? {
      RegisterIds(s.attempts, s.effects[step.e].id);
    } else if step.CommitBegin? {
      NotYetRegistered(s, step.id);
    }
  }

  lemma NotYetRegistered(s: State, id: int)
    requires Registry(s) && id !in s.begun
    ensures !HasId(s.attempts, id)
  {
  }

  lemma MarkedRegistry(s: State, id: int)
    requires Registry(s)
    ensures Registry(s.(attempts := Mark(s.attempts, id)))
  {
    MarkAt(s.attempts, id);
    MarkKeepsIds(s.attempts, id);
    hide HasId;
  }

  lemma MarkKeepsIds(attempts: seq<Attempt>, id: int)
    requires DistinctIds(attempts)
    ensures forall x :: HasId(Mark(attempts, id), x) <==> HasId(attempts, x)
  {
    MarkAt(attempts, id);
    var marked := Mark(attempts, id);
    forall x ensures HasId(marked, x) <==> HasId(attempts, x) {
      if i :| 0 <= i < |marked| && marked[i].id == x { assert attempts[i].id == x; }
      if i :| 0 <= i < |attempts| && attempts[i].id == x { assert marked[i].id == x; }
    }
  }

  lemma RegisterIds(attempts: seq<Attempt>, id: int)
    ensures forall x :: HasId(attempts + [Attempt(id, false)], x) <==> x == id || HasId(attempts, x)
    ensures DistinctIds(attempts) && !HasId(attempts, id) ==> DistinctIds(attempts + [Attempt(id, false)])
  {
    var more := attempts + [Attempt(id, false)];
    assert more[|attempts|].id == id;
    forall x ensures HasId(more, x) <==> x == id || HasId(attempts, x) {
      if i :| 0 <= i < |more| && more[i].id == x { assert i == |attempts| || attempts[i].id == x; }
      if i :| 0 <= i < |attempts| && attempts[i].id == x { assert more[i].id == x; }
    }
  }

  lemma MarkedKept(fp: string -> string, s: State, step: Step)
    requires Registry(s) && Marked(s) && Progress(fp, s) && Enabled(s, step)
    ensures Marked(Apply(fp, s, step))
  {
    hide Evidenced, Registry, HasId;
    var t := Apply(fp, s, step);
    if |t.log| > |s.log| {
      EvidenceStays(s.log, t.log[|s.log|]);
      assert t.log == s.log + [t.log[|s.log|]];
    } else if step.FinishRecord? {
      DistinctOf(s);
      MarkAt(s.attempts, s.effects[step.e].id);
    } else if step.MarkOutcome? {
      DistinctOf(s);
      MarkAt(s.attempts, s.phase.ids[s.phase.at]);
      LoggedIsEvidence(fp, s, s.phase.result, s.phase.ids[s.phase.at]);
    }
  }

  lemma DistinctOf(s: State)
    requires Registry(s)
    ensures DistinctIds(s.attempts)
  {
  }

  lemma LoggedIsEvidence(fp: string -> string, s: State, result: Outcome, id: int)
    requires Logged(fp, s, result, id)
    ensures Evidenced(s.log, id)
  {
    var i :| 0 <= i < |s.log| && s.log[i] == Evidence(id, KindOf(result), HashOf(fp, result));
  }

  /** Nothing already logged is lost. */
  lemma LogGrows(fp: string -> string, s: State, step: Step)
    requires Enabled(s, step)
    ensures s.log <= Apply(fp, s, step).log
    ensures forall result, id :: Logged(fp, s, result, id) ==> Logged(fp, Apply(fp, s, step), result, id)
    ensures forall id :: Evidenced(s.log, id) ==> Evidenced(Apply(fp, s, step).log, id)
  {
    var t := Apply(fp, s, step);
    forall id | Evidenced(s.log, id) ensures Evidenced(t.log, id) {
      var i :| 0 <= i < |s.log| && s.log[i].attempt == id;
      assert t.log[i].attempt == id;
    }
  }

  lemma ProgressKept(fp: string -> string, s: State, step: Step)
    requires Registry(s) && Progress(fp, s) && Enabled(s, step)
    ensures Progress(fp, Apply(fp, s, step))
  {
    hide Registry, Logged, Evidenced;
    var t := Apply(fp, s, step);
    LogGrows(fp, s, step);
    DistinctOf(s);
    if step.FinishRecord? {
      MarkAt(s.attempts, s.effects[step.e].id);
    } else if step.MarkOutcome? {
      MarkAt(s.attempts, s.phase.ids[s.phase.at]);
    } else if step.CommitOutcome? {
      JustLogged(fp, s, s.phase.result, s.phase.ids[s.phase.at], t);
    }
  }

  lemma JustLogged(fp: string -> string, s: State, result: Outcome, id: int, t: State)
    requires t.log == s.log + [Evidence(id, KindOf(result), HashOf(fp, result))]
    ensures Logged(fp, t, result, id)
  {
    assert t.log[|s.log|] == Evidence(id, KindOf(result), HashOf(fp, result));
  }

  lemma LeftKept(fp: string -> string, s: State, step: Step)
    requires Registry(s) && Marked(s) && Progress(fp, s) && Left(fp, s) && Enabled(s, step)
    ensures Left(fp, Apply(fp, s, step))
  {
    hide Logged, Evidenced, HasId;
    LogGrows(fp, s, step);
    DistinctOf(s);
    if step.FinishRecord? { MarkSameIds(s.attempts, s.effects[step.e].id); }
    hide Mark;
  }

  lemma MarkSameIds(attempts: seq<Attempt>, id: int)
    requires DistinctIds(attempts)
    ensures Ids(Mark(attempts, id)) == Ids(attempts)
  {
    MarkAt(attempts, id);
  }

  lemma HonestKept(fp: string -> string, s: State, step: Step)
    requires Progress(fp, s) && Honest(fp, s) && Enabled(s, step)
    requires forall e :: e in s.effects && s.effects[e].Writing? ==> !s.effects[e].kind.WalletReturned?
    ensures Honest(fp, Apply(fp, s, step))
  {
    hide Logged, Evidenced;
  }

  /** Effects write only what effects may write. */
  ghost predicate EffectKinds(s: State) {
    forall e :: e in s.effects && s.effects[e].Writing? ==> !s.effects[e].kind.WalletReturned?
  }

  lemma StepKeepsInv(fp: string -> string, s: State, step: Step)
    requires Inv(fp, s) && EffectKinds(s) && Enabled(s, step)
    ensures Inv(fp, Apply(fp, s, step)) && EffectKinds(Apply(fp, s, step))
  {
    RegistryKept(fp, s, step);
    MarkedKept(fp, s, step);
    ProgressKept(fp, s, step);
    LeftKept(fp, s, step);
    HonestKept(fp, s, step);
    hide Inv, Registry, Marked, Progress, Left, Honest;
    assert EffectKinds(Apply(fp, s, step));
  }

  lemma {:induction false} RunKeepsInv(fp: string -> string, schedule: Schedule, n: nat)
    ensures Inv(fp, At(fp, schedule, n)) && EffectKinds(At(fp, schedule, n))
  {
    hide Registry, Marked, Progress, Left, Honest, EffectKinds, Enabled, Apply, Start;
    if n == 0 {
      StartInv(fp);
    } else {
      RunKeepsInv(fp, schedule, n - 1);
      if Enabled(At(fp, schedule, n - 1), schedule(n - 1)) {
        StepKeepsInv(fp, At(fp, schedule, n - 1), schedule(n - 1));
      }
    }
  }

  lemma StartInv(fp: string -> string)
    ensures Inv(fp, Start()) && EffectKinds(Start())
  {
  }

  // ----- what it amounts to -----

  /** What the answer is made of: the future's result, and the attempts registered when it came.
      It is given once. */
  lemma {:induction false} AnswerStays(fp: string -> string, schedule: Schedule, k: nat, n: nat)
    requires k < n && At(fp, schedule, k).answered.None? && At(fp, schedule, k + 1).answered.Some?
    ensures At(fp, schedule, n).answered == At(fp, schedule, k + 1).answered
    ensures At(fp, schedule, n).answered.value.ids == Ids(At(fp, schedule, k).attempts)
  {
    hide Inv, EffectKinds, Next;
    AnswerStep(fp, At(fp, schedule, k), schedule(k));
    if k + 1 < n {
      AnswerStays(fp, schedule, k, n - 1);
      RunKeepsInv(fp, schedule, n - 1);
      AnswerKept(fp, At(fp, schedule, n - 1), schedule(n - 1));
    }
  }

  lemma AnswerStep(fp: string -> string, s: State, step: Step)
    requires s.answered.None? && Next(fp, s, step).answered.Some?
    ensures Next(fp, s, step).answered.value.ids == Ids(s.attempts)
  {
  }

  lemma AnswerKept(fp: string -> string, s: State, step: Step)
    requires Inv(fp, s) && s.answered.Some?
    ensures Next(fp, s, step).answered == s.answered
  {
    hide Registry, Marked, Left, Honest;
  }

  lemma DurableState(fp: string -> string, s: State, signature: string, id: int)
    requires Left(fp, s) && Registry(s)
    requires s.phase.Done? && s.phase.exit == Returned(Signed(signature))
    ensures s.answered.Some? && s.answered.value.result == Signed(signature) && s.answered.value.ids != []
    ensures id in s.answered.value.ids ==>
              && id in s.begun && id !in s.phase.handed
              && Evidence(id, WalletReturned, Some(fp(signature))) in s.log
  {
    hide HasId, Evidenced;
    var ids, dropped := s.answered.value.ids, s.phase.dropped;
    OpenExact(dropped);
    if id in ids {
      var i :| 0 <= i < |ids| && ids[i] == id;
      assert Ids(dropped)[i] == id;
      assert Logged(fp, s, s.phase.exit.outcome, ids[i]);
    }
  }

  /** Success safety: if `sign_wallet` returns a signature, it is the future's own, at least one
      attempt was registered by then, and every one that was is durably begun, has durable
      evidence of that very signature, and is not handed over. */
  lemma SuccessIsDurable(fp: string -> string, schedule: Schedule, n: nat, s: State, signature: string)
    requires s == At(fp, schedule, n) && s.phase.Done? && s.phase.exit == Returned(Signed(signature))
    ensures s.answered.Some? && s.answered.value.result == Signed(signature) && s.answered.value.ids != []
    ensures forall id :: id in s.answered.value.ids ==>
              && id in s.begun && id !in s.phase.handed
              && Evidence(id, WalletReturned, Some(fp(signature))) in s.log
  {
    RunKeepsInv(fp, schedule, n);
    hide Left, Registry, Marked, Progress, Honest, EffectKinds, At;
    DurableState(fp, s, signature, 0);
    forall id | id in s.answered.value.ids
      ensures id in s.begun && id !in s.phase.handed && Evidence(id, WalletReturned, Some(fp(signature))) in s.log
    {
      DurableState(fp, s, signature, id);
    }
  }

  /** So with nothing registered after the future returned, nothing is handed over. */
  lemma SuccessHandsOverNothing(fp: string -> string, schedule: Schedule, n: nat, s: State, signature: string)
    requires s == At(fp, schedule, n) && s.phase.Done? && s.phase.exit == Returned(Signed(signature))
    requires s.answered.Some? ==> Ids(s.phase.dropped) == s.answered.value.ids
    ensures s.phase.handed == []
  {
    RunKeepsInv(fp, schedule, n);
    hide Registry, Marked, Progress, Honest, EffectKinds, At;
    var dropped := s.phase.dropped;
    forall i | 0 <= i < |dropped| ensures dropped[i].recorded { assert |Ids(dropped)| == |dropped|; }
    NoneOpen(dropped);
  }

  /** What the guard saw stays registered, in its order; only later attempts come after. */
  lemma DroppedStaysRegistered(fp: string -> string, schedule: Schedule, n: nat, s: State)
    requires s == At(fp, schedule, n) && s.phase.Done?
    ensures Ids(s.phase.dropped) <= Ids(s.attempts)
  {
    RunKeepsInv(fp, schedule, n);
    hide Registry, Marked, Progress, Honest, EffectKinds, At;
  }

  lemma ExactState(fp: string -> string, s: State, id: int)
    requires Left(fp, s) && s.phase.Done? && HasId(s.phase.dropped, id)
    ensures id in s.phase.handed <==> Attempt(id, false) in s.phase.dropped
    ensures id in s.phase.handed <==> Attempt(id, true) !in s.phase.dropped
    ensures id !in s.phase.handed ==> Evidenced(s.log, id)
    ensures forall x :: x in s.phase.handed ==> HasId(s.phase.dropped, x)
  {
    hide Evidenced, Logged;
    var dropped := s.phase.dropped;
    OpenExact(dropped);
    var i :| 0 <= i < |dropped| && dropped[i].id == id;
    assert dropped[i] == Attempt(id, dropped[i].recorded);
  }

  /** Guard exactness: however the wallet is left, the guard takes over exactly the
      attempts registered and not marked at that moment; the others have durable evidence. */
  lemma GuardIsExact(fp: string -> string, schedule: Schedule, n: nat, s: State, id: int)
    requires s == At(fp, schedule, n) && s.phase.Done? && HasId(s.phase.dropped, id)
    ensures id in s.phase.handed <==> Attempt(id, false) in s.phase.dropped
    ensures id in s.phase.handed <==> Attempt(id, true) !in s.phase.dropped
    ensures id !in s.phase.handed ==> Evidenced(s.log, id)
    ensures forall x :: x in s.phase.handed ==> HasId(s.phase.dropped, x)
  {
    RunKeepsInv(fp, schedule, n);
    hide Left, Registry, Marked, Progress, Honest, EffectKinds, HasId;
    ExactState(fp, s, id);
  }

  // ----- after the wallet has been left -----

  lemma {:induction false} LeavingIsFinal(fp: string -> string, schedule: Schedule, k: nat, n: nat)
    requires k <= n && At(fp, schedule, k).phase.Done?
    ensures At(fp, schedule, n).phase == At(fp, schedule, k).phase
  {
    hide Apply;
    if k < n {
      LeavingIsFinal(fp, schedule, k, n - 1);
      PhaseStays(fp, At(fp, schedule, n - 1), schedule(n - 1));
    }
  }

  lemma PhaseStays(fp: string -> string, s: State, step: Step)
    requires s.phase.Done?
    ensures Next(fp, s, step).phase == s.phase
  {
  }

  /** An effect that outlived the wallet has a record accepted for the attempt. */
  ghost predicate FinishesLate(fp: string -> string, schedule: Schedule, k: nat, id: int) {
    var s := At(fp, schedule, k);
    s.phase.Done? && schedule(k).FinishRecord? && Enabled(s, schedule(k)) && s.effects[schedule(k).e].id == id
  }

  lemma LateStep(fp: string -> string, s: State, step: Step, id: int)
    requires Registry(s) && Left(fp, s) && s.phase.Done? && id in s.phase.handed && Enabled(s, step)
    ensures Attempt(id, true) in Apply(fp, s, step).attempts <==>
            Attempt(id, true) in s.attempts || (step.FinishRecord? && s.effects[step.e].id == id)
  {
    var dropped, attempts := s.phase.dropped, s.attempts;
    OpenExact(dropped);
    var i :| 0 <= i < |dropped| && dropped[i].id == id;
    assert Ids(attempts)[i] == id;
    hide Logged, Evidenced, HasId;
    if step.FinishRecord? {
      var e := s.effects[step.e].id;
      MarkAt(attempts, e);
      var marked := Mark(attempts, e);
      assert e == id ==> marked[i] == Attempt(id, true);
      forall j | 0 <= j < |attempts|
        ensures marked[j] == Attempt(id, true) <==> attempts[j] == Attempt(id, true) || (e == id && j == i) {
      }
    }
  }

  lemma UnmarkedWhenHanded(attempts: seq<Attempt>, id: int)
    requires DistinctIds(attempts) && id in OpenIds(attempts)
    ensures Attempt(id, true) !in attempts
  {
    OpenExact(attempts);
  }

  lemma LeavingStep(fp: string -> string, s: State, step: Step)
    requires !s.phase.Done? && Next(fp, s, step).phase.Done?
    ensures Next(fp, s, step).phase.dropped == s.attempts
    ensures Next(fp, s, step).phase.handed == OpenIds(Next(fp, s, step).attempts)
  {
  }

  ghost predicate IsMarked(s: State, id: int) {
    Attempt(id, true) in s.attempts
  }

  lemma MarkedLate(fp: string -> string, schedule: Schedule, k: nat, id: int)
    requires At(fp, schedule, k).phase.Done? && id in At(fp, schedule, k).phase.handed
    ensures IsMarked(At(fp, schedule, k + 1), id) <==>
            IsMarked(At(fp, schedule, k), id) || FinishesLate(fp, schedule, k, id)
  {
    RunKeepsInv(fp, schedule, k);
    hide Apply, Enabled, Left, Registry, Marked, Progress, Honest, EffectKinds;
    var s := At(fp, schedule, k);
    if Enabled(s, schedule(k)) { LateStep(fp, s, schedule(k), id); }
  }

  lemma UnmarkedOnLeaving(fp: string -> string, schedule: Schedule, n: nat, id: int)
    requires n > 0 && !At(fp, schedule, n - 1).phase.Done?
    requires At(fp, schedule, n).phase.Done? && id in At(fp, schedule, n).phase.handed
    ensures !IsMarked(At(fp, schedule, n), id)
  {
    RunKeepsInv(fp, schedule, n);
    LeavingStep(fp, At(fp, schedule, n - 1), schedule(n - 1));
    DistinctOf(At(fp, schedule, n));
    UnmarkedWhenHanded(At(fp, schedule, n).attempts, id);
    hide Next, Inv, EffectKinds;
  }

  lemma NotYetLeft(fp: string -> string, schedule: Schedule, k: nat, n: nat, id: int)
    requires k <= n && !At(fp, schedule, n).phase.Done?
    ensures !FinishesLate(fp, schedule, k, id)
  {
    if At(fp, schedule, k).phase.Done? { LeavingIsFinal(fp, schedule, k, n); }
  }

  lemma StartsRunning(fp: string -> string, schedule: Schedule)
    ensures At(fp, schedule, 0).phase.Running?
  {
  }

  /** An attempt that was handed over is marked in the end if and only if its own effect, having
      outlived the wallet, got a record accepted after that. */
  lemma {:induction false} HandedAndMarked(fp: string -> string, schedule: Schedule, n: nat, id: int)
    requires At(fp, schedule, n).phase.Done? && id in At(fp, schedule, n).phase.handed
    ensures IsMarked(At(fp, schedule, n), id) <==> exists k :: 0 <= k < n && FinishesLate(fp, schedule, k, id)
  {
    StartsRunning(fp, schedule);
    hide At, FinishesLate, IsMarked;
    if At(fp, schedule, n - 1).phase.Done? {
      LeavingIsFinal(fp, schedule, n - 1, n);
      HandedAndMarked(fp, schedule, n - 1, id);
      MarkedLate(fp, schedule, n - 1, id);
    } else {
      UnmarkedOnLeaving(fp, schedule, n, id);
      forall k | 0 <= k < n ensures !FinishesLate(fp, schedule, k, id) {
        NotYetLeft(fp, schedule, k, n - 1, id);
      }
    }
  }

  // ----- effects and the log -----

  /** No external effect is run whose attempt is not durable and registered. */
  lemma EffectsAreBegun(fp: string -> string, schedule: Schedule, n: nat, s: State, id: int)
    requires s == At(fp, schedule, n) && id in s.ran
    ensures id in s.begun && HasId(s.attempts, id)
  {
    RunKeepsInv(fp, schedule, n);
    var i :| 0 <= i < |s.attempts| && s.attempts[i].id == id;
  }

  /** An effect that was run is never forgotten. */
  lemma {:induction false} EffectsAreRemembered(fp: string -> string, schedule: Schedule, k: nat, n: nat, e: EffectId)
    requires k < n && schedule(k) == RunEffect(e) && e in At(fp, schedule, k).effects
    requires At(fp, schedule, k).effects[e].Registered? || At(fp, schedule, k).effects[e].Writing?
    ensures At(fp, schedule, k).effects[e].id in At(fp, schedule, n).ran
  {
    var id := At(fp, schedule, k).effects[e].id;
    if k + 1 < n {
      EffectsAreRemembered(fp, schedule, k, n - 1, e);
      RanStays(fp, At(fp, schedule, n - 1), schedule(n - 1), id);
    } else {
      RanByEffect(fp, At(fp, schedule, k), e);
    }
    hide Next;
  }

  lemma RanStays(fp: string -> string, s: State, step: Step, id: int)
    requires id in s.ran
    ensures id in Next(fp, s, step).ran
  {
  }

  lemma RanByEffect(fp: string -> string, s: State, e: EffectId)
    requires e in s.effects && (s.effects[e].Registered? || s.effects[e].Writing?)
    ensures s.effects[e].id in Next(fp, s, RunEffect(e)).ran
  {
  }

  /** Every external effect that was run is accounted for: from the moment the wallet is left,
      its attempt has been handed over or has durable evidence. */
  lemma EveryEffectAccounted(fp: string -> string, schedule: Schedule, k: nat, n: nat, id: int)
    requires k < n && !At(fp, schedule, k).phase.Done? && At(fp, schedule, k + 1).phase.Done?
    requires id in At(fp, schedule, k).ran
    ensures At(fp, schedule, n).phase.Done?
    ensures id in At(fp, schedule, n).phase.handed || Evidenced(At(fp, schedule, n).log, id)
  {
    LeavingStep(fp, At(fp, schedule, k), schedule(k));
    assert At(fp, schedule, k + 1).phase.dropped == At(fp, schedule, k).attempts;
    LeavingIsFinal(fp, schedule, k + 1, n);
    EffectsAreBegun(fp, schedule, k, At(fp, schedule, k), id);
    hide At, HasId, Evidenced;
    GuardIsExact(fp, schedule, n, At(fp, schedule, n), id);
  }

  /** An attempt is marked only after the store has recorded something for it. */
  lemma MarkMeansEvidence(fp: string -> string, schedule: Schedule, n: nat, s: State, i: nat)
    requires s == At(fp, schedule, n) && i < |s.attempts| && s.attempts[i].recorded
    ensures Evidenced(s.log, s.attempts[i].id)
  {
    RunKeepsInv(fp, schedule, n);
    hide Registry, Progress, Left, Honest;
  }

  /** The log never claims a signature the signing future did not return. */
  lemma LogIsHonest(fp: string -> string, schedule: Schedule, n: nat, s: State, id: int, hash: Option<string>)
    requires s == At(fp, schedule, n) && Evidence(id, WalletReturned, hash) in s.log
    ensures s.answered.Some? && s.answered.value.result.Signed?
    ensures hash == Some(fp(s.answered.value.result.signature))
  {
    RunKeepsInv(fp, schedule, n);
  }

  /** An outcome that is not known comes without a signature, and nothing is recorded for an
      attempt that was not begun. */
  ghost predicate LogMeans(s: State) {
    && (forall i :: 0 <= i < |s.log| ==>
          s.log[i].attempt in s.begun && (s.log[i].kind.OutcomeUnknown? ==> s.log[i].hash.None?))
    && (forall e :: e in s.effects && s.effects[e].Writing? && s.effects[e].kind.OutcomeUnknown? ==>
          s.effects[e].hash.None?)
  }

  /** Everyone a record may be written for was begun. */
  lemma WritersBegun(fp: string -> string, s: State)
    requires Inv(fp, s)
    ensures forall e :: e in s.effects && s.effects[e].Writing? ==> s.effects[e].id in s.begun
    ensures s.phase.Recording? ==> forall i :: 0 <= i < |s.phase.ids| ==> s.phase.ids[i] in s.begun
    ensures s.phase.Done? ==> forall i :: 0 <= i < |s.phase.handed| ==> s.phase.handed[i] in s.begun
  {
    hide Marked, Honest, Logged, Evidenced;
    if s.phase.Recording? {
      forall i | 0 <= i < |s.phase.ids| ensures s.phase.ids[i] in s.begun {
        assert s.phase.ids[i] == Ids(s.attempts)[i];
      }
    }
    if s.phase.Done? {
      OpenExact(s.phase.dropped);
      forall i | 0 <= i < |s.phase.handed| ensures s.phase.handed[i] in s.begun {
        var id := s.phase.handed[i];
        assert id in OpenIds(s.phase.dropped);
        var j :| 0 <= j < |s.phase.dropped| && s.phase.dropped[j].id == id;
      }
    }
  }

  lemma LogMeansKept(fp: string -> string, s: State, step: Step)
    requires Inv(fp, s) && LogMeans(s)
    ensures LogMeans(Next(fp, s, step))
  {
    WritersBegun(fp, s);
    hide Inv, Mark, Ids, OpenIds;
  }

  lemma {:induction false} LogMeaning(fp: string -> string, schedule: Schedule, n: nat)
    ensures LogMeans(At(fp, schedule, n))
  {
    hide Inv, EffectKinds, Next;
    if n > 0 {
      LogMeaning(fp, schedule, n - 1);
      RunKeepsInv(fp, schedule, n - 1);
      LogMeansKept(fp, At(fp, schedule, n - 1), schedule(n - 1));
    }
  }

  /** A signing future that failed is recorded as an unknown outcome, with no signature, for each
      of its attempts in turn. */
  lemma FailureIsUnknown(fp: string -> string, schedule: Schedule, n: nat, s: State, i: nat)
    requires s == At(fp, schedule, n) && s.phase.Recording? && s.phase.result.Failed? && i < s.phase.at
    ensures s.answered == Some(Answer(Failed, s.phase.ids)) && i < |s.phase.ids|
    ensures Evidence(s.phase.ids[i], OutcomeUnknown, None) in s.log
  {
    RunKeepsInv(fp, schedule, n);
    hide Registry, Marked, Left, Honest;
  }

  /** With every record accepted the wallet ends with the future's own answer, unless cancelled. */
  lemma AllRecordedReturns(fp: string -> string, schedule: Schedule, n: nat, s: State, t: State)
    requires s == At(fp, schedule, n) && t == At(fp, schedule, n + 1)
    requires s.phase.Recording? && s.phase.at == |s.phase.ids|
    ensures s.answered == Some(Answer(s.phase.result, s.phase.ids))
    ensures t.phase == s.phase
            || (t.phase.Done? && (t.phase.exit == Returned(s.phase.result) || t.phase.exit == Cancelled))
    ensures schedule(n).Return? ==> t.phase.Done? && t.phase.exit == Returned(s.phase.result)
  {
    RunKeepsInv(fp, schedule, n);
    hide Registry, Marked, Left, Honest;
  }

  /** The guard writes the same for what it took over, and changes nothing else. */
  lemma GuardWritesUnknown(fp: string -> string, schedule: Schedule, n: nat, k: nat, s: State)
    requires s == At(fp, schedule, n) && schedule(n) == GuardRecords(k)
    requires s.phase.Done? && k < |s.phase.handed|
    ensures At(fp, schedule, n + 1) == s.(log := s.log + [Evidence(s.phase.handed[k], OutcomeUnknown, None)])
    ensures s.phase.handed[k] in s.begun
  {
    RunKeepsInv(fp, schedule, n);
    WritersBegun(fp, s);
    hide Inv, EffectKinds;
  }

  /** In every run, then, an unknown outcome names no signature, and all evidence is of attempts
      that were durably begun. */
  lemma EvidenceIsOfBegun(fp: string -> string, schedule: Schedule, n: nat, evidence: Evidence)
    requires evidence in At(fp, schedule, n).log
    ensures evidence.attempt in At(fp, schedule, n).begun
    ensures evidence.kind.OutcomeUnknown? ==> evidence.hash.None?
  {
    LogMeaning(fp, schedule, n);
  }

  // ----- such runs exist -----

  lemma RegisteredIsReached(fp: string -> string, schedule: Schedule, n: nat)
    requires At(fp, schedule, n) == Start()
    requires schedule(n) == StartBegin(0) && schedule(n + 1) == CommitBegin(0, 7) && schedule(n + 2) == Register(0)
    ensures At(fp, schedule, n + 3) == State([Attempt(7, false)], map[0 := Registered(7)], Running, {7}, [], {}, None)
  {
    var s := At(fp, schedule, n);
    s := Next(fp, s, schedule(n));
    assert At(fp, schedule, n + 1) == s;
    assert s == State([], map[0 := Beginning], Running, {}, [], {}, None);
    s := Next(fp, s, schedule(n + 1));
    assert At(fp, schedule, n + 2) == s;
    assert s == State([], map[0 := BegunUnseen(7)], Running, {7}, [], {}, None);
    s := Next(fp, s, schedule(n + 2));
    assert At(fp, schedule, n + 3) == s;
    assert s == State([Attempt(7, false)], map[0 := Registered(7)], Running, {7}, [], {}, None);
  }

  lemma AnswerIsReached(fp: string -> string, schedule: Schedule, n: nat, result: Outcome)
    requires At(fp, schedule, n) == State([Attempt(7, false)], map[0 := Registered(7)], Running, {7}, [], {}, None)
    requires schedule(n) == RunEffect(0) && schedule(n + 1) == FutureReturns(result)
    ensures At(fp, schedule, n + 2).phase == Recording(result, [7], 0, false)
  {
    var s := At(fp, schedule, n);
    assert Ids(s.attempts) == [7];
    hide Ids, Mark, OpenIds;
    s := Next(fp, s, schedule(n));
    assert At(fp, schedule, n + 1) == s;
    s := Next(fp, s, schedule(n + 1));
    assert At(fp, schedule, n + 2) == s;
  }

  lemma OutcomeIsRecorded(fp: string -> string, schedule: Schedule, n: nat, result: Outcome, id: int)
    requires At(fp, schedule, n).phase == Recording(result, [id], 0, false)
    requires schedule(n) == CommitOutcome && schedule(n + 1) == MarkOutcome && schedule(n + 2) == Return
    ensures At(fp, schedule, n + 3).phase.Done? && At(fp, schedule, n + 3).phase.exit == Returned(result)
  {
    var s := At(fp, schedule, n);
    hide Ids, Mark, OpenIds;
    s := Next(fp, s, schedule(n));
    assert At(fp, schedule, n + 1) == s;
    s := Next(fp, s, schedule(n + 1));
    assert At(fp, schedule, n + 2) == s;
    s := Next(fp, s, schedule(n + 2));
    assert At(fp, schedule, n + 3) == s;
  }

  lemma SuccessFollows(fp: string -> string, schedule: Schedule, n: nat, result: Outcome)
    requires At(fp, schedule, n) == Start()
    requires schedule(n) == StartBegin(0) && schedule(n + 1) == CommitBegin(0, 7) && schedule(n + 2) == Register(0)
    requires result.Signed? && schedule(n + 3) == RunEffect(0) && schedule(n + 4) == FutureReturns(result)
    requires schedule(n + 5) == CommitOutcome && schedule(n + 6) == MarkOutcome && schedule(n + 7) == Return
    ensures At(fp, schedule, n + 8).phase.Done? && At(fp, schedule, n + 8).phase.exit == Returned(result)
  {
    hide *;
    RegisteredIsReached(fp, schedule, n);
    AnswerIsReached(fp, schedule, n + 3, result);
    OutcomeIsRecorded(fp, schedule, n + 5, result, 7);
  }

  lemma SuccessSchedule(signature: string) returns (schedule: Schedule)
    ensures schedule(0) == StartBegin(0) && schedule(1) == CommitBegin(0, 7) && schedule(2) == Register(0)
    ensures schedule(3) == RunEffect(0) && schedule(4) == FutureReturns(Signed(signature))
    ensures schedule(5) == CommitOutcome && schedule(6) == MarkOutcome && schedule(7) == Return
  {
    schedule := Play([StartBegin(0), CommitBegin(0, 7), Register(0), RunEffect(0), FutureReturns(Signed(signature)),
                      CommitOutcome, MarkOutcome, Return], Cancel);
  }

  /** A wallet begins an attempt, runs its effect, records the signature and returns it. */
  lemma SuccessIsReached(fp: string -> string, signature: string) returns (schedule: Schedule, n: nat)
    ensures At(fp, schedule, n).phase.Done? && At(fp, schedule, n).phase.exit == Returned(Signed(signature))
  {
    schedule := SuccessSchedule(signature);
    var start: nat :| start == 0;
    assert At(fp, schedule, start) == Start();
    n := start + 8;
    hide *;
    SuccessFollows(fp, schedule, start, Signed(signature));
  }

  lemma CancelIsReached(fp: string -> string, schedule: Schedule, n: nat)
    requires At(fp, schedule, n) == State([Attempt(7, false)], map[0 := Registered(7)], Running, {7}, [], {}, None)
    requires schedule(n) == Cancel
    ensures At(fp, schedule, n + 1) ==
            State([Attempt(7, false)], map[0 := Registered(7)], Done(Cancelled, [Attempt(7, false)], [7]),
                  {7}, [], {}, None)
  {
    var s := At(fp, schedule, n);
    hide Ids, Mark;
    assert OpenIds(s.attempts) == [7] by { assert s.attempts[..0] == []; }
    s := Next(fp, s, schedule(n));
    assert At(fp, schedule, n + 1) == s;
    assert s.phase == Done(Cancelled, s.attempts, [7]);
  }

  lemma RecordIsReached(fp: string -> string, schedule: Schedule, n: nat, e: EffectId)
    requires e in At(fp, schedule, n).effects && At(fp, schedule, n).effects[e].Registered?
    requires schedule(n) == StartRecord(e, OutcomeUnknown, None)
    requires schedule(n + 1) == CommitRecord(e) && schedule(n + 2) == FinishRecord(e)
    ensures At(fp, schedule, n + 3).phase == At(fp, schedule, n).phase
    ensures At(fp, schedule, n + 3).attempts == Mark(At(fp, schedule, n).attempts, At(fp, schedule, n).effects[e].id)
  {
    var s := At(fp, schedule, n);
    hide Mark;
    s := Next(fp, s, schedule(n));
    assert At(fp, schedule, n + 1) == s;
    s := Next(fp, s, schedule(n + 1));
    assert At(fp, schedule, n + 2) == s;
    s := Next(fp, s, schedule(n + 2));
    assert At(fp, schedule, n + 3) == s;
  }

  lemma MarksOnly(id: int)
    ensures Attempt(id, true) in Mark([Attempt(id, false)], id)
  {
    assert Mark([Attempt(id, false)], id)[0] == Attempt(id, true);
  }

  lemma LateMarkFollows(fp: string -> string, schedule: Schedule, n: nat)
    requires At(fp, schedule, n) == Start()
    requires schedule(n) == StartBegin(0) && schedule(n + 1) == CommitBegin(0, 7) && schedule(n + 2) == Register(0)
    requires schedule(n + 3) == Cancel && schedule(n + 4) == StartRecord(0, OutcomeUnknown, None)
    requires schedule(n + 5) == CommitRecord(0) && schedule(n + 6) == FinishRecord(0)
    ensures At(fp, schedule, n + 7).phase.Done? && At(fp, schedule, n + 7).phase.handed == [7]
    ensures IsMarked(At(fp, schedule, n + 7), 7)
  {
    hide At, Next, Mark;
    RegisteredIsReached(fp, schedule, n);
    CancelIsReached(fp, schedule, n + 3);
    RecordIsReached(fp, schedule, n + 4, 0);
    MarksOnly(7);
  }

  lemma LateMarkSchedule() returns (schedule: Schedule)
    ensures schedule(0) == StartBegin(0) && schedule(1) == CommitBegin(0, 7) && schedule(2) == Register(0)
    ensures schedule(3) == Cancel && schedule(4) == StartRecord(0, OutcomeUnknown, None)
    ensures schedule(5) == CommitRecord(0) && schedule(6) == FinishRecord(0)
  {
    schedule := Play([StartBegin(0), CommitBegin(0, 7), Register(0), Cancel, StartRecord(0, OutcomeUnknown, None),
                      CommitRecord(0), FinishRecord(0)], Cancel);
  }

  /** A wallet is cancelled, and the effect that outlives it records an outcome for the attempt
      already handed over. */
  lemma LateMarkIsReached(fp: string -> string) returns (schedule: Schedule, n: nat)
    ensures At(fp, schedule, n).phase.Done? && At(fp, schedule, n).phase.handed == [7]
    ensures IsMarked(At(fp, schedule, n), 7)
  {
    schedule := LateMarkSchedule();
    var start: nat :| start == 0;
    assert At(fp, schedule, start) == Start();
    n := start + 7;
    hide *;
    LateMarkFollows(fp, schedule, start);
  }
}

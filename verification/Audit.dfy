/** The durable signing audit: an attempt is committed before its external effect, evidence
    before success, and what is still open when the signing future ends is handed over. */
module Audit {
  import opened Wrappers

  datatype Kind = ExternalReturned | OutcomeUnknown | WalletReturned
  datatype Evidence = Evidence(attempt: int, kind: Kind, hash: Option<string>)

  /** `recorded` is set once the store has accepted an outcome for the attempt. */
  datatype Attempt = Attempt(id: int, recorded: bool)

  datatype Outcome = Signed(signature: string) | Failed

  // ----- the wallet scope -----

  function Ids(attempts: seq<Attempt>): seq<int> {
    seq(|attempts|, i requires 0 <= i < |attempts| => attempts[i].id)
  }

  /** The attempts no outcome was recorded for. */
  function OpenIds(attempts: seq<Attempt>): seq<int> {
    if attempts == [] then []
    else
      var n := |attempts| - 1;
      OpenIds(attempts[..n]) + if attempts[n].recorded then [] else [attempts[n].id]
  }

  /** Marks the first attempt with this id. */
  function Mark(attempts: seq<Attempt>, id: int): seq<Attempt> {
    if attempts == [] then []
    else if attempts[0].id == id then [Attempt(id, true)] + attempts[1..]
    else [attempts[0]] + Mark(attempts[1..], id)
  }

  ghost predicate DistinctIds(attempts: seq<Attempt>) {
    forall i, j :: 0 <= i < j < |attempts| ==> attempts[i].id != attempts[j].id
  }

  /** With distinct ids, exactly the attempt with this id is marked. */
  lemma {:induction false} MarkAt(attempts: seq<Attempt>, id: int)
    requires DistinctIds(attempts)
    ensures |Mark(attempts, id)| == |attempts|
    ensures forall i :: 0 <= i < |attempts| ==>
              Mark(attempts, id)[i] == if attempts[i].id == id then Attempt(id, true) else attempts[i]
  {
    if attempts != [] && attempts[0].id != id { MarkAt(attempts[1..], id); }
  }

  /** Marking changes the first attempt with the id, if there is one. */
  lemma {:induction false} MarkFirst(attempts: seq<Attempt>, id: int, i: nat)
    requires i <= |attempts| && forall j :: 0 <= j < i ==> attempts[j].id != id
    requires i < |attempts| ==> attempts[i].id == id
    ensures Mark(attempts, id) == if i < |attempts| then attempts[i := Attempt(id, true)] else attempts
  {
    if i > 0 {
      MarkFirst(attempts[1..], id, i - 1);
      assert attempts == [attempts[0]] + attempts[1..];
    }
  }

  /** An id is open exactly when some attempt with it is unmarked. */
  lemma {:induction false} OpenExact(attempts: seq<Attempt>)
    ensures forall id :: id in OpenIds(attempts) <==>
            exists i :: 0 <= i < |attempts| && attempts[i].id == id && !attempts[i].recorded
  {
    if attempts != [] {
      var n := |attempts| - 1;
      OpenExact(attempts[..n]);
      forall id ensures id in OpenIds(attempts) <==>
        exists i :: 0 <= i < |attempts| && attempts[i].id == id && !attempts[i].recorded {
        if id in OpenIds(attempts[..n]) {
          var i :| 0 <= i < n && attempts[..n][i].id == id && !attempts[..n][i].recorded;
          assert attempts[i].id == id;
        }
        if i :| 0 <= i < |attempts| && attempts[i].id == id && !attempts[i].recorded {
          assert i == n || (attempts[..n][i].id == id && !attempts[..n][i].recorded);
        }
      }
    }
  }

  lemma {:induction false} NoneOpen(attempts: seq<Attempt>)
    requires forall i :: 0 <= i < |attempts| ==> attempts[i].recorded
    ensures OpenIds(attempts) == []
  {
    if attempts != [] { NoneOpen(attempts[..|attempts| - 1]); }
  }

  function KindOf(result: Outcome): Kind {
    if result.Signed? then WalletReturned else OutcomeUnknown
  }

  function HashOf(fingerprint: string -> string, result: Outcome): Option<string> {
    if result.Signed? then Some(fingerprint(result.signature)) else None
  }

  class WalletScope {
    var attempts: seq<Attempt>

    constructor ()
      ensures attempts == []
    {
      attempts := [];
    }

    method Register(id: int)
      modifies this
      ensures attempts == old(attempts) + [Attempt(id, false)]
    {
      attempts := attempts + [Attempt(id, false)];
    }

    /** The first attempt with this id is flagged in place. */
    method Recorded(id: int)
      modifies this
      ensures attempts == Mark(old(attempts), id)
    {
      var i := 0;
      while i < |attempts| && attempts[i].id != id
        invariant i <= |attempts| && attempts == old(attempts)
        invariant forall j :: 0 <= j < i ==> attempts[j].id != id
      {
        i := i + 1;
      }
      MarkFirst(attempts, id, i);
      if i < |attempts| {
        attempts := attempts[i := Attempt(id, true)];
      }
    }
  }

  /** `begin_effect`: the attempt is registered once the store has begun it; a store that fails
      leaves the wallet as it was. */
  method BeginEffect(scope: WalletScope, begun: Option<int>) returns (id: Option<int>)
    modifies scope
    ensures id == begun
    ensures scope.attempts == old(scope.attempts) + if begun.Some? then [Attempt(begun.value, false)] else []
  {
    if begun.Some? {
      scope.Register(begun.value);
    }
    id := begun;
  }

  /** `EffectRecord::returned` with a signature's fingerprint, `unknown` without: the attempt is
      marked only when the store has accepted the record. */
  method RecordEffect(scope: WalletScope, store: SigningAuditStore, id: int, hash: Option<string>, commits: bool,
                      fails: bool)
    returns (ok: bool)
    modifies scope, store
    ensures ok == (commits && !fails)
    ensures scope.attempts == if ok then Mark(old(scope.attempts), id) else old(scope.attempts)
    ensures var evidence := Evidence(id, if hash.Some? then ExternalReturned else OutcomeUnknown, hash);
            store.log == old(store.log) + if commits then [evidence] else []
  {
    ok := store.Record(id, if hash.Some? then ExternalReturned else OutcomeUnknown, hash, commits, fails);
    if ok {
      scope.Recorded(id);
    }
  }

  /** The durable store. A call may commit and still report a failure. */
  class SigningAuditStore {
    var log: seq<Evidence>

    method Record(attempt: int, kind: Kind, hash: Option<string>, commits: bool, fails: bool) returns (ok: bool)
      modifies this
      ensures ok == (commits && !fails)
      ensures log == old(log) + if commits then [Evidence(attempt, kind, hash)] else []
    {
      ok := commits && !fails;
      if commits {
        log := log + [Evidence(attempt, kind, hash)];
      }
    }
  }

  /** What is written for these attempts once the signing future has returned. */
  function Outcomes(fingerprint: string -> string, result: Outcome, ids: seq<int>): seq<Evidence> {
    seq(|ids|, i requires 0 <= i < |ids| =>
      if result.Signed? then Evidence(ids[i], WalletReturned, Some(fingerprint(result.signature)))
      else Evidence(ids[i], OutcomeUnknown, None))
  }

  lemma NothingWritten(fingerprint: string -> string, result: Outcome, ids: seq<int>)
    ensures Outcomes(fingerprint, result, ids[..0]) == []
  {
  }

  lemma OutcomesNext(fingerprint: string -> string, result: Outcome, ids: seq<int>, i: nat)
    requires i < |ids|
    ensures Outcomes(fingerprint, result, ids[..i + 1]) ==
            Outcomes(fingerprint, result, ids[..i]) + [Evidence(ids[i], KindOf(result), HashOf(fingerprint, result))]
  {
  }

  lemma SignedLogged(fingerprint: string -> string, result: Outcome, attempts: seq<Attempt>, ids: seq<int>)
    requires ids == Ids(attempts) && result.Signed?
    ensures forall a :: a in MarkedUpTo(attempts, |attempts|) ==>
              Evidence(a.id, WalletReturned, Some(fingerprint(result.signature)))
              in Outcomes(fingerprint, result, ids[..|ids|])
    ensures |MarkedUpTo(attempts, |attempts|)| == |attempts| == |ids|
  {
    forall a | a in MarkedUpTo(attempts, |attempts|)
      ensures Evidence(a.id, WalletReturned, Some(fingerprint(result.signature)))
              in Outcomes(fingerprint, result, ids[..|ids|])
    {
      var i :| 0 <= i < |attempts| && MarkedUpTo(attempts, |attempts|)[i] == a;
      assert Outcomes(fingerprint, result, ids[..|ids|])[i].attempt == a.id;
    }
  }

  /** The first `n` marked. */
  function MarkedUpTo(attempts: seq<Attempt>, n: nat): seq<Attempt> {
    seq(|attempts|, i requires 0 <= i < |attempts| => if i < n then Attempt(attempts[i].id, true) else attempts[i])
  }

  lemma MarksNext(attempts: seq<Attempt>, i: nat)
    requires i < |attempts| && DistinctIds(attempts)
    ensures Mark(MarkedUpTo(attempts, i), attempts[i].id) == MarkedUpTo(attempts, i + 1)
  {
    MarkAt(MarkedUpTo(attempts, i), attempts[i].id);
    hide Mark;
  }

  lemma AllMarked(attempts: seq<Attempt>)
    ensures OpenIds(MarkedUpTo(attempts, |attempts|)) == [] && MarkedUpTo(attempts, 0) == attempts
  {
    NoneOpen(MarkedUpTo(attempts, |attempts|));
  }

  /** `sign_wallet` from the moment its future has returned: record the outcome for every
      attempt, mark it, and stop at the first store error. No one interferes here; the
      state machine below says what every interleaving keeps. `handed` is what the guard
      takes over on the way out, and `accepted` counts the records the store accepted. */
  method FinishWallet(scope: WalletScope, store: SigningAuditStore, fingerprint: string -> string, result: Outcome,
                      commits: nat -> bool, fails: nat -> bool)
    returns (answer: Outcome, handed: seq<int>, ghost accepted: nat)
    requires DistinctIds(scope.attempts)
    modifies scope, store
    ensures accepted <= old(|scope.attempts|) && forall i :: 0 <= i < accepted ==> commits(i) && !fails(i)
    ensures accepted < old(|scope.attempts|) ==> !commits(accepted) || fails(accepted)
    ensures answer == if accepted < old(|scope.attempts|) || (result.Signed? && old(scope.attempts) == [])
                      then Failed else result
    ensures scope.attempts == MarkedUpTo(old(scope.attempts), accepted)
    ensures var ids := old(Ids(scope.attempts));
            var written := if accepted < |ids| && commits(accepted) then accepted + 1 else accepted;
            store.log == old(store.log) + Outcomes(fingerprint, result, ids[..written])
    ensures handed == OpenIds(scope.attempts) && (answer.Signed? ==> handed == [])
    ensures answer.Signed? ==> scope.attempts != [] && forall a :: a in scope.attempts ==>
              Evidence(a.id, WalletReturned, Some(fingerprint(answer.signature))) in store.log
  {
    hide OpenIds, Mark, MarkedUpTo, Outcomes, DistinctIds;
    var ids := Ids(scope.attempts);
    ghost var attempts, log := scope.attempts, store.log;
    NothingWritten(fingerprint, result, ids);
    AllMarked(attempts);
    handed, accepted := OpenIds(scope.attempts), 0;
    if result.Signed? && ids == [] {
      return Failed, handed, 0;
    }
    var hash := HashOf(fingerprint, result);
    var kind := KindOf(result);
    for i := 0 to |ids|
      invariant accepted == i && forall j :: 0 <= j < i ==> commits(j) && !fails(j)
      invariant scope.attempts == MarkedUpTo(attempts, i)
      invariant store.log == log + Outcomes(fingerprint, result, ids[..i])
    {
      OutcomesNext(fingerprint, result, ids, i);
      MarksNext(attempts, i);
      var ok := store.Record(ids[i], kind, hash, commits(i), fails(i));
      if !ok {
        handed := OpenIds(scope.attempts);
        return Failed, handed, i;
      }
      scope.Recorded(ids[i]);
      accepted := i + 1;
    }
    handed := OpenIds(scope.attempts);
    if result.Signed? { SignedLogged(fingerprint, result, attempts, ids); }
    return result, handed, accepted;
  }
}

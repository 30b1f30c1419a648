/**
 The half-open trap is real: a Do call that leaves on its context records nothing
 (executor.go), and only a record frees half-open slots (breaker.go).  Such an exit
 needs a retry to wait for, so the trap can be reached exactly when MaxAttempts
 allows a second attempt and the classifier calls some error retryable.
 */
module HalfOpenTrap {
  import opened BreakerHistory
  import opened ExecutorProtocol

  lemma AdmittedStep(p: Policy, s: State, a: Action)
    requires Enabled(p, s, a)
    ensures var s' := Apply(p, s, a);
            var before := AdmittedSinceRecord(p.breaker, s.history) - |InFlight(s)|;
            var after := AdmittedSinceRecord(p.breaker, s'.history) - |InFlight(s')|;
            after <= before + (if a.CtxDone? then 1 else 0) || AdmittedSinceRecord(p.breaker, s'.history) == 0
  {
    InFlightStep(p, s, a);
    hide Admits, InFlight, AdmittedSinceRecord;
    match a
    case Enter(_) => Snoc(p.breaker, s.history, Allow(s.now));
    case RecordSuccess(_) => Snoc(p.breaker, s.history, Success(s.now));
    case RecordFailure(_) => Snoc(p.breaker, s.history, Failure(s.now));
    case _ =>
  }

  /** Requests let through since the latest record are still in flight, or were cancelled. */
  lemma {:induction false} AdmittedAreAccountedFor(p: Policy, now: int, log: seq<Action>)
    requires Exec(p, Init(now), log).Some?
    ensures var s := Exec(p, Init(now), log).value;
            AdmittedSinceRecord(p.breaker, s.history) <= |InFlight(s)| + Cancellations(log)
  {
    if log != [] {
      var front, a := log[..|log| - 1], log[|log| - 1];
      AdmittedAreAccountedFor(p, now, front);
      hide Enabled, Apply;
      AdmittedStep(p, Exec(p, Init(now), front).value, a);
    }
  }

  predicate NobodyWaits(s: State) {
    forall id :: id in s.calls ==> !s.calls[id].Waiting?
  }

  lemma NobodyStartsWaiting(p: Policy, s: State, a: Action)
    requires Enabled(p, s, a) && NobodyWaits(s)
    requires a.FnErr? && a.retryable ==> s.calls[a.id].attempt == p.maxAttempts
    ensures NobodyWaits(Apply(p, s, a)) && !a.CtxDone?
  {
  }

  /** Without a second attempt, or without retryable errors, no call ever waits. */
  lemma {:induction false} NoRetryNoCancellation(p: Policy, now: int, log: seq<Action>, retries: bool, finals: bool)
    requires p.Valid() && Exec(p, Init(now), log).Some? && Fits(log, retries, finals)
    requires p.maxAttempts == 1 || !retries
    ensures NobodyWaits(Exec(p, Init(now), log).value) && Cancellations(log) == 0
  {
    if log != [] {
      var front, a := log[..|log| - 1], log[|log| - 1];
      NoRetryNoCancellation(p, now, front, retries, finals);
      if a.FnErr? {
        EveryCallIsPaced(p, now, front, a.id);
      }
      NobodyStartsWaiting(p, Exec(p, Init(now), front).value, a);
    }
  }

  lemma NoRetryNeverTraps(p: Policy, now: int, log: seq<Action>, retries: bool, finals: bool)
    requires p.Valid() && Exec(p, Init(now), log).Some? && Fits(log, retries, finals)
    requires p.maxAttempts == 1 || !retries
    ensures !Trapped(p, Exec(p, Init(now), log).value)
  {
    var s := Exec(p, Init(now), log).value;
    Accounting(p, now, log);
    AdmittedAreAccountedFor(p, now, log);
    NoRetryNoCancellation(p, now, log, retries, finals);
    if !IsClosed(p.breaker, s.history) {
      HalfOpenDiscipline(p.breaker, s.history, s.now);
    }
  }

  // ---- A run into the trap, with retryable errors only ----

  /** fn fails in each of the n attempts left, and the failure is recorded. */
  function Exhaust(id: Id, n: int): seq<Action> {
    if n <= 1 then [FnErr(id, true), RecordFailure(id)]
    else [FnErr(id, true), Timer(id)] + Exhaust(id, n - 1)
  }

  lemma {:induction false} ExhaustFits(id: Id, n: int)
    ensures Fits(Exhaust(id, n), true, false)
  {
    if 1 < n {
      ExhaustFits(id, n - 1);
      FitsConcat([FnErr(id, true), Timer(id)], Exhaust(id, n - 1), true, false);
    }
  }

  /** Two steps of the one call in flight. */
  lemma TwoSteps(p: Policy, s: State, a: Action, b: Action, rest: seq<Action>)
    requires Enabled(p, s, a) && Enabled(p, Apply(p, s, a), b)
    ensures Exec(p, s, [a, b] + rest) == Exec(p, Apply(p, Apply(p, s, a), b), rest)
  {
    assert [a, b] + rest == [a] + ([b] + rest);
    ExecCons(p, s, a, [b] + rest);
    ExecCons(p, Apply(p, s, a), b, rest);
  }

  lemma {:induction false} RunExhaust(p: Policy, s: State, id: Id, attempt: nat)
    requires p.Valid() && 1 <= attempt <= p.maxAttempts
    requires id in s.calls && s.calls[id] == Calling(attempt) && InFlight(s) == {id}
    ensures Exec(p, s, Exhaust(id, p.maxAttempts - attempt + 1)).Some?
    ensures var s' := Exec(p, s, Exhaust(id, p.maxAttempts - attempt + 1)).value;
            InFlight(s') == {} && s'.now == s.now && s'.history == s.history + [Failure(s.now)]
    decreases p.maxAttempts - attempt
  {
    var s1 := Apply(p, s, FnErr(id, true));
    if attempt == p.maxAttempts {
      var s2 := Apply(p, s1, RecordFailure(id));
      TwoSteps(p, s, FnErr(id, true), RecordFailure(id), []);
      assert [FnErr(id, true), RecordFailure(id)] + [] == Exhaust(id, 1);
      assert s1.calls[id] == Failing(attempt) && s2.calls == s.calls[id := Returned(Failed, attempt)];
      assert id !in InFlight(s2);
      assert forall i :: i in InFlight(s2) ==> i in InFlight(s);
      assert InFlight(s2) == {};
    } else {
      var s2 := Apply(p, s1, Timer(id));
      assert InFlight(s2) == InFlight(s);
      RunExhaust(p, s2, id, attempt + 1);
      TwoSteps(p, s, FnErr(id, true), Timer(id), Exhaust(id, p.maxAttempts - attempt));
    }
  }

  /** One call, failing in every attempt. */
  lemma RunFailingCall(p: Policy, s: State, id: Id) returns (acts: seq<Action>)
    requires p.Valid() && id !in s.calls && Admits(p.breaker, s.history, s.now) && InFlight(s) == {}
    ensures Exec(p, s, acts).Some? && Fits(acts, true, false)
    ensures var s' := Exec(p, s, acts).value;
            InFlight(s') == {} && s'.now == s.now && s'.history == s.history + [Allow(s.now)] + [Failure(s.now)]
  {
    var s1 := Apply(p, s, Enter(id));
    assert InFlight(s1) == InFlight(s) + {id};
    acts := [Enter(id)] + Exhaust(id, p.maxAttempts);
    RunExhaust(p, s1, id, 1);
    ExecCons(p, s, Enter(id), Exhaust(id, p.maxAttempts));
    ExhaustFits(id, p.maxAttempts);
    FitsConcat([Enter(id)], Exhaust(id, p.maxAttempts), true, false);
  }

  /** One call, cancelled while it waits for its second attempt. */
  lemma RunCancelledCall(p: Policy, s: State, id: Id) returns (acts: seq<Action>)
    requires p.Valid() && 1 < p.maxAttempts
    requires id !in s.calls && Admits(p.breaker, s.history, s.now) && InFlight(s) == {}
    ensures Exec(p, s, acts).Some? && Fits(acts, true, false)
    ensures var s' := Exec(p, s, acts).value;
            InFlight(s') == {} && s'.now == s.now && s'.history == s.history + [Allow(s.now)]
  {
    var s1 := Apply(p, s, Enter(id));
    var s3 := Apply(p, Apply(p, s1, FnErr(id, true)), CtxDone(id));
    acts := [Enter(id)] + ([FnErr(id, true), CtxDone(id)] + []);
    TwoSteps(p, s1, FnErr(id, true), CtxDone(id), []);
    ExecCons(p, s, Enter(id), [FnErr(id, true), CtxDone(id)] + []);
    assert InFlight(s3) == InFlight(s);
  }

  /** Failing calls, one after another, trip the breaker. */
  lemma {:induction false} Trip(p: Policy, s: State) returns (acts: seq<Action>)
    requires p.Valid() && InFlight(s) == {} && IsClosed(p.breaker, s.history)
    ensures Exec(p, s, acts).Some? && Fits(acts, true, false)
    ensures var s' := Exec(p, s, acts).value;
            && InFlight(s') == {} && !IsClosed(p.breaker, s'.history) && Probes(p.breaker, s'.history) == 0
            && s'.now == s.now && LastFailure(s'.history) == s.now
    decreases p.breaker.threshold - FailureRun(s.history)
  {
    var id := FreshId(s);
    acts := RunFailingCall(p, s, id);
    Snoc(p.breaker, s.history, Allow(s.now));
    Snoc(p.breaker, s.history + [Allow(s.now)], Failure(s.now));
    var s1 := Exec(p, s, acts).value;
    if IsClosed(p.breaker, s1.history) {
      var rest := Trip(p, s1);
      ExecAppend(p, s, acts, rest);
      FitsConcat(acts, rest, true, false);
      acts := acts + rest;
    }
  }

  /** After the timeout, cancelled probes use the slots up. */
  lemma {:induction false} WasteSlots(p: Policy, s: State) returns (acts: seq<Action>)
    requires p.Valid() && 1 < p.maxAttempts && InFlight(s) == {} && !IsClosed(p.breaker, s.history)
    requires p.breaker.openTimeout <= s.now - LastFailure(s.history)
    ensures Exec(p, s, acts).Some? && Fits(acts, true, false) && Trapped(p, Exec(p, s, acts).value)
    decreases p.breaker.halfOpenMax - Probes(p.breaker, s.history)
  {
    acts := [];
    if Probes(p.breaker, s.history) < p.breaker.halfOpenMax {
      var id := FreshId(s);
      var first := RunCancelledCall(p, s, id);
      Snoc(p.breaker, s.history, Allow(s.now));
      var s1 := Exec(p, s, first).value;
      var rest := WasteSlots(p, s1);
      ExecAppend(p, s, first, rest);
      FitsConcat(first, rest, true, false);
      acts := first + rest;
    }
  }

  lemma RetriesLeadIntoTheTrap(p: Policy, now: int) returns (log: seq<Action>)
    requires p.Valid() && 1 < p.maxAttempts
    ensures Exec(p, Init(now), log).Some? && Fits(log, true, false) && Trapped(p, Exec(p, Init(now), log).value)
  {
    var s := Init(now);
    assert InFlight(s) == {};
    var first := Trip(p, s);
    var s1 := Exec(p, s, first).value;
    var later := s1.now + p.breaker.openTimeout;
    var s2 := Apply(p, s1, Tick(later));
    assert InFlight(s2) == InFlight(s1);
    var rest := WasteSlots(p, s2);
    ExecCons(p, s1, Tick(later), rest);
    ExecAppend(p, s, first, [Tick(later)] + rest);
    log := first + ([Tick(later)] + rest);
    FitsConcat([Tick(later)], rest, true, false);
    FitsConcat(first, [Tick(later)] + rest, true, false);
  }

  /** Some run under such a classifier ends in the trap. */
  ghost predicate TrapReachable(p: Policy, now: int, retries: bool, finals: bool) {
    exists log :: Exec(p, Init(now), log).Some? && Fits(log, retries, finals) &&
                  Trapped(p, Exec(p, Init(now), log).value)
  }

  /** For every classifier, be it one that retries everything, nothing, or some errors: the
      trap can be reached exactly when calls can be retried. */
  lemma TrapReachableIffRetries(p: Policy, now: int, retries: bool, finals: bool)
    requires p.Valid()
    ensures TrapReachable(p, now, retries, finals) <==> 1 < p.maxAttempts && retries
  {
    if 1 < p.maxAttempts && retries {
      var log := RetriesLeadIntoTheTrap(p, now);
      assert Fits(log, retries, finals);
    } else {
      forall log | Exec(p, Init(now), log).Some? && Fits(log, retries, finals)
        ensures !Trapped(p, Exec(p, Init(now), log).value)
      {
        NoRetryNeverTraps(p, now, log, retries, finals);
      }
    }
  }
}

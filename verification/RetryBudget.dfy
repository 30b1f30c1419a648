/**
 Retry loop, circuit breaker and error queue together: with J retryable errors
 injected for an operation of the in-memory backend, and Do calls made one after the
 other without cancellation inside the open timeout, how many calls fail and how many
 requests reach the backend is settled by J div MaxAttempts and the threshold.
 */
module RetryBudget {
  import opened BreakerHistory
  import opened ExecutorProtocol
  import opened Wrappers
  import K = KvSpec

  /** Errors were injected for this operation, and none that would fail all of them. */
  predicate Injected(queue: K.Errors, op: string) {
    op != "" && op in queue && ("" in queue ==> queue[""] == [])
  }

  /** What the backend answers when it was called c times before. */
  function Answer(queue: K.Errors, op: string, c: nat): Option<K.Error> {
    K.NextError(K.AfterErrors(queue, op, c), op)
  }

  /** One step of such a run; c is the number of times the backend was called before. */
  predicate OrderlyStep(p: Policy, s: State, a: Action, start: int, c: nat, queue: K.Errors, op: string) {
    match a
    case Tick(now) => now < start + p.breaker.openTimeout
    case Enter(_) => InFlight(s) == {}
    case FnOk(_) => Answer(queue, op, c).None?
    case FnErr(_, retryable) => Answer(queue, op, c).Some? && retryable
    case CtxDone(_) => false
    case _ => true
  }

  predicate Orderly(p: Policy, start: int, log: seq<Action>, queue: K.Errors, op: string) {
    && Exec(p, Init(start), log).Some?
    && (log != [] ==>
          var front := log[..|log| - 1];
          && Orderly(p, start, front, queue, op)
          && OrderlyStep(p, Exec(p, Init(start), front).value, log[|log| - 1], start, BackendCalls(front), queue, op))
  }

  /** The same with the queue's length instead of the queue. */
  predicate CountedStep(p: Policy, s: State, a: Action, start: int, c: nat, errors: nat) {
    match a
    case Tick(now) => now < start + p.breaker.openTimeout
    case Enter(_) => InFlight(s) == {}
    case FnOk(_) => errors <= c
    case FnErr(_, retryable) => c < errors
    case CtxDone(_) => false
    case _ => true
  }

  lemma OrderlyIsCounted(p: Policy, s: State, a: Action, start: int, c: nat, queue: K.Errors, op: string)
    requires Injected(queue, op) && OrderlyStep(p, s, a, start, c, queue, op)
    ensures CountedStep(p, s, a, start, c, |queue[op]|)
    ensures a.FnErr? ==> a.retryable
  {
    K.QueueFailsTheFirstCalls(queue, op, c);
  }

  /** e times m, by repeated addition. */
  function Times(e: nat, m: int): int {
    if e == 0 then 0 else Times(e - 1, m) + m
  }

  lemma {:induction false} TimesIsProduct(e: nat, m: int)
    ensures Times(e, m) == e * m
  {
    if e > 0 {
      TimesIsProduct(e - 1, m);
    }
  }

  /** Backend calls made by the calls that failed by exhaustion. */
  function Spent(p: Policy, s: State): int {
    Times(Failures(s.history), p.maxAttempts)
  }

  /** What the one call in flight has cost so far. */
  predicate Running(p: Policy, s: State, call: Call, c: nat, errors: nat) {
    if Successes(s.history) == 0 then
      && Failures(s.history) < p.breaker.threshold
      && match call
         case Calling(a) => 1 <= a <= p.maxAttempts && c == Spent(p, s) + a - 1 && c <= errors
         case Waiting(a) => 1 <= a < p.maxAttempts && c == Spent(p, s) + a && c <= errors
         case Failing(a) => a == p.maxAttempts && c == Spent(p, s) + a && c <= errors
         case Succeeding(a) => 1 <= a <= p.maxAttempts && c == Spent(p, s) + a == errors + 1
         case Returned(_, _) => false
    else
      || (call == Calling(1) && c == errors + Successes(s.history))
      || (call == Succeeding(1) && c == errors + Successes(s.history) + 1)
  }

  predicate Settled(p: Policy, s: State, o: Outcome, a: nat, errors: nat) {
    match o
    case Rejected => a == 0 && Failures(s.history) == p.breaker.threshold && Successes(s.history) == 0
    case Failed => a == p.maxAttempts
    case Succeeded =>
      && 0 < Successes(s.history)
      && (a == 1 || a == errors - Spent(p, s) + 1)
      && (Successes(s.history) == 1 ==> a == errors - Spent(p, s) + 1)
    case Cancelled => false
  }

  predicate Books(p: Policy, s: State, start: int, c: nat, errors: nat) {
    && start <= s.now < start + p.breaker.openTimeout
    && (0 < FailureRun(s.history) ==> start <= LastFailure(s.history))
    && Failures(s.history) <= p.breaker.threshold
    && (if Successes(s.history) == 0
        then FailureRun(s.history) == Failures(s.history) && (InFlight(s) == {} ==> c == Spent(p, s) <= errors)
        else
          && FailureRun(s.history) == 0
          && (InFlight(s) == {} ==> c == errors + Successes(s.history))
          && Spent(p, s) <= errors < Spent(p, s) + p.maxAttempts
          && Failures(s.history) < p.breaker.threshold)
    && (forall id :: id in InFlight(s) ==> InFlight(s) == {id} && Running(p, s, s.calls[id], c, errors))
    && (forall id :: id in s.calls && s.calls[id].Returned? ==>
                       Settled(p, s, s.calls[id].outcome, s.calls[id].attempt, errors))
  }

  lemma AtLeastOne(d: int, m: int)
    requires 1 <= d && 0 < m
    ensures m <= d * m
  {
  }

  lemma Quotient(j: int, e: int, m: int)
    requires 0 < m && e * m <= j
    ensures e <= j / m
    ensures j < e * m + m ==> j / m == e && j % m == j - e * m
  {
    var q, r := j / m, j % m;
    assert q * m + r == j;
    assert (e - q) * m == e * m - q * m;
    assert (q - e) * m == q * m - e * m;
    if q < e {
      AtLeastOne(e - q, m);
    }
    if e < q {
      AtLeastOne(q - e, m);
    }
  }

  lemma EnterKeepsBooks(p: Policy, s: State, a: Action, start: int, c: nat, errors: nat)
    requires p.Valid() && Books(p, s, start, c, errors)
    requires a.Enter? && Enabled(p, s, a) && CountedStep(p, s, a, start, c, errors)
    ensures Books(p, Apply(p, s, a), start, c, errors)
  {
    var s' := Apply(p, s, a);
    Snoc(p.breaker, s.history, Allow(s.now));
    if Admits(p.breaker, s.history, s.now) {
      assert InFlight(s') == {a.id};
    } else {
      assert InFlight(s') == {};
    }
  }

  /** A record ends the one call in flight. */
  lemma RecordEndsTheCall(p: Policy, s: State, a: Action, start: int, c: nat, errors: nat)
    requires Books(p, s, start, c, errors) && (a.RecordSuccess? || a.RecordFailure?) && Enabled(p, s, a)
    ensures Running(p, s, s.calls[a.id], c, errors)
    ensures InFlight(Apply(p, s, a)) == {}
  {
    assert a.id in InFlight(s);
    assert InFlight(Apply(p, s, a)) == InFlight(s) - {a.id};
  }

  lemma SuccessKeepsBooks(p: Policy, s: State, a: Action, start: int, c: nat, errors: nat)
    requires p.Valid() && Books(p, s, start, c, errors) && a.RecordSuccess? && Enabled(p, s, a)
    ensures Books(p, Apply(p, s, a), start, c, errors)
  {
    RecordEndsTheCall(p, s, a, start, c, errors);
    Snoc(p.breaker, s.history, Success(s.now));
    var s' := Apply(p, s, a);
    assert s'.history == s.history + [Success(s.now)];
    assert Spent(p, s') == Spent(p, s);
    hide Times, InFlight;
    forall id | id in s'.calls && s'.calls[id].Returned?
      ensures Settled(p, s', s'.calls[id].outcome, s'.calls[id].attempt, errors)
    {
      if id != a.id {
        assert Settled(p, s, s.calls[id].outcome, s.calls[id].attempt, errors);
      }
    }
  }

  /** As long as no call succeeded and the threshold is not reached, calls only failed. */
  lemma OnlyFailedSoFar(p: Policy, s: State, o: Outcome, a: nat, errors: nat)
    requires Settled(p, s, o, a, errors) && Successes(s.history) == 0 && Failures(s.history) < p.breaker.threshold
    ensures o == Failed && a == p.maxAttempts
  {
  }

  lemma FailedIsSettled(p: Policy, s: State, a: nat, errors: nat)
    requires a == p.maxAttempts
    ensures Settled(p, s, Failed, a, errors)
  {
  }

  /** The call whose failure is recorded has used up its attempts. */
  lemma FailingHasSpent(p: Policy, s: State, call: Call, c: nat, errors: nat)
    requires Running(p, s, call, c, errors) && call.Failing?
    ensures Successes(s.history) == 0 && Failures(s.history) < p.breaker.threshold
    ensures call.attempt == p.maxAttempts && c == Spent(p, s) + p.maxAttempts && c <= errors
  {
  }

  lemma FailureKeepsBooks(p: Policy, s: State, a: Action, start: int, c: nat, errors: nat)
    requires p.Valid() && Books(p, s, start, c, errors) && a.RecordFailure? && Enabled(p, s, a)
    ensures Books(p, Apply(p, s, a), start, c, errors)
  {
    RecordEndsTheCall(p, s, a, start, c, errors);
    FailingHasSpent(p, s, s.calls[a.id], c, errors);
    Snoc(p.breaker, s.history, Failure(s.now));
    var s' := Apply(p, s, a);
    assert s'.history == s.history + [Failure(s.now)];
    assert Spent(p, s') == Spent(p, s) + p.maxAttempts;
    hide Times, InFlight, Settled, Running, FailureRun, LastFailure, Failures, Successes;
    forall id | id in s'.calls && s'.calls[id].Returned?
      ensures Settled(p, s', s'.calls[id].outcome, s'.calls[id].attempt, errors)
    {
      if id != a.id {
        OnlyFailedSoFar(p, s, s.calls[id].outcome, s.calls[id].attempt, errors);
      }
      FailedIsSettled(p, s', s'.calls[id].attempt, errors);
    }
  }

  lemma OtherKeepsBooks(p: Policy, s: State, a: Action, start: int, c: nat, errors: nat)
    requires p.Valid() && Books(p, s, start, c, errors)
    requires a.Tick? || a.FnOk? || a.FnErr? || a.Timer?
    requires Enabled(p, s, a) && CountedStep(p, s, a, start, c, errors)
    requires a.FnErr? ==> a.retryable
    ensures Books(p, Apply(p, s, a), start, c + if a.FnOk? || a.FnErr? then 1 else 0, errors)
  {
    var s' := Apply(p, s, a);
    if !a.Tick? {
      assert a.id in InFlight(s);
    }
    assert InFlight(s') == InFlight(s);
  }

  lemma BooksAtStart(p: Policy, start: int, errors: nat)
    requires p.Valid()
    ensures Books(p, Init(start), start, 0, errors)
  {
    assert InFlight(Init(start)) == {};
  }

  lemma {:induction false} BooksAreKept(p: Policy, start: int, log: seq<Action>, queue: K.Errors, op: string)
    requires p.Valid() && Injected(queue, op) && Orderly(p, start, log, queue, op)
    ensures Books(p, Exec(p, Init(start), log).value, start, BackendCalls(log), |queue[op]|)
  {
    hide Books, CountedStep;
    var errors := |queue[op]|;
    if log == [] {
      BooksAtStart(p, start, errors);
    } else {
      var front, a := log[..|log| - 1], log[|log| - 1];
      BooksAreKept(p, start, front, queue, op);
      var s, c := Exec(p, Init(start), front).value, BackendCalls(front);
      OrderlyIsCounted(p, s, a, start, c, queue, op);
      if a.Enter? { EnterKeepsBooks(p, s, a, start, c, errors); }
      else if a.RecordSuccess? { SuccessKeepsBooks(p, s, a, start, c, errors); }
      else if a.RecordFailure? { FailureKeepsBooks(p, s, a, start, c, errors); }
      else { OtherKeepsBooks(p, s, a, start, c, errors); }
    }
  }

  /** How many calls can fail by exhaustion. */
  function Budget(p: Policy, errors: nat): int
    requires p.Valid()
  {
    if errors / p.maxAttempts < p.breaker.threshold then errors / p.maxAttempts else p.breaker.threshold
  }

  /** How J errors in the queue are spent, as far as the call id can tell: how many calls
      failed and succeeded, and how often the backend was called. */
  predicate BudgetSpent(p: Policy, s: State, backendCalls: nat, errors: nat, id: Id)
    requires p.Valid()
  {
    var failed, succeeded := |Ended(s.calls, Failed)|, |Ended(s.calls, Succeeded)|;
    && failed <= Budget(p, errors)
    && (id in Ended(s.calls, Rejected) + Ended(s.calls, Succeeded) ==> failed == Budget(p, errors))
    && (id in Ended(s.calls, Rejected) ==>
          && p.breaker.threshold <= errors / p.maxAttempts
          && backendCalls == p.breaker.threshold * p.maxAttempts)
    && (id in Ended(s.calls, Succeeded) ==>
          && errors / p.maxAttempts < p.breaker.threshold
          && (s.calls[id].attempt == 1 || s.calls[id].attempt == errors % p.maxAttempts + 1)
          && (succeeded == 1 ==> s.calls[id].attempt == errors % p.maxAttempts + 1)
          && (InFlight(s) == {} ==> backendCalls == errors + succeeded))
    && (id in Ended(s.calls, Failed) ==> s.calls[id].attempt == p.maxAttempts)
    && id !in Ended(s.calls, Cancelled)
  }

  /** Never more than min(J div m, T) calls fail, and exactly that many have failed once any
      call ended otherwise.  A call is rejected only if J div m >= T, and then exactly T*m
      requests reached the backend; a call succeeds only if J div m < T, the first one to do
      so after J mod m failures, and then, between calls, the backend has been called J times
      in vain and once for each success. */
  lemma FailuresSpendTheBudget(p: Policy, start: int, log: seq<Action>, queue: K.Errors, op: string, id: Id)
    requires p.Valid() && Injected(queue, op) && Orderly(p, start, log, queue, op)
    ensures BudgetSpent(p, Exec(p, Init(start), log).value, BackendCalls(log), |queue[op]|, id)
  {
    BooksAreKept(p, start, log, queue, op);
    RecordsAreCalls(p, start, log);
    BooksSettle(p, Exec(p, Init(start), log).value, start, BackendCalls(log), |queue[op]|, id);
  }

  lemma BooksSettle(p: Policy, s: State, start: int, c: nat, errors: nat, id: Id)
    requires p.Valid() && Books(p, s, start, c, errors)
    requires Failures(s.history) == |Ended(s.calls, Failed)| && Successes(s.history) == |Ended(s.calls, Succeeded)|
    ensures BudgetSpent(p, s, c, errors, id)
  {
    TimesIsProduct(Failures(s.history), p.maxAttempts);
    if Successes(s.history) == 0 {
      SpentSoFar(p, s, start, c, errors);
    }
    Quotient(errors, Failures(s.history), p.maxAttempts);
  }

  lemma SpentSoFar(p: Policy, s: State, start: int, c: nat, errors: nat)
    requires p.Valid() && Books(p, s, start, c, errors)
    requires Successes(s.history) == 0 || Failures(s.history) == p.breaker.threshold
    ensures Spent(p, s) <= errors
    ensures Failures(s.history) == p.breaker.threshold ==> InFlight(s) == {} && c == Spent(p, s)
  {
    if InFlight(s) != {} {
      var x :| x in InFlight(s);
      assert Running(p, s, s.calls[x], c, errors);
    }
  }

  /** Once as many calls as the threshold have failed, the breaker stays open and nothing more reaches the
      backend: the number of backend calls is T*m, whatever is tried. */
  lemma NothingPassesAfterwards(p: Policy, start: int, log: seq<Action>, queue: K.Errors, op: string)
    requires p.Valid() && Injected(queue, op) && Orderly(p, start, log, queue, op)
    requires |Ended(Exec(p, Init(start), log).value.calls, Failed)| == p.breaker.threshold
    ensures var s := Exec(p, Init(start), log).value;
            && !Admits(p.breaker, s.history, s.now)
            && InFlight(s) == {}
            && BackendCalls(log) == p.breaker.threshold * p.maxAttempts
  {
    BooksAreKept(p, start, log, queue, op);
    RecordsAreCalls(p, start, log);
    var s := Exec(p, Init(start), log).value;
    SpentSoFar(p, s, start, BackendCalls(log), |queue[op]|);
    TimesIsProduct(Failures(s.history), p.maxAttempts);
  }
}

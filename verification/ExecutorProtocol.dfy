/**
 Any number of concurrent Executor.Do calls sharing one circuit breaker, as an
 interleaving of atomic steps.  The breaker is represented by its history.
 */
module ExecutorProtocol {
  import opened BreakerHistory
  import opened Wrappers

  type Id = nat

  datatype Policy = Policy(breaker: Config, maxAttempts: int) {
    predicate Valid() {
      breaker.Valid() && 1 <= maxAttempts
    }
  }

  datatype Outcome = Rejected | Succeeded | Failed | Cancelled

  /** Where one Do call stands. */
  datatype Call =
    // fn is running
    | Calling(attempt: nat)
    // fn returned no error; RecordSuccess is next
    | Succeeding(attempt: nat)
    // fn's error ends the call; RecordFailure is next
    | Failing(attempt: nat)
    // waiting for the backoff timer or the context
    | Waiting(attempt: nat)
    | Returned(outcome: Outcome, attempt: nat)

  datatype State = State(now: int, history: History, calls: map<Id, Call>)

  datatype Action =
    | Tick(now: int)
    | Enter(id: Id)
    | FnOk(id: Id)
    | FnErr(id: Id, retryable: bool)
    | RecordSuccess(id: Id)
    | RecordFailure(id: Id)
    | Timer(id: Id)
    | CtxDone(id: Id)

  /** Which step of a call can follow where it stands. */
  predicate CanStep(call: Call, a: Action) {
    match a
    case FnOk(_) => call.Calling?
    case FnErr(_, _) => call.Calling?
    case RecordSuccess(_) => call.Succeeding?
    case RecordFailure(_) => call.Failing?
    case Timer(_) => call.Waiting?
    case CtxDone(_) => call.Waiting?
    case _ => false
  }

  function NextCall(p: Policy, call: Call, a: Action): Call
    requires CanStep(call, a)
  {
    var n := call.attempt;
    match a
    case FnOk(_) => Succeeding(n)
    case FnErr(_, retryable) => if !retryable || n == p.maxAttempts then Failing(n) else Waiting(n)
    case RecordSuccess(_) => Returned(Succeeded, n)
    case RecordFailure(_) => Returned(Failed, n)
    case Timer(_) => Calling(n + 1)
    case CtxDone(_) => Returned(Cancelled, n)
  }

  predicate Enabled(p: Policy, s: State, a: Action) {
    match a
    case Tick(now) => s.now <= now
    case Enter(id) => id !in s.calls
    case _ => a.id in s.calls && CanStep(s.calls[a.id], a)
  }

  function Apply(p: Policy, s: State, a: Action): State
    requires Enabled(p, s, a)
  {
    match a
    case Tick(now) => s.(now := now)
    case Enter(id) =>
      var call := if Admits(p.breaker, s.history, s.now) then Calling(1) else Returned(Rejected, 0);
      s.(history := s.history + [Allow(s.now)], calls := s.calls[id := call])
    case _ =>
      s.(history := if a.RecordSuccess? then s.history + [Success(s.now)]
                    else if a.RecordFailure? then s.history + [Failure(s.now)]
                    else s.history,
         calls := s.calls[a.id := NextCall(p, s.calls[a.id], a)])
  }

  function Init(now: int): State {
    State(now, [], map[])
  }

  function Exec(p: Policy, s0: State, log: seq<Action>): Option<State> {
    if log == [] then Some(s0)
    else
      match Exec(p, s0, log[..|log| - 1])
      case None => None
      case Some(s) =>
        if Enabled(p, s, log[|log| - 1]) then Some(Apply(p, s, log[|log| - 1])) else None
  }

  lemma {:induction false} ExecAppend(p: Policy, s0: State, log: seq<Action>, more: seq<Action>)
    ensures Exec(p, s0, log + more) ==
            match Exec(p, s0, log)
            case None => None
            case Some(s) => Exec(p, s, more)
    decreases |more|
  {
    if more == [] {
      assert log + more == log;
    } else {
      var front, a := more[..|more| - 1], more[|more| - 1];
      ExecAppend(p, s0, log, front);
      ExecSnoc(p, s0, log + front, a);
      assert log + more == (log + front) + [a];
    }
  }

  lemma ExecCons(p: Policy, s: State, a: Action, more: seq<Action>)
    requires Enabled(p, s, a)
    ensures Exec(p, s, [a] + more) == Exec(p, Apply(p, s, a), more)
  {
    ExecSnoc(p, s, [], a);
    assert [] + [a] == [a];
    ExecAppend(p, s, [a], more);
  }

  lemma ExecSnoc(p: Policy, s0: State, log: seq<Action>, a: Action)
    ensures Exec(p, s0, log + [a]) ==
            match Exec(p, s0, log)
            case None => None
            case Some(s) => if Enabled(p, s, a) then Some(Apply(p, s, a)) else None
  {
    assert (log + [a])[..|log + [a]| - 1] == log;
  }

  /** The calls the breaker let through that have neither recorded nor left on their context. */
  function InFlight(s: State): set<Id> {
    Open(s.calls)
  }

  function Open(calls: map<Id, Call>): set<Id> {
    set id | id in calls && !calls[id].Returned?
  }

  function Cancellations(log: seq<Action>): nat {
    if log == [] then 0 else Cancellations(log[..|log| - 1]) + if log[|log| - 1].CtxDone? then 1 else 0
  }

  /** How often fn returned. */
  function BackendCalls(log: seq<Action>): nat {
    if log == [] then 0
    else BackendCalls(log[..|log| - 1]) + if log[|log| - 1].FnOk? || log[|log| - 1].FnErr? then 1 else 0
  }

  // ---- Accounting ----

  lemma PutCall(calls: map<Id, Call>, id: Id, call: Call)
    ensures var now := Open(calls[id := call]);
            && (call.Returned? && id !in Open(calls) ==> now == Open(calls))
            && (call.Returned? && id in Open(calls) ==> |now| == |Open(calls)| - 1)
            && (!call.Returned? && id in Open(calls) ==> now == Open(calls))
            && (!call.Returned? && id !in Open(calls) ==> |now| == |Open(calls)| + 1)
  {
    var now := Open(calls[id := call]);
    if call.Returned? {
      assert now == Open(calls) - {id};
    } else {
      assert now == Open(calls) + {id};
    }
  }

  /** How many calls are in flight after a step. */
  function Change(p: Policy, s: State, a: Action): int {
    match a
    case Enter(_) => if Admits(p.breaker, s.history, s.now) then 1 else 0
    case RecordSuccess(_) => -1
    case RecordFailure(_) => -1
    case CtxDone(_) => -1
    case _ => 0
  }

  lemma InFlightStep(p: Policy, s: State, a: Action)
    requires Enabled(p, s, a)
    ensures |InFlight(Apply(p, s, a))| == |InFlight(s)| + Change(p, s, a)
  {
    if !a.Tick? {
      PutCall(s.calls, a.id, Apply(p, s, a).calls[a.id]);
    }
  }

  predicate Balanced(p: Policy, s: State, cancellations: nat) {
    && Ordered(s.history, s.now)
    && Admissions(p.breaker, s.history) == Successes(s.history) + Failures(s.history) + cancellations + |InFlight(s)|
  }

  lemma BalanceStep(p: Policy, s: State, a: Action, cancellations: nat)
    requires Enabled(p, s, a) && Balanced(p, s, cancellations)
    ensures Balanced(p, Apply(p, s, a), cancellations + if a.CtxDone? then 1 else 0)
  {
    InFlightStep(p, s, a);
    hide Admits, InFlight, Admissions, Successes, Failures, Ordered;
    match a
    case Tick(later) => OrderedLater(s.history, s.now, later);
    case Enter(_) => Snoc(p.breaker, s.history, Allow(s.now));
    case RecordSuccess(_) => Snoc(p.breaker, s.history, Success(s.now));
    case RecordFailure(_) => Snoc(p.breaker, s.history, Failure(s.now));
    case _ =>
  }

  /** Over every run: admissions = recorded successes + recorded failures
      + context exits + calls in flight. */
  lemma {:induction false} Accounting(p: Policy, now: int, log: seq<Action>)
    requires Exec(p, Init(now), log).Some?
    ensures var s := Exec(p, Init(now), log).value;
            && Ordered(s.history, s.now)
            && Admissions(p.breaker, s.history)
               == Successes(s.history) + Failures(s.history) + Cancellations(log) + |InFlight(s)|
  {
    if log != [] {
      hide Enabled, Apply;
      var front, a := log[..|log| - 1], log[|log| - 1];
      Accounting(p, now, front);
      BalanceStep(p, Exec(p, Init(now), front).value, a, Cancellations(front));
    } else {
      assert InFlight(Init(now)) == {};
    }
  }

  // ---- Each call by itself ----

  function FnReturns(log: seq<Action>, id: Id): nat {
    multiset(log)[FnOk(id)] + multiset(log)[FnErr(id, true)] + multiset(log)[FnErr(id, false)]
  }

  function Records(log: seq<Action>, id: Id): nat {
    multiset(log)[RecordSuccess(id)] + multiset(log)[RecordFailure(id)]
  }

  /** How often fn has returned and the breaker been told, given where the call stands. */
  predicate Paced(p: Policy, call: Call, returned: nat, records: nat) {
    match call
    case Calling(a) => 1 <= a <= p.maxAttempts && returned == a - 1 && records == 0
    case Succeeding(a) => 1 <= a <= p.maxAttempts && returned == a && records == 0
    case Failing(a) => 1 <= a <= p.maxAttempts && returned == a && records == 0
    case Waiting(a) => 1 <= a < p.maxAttempts && returned == a && records == 0
    case Returned(o, a) =>
      match o
      case Rejected => a == returned == records == 0
      case Cancelled => 1 <= a < p.maxAttempts && returned == a && records == 0
      case _ => 1 <= a <= p.maxAttempts && returned == a && records == 1
  }

  /** In every run, every admitted call runs fn between 1 and MaxAttempts times and records
      at most once (exactly once unless its context ended it); a rejected call does neither. */
  lemma {:induction false} EveryCallIsPaced(p: Policy, now: int, log: seq<Action>, id: Id)
    requires p.Valid() && Exec(p, Init(now), log).Some?
    ensures var s := Exec(p, Init(now), log).value;
            if id in s.calls then Paced(p, s.calls[id], FnReturns(log, id), Records(log, id))
            else FnReturns(log, id) == Records(log, id) == 0
  {
    if log != [] {
      var front, a := log[..|log| - 1], log[|log| - 1];
      EveryCallIsPaced(p, now, front, id);
      assert log == front + [a];
    }
  }

  /** The calls that ended this way. */
  function Ended(calls: map<Id, Call>, o: Outcome): set<Id> {
    set id | id in calls && calls[id].Returned? && calls[id].outcome == o
  }

  lemma PutEnded(calls: map<Id, Call>, id: Id, call: Call, o: Outcome)
    requires id in calls ==> !calls[id].Returned?
    ensures |Ended(calls[id := call], o)|
         == |Ended(calls, o)| + if call.Returned? && call.outcome == o then 1 else 0
  {
    var before, after := Ended(calls, o), Ended(calls[id := call], o);
    assert id !in before;
    assert forall i :: i != id ==> (i in after <==> i in before);
    hide Ended;
    if call.Returned? && call.outcome == o {
      assert after == before + {id};
    } else {
      assert after == before;
    }
  }

  lemma EndedStep(p: Policy, s: State, a: Action, o: Outcome)
    requires Enabled(p, s, a) && (o == Succeeded || o == Failed)
    ensures |Ended(Apply(p, s, a).calls, o)|
         == |Ended(s.calls, o)|
            + if (o == Succeeded && a.RecordSuccess?) || (o == Failed && a.RecordFailure?) then 1 else 0
  {
    if !a.Tick? {
      PutEnded(s.calls, a.id, Apply(p, s, a).calls[a.id], o);
    }
  }

  predicate Recorded(s: State) {
    Failures(s.history) == |Ended(s.calls, Failed)| && Successes(s.history) == |Ended(s.calls, Succeeded)|
  }

  lemma RecordedStep(p: Policy, s: State, a: Action)
    requires Enabled(p, s, a) && Recorded(s)
    ensures Recorded(Apply(p, s, a))
  {
    EndedStep(p, s, a, Failed);
    EndedStep(p, s, a, Succeeded);
    hide Ended, Failures, Successes, Admits;
    match a
    case Enter(_) => Snoc(p.breaker, s.history, Allow(s.now));
    case RecordSuccess(_) => Snoc(p.breaker, s.history, Success(s.now));
    case RecordFailure(_) => Snoc(p.breaker, s.history, Failure(s.now));
    case _ =>
  }

  /** In every run, the failures and successes recorded are the calls that failed and
      succeeded. */
  lemma {:induction false} RecordsAreCalls(p: Policy, now: int, log: seq<Action>)
    requires Exec(p, Init(now), log).Some?
    ensures var s := Exec(p, Init(now), log).value;
            Failures(s.history) == |Ended(s.calls, Failed)| && Successes(s.history) == |Ended(s.calls, Succeeded)|
  {
    if log != [] {
      hide Enabled, Apply;
      var front, a := log[..|log| - 1], log[|log| - 1];
      RecordsAreCalls(p, now, front);
      RecordedStep(p, Exec(p, Init(now), front).value, a);
    } else {
      assert forall o :: Ended(map[], o) == {};
    }
  }

  // ---- The half-open trap ----

  /** The errors in this log are of kinds the classifier knows: `retries` says whether it
      calls any error retryable, `finals` whether it calls any final. */
  predicate Fits(log: seq<Action>, retries: bool, finals: bool) {
    forall i :: 0 <= i < |log| && log[i].FnErr? ==> if log[i].retryable then retries else finals
  }

  lemma FitsConcat(a: seq<Action>, b: seq<Action>, retries: bool, finals: bool)
    ensures Fits(a + b, retries, finals) <==> Fits(a, retries, finals) && Fits(b, retries, finals)
  {
    var log := a + b;
    assert forall i :: 0 <= i < |a| ==> log[i] == a[i];
    assert forall i :: 0 <= i < |b| ==> log[|a| + i] == b[i];
  }

  /** A half-open episode whose slots are all taken, with no call left that could record. */
  predicate Trapped(p: Policy, s: State) {
    !IsClosed(p.breaker, s.history) && p.breaker.halfOpenMax <= Probes(p.breaker, s.history) && InFlight(s) == {}
  }

  /** No continuation under such a classifier lets another request through. */
  ghost predicate NeverAdmitsAgain(p: Policy, s: State, retries: bool, finals: bool) {
    forall acts :: Exec(p, s, acts).Some? && Fits(acts, retries, finals) ==>
                     Admissions(p.breaker, Exec(p, s, acts).value.history) == Admissions(p.breaker, s.history)
  }

  lemma {:induction false} TrapHolds(p: Policy, s: State, acts: seq<Action>)
    requires Trapped(p, s) && Exec(p, s, acts).Some?
    ensures var s' := Exec(p, s, acts).value;
            Trapped(p, s') && Admissions(p.breaker, s'.history) == Admissions(p.breaker, s.history)
  {
    if acts != [] {
      var front, a := acts[..|acts| - 1], acts[|acts| - 1];
      TrapHolds(p, s, front);
      var r := Exec(p, s, front).value;
      assert forall id :: id in InFlight(r) <==> id in r.calls && !r.calls[id].Returned?;
      InFlightStep(p, r, a);
      if a.Enter? {
        Snoc(p.breaker, r.history, Allow(r.now));
      }
    }
  }

  lemma FreshId(s: State) returns (id: Id)
    ensures id !in s.calls
  {
    id := FreshIn(s.calls.Keys);
  }

  lemma {:induction false} FreshIn(ids: set<Id>) returns (id: Id)
    ensures forall i :: i in ids ==> i < id
  {
    if ids == {} {
      id := 0;
    } else {
      var x :| x in ids;
      var y := FreshIn(ids - {x});
      id := if y <= x then x + 1 else y;
      forall i | i in ids ensures i < id {
        assert i == x || i in ids - {x};
      }
    }
  }

  /** From s, these actions let one more request through, without any error. */
  predicate LetsOneThrough(p: Policy, s: State, acts: seq<Action>) {
    && Exec(p, s, acts).Some?
    && Fits(acts, false, false)
    && Admissions(p.breaker, s.history) < Admissions(p.breaker, Exec(p, s, acts).value.history)
  }

  /** A breaker that is closed, or has slots left, lets a request through in due time. */
  lemma EnterInDueTime(p: Policy, s: State) returns (acts: seq<Action>)
    requires IsClosed(p.breaker, s.history) || Probes(p.breaker, s.history) < p.breaker.halfOpenMax
    ensures LetsOneThrough(p, s, acts)
  {
    var due := LastFailure(s.history) + p.breaker.openTimeout;
    var later := if due < s.now then s.now else due;
    var id := FreshId(s);
    var s1 := Apply(p, s, Tick(later));
    acts := [Tick(later)] + [Enter(id)];
    ExecCons(p, s, Tick(later), [Enter(id)]);
    ExecSnoc(p, s1, [], Enter(id));
    assert [] + [Enter(id)] == [Enter(id)];
    Snoc(p.breaker, s.history, Allow(later));
  }

  /** A call in flight can always get as far as recording, which frees the slots. */
  lemma {:induction false} InFlightCanRecord(p: Policy, s: State, id: Id) returns (acts: seq<Action>)
    requires p.Valid() && id in InFlight(s)
    ensures Exec(p, s, acts).Some? && Fits(acts, false, false)
    ensures var s' := Exec(p, s, acts).value;
            && Admissions(p.breaker, s'.history) == Admissions(p.breaker, s.history)
            && Probes(p.breaker, s'.history) == 0
    decreases match s.calls[id] { case Waiting(_) => 3 case Calling(_) => 2 case _ => 1 }
  {
    var a :=
      match s.calls[id] {
        case Waiting(_) => Timer(id)
        case Calling(_) => FnOk(id)
        case Succeeding(_) => RecordSuccess(id)
        case Failing(_) => RecordFailure(id)
      };
    var s1 := Apply(p, s, a);
    if a.RecordSuccess? || a.RecordFailure? {
      Snoc(p.breaker, s.history, if a.RecordSuccess? then Success(s.now) else Failure(s.now));
      acts := [a] + [];
      ExecCons(p, s, a, []);
    } else {
      var rest := InFlightCanRecord(p, s1, id);
      acts := [a] + rest;
      ExecCons(p, s, a, rest);
    }
  }

  lemma EscapesUnlessTrapped(p: Policy, s: State) returns (acts: seq<Action>)
    requires p.Valid() && !Trapped(p, s)
    ensures LetsOneThrough(p, s, acts)
  {
    if IsClosed(p.breaker, s.history) || Probes(p.breaker, s.history) < p.breaker.halfOpenMax {
      acts := EnterInDueTime(p, s);
    } else {
      var id :| id in InFlight(s);
      var first := InFlightCanRecord(p, s, id);
      var rest := EnterInDueTime(p, Exec(p, s, first).value);
      acts := first + rest;
      ExecAppend(p, s, first, rest);
      FitsConcat(first, rest, false, false);
    }
  }

  /** Whatever the classifier, the breaker never lets anything through again, however long
      one waits, exactly when it is tripped, its half-open slots are used up, and no call is
      in flight. */
  lemma ForeverClosedToTrafficIffTrapped(p: Policy, s: State, retries: bool, finals: bool)
    requires p.Valid()
    ensures NeverAdmitsAgain(p, s, retries, finals) <==> Trapped(p, s)
  {
    if Trapped(p, s) {
      forall acts | Exec(p, s, acts).Some? && Fits(acts, retries, finals)
        ensures Admissions(p.breaker, Exec(p, s, acts).value.history) == Admissions(p.breaker, s.history)
      {
        TrapHolds(p, s, acts);
      }
    } else {
      var acts := EscapesUnlessTrapped(p, s);
      assert LetsOneThrough(p, s, acts) && Fits(acts, retries, finals);
    }
  }
}

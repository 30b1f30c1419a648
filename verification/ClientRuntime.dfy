/**
 client.go and executor.go as code: execute, Close, the inflight gate and Do, running
 against a world in which other goroutines may take any number of steps between two
 of ours.  Each method is shown to follow the client protocol.
 */
module ClientRuntime {
  import opened ClientProtocol
  import opened Breaker
  import opened Backoff
  import opened Wrappers

  type Error = int

  /** Everything goroutines share, and the record of what they did. */
  class Runtime {
    const cfg: ClientProtocol.Config
    const started: int
    const breaker: CircuitBreaker
    var now: int
    var calls: map<E.Id, E.Call>
    var ops: map<Gid, Op>
    var readers: nat
    var writer: bool
    var closed: bool
    var slots: nat
    var backendCloses: nat
    ghost var log: seq<Action>

    ghost function View(): State
      reads this, breaker
    {
      State(E.State(now, breaker.history, calls), ops, readers, writer, closed, slots, backendCloses)
    }

    /** The same, without the breaker's past, which no guard looks at. */
    function Visible(): State
      reads this
    {
      State(E.State(now, [], calls), ops, readers, writer, closed, slots, backendCloses)
    }

    ghost predicate Valid()
      reads this, breaker
    {
      && cfg.Valid() && breaker.cfg == cfg.policy.breaker && breaker.Valid(now)
      && Exec(cfg, Init(started), log) == Some(View())
    }

    lemma Keeps()
      requires Valid()
      ensures Inv(cfg, View()) && Distinct(View())
    {
      RunInv(cfg, started, log);
    }

    constructor (breakerConfig: H.Config, maxAttempts: int, maxInflight: int, now: int)
      requires 0 < maxInflight
      ensures Valid() && log == [] && fresh(breaker)
      ensures cfg.maxInflight == maxInflight
      ensures cfg.policy.maxAttempts == if maxAttempts <= 0 then 3 else maxAttempts
    {
      var b := new CircuitBreaker(breakerConfig, now);
      breaker := b;
      cfg := ClientProtocol.Config(E.Policy(b.cfg, if maxAttempts <= 0 then 3 else maxAttempts), maxInflight);
      started := now;
      this.now := now;
      calls, ops, readers, writer, closed, slots, backendCloses := map[], map[], 0, false, false, 0, 0;
      log := [];
    }

    /** One step of a Do call past its admission. */
    method StepDo(g: Gid, step: E.Action)
      requires cfg.Valid() && breaker.cfg == cfg.policy.breaker && breaker.Valid(now)
      requires Enabled(cfg, View(), DoStep(g, step))
      modifies this`calls, this`ops, breaker
      ensures breaker.Valid(now) && View() == Apply(cfg, old(View()), DoStep(g, step))
    {
      var call := E.NextCall(cfg.policy, calls[step.id], step);
      if step.RecordSuccess? {
        breaker.RecordSuccess(now);
      } else if step.RecordFailure? {
        breaker.RecordFailure(now);
      }
      calls := calls[step.id := call];
      ops := ops[g := if call.Returned? then Finishing else Doing(step.id)];
    }

    /** Do asks the breaker. */
    method StepEnter(g: Gid, call: E.Id) returns (admitted: bool)
      requires cfg.Valid() && breaker.cfg == cfg.policy.breaker && breaker.Valid(now)
      requires Enabled(cfg, View(), CallDo(g, call))
      modifies this`calls, this`ops, breaker
      ensures breaker.Valid(now) && View() == Apply(cfg, old(View()), CallDo(g, call))
      ensures calls == old(calls)[call := if admitted then E.Calling(1) else E.Returned(E.Rejected, 0)]
      ensures At(Visible(), g, if admitted then Doing(call) else Finishing)
    {
      admitted := breaker.Allow(now);
      calls := calls[call := if admitted then E.Calling(1) else E.Returned(E.Rejected, 0)];
      ops := ops[g := if admitted then Doing(call) else Finishing];
    }

    /** A step on the read side of the lock. */
    method StepRead(a: Action)
      requires Enabled(cfg, View(), a) && (a.RLock? || a.RUnlock?)
      modifies this`ops, this`readers
      ensures View() == Apply(cfg, old(View()), a)
    {
      if a.RLock? {
        readers := readers + 1;
        ops := ops[a.g := Checking];
      } else {
        readers := readers - 1;
        ops := ops[a.g := Done];
      }
    }

    /** A step of Close: the write side of the lock, the flag, the backend's Close. */
    method StepClose(a: Action)
      requires Enabled(cfg, View(), a) && (a.Lock? || a.MarkClosed? || a.Unlock? || a.BackendClose?)
      modifies this`ops, this`writer, this`closed, this`backendCloses
      ensures View() == Apply(cfg, old(View()), a)
    {
      hide Enabled;
      match a {
        case Lock(g) => writer := true; ops := ops[g := CloseLocked];
        case MarkClosed(g) => closed := true; ops := ops[g := CloseMarked];
        case Unlock(g) => writer := false; ops := ops[g := CloseUnlocked];
        case BackendClose(g) => backendCloses := backendCloses + 1; ops := ops[g := Done];
      }
    }

    predicate IsChainStep(a: Action) {
      || a.CallExecute? || a.CallClose? || a.Check? || a.EnterTerminal? || a.HookError?
      || a.AcquireSlot? || a.AcquireError? || a.ReleaseSlot? || a.ChainReturns?
    }

    /** A step of the client's own outside lock and flag. */
    method StepChain(a: Action)
      requires Enabled(cfg, View(), a) && IsChainStep(a)
      modifies this`ops, this`slots
      ensures View() == Apply(cfg, old(View()), a)
    {
      match a {
        case CallExecute(g) => ops := ops[g := Entering];
        case CallClose(g) => ops := ops[g := Closing];
        case Check(g) => ops := ops[g := if closed then Refused else Handling];
        case EnterTerminal(g) => ops := ops[g := Admitting];
        case HookError(g) => ops := ops[g := Handling];
        case AcquireSlot(g) => slots := slots + 1; ops := ops[g := Slotted];
        case AcquireError(g) => ops := ops[g := Handling];
        case ReleaseSlot(g) => slots := slots - 1; ops := ops[g := Handling];
        case ChainReturns(g) => ops := ops[g := Leaving];
      }
    }

    method StepTick(later: int)
      requires breaker.Valid(now) && Enabled(cfg, View(), Tick(later))
      modifies this`now
      ensures breaker.Valid(now) && View() == Apply(cfg, old(View()), Tick(later))
    {
      breaker.ValidLater(now, later);
      now := later;
    }

    /** One atomic step of one goroutine, or of the clock. */
    method Step(a: Action)
      requires Valid() && Enabled(cfg, View(), a)
      modifies this, breaker
      ensures Valid() && View() == Apply(cfg, old(View()), a) && log == old(log) + [a]
    {
      ExecSnoc(cfg, Init(started), log, a);
      hide Apply, Enabled, Exec;
      if a.Tick? {
        StepTick(a.now);
      } else if a.CallDo? {
        var _ := StepEnter(a.g, a.call);
      } else if a.DoStep? {
        StepDo(a.g, a.step);
      } else if IsChainStep(a) {
        StepChain(a);
      } else if a.RLock? || a.RUnlock? {
        StepRead(a);
      } else {
        StepClose(a);
      }
      log := log + [a];
    }

    /** A step outside Do, seen from the goroutine that takes it. */
    method Turn(a: Action)
      requires Valid() && Enabled(cfg, View(), a) && !a.Tick? && !a.CallDo? && !a.DoStep?
      modifies this, breaker
      ensures Valid() && At(Visible(), a.g, Target(a, old(closed)))
      ensures backendCloses == old(backendCloses) + if a.BackendClose? then 1 else 0
      ensures closed == (old(closed) || a.MarkClosed?) && calls == old(calls)
    {
      Step(a);
    }

    /** The first step of g's Do call, seen from inside Do. */
    method Enter(g: Gid, call: E.Id) returns (admitted: bool)
      requires Valid() && At(Visible(), g, Slotted) && call !in calls
      modifies this, breaker
      ensures Valid() && call in calls && Remembered(old(calls), calls)
      ensures calls[call] == if admitted then E.Calling(1) else E.Returned(E.Rejected, 0)
      ensures At(Visible(), g, if admitted then Doing(call) else Finishing)
    {
      ExecSnoc(cfg, Init(started), log, CallDo(g, call));
      admitted := StepEnter(g, call);
      log := log + [CallDo(g, call)];
    }

    /** A step of g's own Do call, seen from inside Do. */
    method Continue(g: Gid, step: E.Action)
      requires Valid() && !step.Tick? && !step.Enter?
      requires At(Visible(), g, Doing(step.id)) && step.id in calls && E.CanStep(calls[step.id], step)
      modifies this, breaker
      ensures Valid() && step.id in calls && Remembered(old(calls), calls)
      ensures calls[step.id] == E.NextCall(cfg.policy, old(calls)[step.id], step)
      ensures At(Visible(), g, if calls[step.id].Returned? then Finishing else Doing(step.id))
    {
      Step(DoStep(g, step));
    }

    /** Anything may happen here except a step of goroutine g. */
    method Interfere(g: Gid)
      requires Valid()
      modifies this, breaker
      ensures Valid() && Untouched(g, old(ops), old(calls)) && (old(closed) ==> closed)
    {
      var steps: int := *;
      while 0 < steps
        invariant Valid() && Untouched(g, old(ops), old(calls)) && (old(closed) ==> closed)
      {
        var a: Action := *;
        if Enabled(cfg, Visible(), a) && !By(a, g) {
          hide Apply, Enabled, Alone;
          SameGuards(a);
          Keeps();
          OthersLeaveAlone(cfg, View(), a, g);
          ghost var s := View();
          Step(a);
          AloneIsUntouched(s, g, old(ops), old(calls));
        }
        steps := steps - 1;
      }
    }

    /** No guard looks at the breaker's past. */
    lemma SameGuards(a: Action)
      ensures Enabled(cfg, Visible(), a) <==> Enabled(cfg, View(), a)
    {
    }

    /** A step that left g alone keeps it untouched. */
    lemma AloneIsUntouched(s: State, g: Gid, ops0: map<Gid, Op>, calls0: map<E.Id, E.Call>)
      requires Alone(s, View(), g) && Remembered(calls0, s.exec.calls)
      requires g in s.ops <==> g in ops0
      requires g in s.ops ==> s.ops[g] == ops0[g]
      requires g in s.ops && s.ops[g].Doing? && s.ops[g].call in calls0 ==>
                 s.ops[g].call in s.exec.calls && s.exec.calls[s.ops[g].call] == calls0[s.ops[g].call]
      ensures Untouched(g, ops0, calls0) && (s.closed ==> closed)
    {
    }

    /** Goroutine g is where it was, so is the call it is in, and calls are remembered. */
    predicate Untouched(g: Gid, ops0: map<Gid, Op>, calls0: map<E.Id, E.Call>)
      reads this
    {
      && Remembered(calls0, calls)
      && (g in ops <==> g in ops0)
      && (g in ops ==>
            && ops[g] == ops0[g]
            && (ops[g].Doing? && ops[g].call in calls0 ==>
                  ops[g].call in calls && calls[ops[g].call] == calls0[ops[g].call]))
    }

    /** A name no Do call has had yet. */
    method NewCall() returns (call: E.Id)
      ensures call !in calls
    {
      ghost var w := E.FreshIn(calls.Keys);
      assert w !in calls;
      call :| call !in calls;
    }
  }

  datatype DoError = BreakerOpen | FnError(cause: Error) | ContextDone

  /** What a caller of Do brings along: what fn answers in each attempt, and whether the
      context ends the wait after it. */
  datatype Work = Work(fn: nat -> Result<int, Error>, leaves: nat -> bool)

  class Executor {
    const rt: Runtime
    const maxAttempts: int
    const classifier: Error -> bool
    const backoff: Strategy

    ghost predicate Valid()
      reads rt, rt.breaker
    {
      rt.Valid() && maxAttempts == rt.cfg.policy.maxAttempts && backoff.params.Valid()
    }

    constructor (rt: Runtime, classifier: Error -> bool, backoff: Strategy)
      requires rt.Valid() && backoff.params.Valid()
      ensures Valid() && this.rt == rt && this.backoff == backoff && this.classifier == classifier
    {
      this.rt := rt;
      this.maxAttempts := rt.cfg.policy.maxAttempts;
      this.classifier := classifier;
      this.backoff := backoff;
    }

    lemma OutcomeOf(r: Result<int, DoError>, call: E.Call, delays: seq<int>, draws: seq<real>)
      requires Accounts(r, call, delays, draws)
      ensures EndsAs(r, call)
    {
    }

    /** The breaker's view of the call fits its result. */
    predicate EndsAs(r: Result<int, DoError>, call: E.Call) {
      && call.Returned?
      && call.outcome == match r
                         case Ok(_) => E.Succeeded
                         case Err(BreakerOpen) => E.Rejected
                         case Err(FnError(_)) => E.Failed
                         case Err(ContextDone) => E.Cancelled
    }

    /** How the outcome, the attempts made and the delays asked for belong together. */
    predicate Accounts(r: Result<int, DoError>, call: E.Call, delays: seq<int>, draws: seq<real>) {
      && call.Returned?
      && Delayed(backoff.params, draws, delays)
      && |delays| < maxAttempts
      && match r
         case Ok(_) => call.outcome == E.Succeeded && call.attempt == |delays| + 1
         case Err(BreakerOpen) => call == E.Returned(E.Rejected, 0) && delays == []
         case Err(FnError(e)) =>
           && call.outcome == E.Failed && call.attempt == |delays| + 1
           && (call.attempt == maxAttempts || !classifier(e))
         case Err(ContextDone) => call.outcome == E.Cancelled && call.attempt == |delays|
    }

    /** fn failed with an error worth another attempt. */
    predicate Retryable(w: Work, i: nat) {
      w.fn(i).Err? && classifier(w.fn(i).error)
    }

    /** Every attempt before this one failed, and another followed. */
    predicate AllRetried(w: Work, attempts: int) {
      forall i: nat :: 1 <= i < attempts ==> Retryable(w, i) && !w.leaves(i)
    }

    /** The result is what fn's answers and the context make it: the first success, the
        first final error, the last error when attempts run out, or the context's end. */
    predicate Explains(w: Work, attempts: nat, r: Result<int, DoError>) {
      && AllRetried(w, attempts)
      && match r
         case Ok(v) => 1 <= attempts <= maxAttempts && w.fn(attempts) == Ok(v)
         case Err(BreakerOpen) => attempts == 0
         case Err(FnError(e)) =>
           && 1 <= attempts <= maxAttempts && w.fn(attempts) == Err(e)
           && (attempts == maxAttempts || !classifier(e))
         case Err(ContextDone) =>
           1 <= attempts < maxAttempts && Retryable(w, attempts) && w.leaves(attempts)
    }

    /** An admitted call has only one result that these answers explain. */
    lemma OneExplanation(w: Work, n: nat, r: Result<int, DoError>, n': nat, r': Result<int, DoError>)
      requires Explains(w, n, r) && Explains(w, n', r') && 0 < n && 0 < n'
      ensures n == n' && r == r'
    {
      assert n < n' ==> Retryable(w, n);
      assert n' < n ==> Retryable(w, n');
    }

    /** However the call ends, its delays together stay within the budget. */
    lemma DelaysOfOneCall(r: Result<int, DoError>, call: E.Call, delays: seq<int>, draws: seq<real>)
      requires backoff.params.Valid() && backoff.params.base <= backoff.params.max
      requires Accounts(r, call, delays, draws)
      ensures Sum(delays) as real
           <= Times((maxAttempts - 1) as real, Times(backoff.params.max as real, 1.0 + backoff.params.jitter))
    {
      TotalDelay(backoff.params, draws, maxAttempts);
    }

    /** fn runs once; the breaker is told of a success, or of a failure that is final. */
    method Attempt(g: Gid, id: E.Id, attempt: int, w: Work) returns (r: Result<int, DoError>)
      requires Valid() && At(rt.Visible(), g, Doing(id)) && 1 <= attempt <= maxAttempts
      requires id in rt.calls && rt.calls[id] == E.Calling(attempt)
      modifies rt, rt.breaker
      ensures Valid() && id in rt.calls && Remembered(old(rt.calls), rt.calls)
      ensures At(rt.Visible(), g, if rt.calls[id].Returned? then Finishing else Doing(id))
      ensures r == match w.fn(attempt) case Ok(v) => Ok(v) case Err(e) => Err(FnError(e))
      ensures rt.calls[id] ==
              if w.fn(attempt).Ok? then E.Returned(E.Succeeded, attempt)
              else if attempt != maxAttempts && Retryable(w, attempt) then E.Waiting(attempt)
              else E.Returned(E.Failed, attempt)
    {
      rt.Interfere(g);
      var answer := w.fn(attempt);
      if answer.Ok? {
        rt.Continue(g, E.FnOk(id));
        rt.Interfere(g);
        rt.Continue(g, E.RecordSuccess(id));
        return Ok(answer.value);
      }
      r := Err(FnError(answer.error));
      var retryable := classifier(answer.error);
      rt.Continue(g, E.FnErr(id, retryable));
      if !retryable || attempt == maxAttempts {
        rt.Interfere(g);
        rt.Continue(g, E.RecordFailure(id));
      }
    }

    /** The backoff timer or the context, whichever is seen first. */
    method Wait(g: Gid, id: E.Id, attempt: int, w: Work) returns (done: bool, u: real, d: int)
      requires Valid() && At(rt.Visible(), g, Doing(id)) && 1 <= attempt
      requires id in rt.calls && rt.calls[id] == E.Waiting(attempt)
      modifies rt, rt.breaker
      ensures Valid() && id in rt.calls && Remembered(old(rt.calls), rt.calls)
      ensures done == w.leaves(attempt)
      ensures rt.calls[id] == if done then E.Returned(E.Cancelled, attempt) else E.Calling(attempt + 1)
      ensures At(rt.Visible(), g, if done then Finishing else Doing(id))
      ensures Requested(backoff.params, attempt, u, d)
    {
      u := *;
      if !Draw(u) {
        u := 0.0;
      }
      d := backoff.Duration(attempt, u);
      rt.Interfere(g);
      done := w.leaves(attempt);
      if done {
        rt.Continue(g, E.CtxDone(id));
      } else {
        rt.Continue(g, E.Timer(id));
      }
    }

    /** One turn of the attempt loop. */
    method Round(g: Gid, id: E.Id, attempt: int, w: Work, delays0: seq<int>, draws0: seq<real>)
      returns (r: Result<int, DoError>, finished: bool, delays: seq<int>, draws: seq<real>)
      requires Valid() && At(rt.Visible(), g, Doing(id)) && 1 <= attempt <= maxAttempts
      requires id in rt.calls && rt.calls[id] == E.Calling(attempt)
      requires Delayed(backoff.params, draws0, delays0) && |delays0| == attempt - 1
      requires AllRetried(w, attempt)
      modifies rt, rt.breaker
      ensures Valid() && id in rt.calls && Remembered(old(rt.calls), rt.calls)
      ensures At(rt.Visible(), g, if finished then Finishing else Doing(id))
      ensures finished ==>
                Accounts(r, rt.calls[id], delays, draws) && Explains(w, rt.calls[id].attempt, r)
      ensures !finished ==>
                && attempt < maxAttempts && rt.calls[id] == E.Calling(attempt + 1)
                && AllRetried(w, attempt + 1)
                && Delayed(backoff.params, draws, delays) && |delays| == attempt
    {
      delays, draws := delays0, draws0;
      r := Attempt(g, id, attempt, w);
      if rt.calls[id].Returned? {
        finished := true;
        return;
      }
      var u, d;
      finished, u, d := Wait(g, id, attempt, w);
      assert attempt == |draws| + 1;
      OneMoreDelay(backoff.params, draws, delays, u, d);
      draws, delays := draws + [u], delays + [d];
      if finished {
        r := Err(ContextDone);
      }
    }

    /** The attempt loop of an admitted call. */
    method Attempts(g: Gid, id: E.Id, w: Work)
      returns (r: Result<int, DoError>, delays: seq<int>, draws: seq<real>)
      requires Valid() && At(rt.Visible(), g, Doing(id)) && id in rt.calls && rt.calls[id] == E.Calling(1)
      modifies rt, rt.breaker
      ensures Valid() && At(rt.Visible(), g, Finishing) && id in rt.calls && Remembered(old(rt.calls), rt.calls)
      ensures Accounts(r, rt.calls[id], delays, draws) && Explains(w, rt.calls[id].attempt, r)
    {
      delays, draws, r := [], [], Err(BreakerOpen);
      assert Delayed(backoff.params, draws, delays) && AllRetried(w, 1);
      hide Accounts, Explains, AllRetried, Delayed;
      var attempt := 1;
      while attempt <= maxAttempts
        invariant Valid() && 1 <= attempt <= maxAttempts
        invariant At(rt.Visible(), g, Doing(id)) && id in rt.calls && rt.calls[id] == E.Calling(attempt)
        invariant Remembered(old(rt.calls), rt.calls)
        invariant Delayed(backoff.params, draws, delays) && |delays| == attempt - 1 && AllRetried(w, attempt)
        decreases maxAttempts - attempt
      {
        var finished: bool;
        r, finished, delays, draws := Round(g, id, attempt, w, delays, draws);
        if finished {
          return;
        }
        attempt := attempt + 1;
      }
      // The failure recorded after the loop in the source is never reached.
      assert false;
    }

    lemma RejectedIsExplained(w: Work)
      requires Valid()
      ensures Accounts(Err(BreakerOpen), E.Returned(E.Rejected, 0), [], [])
      ensures Explains(w, 0, Err(BreakerOpen))
    {
    }

    /** Goroutine g, which holds a slot, runs fn under retry and breaker. */
    method Do(g: Gid, w: Work)
      returns (r: Result<int, DoError>, ghost call: E.Id, delays: seq<int>, draws: seq<real>)
      requires Valid() && At(rt.Visible(), g, Slotted)
      modifies rt, rt.breaker
      ensures Valid() && At(rt.Visible(), g, Finishing)
      ensures call in rt.calls && call !in old(rt.calls) && Remembered(old(rt.calls), rt.calls)
      ensures Accounts(r, rt.calls[call], delays, draws)
      ensures Explains(w, rt.calls[call].attempt, r)
    {
      hide Accounts, Explains, Remembered;
      ghost var calls0 := rt.calls;
      rt.Interfere(g);
      var id := rt.NewCall();
      call := id;
      NewToBoth(calls0, rt.calls, id);
      ghost var calls1 := rt.calls;
      var admitted := rt.Enter(g, id);
      ghost var calls2 := rt.calls;
      RememberedTwice(calls0, calls1, calls2);
      if !admitted {
        RejectedIsExplained(w);
        return Err(BreakerOpen), id, [], [];
      }
      r, delays, draws := Attempts(g, id, w);
      RememberedTwice(calls0, calls2, rt.calls);
    }
  }

  /** How the caller's context ends, if it does. */
  datatype Context = Alive | Cancelled | TimedOut

  datatype ExecuteError =
    | ClientClosed
    | Blocked
    | HookFailed
    | ContextCancelled
    | Backpressure
    | DoFailed(cause: DoError)
    | Other

  /** One run of the terminal handler: whether a before-hook fails, the context, the work. */
  datatype Request = Request(hookFails: bool, ctx: Context, work: Work)

  /** What the gate's select came to. */
  datatype Gate = Admitted | GaveUp | StillWaiting

  class RedisClient {
    const rt: Runtime
    const executor: Executor
    const middlewares: nat

    ghost predicate Valid()
      reads rt, rt.breaker
    {
      executor.rt == rt && executor.Valid()
    }

    constructor (executor: Executor, middlewares: nat)
      requires executor.Valid()
      ensures Valid() && this.executor == executor && this.middlewares == middlewares
    {
      this.executor := executor;
      this.rt := executor.rt;
      this.middlewares := middlewares;
    }

    /** The gate's select: a free slot, or the end of a context that ends.  A run may end
        while it waits, which it does only with all slots taken and the context alive. */
    method AcquireSlot(g: Gid, ctx: Context) returns (gate: Gate)
      requires Valid() && At(rt.Visible(), g, Admitting)
      modifies rt, rt.breaker
      ensures Valid() && Remembered(old(rt.calls), rt.calls)
      ensures match gate
              case Admitted => At(rt.Visible(), g, Slotted)
              case GaveUp => At(rt.Visible(), g, Handling) && ctx != Alive
              case StillWaiting =>
                At(rt.Visible(), g, Admitting) && ctx == Alive && rt.slots == rt.cfg.maxInflight
    {
      rt.Interfere(g);
      var contextFirst: bool := *;
      if rt.slots < rt.cfg.maxInflight && (ctx == Alive || !contextFirst) {
        rt.Turn(Action.AcquireSlot(g));
        return Admitted;
      }
      if ctx != Alive {
        rt.Turn(AcquireError(g));
        return GaveUp;
      }
      SlotsBounded();
      return StillWaiting;
    }

    lemma SlotsBounded()
      requires Valid()
      ensures rt.slots <= rt.cfg.maxInflight
    {
      rt.Keeps();
    }

    /** The answer of Do as the terminal handler passes it on. */
    function Wrap(r: Result<int, DoError>): Result<int, ExecuteError> {
      match r case Ok(v) => Ok(v) case Err(e) => Err(DoFailed(e))
    }

    predicate FromDo(r: Result<int, ExecuteError>) {
      r.Ok? || r.error.DoFailed?
    }

    function Unwrap(r: Result<int, ExecuteError>): Result<int, DoError>
      requires FromDo(r)
    {
      match r case Ok(v) => Ok(v) case Err(DoFailed(e)) => Err(e)
    }

    /** The result of one run of the terminal handler: a failed hook, a context that ended
        at the gate, or the answer of one new Do call about this work. */
    predicate Served(req: Request, r: Result<int, ExecuteError>, call: E.Id,
                     calls0: map<E.Id, E.Call>, calls: map<E.Id, E.Call>)
    {
      && (req.hookFails <==> r == Err(HookFailed))
      && (r == Err(ContextCancelled) ==> req.ctx == Cancelled)
      && (r == Err(Backpressure) ==> req.ctx == TimedOut)
      && (FromDo(r) || r == Err(HookFailed) || r == Err(ContextCancelled) || r == Err(Backpressure))
      && (FromDo(r) ==>
            && call !in calls0 && call in calls && executor.EndsAs(Unwrap(r), calls[call])
            && executor.Explains(req.work, calls[call].attempt, Unwrap(r)))
    }

    /** What was served stays so: from earlier on, and later. */
    lemma ServedStill(req: Request, r: Result<int, ExecuteError>, call: E.Id, calls0: map<E.Id, E.Call>,
                      calls1: map<E.Id, E.Call>, calls2: map<E.Id, E.Call>, calls3: map<E.Id, E.Call>)
      requires Served(req, r, call, calls1, calls2)
      requires Remembered(calls0, calls1) && Remembered(calls2, calls3)
      ensures Served(req, r, call, calls0, calls3)
    {
    }

    /** The terminal handler: hooks, admission, Do, hooks, and the slot given back on
        every path that took it. */
    method Terminal(g: Gid, req: Request) returns (r: Result<int, ExecuteError>, ghost call: E.Id)
      requires Valid() && At(rt.Visible(), g, Handling)
      modifies rt, rt.breaker
      ensures Valid() && Remembered(old(rt.calls), rt.calls)
      ensures r != Err(Blocked) ==> At(rt.Visible(), g, Handling) && Served(req, r, call, old(rt.calls), rt.calls)
      ensures r == Err(Blocked) ==> StuckAtTheGate(g, req)
    {
      hide Remembered;
      call := 0;
      Enter(g);
      ghost var calls0 := old(rt.calls);
      if req.hookFails {
        rt.Turn(HookError(g));
        NotRun(req, Err(HookFailed), call, calls0, rt.calls);
        return Err(HookFailed), call;
      }
      ghost var calls1 := rt.calls;
      var gate := AcquireSlot(g, req.ctx);
      ghost var calls2 := rt.calls;
      RememberedTwice(calls0, calls1, calls2);
      if gate == StillWaiting {
        return Err(Blocked), call;
      }
      if gate == GaveUp {
        r := Err(if req.ctx == Cancelled then ContextCancelled else Backpressure);
        NotRun(req, r, call, calls0, rt.calls);
        return;
      }
      r, call := RunAdmitted(g, req);
      RememberedTwice(calls0, calls2, rt.calls);
      RememberedItself(rt.calls);
      ServedStill(req, r, call, calls0, calls2, rt.calls, rt.calls);
    }

    /** From the chain into the terminal handler. */
    method Enter(g: Gid)
      requires Valid() && At(rt.Visible(), g, Handling)
      modifies rt, rt.breaker
      ensures Valid() && At(rt.Visible(), g, Admitting) && Remembered(old(rt.calls), rt.calls)
    {
      rt.Interfere(g);
      rt.Turn(EnterTerminal(g));
      rt.Interfere(g);
    }

    /** An end before any work was done. */
    lemma NotRun(req: Request, r: Result<int, ExecuteError>, call: E.Id,
                 calls0: map<E.Id, E.Call>, calls: map<E.Id, E.Call>)
      requires r == Err(HookFailed) || r == Err(ContextCancelled) || r == Err(Backpressure)
      requires req.hookFails <==> r == Err(HookFailed)
      requires r == Err(ContextCancelled) ==> req.ctx == Cancelled
      requires r == Err(Backpressure) ==> req.ctx == TimedOut
      ensures Served(req, r, call, calls0, calls)
    {
    }

    /** A run that ended while g waits for a slot: all are taken, and the context is alive. */
    predicate StuckAtTheGate(g: Gid, req: Request)
      reads rt
    {
      && At(rt.Visible(), g, Admitting) && rt.slots == rt.cfg.maxInflight
      && req.ctx == Alive && !req.hookFails
    }

    /** The part of the terminal handler that holds a slot. */
    method RunAdmitted(g: Gid, req: Request) returns (r: Result<int, ExecuteError>, ghost call: E.Id)
      requires Valid() && At(rt.Visible(), g, Slotted) && !req.hookFails
      modifies rt, rt.breaker
      ensures Valid() && Remembered(old(rt.calls), rt.calls)
      ensures At(rt.Visible(), g, Handling) && FromDo(r) && Served(req, r, call, old(rt.calls), rt.calls)
    {
      hide Served, Remembered, Executor.Accounts, Executor.Explains, Executor.EndsAs;
      var answer, id, delays, draws := executor.Do(g, req.work);
      call := id;
      executor.OutcomeOf(answer, rt.calls[id], delays, draws);
      DoServes(req, answer, id, old(rt.calls), rt.calls);
      ghost var calls1 := rt.calls;
      rt.Interfere(g);
      SlotIsOurs(g);
      RememberedItself(old(rt.calls));
      RememberedTwice(old(rt.calls), calls1, rt.calls);
      ServedStill(req, Wrap(answer), id, old(rt.calls), old(rt.calls), calls1, rt.calls);
      rt.Turn(ReleaseSlot(g));
      r := Wrap(answer);
    }

    /** The answer of a new Do call is what the terminal handler owes. */
    lemma DoServes(req: Request, answer: Result<int, DoError>, call: E.Id,
                   calls0: map<E.Id, E.Call>, calls: map<E.Id, E.Call>)
      requires !req.hookFails && call !in calls0 && call in calls && executor.EndsAs(answer, calls[call])
      requires executor.Explains(req.work, calls[call].attempt, answer)
      ensures FromDo(Wrap(answer)) && Served(req, Wrap(answer), call, calls0, calls)
    {
      assert Unwrap(Wrap(answer)) == answer;
    }

    lemma SlotIsOurs(g: Gid)
      requires Valid() && g in rt.ops && UsesSlot(rt.ops[g])
      ensures 0 < rt.slots
    {
      rt.Keeps();
      assert g in SlotUsers(rt.ops);
    }

    lemma LockIsOurs(g: Gid)
      requires Valid() && g in rt.ops
      ensures Reads(rt.ops[g]) ==> 0 < rt.readers
      ensures Writes(rt.ops[g]) ==> rt.writer
    {
      rt.Keeps();
      OneOfMany(rt.ops, g);
    }

    /** RLock: waits while a writer is in.  A run may end while it waits. */
    method ReadLock(g: Gid) returns (ok: bool)
      requires Valid() && At(rt.Visible(), g, Entering)
      modifies rt, rt.breaker
      ensures Valid() && At(rt.Visible(), g, if ok then Checking else Entering)
      ensures Remembered(old(rt.calls), rt.calls) && (old(rt.closed) ==> rt.closed)
      ensures !ok ==> rt.writer
    {
      rt.Interfere(g);
      ok := !rt.writer;
      if ok {
        rt.Turn(RLock(g));
      }
    }

    /** Runs an operation.  reqs tells, for each run of the terminal handler, what it meets;
        without middleware there is one run, and its result is the operation's. */
    method Execute(g: Gid, reqs: nat -> Request) returns (r: Result<int, ExecuteError>, ghost call: E.Id)
      requires Valid() && g !in rt.ops
      modifies rt, rt.breaker
      ensures Valid() && g in rt.ops
      // a closed client refuses, and only a closed client
      ensures old(rt.closed) ==> r == Err(ClientClosed) || (r == Err(Blocked) && At(rt.Visible(), g, Entering))
      ensures r == Err(ClientClosed) ==> rt.closed
      // every way out gives back the lock and the slot; a run may end while it waits for them
      ensures r != Err(Blocked) ==> At(rt.Visible(), g, Done)
      ensures r == Err(Blocked) ==>
                || (At(rt.Visible(), g, Entering) && rt.writer)
                || exists i: nat :: StuckAtTheGate(g, reqs(i))
      ensures middlewares == 0 && r != Err(ClientClosed) && r != Err(Blocked) ==>
                Served(reqs(0), r, call, old(rt.calls), rt.calls)
    {
      hide Remembered, Served;
      call := 0;
      var entered := Admit(g);
      if entered == None {
        return Err(Blocked), call;
      }
      if entered == Some(false) {
        return Err(ClientClosed), call;
      }
      ghost var calls1 := rt.calls;
      r, call := Chain(g, reqs);
      if r != Err(Blocked) {
        ghost var calls2 := rt.calls;
        Leave(g);
        if middlewares == 0 {
          ServedStill(reqs(0), r, call, old(rt.calls), calls1, calls2, rt.calls);
        }
      }
    }

    /** The read lock and the closed check.  None: the run ends while it waits for the lock. */
    method Admit(g: Gid) returns (entered: Option<bool>)
      requires Valid() && g !in rt.ops
      modifies rt, rt.breaker
      ensures Valid() && Remembered(old(rt.calls), rt.calls)
      ensures match entered
              case None => At(rt.Visible(), g, Entering) && rt.writer
              case Some(true) => At(rt.Visible(), g, Handling)
              case Some(false) => At(rt.Visible(), g, Done) && rt.closed
      ensures old(rt.closed) ==> entered != Some(true)
    {
      rt.Turn(CallExecute(g));
      var locked := ReadLock(g);
      if !locked {
        return None;
      }
      rt.Interfere(g);
      var refused := rt.closed;
      rt.Turn(Check(g));
      if refused {
        LockIsOurs(g);
        rt.Turn(RUnlock(g));
      }
      entered := Some(!refused);
    }

    /** The chain has returned: the deferred unlock. */
    method Leave(g: Gid)
      requires Valid() && At(rt.Visible(), g, Handling)
      modifies rt, rt.breaker
      ensures Valid() && At(rt.Visible(), g, Done) && Remembered(old(rt.calls), rt.calls)
    {
      rt.Interfere(g);
      rt.Turn(ChainReturns(g));
      rt.Interfere(g);
      LockIsOurs(g);
      rt.Turn(RUnlock(g));
    }

    /** The middleware chain.  Without middleware it is the terminal handler itself; with
        it, the handler may run any number of times, and the result may be replaced. */
    method Chain(g: Gid, reqs: nat -> Request) returns (r: Result<int, ExecuteError>, ghost call: E.Id)
      requires Valid() && At(rt.Visible(), g, Handling)
      modifies rt, rt.breaker
      ensures Valid() && Remembered(old(rt.calls), rt.calls) && r != Err(ClientClosed)
      ensures r != Err(Blocked) ==> At(rt.Visible(), g, Handling)
      ensures r == Err(Blocked) ==> exists i: nat :: StuckAtTheGate(g, reqs(i))
      ensures middlewares == 0 && r != Err(Blocked) ==> Served(reqs(0), r, call, old(rt.calls), rt.calls)
    {
      if middlewares == 0 {
        r, call := Terminal(g, reqs(0));
        return;
      }
      r, call := Err(Other), 0;
      var rounds: int := *;
      var i: nat := 0;
      while i < rounds
        invariant Valid() && Remembered(old(rt.calls), rt.calls)
        invariant At(rt.Visible(), g, Handling) && r != Err(ClientClosed) && r != Err(Blocked)
      {
        r, call := Terminal(g, reqs(i));
        if r == Err(Blocked) {
          return;
        }
        i := i + 1;
      }
      var replaced: bool := *;
      if replaced {
        r := Err(Other);
      }
    }

    /** Lock: waits for all readers to leave.  A run may end while it waits. */
    method WriteLock(g: Gid) returns (ok: bool)
      requires Valid() && At(rt.Visible(), g, Closing)
      modifies rt, rt.breaker
      ensures Valid() && At(rt.Visible(), g, if ok then CloseLocked else Closing)
      ensures !ok ==> 0 < rt.readers || rt.writer
    {
      rt.Interfere(g);
      ok := rt.readers == 0 && !rt.writer;
      if ok {
        rt.Turn(Lock(g));
      }
    }

    /** When backend.Close is called the client is closed, no operation is inside the
        chain, no slot is taken and no action is running.  Its error is passed on. */
    method Close(g: Gid, backendClose: Option<Error>) returns (finished: bool, e: Option<Error>)
      requires Valid() && g !in rt.ops
      modifies rt, rt.breaker
      ensures Valid() && g in rt.ops
      ensures finished ==> At(rt.Visible(), g, Done) && rt.closed && 0 < rt.backendCloses
      ensures finished ==> Quiet() && e == backendClose
      ensures !finished ==> At(rt.Visible(), g, Closing) && (0 < rt.readers || rt.writer)
    {
      e := None;
      rt.Turn(CallClose(g));
      finished := WriteLock(g);
      if finished {
        Shut(g);
        e := backendClose;
      }
    }

    /** With the write lock held: the flag, the lock back, and the backend's Close. */
    method Shut(g: Gid)
      requires Valid() && At(rt.Visible(), g, CloseLocked)
      modifies rt, rt.breaker
      ensures Valid() && At(rt.Visible(), g, Done) && rt.closed && 0 < rt.backendCloses && Quiet()
    {
      rt.Interfere(g);
      rt.Turn(MarkClosed(g));
      rt.Interfere(g);
      LockIsOurs(g);
      rt.Turn(Unlock(g));
      rt.Interfere(g);
      rt.Turn(BackendClose(g));
      NothingRunsOnceClosed(rt.cfg, rt.started, rt.log);
    }

    ghost predicate Quiet()
      reads rt, rt.breaker
    {
      && rt.slots == 0
      && E.InFlight(rt.View().exec) == {}
      && forall h :: h in rt.ops ==> !Active(rt.ops[h])
    }
  }
}

/**
 The life of client.go's operations: any number of goroutines in execute and in
 Close, over one read/write lock, the closed flag, the inflight slots and the shared
 retry executor.  One step per lock operation, slot operation or executor step.
 */
module ClientProtocol {
  import E = ExecutorProtocol
  import H = BreakerHistory
  import opened Wrappers

  type Gid = nat

  /** Where a goroutine stands. */
  datatype Op =
    // execute
    | Entering
    // holds the read lock, about to look at `closed`
    | Checking
    // saw `closed`; about to unlock and return ErrClientClosed
    | Refused
    // inside the middleware chain, outside the terminal handler
    | Handling
    // in the terminal handler: before-hooks, then waiting for a slot
    | Admitting
    // holds a slot, about to call Do
    | Slotted
    // inside Do
    | Doing(call: E.Id)
    // Do returned; after-hooks, then the slot is given back
    | Finishing
    // the chain returned; about to unlock
    | Leaving
    // Close
    | Closing
    | CloseLocked
    | CloseMarked
    | CloseUnlocked
    | Done

  datatype State = State(
    exec: E.State,
    ops: map<Gid, Op>,
    readers: nat,
    writer: bool,
    closed: bool,
    slots: nat,
    backendCloses: nat)

  datatype Action =
    | Tick(now: int)
    | CallExecute(g: Gid)
    | CallClose(g: Gid)
    | RLock(g: Gid)
    | Check(g: Gid)
    | EnterTerminal(g: Gid)
    | HookError(g: Gid)
    | AcquireSlot(g: Gid)
    | AcquireError(g: Gid)
    | CallDo(g: Gid, call: E.Id)
    | DoStep(g: Gid, step: E.Action)
    | ReleaseSlot(g: Gid)
    | ChainReturns(g: Gid)
    | RUnlock(g: Gid)
    | Lock(g: Gid)
    | MarkClosed(g: Gid)
    | Unlock(g: Gid)
    | BackendClose(g: Gid)

  datatype Config = Config(policy: E.Policy, maxInflight: int) {
    predicate Valid() {
      policy.Valid() && 0 < maxInflight
    }
  }

  predicate By(a: Action, g: Gid) {
    !a.Tick? && a.g == g
  }

  predicate At(s: State, g: Gid, op: Op) {
    g in s.ops && s.ops[g] == op
  }

  predicate Enabled(c: Config, s: State, a: Action) {
    match a
    case Tick(now) => s.exec.now <= now
    case CallExecute(g) => g !in s.ops
    case CallClose(g) => g !in s.ops
    case RLock(g) => At(s, g, Entering) && !s.writer
    case Check(g) => At(s, g, Checking)
    case EnterTerminal(g) => At(s, g, Handling)
    case HookError(g) => At(s, g, Admitting)
    case AcquireSlot(g) => At(s, g, Admitting) && s.slots < c.maxInflight
    case AcquireError(g) => At(s, g, Admitting)
    case CallDo(g, call) => At(s, g, Slotted) && E.Enabled(c.policy, s.exec, E.Enter(call))
    case DoStep(g, step) =>
      && !step.Tick? && !step.Enter?
      && At(s, g, Doing(step.id)) && E.Enabled(c.policy, s.exec, step)
    case ReleaseSlot(g) => At(s, g, Finishing) && 0 < s.slots
    case ChainReturns(g) => At(s, g, Handling)
    case RUnlock(g) => (At(s, g, Leaving) || At(s, g, Refused)) && 0 < s.readers
    case Lock(g) => At(s, g, Closing) && s.readers == 0 && !s.writer
    case MarkClosed(g) => At(s, g, CloseLocked)
    case Unlock(g) => At(s, g, CloseMarked) && s.writer
    case BackendClose(g) => At(s, g, CloseUnlocked)
  }

  function Go(s: State, g: Gid, op: Op): State {
    s.(ops := s.ops[g := op])
  }

  function AfterStep(exec: E.State, call: E.Id): Op
    requires call in exec.calls
  {
    if exec.calls[call].Returned? then Finishing else Doing(call)
  }

  function Apply(c: Config, s: State, a: Action): State
    requires Enabled(c, s, a)
  {
    match a
    case Tick(now) => s.(exec := E.Apply(c.policy, s.exec, E.Tick(now)))
    case CallExecute(g) => Go(s, g, Entering)
    case CallClose(g) => Go(s, g, Closing)
    case RLock(g) => Go(s, g, Checking).(readers := s.readers + 1)
    case Check(g) => Go(s, g, if s.closed then Refused else Handling)
    case EnterTerminal(g) => Go(s, g, Admitting)
    case HookError(g) => Go(s, g, Handling)
    case AcquireSlot(g) => Go(s, g, Slotted).(slots := s.slots + 1)
    case AcquireError(g) => Go(s, g, Handling)
    case CallDo(g, call) =>
      var exec := E.Apply(c.policy, s.exec, E.Enter(call));
      Go(s, g, AfterStep(exec, call)).(exec := exec)
    case DoStep(g, step) =>
      var exec := E.Apply(c.policy, s.exec, step);
      Go(s, g, AfterStep(exec, step.id)).(exec := exec)
    case ReleaseSlot(g) => Go(s, g, Handling).(slots := s.slots - 1)
    case ChainReturns(g) => Go(s, g, Leaving)
    case RUnlock(g) => Go(s, g, Done).(readers := s.readers - 1)
    case Lock(g) => Go(s, g, CloseLocked).(writer := true)
    case MarkClosed(g) => Go(s, g, CloseMarked).(closed := true)
    case Unlock(g) => Go(s, g, CloseUnlocked).(writer := false)
    case BackendClose(g) => Go(s, g, Done).(backendCloses := s.backendCloses + 1)
  }

  function Init(now: int): State {
    State(E.Init(now), map[], 0, false, false, 0, 0)
  }

  function Exec(c: Config, s0: State, log: seq<Action>): Option<State> {
    if log == [] then Some(s0)
    else
      match Exec(c, s0, log[..|log| - 1])
      case None => None
      case Some(s) =>
        if Enabled(c, s, log[|log| - 1]) then Some(Apply(c, s, log[|log| - 1])) else None
  }

  lemma ExecSnoc(c: Config, s0: State, log: seq<Action>, a: Action)
    ensures Exec(c, s0, log + [a]) ==
            match Exec(c, s0, log)
            case None => None
            case Some(s) => if Enabled(c, s, a) then Some(Apply(c, s, a)) else None
  {
    assert (log + [a])[..|log + [a]| - 1] == log;
  }

  // ---- What every run keeps ----

  predicate Reads(op: Op) {
    op.Checking? || op.Refused? || Active(op) || op.Leaving?
  }

  /** Past the closed check and not yet out of the chain. */
  predicate Active(op: Op) {
    op.Handling? || op.Admitting? || UsesSlot(op)
  }

  predicate UsesSlot(op: Op) {
    op.Slotted? || op.Doing? || op.Finishing?
  }

  predicate Writes(op: Op) {
    op.CloseLocked? || op.CloseMarked?
  }

  function Readers(ops: map<Gid, Op>): set<Gid> {
    set g | g in ops && Reads(ops[g])
  }

  function SlotUsers(ops: map<Gid, Op>): set<Gid> {
    set g | g in ops && UsesSlot(ops[g])
  }

  function Writers(ops: map<Gid, Op>): set<Gid> {
    set g | g in ops && Writes(ops[g])
  }

  predicate LockInv(s: State) {
    && s.readers == |Readers(s.ops)|
    && (s.writer ==> s.readers == 0)
    && |Writers(s.ops)| == (if s.writer then 1 else 0)
  }

  predicate ClosedInv(s: State) {
    && (s.closed ==> forall g :: g in s.ops ==> !Active(s.ops[g]))
    && (forall g :: g in s.ops && (s.ops[g].CloseMarked? || s.ops[g].CloseUnlocked?) ==> s.closed)
    && (0 < s.backendCloses ==> s.closed)
  }

  predicate SlotInv(c: Config, s: State) {
    s.slots == |SlotUsers(s.ops)| && s.slots <= c.maxInflight
  }

  /** Calls in flight are exactly those some goroutine is inside of. */
  ghost predicate CallInv(s: State) {
    && (forall g :: g in s.ops && s.ops[g].Doing? ==> s.ops[g].call in E.InFlight(s.exec))
    && (forall id :: id in E.InFlight(s.exec) ==> exists g :: At(s, g, Doing(id)))
  }

  ghost predicate Inv(c: Config, s: State) {
    LockInv(s) && ClosedInv(s) && SlotInv(c, s) && CallInv(s)
  }

  /** How a counted class of goroutines changes when one of them moves. */
  lemma Moved(before: set<Gid>, after: set<Gid>, g: Gid)
    requires forall h :: h != g ==> (h in before <==> h in after)
    ensures g in before && g in after ==> after == before
    ensures g !in before && g !in after ==> after == before
    ensures g in before && g !in after ==> |after| == |before| - 1
    ensures g !in before && g in after ==> |after| == |before| + 1
  {
    if g in after {
      assert after == before + {g};
    } else {
      assert after == before - {g};
    }
  }

  lemma MovedOp(s: State, g: Gid, op: Op)
    ensures var ops := s.ops[g := op];
            && |Readers(ops)| == |Readers(s.ops)| + (if Reads(op) then 1 else 0)
                                 - (if g in s.ops && Reads(s.ops[g]) then 1 else 0)
            && |Writers(ops)| == |Writers(s.ops)| + (if Writes(op) then 1 else 0)
                                 - (if g in s.ops && Writes(s.ops[g]) then 1 else 0)
            && |SlotUsers(ops)| == |SlotUsers(s.ops)| + (if UsesSlot(op) then 1 else 0)
                                   - (if g in s.ops && UsesSlot(s.ops[g]) then 1 else 0)
  {
    var ops := s.ops[g := op];
    Moved(Readers(s.ops), Readers(ops), g);
    Moved(Writers(s.ops), Writers(ops), g);
    Moved(SlotUsers(s.ops), SlotUsers(ops), g);
  }

  lemma OneOfMany(ops: map<Gid, Op>, g: Gid)
    requires g in ops
    ensures Reads(ops[g]) ==> 0 < |Readers(ops)|
    ensures Writes(ops[g]) ==> 0 < |Writers(ops)|
  {
    if Reads(ops[g]) {
      assert g in Readers(ops);
    }
    if Writes(ops[g]) {
      assert g in Writers(ops);
    }
  }

  lemma LockStep(c: Config, s: State, a: Action)
    requires LockInv(s) && Enabled(c, s, a)
    ensures LockInv(Apply(c, s, a))
  {
    if !a.Tick? {
      MovedOp(s, a.g, Apply(c, s, a).ops[a.g]);
    }
  }

  lemma MarkClosedStep(c: Config, s: State, g: Gid)
    requires LockInv(s) && ClosedInv(s) && Enabled(c, s, MarkClosed(g))
    ensures ClosedInv(Apply(c, s, MarkClosed(g)))
  {
    OneOfMany(s.ops, g);
    forall h | h in s.ops ensures !Active(s.ops[h]) {
      OneOfMany(s.ops, h);
    }
  }

  /** Where a step can take its goroutine, as far as closing is concerned. */
  lemma WhereTo(c: Config, s: State, a: Action)
    requires Enabled(c, s, a) && !a.Tick?
    ensures var s' := Apply(c, s, a);
            && a.g in s'.ops && s'.ops == s.ops[a.g := s'.ops[a.g]]
            && (Active(s'.ops[a.g]) ==> !s.closed || (a.g in s.ops && Active(s.ops[a.g])))
            && (s'.ops[a.g].CloseMarked? ==> s'.closed)
            && (s'.ops[a.g].CloseUnlocked? ==> At(s, a.g, CloseMarked))
            && s'.closed == (s.closed || a.MarkClosed?)
            && (s.backendCloses < s'.backendCloses ==> At(s, a.g, CloseUnlocked))
            && s.backendCloses <= s'.backendCloses
  {
  }

  lemma ClosedStep(c: Config, s: State, a: Action)
    requires LockInv(s) && ClosedInv(s) && Enabled(c, s, a)
    ensures ClosedInv(Apply(c, s, a))
  {
    if a.MarkClosed? {
      MarkClosedStep(c, s, a.g);
    } else if !a.Tick? {
      WhereTo(c, s, a);
      hide Apply, Enabled, Active;
    }
  }

  lemma SlotStep(c: Config, s: State, a: Action)
    requires SlotInv(c, s) && Enabled(c, s, a)
    ensures SlotInv(c, Apply(c, s, a))
  {
    if !a.Tick? {
      MovedOp(s, a.g, Apply(c, s, a).ops[a.g]);
    }
  }

  /** No two goroutines are inside the same Do call. */
  predicate Distinct(s: State) {
    forall g, h :: g in s.ops && h in s.ops && s.ops[g].Doing? && s.ops[h].Doing? && g != h ==>
                     s.ops[g].call != s.ops[h].call
  }

  /** A step that neither enters nor leaves Do. */
  lemma QuietCallStep(s: State, s': State, g: Gid)
    requires CallInv(s) && Distinct(s)
    requires E.InFlight(s'.exec) == E.InFlight(s.exec)
    requires g in s'.ops && !s'.ops[g].Doing? && (g in s.ops ==> !s.ops[g].Doing?)
    requires forall h :: h != g ==> (h in s'.ops <==> h in s.ops) && (h in s.ops ==> s'.ops[h] == s.ops[h])
    ensures CallInv(s') && Distinct(s')
  {
    forall id | id in E.InFlight(s'.exec) ensures exists h :: At(s', h, Doing(id)) {
      var h :| At(s, h, Doing(id));
      assert At(s', h, Doing(id));
    }
  }

  /** A step of g's own Do call, or its first. */
  lemma OwnCallStep(s: State, s': State, g: Gid, id: E.Id)
    requires CallInv(s) && Distinct(s)
    requires forall i :: i != id ==> (i in E.InFlight(s'.exec) <==> i in E.InFlight(s.exec))
    requires id in E.InFlight(s.exec) ==> At(s, g, Doing(id))
    requires s'.ops == s.ops[g := if id in E.InFlight(s'.exec) then Doing(id) else Finishing]
    requires g in s.ops && (s.ops[g].Doing? ==> s.ops[g].call == id)
    ensures CallInv(s') && Distinct(s')
  {
    forall i | i in E.InFlight(s'.exec) ensures exists h :: At(s', h, Doing(i)) {
      if i == id {
        assert At(s', g, Doing(i));
      } else {
        var h :| At(s, h, Doing(i));
        assert At(s', h, Doing(i));
      }
    }
  }

  lemma TickCallStep(c: Config, s: State, a: Action)
    requires CallInv(s) && Distinct(s) && a.Tick? && Enabled(c, s, a)
    ensures CallInv(Apply(c, s, a)) && Distinct(Apply(c, s, a))
  {
    var s' := Apply(c, s, a);
    assert s'.ops == s.ops && E.InFlight(s'.exec) == E.InFlight(s.exec);
    assert forall g, id :: At(s, g, Doing(id)) ==> At(s', g, Doing(id));
  }

  lemma EnterCallStep(c: Config, s: State, a: Action)
    requires CallInv(s) && Distinct(s) && a.CallDo? && Enabled(c, s, a)
    ensures CallInv(Apply(c, s, a)) && Distinct(Apply(c, s, a))
  {
    OwnCallStep(s, Apply(c, s, a), a.g, a.call);
  }

  lemma DoCallStep(c: Config, s: State, a: Action)
    requires CallInv(s) && Distinct(s) && a.DoStep? && Enabled(c, s, a)
    ensures CallInv(Apply(c, s, a)) && Distinct(Apply(c, s, a))
  {
    OwnCallStep(s, Apply(c, s, a), a.g, a.step.id);
  }

  lemma CallStep(c: Config, s: State, a: Action)
    requires CallInv(s) && Distinct(s) && Enabled(c, s, a)
    ensures CallInv(Apply(c, s, a)) && Distinct(Apply(c, s, a))
  {
    if a.Tick? {
      TickCallStep(c, s, a);
    } else if a.CallDo? {
      EnterCallStep(c, s, a);
    } else if a.DoStep? {
      DoCallStep(c, s, a);
    } else {
      QuietCallStep(s, Apply(c, s, a), a.g);
    }
  }

  /** Others' steps leave a goroutine, and the call it is in, where they are. */
  lemma OthersLeaveAlone(c: Config, s: State, a: Action, g: Gid)
    requires Distinct(s) && Enabled(c, s, a) && !By(a, g)
    ensures Alone(s, Apply(c, s, a), g)
  {
    if a.DoStep? {
      DoStepLeavesAlone(c, s, a, g);
    } else if a.CallDo? {
      CallDoLeavesAlone(c, s, a, g);
    } else {
      var s' := Apply(c, s, a);
      assert s'.exec.calls == s.exec.calls && (a.Tick? || s'.ops == s.ops[a.g := s'.ops[a.g]]);
    }
  }

  lemma DoStepLeavesAlone(c: Config, s: State, a: Action, g: Gid)
    requires Distinct(s) && a.DoStep? && Enabled(c, s, a) && !By(a, g)
    ensures Alone(s, Apply(c, s, a), g)
  {
    var s' := Apply(c, s, a);
    assert s'.exec.calls == s.exec.calls[a.step.id := s'.exec.calls[a.step.id]];
    assert s'.ops == s.ops[a.g := s'.ops[a.g]];
  }

  lemma CallDoLeavesAlone(c: Config, s: State, a: Action, g: Gid)
    requires a.CallDo? && Enabled(c, s, a) && !By(a, g)
    ensures Alone(s, Apply(c, s, a), g)
  {
    var s' := Apply(c, s, a);
    assert s'.exec.calls == s.exec.calls[a.call := s'.exec.calls[a.call]];
    assert s'.ops == s.ops[a.g := s'.ops[a.g]];
  }

  /** No call is forgotten, and none that returned changes. */
  predicate Remembered(calls: map<E.Id, E.Call>, calls': map<E.Id, E.Call>) {
    && calls.Keys <= calls'.Keys
    && forall id :: id in calls && calls[id].Returned? ==> calls'[id] == calls[id]
  }

  lemma RememberedTwice(calls0: map<E.Id, E.Call>, calls1: map<E.Id, E.Call>, calls2: map<E.Id, E.Call>)
    requires Remembered(calls0, calls1) && Remembered(calls1, calls2)
    ensures Remembered(calls0, calls2)
  {
  }

  lemma RememberedItself(calls: map<E.Id, E.Call>)
    ensures Remembered(calls, calls)
  {
  }

  lemma NewToBoth(calls0: map<E.Id, E.Call>, calls1: map<E.Id, E.Call>, id: E.Id)
    requires Remembered(calls0, calls1) && id !in calls1
    ensures id !in calls0
  {
  }

  /** From s to s', g stays where it is, so does the call it is in; calls are remembered,
      and the client stays closed if it was. */
  predicate Alone(s: State, s': State, g: Gid) {
    && Remembered(s.exec.calls, s'.exec.calls) && (s.closed ==> s'.closed)
    && (g in s'.ops <==> g in s.ops)
    && (g in s.ops ==> s'.ops[g] == s.ops[g])
    && (g in s.ops && s.ops[g].Doing? && s.ops[g].call in s.exec.calls ==>
          && s.ops[g].call in s'.exec.calls
          && s'.exec.calls[s.ops[g].call] == s.exec.calls[s.ops[g].call])
  }

  /** Where a step outside Do takes its goroutine. */
  function Target(a: Action, closed: bool): Op {
    match a
    case CallExecute(_) => Entering
    case CallClose(_) => Closing
    case RLock(_) => Checking
    case Check(_) => if closed then Refused else Handling
    case EnterTerminal(_) => Admitting
    case HookError(_) => Handling
    case AcquireSlot(_) => Slotted
    case AcquireError(_) => Handling
    case ReleaseSlot(_) => Handling
    case ChainReturns(_) => Leaving
    case Lock(_) => CloseLocked
    case MarkClosed(_) => CloseMarked
    case Unlock(_) => CloseUnlocked
    case _ => Done
  }

  lemma {:induction false} RunInv(c: Config, now: int, log: seq<Action>)
    requires c.Valid() && Exec(c, Init(now), log).Some?
    ensures var s := Exec(c, Init(now), log).value;
            Inv(c, s) && Distinct(s)
  {
    if log == [] {
      assert Readers(map[]) == {} && Writers(map[]) == {} && SlotUsers(map[]) == {};
      assert E.InFlight(E.Init(now)) == {};
    } else {
      var front, a := log[..|log| - 1], log[|log| - 1];
      RunInv(c, now, front);
      var s := Exec(c, Init(now), front).value;
      LockStep(c, s, a);
      ClosedStep(c, s, a);
      SlotStep(c, s, a);
      CallStep(c, s, a);
    }
  }

  // ---- Main results ----

  /** No action runs once `closed` is set, and so none starts afterwards and none is
      running when, or after, backend.Close is called. */
  lemma NothingRunsOnceClosed(c: Config, now: int, log: seq<Action>)
    requires c.Valid() && Exec(c, Init(now), log).Some?
    requires var s := Exec(c, Init(now), log).value;
             s.closed || 0 < s.backendCloses || exists g :: At(s, g, CloseUnlocked)
    ensures var s := Exec(c, Init(now), log).value;
            && s.closed
            && E.InFlight(s.exec) == {}
            && s.slots == 0
            && forall g :: g in s.ops ==> !Active(s.ops[g])
  {
    RunInv(c, now, log);
    var s := Exec(c, Init(now), log).value;
    assert s.closed;
    assert SlotUsers(s.ops) == {};
    OneGoroutinePerCall(s, E.InFlight(s.exec), SlotUsers(s.ops));
  }

  /** From some moment of a run to a later one, `closed` is never unset. */
  lemma {:induction false} ClosedForGood(c: Config, s0: State, log: seq<Action>, i: nat)
    requires i <= |log| && Exec(c, s0, log).Some?
    ensures Exec(c, s0, log[..i]).Some?
    ensures Exec(c, s0, log[..i]).value.closed ==> Exec(c, s0, log).value.closed
  {
    hide Enabled;
    if i == |log| {
      assert log[..i] == log;
    } else {
      var front := log[..|log| - 1];
      assert log[..i] == front[..i];
      ClosedForGood(c, s0, front, i);
    }
  }

  /** Every action of a run was possible where it stands. */
  lemma {:induction false} WasEnabled(c: Config, s0: State, log: seq<Action>, j: nat)
    requires j < |log| && Exec(c, s0, log).Some?
    ensures Exec(c, s0, log[..j]).Some? && Enabled(c, Exec(c, s0, log[..j]).value, log[j])
  {
    hide Enabled, Apply;
    var front := log[..|log| - 1];
    if j < |front| {
      assert log[..j] == front[..j];
      WasEnabled(c, s0, front, j);
    }
  }

  lemma OnlyActiveStart(c: Config, s: State, a: Action)
    requires s.closed && ClosedInv(s) && Enabled(c, s, a)
    ensures !Starts(a)
  {
  }

  /** Steps that only an operation inside the chain can take. */
  predicate Starts(a: Action) {
    a.EnterTerminal? || a.AcquireSlot? || a.CallDo? || a.DoStep?
  }

  /** No action starts after `closed` was set: no later step of the run enters the
      terminal handler, takes a slot or calls the executor. */
  lemma NothingStartsOnceClosed(c: Config, now: int, log: seq<Action>, i: nat, j: nat)
    requires c.Valid() && Exec(c, Init(now), log).Some? && i <= j < |log|
    requires Exec(c, Init(now), log[..i]).Some? ==> Exec(c, Init(now), log[..i]).value.closed
    ensures !Starts(log[j])
  {
    hide Exec, Enabled, Apply;
    var before := log[..j];
    WasEnabled(c, Init(now), log, j);
    assert before[..i] == log[..i];
    ClosedForGood(c, Init(now), before, i);
    RunInv(c, now, before);
    OnlyActiveStart(c, Exec(c, Init(now), before).value, log[j]);
  }

  /** Slots in use are the goroutines between admission and release, on every exit path;
      never more than the limit, and none when nobody is in the terminal handler. */
  lemma InflightConservation(c: Config, now: int, log: seq<Action>)
    requires c.Valid() && Exec(c, Init(now), log).Some?
    ensures var s := Exec(c, Init(now), log).value;
            && s.slots == |SlotUsers(s.ops)| <= c.maxInflight
            && |E.InFlight(s.exec)| <= s.slots
            && ((forall g :: g in s.ops ==> !UsesSlot(s.ops[g])) ==> s.slots == 0)
  {
    RunInv(c, now, log);
    var s := Exec(c, Init(now), log).value;
    OneGoroutinePerCall(s, E.InFlight(s.exec), SlotUsers(s.ops));
    if forall g :: g in s.ops ==> !UsesSlot(s.ops[g]) {
      assert SlotUsers(s.ops) == {};
    }
  }

  lemma {:induction false} OneGoroutinePerCall(s: State, calls: set<E.Id>, gs: set<Gid>)
    requires forall id :: id in calls ==> exists g :: g in gs && At(s, g, Doing(id))
    ensures |calls| <= |gs|
    decreases calls
  {
    if calls != {} {
      var id :| id in calls;
      var g :| g in gs && At(s, g, Doing(id));
      forall i | i in calls - {id} ensures exists h :: h in gs - {g} && At(s, h, Doing(i)) {
        var h :| h in gs && At(s, h, Doing(i));
        assert h in gs - {g};
      }
      OneGoroutinePerCall(s, calls - {id}, gs - {g});
    }
  }

  // ---- The executor inside the client ----

  /** The executor's part of a client run. */
  function ExecutorLog(log: seq<Action>): seq<E.Action> {
    if log == [] then []
    else
      var front := ExecutorLog(log[..|log| - 1]);
      match log[|log| - 1]
      case Tick(now) => front + [E.Tick(now)]
      case CallDo(_, call) => front + [E.Enter(call)]
      case DoStep(_, step) => front + [step]
      case _ => front
  }

  /** Every client run contains a run of the executor, so whatever holds of the latter's
      runs (accounting, pacing, half-open discipline) holds inside the client. */
  lemma {:induction false} ClientRunsExecutor(c: Config, now: int, log: seq<Action>)
    requires Exec(c, Init(now), log).Some?
    ensures E.Exec(c.policy, E.Init(now), ExecutorLog(log)) == Some(Exec(c, Init(now), log).value.exec)
  {
    if log != [] {
      var front, a := log[..|log| - 1], log[|log| - 1];
      ClientRunsExecutor(c, now, front);
      match a
      case Tick(later) => E.ExecSnoc(c.policy, E.Init(now), ExecutorLog(front), E.Tick(later));
      case CallDo(_, call) => E.ExecSnoc(c.policy, E.Init(now), ExecutorLog(front), E.Enter(call));
      case DoStep(_, step) => E.ExecSnoc(c.policy, E.Init(now), ExecutorLog(front), step);
      case _ =>
    }
  }

  /** Accounting inside the client: what the breaker let through was recorded, was
      cancelled, or is still held by a goroutine with a slot. */
  lemma AccountingInside(c: Config, now: int, log: seq<Action>)
    requires c.Valid() && Exec(c, Init(now), log).Some?
    ensures var s := Exec(c, Init(now), log).value;
            && H.Admissions(c.policy.breaker, s.exec.history)
               == H.Successes(s.exec.history) + H.Failures(s.exec.history)
                  + E.Cancellations(ExecutorLog(log)) + |E.InFlight(s.exec)|
            && (s.closed ==> E.InFlight(s.exec) == {})
  {
    ClientRunsExecutor(c, now, log);
    E.Accounting(c.policy, now, ExecutorLog(log));
    if Exec(c, Init(now), log).value.closed {
      NothingRunsOnceClosed(c, now, log);
    }
  }
}

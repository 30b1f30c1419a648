/**
 The distributed lock as an interleaving of steps: any number of Acquire calls,
 their rollbacks, Extend and Release calls, one step per Eval, and time passing
 in between.  A run is a log of actions, replayed from the empty cluster.
 */
module RedlockProtocol {
  import opened RedlockNode
  import opened Wrappers

  /** Where one lock session (one random token) stands. */
  datatype Phase =
    // inside Acquire: asking node `next`; `won` are the nodes that answered 1
    | Trying(attempt: nat, start: int, next: nat, won: set<nat>)
    // inside Acquire: deleting at node `next` after a failed attempt
    | Undoing(attempt: nat, next: nat)
    // inside Acquire: waiting on the timer or the context
    | Pausing(attempt: nat)
    // Acquire returned the token; the lock may be relied on before `until`
    | Held(until: int, backers: set<nat>)
    // inside Extend
    | Extending(until: int, backers: set<nat>, start: int, ttl: int, next: nat, won: set<nat>)
    // inside Release
    | Releasing(next: nat, gone: set<nat>)
    // Acquire returned ErrNotAcquired
    | Failed
    // Acquire returned the context's error
    | Cancelled

  /** `swept`: every delete of the session's current, or latest, pass of deletes
      reached its node, whether or not the reply came back. */
  datatype Session = Session(key: Key, ttl: int, retries: int, phase: Phase, swept: bool)

  datatype State = State(now: int, nodes: seq<Node>, sessions: map<Token, Session>)

  datatype Action =
    | Tick(now: int, clocks: seq<int>)
    | Begin(token: Token, key: Key, ttl: int, retries: int)
    // An Eval may fail to reach the node, or its reply may be lost after it took effect.
    | Eval(token: Token, delivered: bool, replied: bool)
    | Finish(token: Token)
    | Resume(token: Token)
    | Cancel(token: Token)
    | BeginExtend(token: Token, ttl: int)
    | BeginRelease(token: Token)

  predicate By(a: Action, token: Token) {
    !a.Tick? && a.token == token
  }

  /** A strict majority of the nodes, and never less than one. */
  function Quorum(n: nat): nat {
    n / 2 + 1
  }

  function Min(a: int, b: int): int {
    if a <= b then a else b
  }

  function Next(p: Phase): nat
    requires p.Trying? || p.Undoing? || p.Extending? || p.Releasing?
  {
    match p
    case Trying(_, _, next, _) => next
    case Undoing(_, next) => next
    case Extending(_, _, _, _, next, _) => next
    case Releasing(next, _) => next
  }

  /** The script a session in a node loop sends. */
  function ScriptOf(ses: Session): Script
    requires ses.phase.Trying? || ses.phase.Undoing? || ses.phase.Extending? || ses.phase.Releasing?
  {
    match ses.phase
    case Trying(_, _, _, _) => SetIfAbsent(MillisOf(ses.ttl))
    case Extending(_, _, _, ttl, _, _) => CompareExtend(MillisOf(ttl))
    case _ => CompareDelete
  }

  /** The loop variables after one node was asked and `ok` was reported. */
  function Advance(p: Phase, ok: bool): Phase
    requires p.Trying? || p.Undoing? || p.Extending? || p.Releasing?
  {
    match p
    case Trying(a, start, next, won) =>
      Trying(a, start, next + 1, if ok then won + {next} else won)
    case Undoing(a, next) => Undoing(a, next + 1)
    case Extending(until, backers, start, ttl, next, won) =>
      Extending(until, backers, start, ttl, next + 1, if ok then won + {next} else won)
    case Releasing(next, gone) =>
      Releasing(next + 1, if ok then gone + {next} else gone)
  }

  /** What follows a completed node loop. */
  function AfterLoop(ses: Session, now: int, n: nat): Phase
    requires ses.phase.Trying? || ses.phase.Undoing? || ses.phase.Extending? || ses.phase.Releasing?
  {
    match ses.phase
    case Trying(a, start, _, won) =>
      if Quorum(n) <= |won| && 0 < ses.ttl - (now - start) - DriftFor(ses.ttl)
      then Held(WindowEnd(start, ses.ttl), won)
      else Undoing(a, 0)
    case Undoing(a, _) =>
      if a < ses.retries - 1 then Pausing(a) else Failed
    case Extending(until, backers, start, ttl, _, won) =>
      if Quorum(n) <= |won| then Held(WindowEnd(start, ttl), won)
      else Held(Min(until, WindowEnd(start, ttl)), backers)
    case Releasing(_, _) => Held(now, {})
  }

  predicate InLoop(s: State, token: Token) {
    && token in s.sessions
    && var p := s.sessions[token].phase;
       p.Trying? || p.Undoing? || p.Extending? || p.Releasing?
  }

  predicate Enabled(s: State, a: Action) {
    match a
    case Tick(now, clocks) =>
      && |clocks| == |s.nodes|
      && s.now <= now
      && forall i :: 0 <= i < |clocks| ==> ClockStep(s.nodes[i].clock, clocks[i], s.now, now)
    case Begin(t, _, _, _) => t !in s.sessions
    case Eval(t, _, _) => InLoop(s, t) && Next(s.sessions[t].phase) < |s.nodes|
    case Finish(t) => InLoop(s, t) && Next(s.sessions[t].phase) == |s.nodes|
    case Resume(t) => t in s.sessions && s.sessions[t].phase.Pausing?
    case Cancel(t) => t in s.sessions && s.sessions[t].phase.Pausing?
    case BeginExtend(t, _) => t in s.sessions && s.sessions[t].phase.Held?
    case BeginRelease(t) => t in s.sessions && s.sessions[t].phase.Held?
  }

  function MoveClocks(nodes: seq<Node>, clocks: seq<int>): (r: seq<Node>)
    requires |clocks| == |nodes|
    ensures |r| == |nodes|
    ensures forall i :: 0 <= i < |nodes| ==> r[i] == nodes[i].(clock := clocks[i])
  {
    seq(|nodes|, i requires 0 <= i < |nodes| => nodes[i].(clock := clocks[i]))
  }

  function EvalOn(s: State, t: Token, delivered: bool, replied: bool): (State, bool)
    requires InLoop(s, t) && Next(s.sessions[t].phase) < |s.nodes|
  {
    var ses := s.sessions[t];
    var i := Next(ses.phase);
    var (node, answer) := RunScript(s.nodes[i], ScriptOf(ses), ses.key, t);
    var ok := delivered && replied && answer;
    var swept := ses.swept && (delivered || !ScriptOf(ses).CompareDelete?);
    var ses' := ses.(phase := Advance(ses.phase, ok), swept := swept);
    (State(s.now, if delivered then s.nodes[i := node] else s.nodes, s.sessions[t := ses']), ok)
  }

  /** Enters a phase; a pass of deletes starts with a clean slate. */
  function SetPhase(s: State, t: Token, p: Phase): State
    requires t in s.sessions
  {
    var ses := s.sessions[t];
    s.(sessions := s.sessions[t := ses.(phase := p, swept := ses.swept || p.Undoing? || p.Releasing?)])
  }

  function Apply(s: State, a: Action): State
    requires Enabled(s, a)
  {
    match a
    case Tick(now, clocks) => s.(now := now, nodes := MoveClocks(s.nodes, clocks))
    case Begin(t, key, ttl, retries) =>
      var p := if 0 < retries then Trying(0, s.now, 0, {}) else Failed;
      s.(sessions := s.sessions[t := Session(key, ttl, retries, p, true)])
    case Eval(t, delivered, replied) => EvalOn(s, t, delivered, replied).0
    case Finish(t) => SetPhase(s, t, AfterLoop(s.sessions[t], s.now, |s.nodes|))
    case Resume(t) => SetPhase(s, t, Trying(s.sessions[t].phase.attempt + 1, s.now, 0, {}))
    case Cancel(t) => SetPhase(s, t, Cancelled)
    case BeginExtend(t, ttl) =>
      var p := s.sessions[t].phase;
      SetPhase(s, t, Extending(p.until, p.backers, s.now, ttl, 0, {}))
    case BeginRelease(t) => SetPhase(s, t, Releasing(0, {}))
  }

  /** A cluster nobody has used yet: clocks may read anything. */
  function Init(now: int, clocks: seq<int>): State {
    State(now, seq(|clocks|, i requires 0 <= i < |clocks| => Node(clocks[i], map[])), map[])
  }

  /** Replays a log of actions; None if one of them was not possible where it stands. */
  function Exec(s0: State, log: seq<Action>): Option<State> {
    if log == [] then Some(s0)
    else
      match Exec(s0, log[..|log| - 1])
      case None => None
      case Some(s) =>
        var a := log[|log| - 1];
        if Enabled(s, a) then Some(Apply(s, a)) else None
  }

  lemma ExecSnoc(s0: State, log: seq<Action>, a: Action)
    ensures Exec(s0, log + [a]) ==
            match Exec(s0, log)
            case None => None
            case Some(s) => if Enabled(s, a) then Some(Apply(s, a)) else None
  {
    assert (log + [a])[..|log + [a]| - 1] == log;
  }

  // ---- Validity windows ----

  /** The instant before which the holder may rely on the lock.  While Extend runs it
      is the earlier of the old and the new one; Release ends it. */
  function Until(s: State, t: Token): Option<int> {
    if t !in s.sessions then None
    else
      match s.sessions[t].phase
      case Held(until, _) => Some(until)
      case Extending(until, _, start, ttl, _, _) => Some(Min(until, WindowEnd(start, ttl)))
      case _ => None
  }

  predicate InWindow(s: State, t: Token) {
    Until(s, t).Some? && s.now < Until(s, t).value
  }

  function Holders(s: State, key: Key, t: Token): set<nat> {
    set i: nat | i < |s.nodes| && s.nodes[i].Holds(key, t)
  }
}

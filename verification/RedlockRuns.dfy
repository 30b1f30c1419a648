/**
 Further facts about runs of the lock protocol: how often Acquire tries and waits,
 what others' steps can do to a token's entries, and what the counts are worth.
 */
module RedlockRuns {
  import opened Durations
  import opened RedlockNode
  import opened RedlockProtocol
  import opened RedlockSafety

  // ---- Passes and waits ----

  /** What the numbers of resumes and cancellations in the log say about a session. */
  predicate Paced(ses: Session, resumes: nat, cancels: nat) {
    if ses.retries <= 0 then resumes == cancels == 0 && ses.phase.Failed?
    else
      match ses.phase
      case Trying(a, _, _, _) => a == resumes < ses.retries && cancels == 0
      case Undoing(a, _) => a == resumes < ses.retries && cancels == 0
      case Pausing(a) => a == resumes < ses.retries - 1 && cancels == 0
      case Failed => resumes == ses.retries - 1 && cancels == 0
      case Cancelled => resumes < ses.retries - 1 && cancels == 1
      case _ => resumes < ses.retries && cancels == 0
  }

  predicate PacedIn(s: State, t: Token, resumes: nat, cancels: nat) {
    if t in s.sessions then Paced(s.sessions[t], resumes, cancels) else resumes == cancels == 0
  }

  lemma PacedStep(s: State, a: Action, t: Token, resumes: nat, cancels: nat)
    requires Enabled(s, a) && PacedIn(s, t, resumes, cancels)
    ensures PacedIn(Apply(s, a), t, resumes + (if a == Resume(t) then 1 else 0),
                    cancels + (if a == Cancel(t) then 1 else 0))
  {
    if !By(a, t) {
      OthersSessionStays(s, a, t);
    }
  }

  lemma OthersSessionStays(s: State, a: Action, t: Token)
    requires Enabled(s, a) && !By(a, t)
    ensures t in Apply(s, a).sessions <==> t in s.sessions
    ensures t in s.sessions ==> Apply(s, a).sessions[t] == s.sessions[t]
  {
  }

  lemma {:induction false} RunIsPaced(now: int, clocks: seq<int>, log: seq<Action>, t: Token)
    requires Exec(Init(now, clocks), log).Some?
    ensures PacedIn(Exec(Init(now, clocks), log).value, t, multiset(log)[Resume(t)], multiset(log)[Cancel(t)])
  {
    if log != [] {
      hide Enabled, Apply, PacedIn;
      var front, a := log[..|log| - 1], log[|log| - 1];
      RunIsPaced(now, clocks, front, t);
      assert log == front + [a];
      PacedStep(Exec(Init(now, clocks), front).value, a, t, multiset(front)[Resume(t)], multiset(front)[Cancel(t)]);
    }
  }

  /** Acquire makes at most `retries` passes and `retries` - 1 waits, and it reports
      ErrNotAcquired only after the last of them. */
  lemma PassesAndWaits(now: int, clocks: seq<int>, log: seq<Action>, t: Token)
    requires Exec(Init(now, clocks), log).Some? && t in Exec(Init(now, clocks), log).value.sessions
    ensures var ses := Exec(Init(now, clocks), log).value.sessions[t];
            var retries := if 0 < ses.retries then ses.retries else 0;
            var passes := if 0 < ses.retries then 1 + multiset(log)[Resume(t)] else 0;
            var waits := multiset(log)[Resume(t)] + multiset(log)[Cancel(t)] + if ses.phase.Pausing? then 1 else 0;
            && passes <= retries
            && (0 < retries ==> waits <= retries - 1)
            && (retries == 0 ==> waits == 0)
            && (ses.phase.Failed? ==> passes == retries)
  {
    RunIsPaced(now, clocks, log, t);
  }

  // ---- Ownership ----

  /** The node has an entry of u's at k, live or not. */
  predicate Stores(node: Node, k: Key, u: Token) {
    k in node.store && node.store[k].token == u
  }

  /** This step is not u's, and is not an attempt to acquire k. */
  predicate NotAcquiring(s: State, a: Action, k: Key, u: Token)
    requires Enabled(s, a)
  {
    && !By(a, u)
    && (a.Eval? ==> s.sessions[a.token].key != k || !s.sessions[a.token].phase.Trying?)
  }

  /** All of these steps are others' Release, Extend and rollback steps, steps about
      other keys, or time passing. */
  predicate NoneAcquiring(s: State, acts: seq<Action>, k: Key, u: Token)
    requires Exec(s, acts).Some?
  {
    acts == [] ||
    (var front := acts[..|acts| - 1];
     NoneAcquiring(s, front, k, u) && NotAcquiring(Exec(s, front).value, acts[|acts| - 1], k, u))
  }

  /** One step, as one node sees it: the node count stays and no clock runs backwards. */
  lemma StepOnNode(s: State, a: Action, i: nat)
    requires Enabled(s, a) && i < |s.nodes|
    ensures |Apply(s, a).nodes| == |s.nodes|
    ensures s.nodes[i].Reading() <= Apply(s, a).nodes[i].Reading()
  {
    if a.Eval? {
      var ses := s.sessions[a.token];
      ScriptFrame(s.nodes[Next(ses.phase)], ScriptOf(ses), ses.key, a.token);
    }
  }

  lemma ForeignStep(s: State, a: Action, u: Token, i: nat, k: Key)
    requires Enabled(s, a) && !By(a, u)
    requires i < |s.nodes| && Stores(s.nodes[i], k, u)
    requires s.nodes[i].Live(k) || NotAcquiring(s, a, k, u)
    ensures |Apply(s, a).nodes| == |s.nodes|
    ensures k in Apply(s, a).nodes[i].store && Apply(s, a).nodes[i].store[k] == s.nodes[i].store[k]
  {
    if a.Eval? && Next(s.sessions[a.token].phase) == i {
      ScriptFrame(s.nodes[i], ScriptOf(s.sessions[a.token]), s.sessions[a.token].key, a.token);
    }
  }

  /** Any sequence of others' Release, Extend and rollback steps, interleaved with anything
      about other keys and with any passing of time, leaves every entry of u's as it was,
      on every node, live or not. */
  lemma {:induction false} ForeignEntriesUntouched(s: State, acts: seq<Action>, u: Token, i: nat, k: Key)
    requires Exec(s, acts).Some? && NoneAcquiring(s, acts, k, u)
    requires i < |s.nodes| && Stores(s.nodes[i], k, u)
    ensures var s' := Exec(s, acts).value;
            && |s'.nodes| == |s.nodes|
            && k in s'.nodes[i].store && s'.nodes[i].store[k] == s.nodes[i].store[k]
  {
    if acts != [] {
      var front, a := acts[..|acts| - 1], acts[|acts| - 1];
      ForeignEntriesUntouched(s, front, u, i, k);
      ForeignStep(Exec(s, front).value, a, u, i, k);
    }
  }

  /** Whatever others do, acquiring included, and however time passes: as long as an entry
      of u's has not reached its deadline, only u's own steps change it. */
  lemma {:induction false} LiveForeignEntriesUntouched(s: State, acts: seq<Action>, u: Token, i: nat, k: Key)
    requires Exec(s, acts).Some?
    requires forall j :: 0 <= j < |acts| ==> !By(acts[j], u)
    requires i < |s.nodes| && Stores(s.nodes[i], k, u)
    ensures var s' := Exec(s, acts).value;
            && |s'.nodes| == |s.nodes|
            && (s'.nodes[i].Reading() < s.nodes[i].store[k].deadline ==>
                  k in s'.nodes[i].store && s'.nodes[i].store[k] == s.nodes[i].store[k])
  {
    if acts != [] {
      var front, a := acts[..|acts| - 1], acts[|acts| - 1];
      LiveForeignEntriesUntouched(s, front, u, i, k);
      var r := Exec(s, front).value;
      StepOnNode(r, a, i);
      if Apply(r, a).nodes[i].Reading() < s.nodes[i].store[k].deadline {
        ForeignStep(r, a, u, i, k);
      }
    }
  }

  // ---- What the counts are worth ----

  /** What can happen to a token's entry at a key on one node. */
  datatype Effect = Gained | Renewed(ms: int) | Deleted

  predicate Happened(node: Node, node': Node, key: Key, t: Token, effect: Effect) {
    match effect
    case Gained => !node.Live(key) && node'.Holds(key, t)
    case Renewed(ms) =>
      node.Holds(key, t) && node'.Holds(key, t) && node'.store[key].deadline == node.Reading() + ms
    case Deleted => node.Holds(key, t) && key !in node'.store
  }

  /** What an answer of 1 to a renewal stands for: with a ttl under a millisecond the
      key is deleted. */
  function ExtendEffect(ttl: int): Effect {
    if ttl < MS then Deleted else Renewed(MillisOf(ttl))
  }

  /** What an answer of 1 stands for in this loop. */
  function Asked(p: Phase): Effect {
    match p
    case Trying(_, _, _, _) => Gained
    case Extending(_, _, _, ttl, _, _) => ExtendEffect(ttl)
    case _ => Deleted
  }

  /** An Eval that reports true did to the node what was asked. */
  lemma AnswerMeansEffect(s: State, a: Action)
    requires a.Eval? && Enabled(s, a) && EvalOn(s, a.token, a.delivered, a.replied).1
    ensures var ses := s.sessions[a.token];
            var i := Next(ses.phase);
            Happened(s.nodes[i], Apply(s, a).nodes[i], ses.key, a.token, Asked(ses.phase))
  {
  }

  /** The node on which an Eval had this effect, if any. */
  function Change(s: State, a: Action, effect: Effect): (r: set<nat>)
    requires a.Eval? && Enabled(s, a)
    ensures r <= Below(|s.nodes|)
  {
    var ses := s.sessions[a.token];
    var i := Next(ses.phase);
    if Happened(s.nodes[i], Apply(s, a).nodes[i], ses.key, a.token, effect) then {i} else {}
  }

  predicate StartsPass(s: State, t: Token) {
    InLoop(s, t) && Next(s.sessions[t].phase) == 0
  }

  /** The nodes on which the token's current, or latest, pass over the nodes really had
      this effect. */
  function Changed(s0: State, log: seq<Action>, t: Token, effect: Effect): set<nat>
    requires Exec(s0, log).Some?
  {
    if log == [] then {}
    else
      var front, a := log[..|log| - 1], log[|log| - 1];
      if !By(a, t) then Changed(s0, front, t, effect)
      else if StartsPass(Exec(s0, log).value, t) then {}
      else if a.Eval? then Changed(s0, front, t, effect) + Change(Exec(s0, front).value, a, effect)
      else Changed(s0, front, t, effect)
  }

  lemma {:induction false} ChangedInRange(s0: State, log: seq<Action>, t: Token, effect: Effect)
    requires Exec(s0, log).Some?
    ensures Changed(s0, log, t, effect) <= Below(|s0.nodes|)
    ensures |Exec(s0, log).value.nodes| == |s0.nodes|
  {
    if log != [] {
      ChangedInRange(s0, log[..|log| - 1], t, effect);
    }
  }

  /** The nodes a loop has counted so far. */
  function Counted(p: Phase): set<nat> {
    match p
    case Trying(_, _, _, won) => won
    case Extending(_, _, _, _, _, won) => won
    case Releasing(_, gone) => gone
    case _ => {}
  }

  lemma {:induction false} CountedAreChanged(now: int, clocks: seq<int>, log: seq<Action>, t: Token)
    requires Exec(Init(now, clocks), log).Some?
    ensures var s := Exec(Init(now, clocks), log).value;
            t in s.sessions ==>
              var p := s.sessions[t].phase;
              Counted(p) <= Changed(Init(now, clocks), log, t, Asked(p))
  {
    if log != [] {
      var front, a := log[..|log| - 1], log[|log| - 1];
      CountedAreChanged(now, clocks, front, t);
      var s := Exec(Init(now, clocks), front).value;
      if a.Eval? && a.token == t && EvalOn(s, t, a.delivered, a.replied).1 {
        AnswerMeansEffect(s, a);
      }
      if !By(a, t) {
        OthersSessionStays(s, a, t);
      }
    }
  }

  /** Whatever was lost on the way, no loop's count exceeds the number of nodes on which
      its scripts really did what was asked. */
  lemma CountsAreReal(now: int, clocks: seq<int>, log: seq<Action>, t: Token)
    requires Exec(Init(now, clocks), log).Some? && t in Exec(Init(now, clocks), log).value.sessions
    ensures var s := Exec(Init(now, clocks), log).value;
            var p := s.sessions[t].phase;
            |Counted(p)| <= |Changed(Init(now, clocks), log, t, Asked(p))| <= |s.nodes|
  {
    CountedAreChanged(now, clocks, log, t);
    var s := Exec(Init(now, clocks), log).value;
    var changed := Changed(Init(now, clocks), log, t, Asked(s.sessions[t].phase));
    SubsetCard(Counted(s.sessions[t].phase), changed);
    ChangedInRange(Init(now, clocks), log, t, Asked(s.sessions[t].phase));
    SubsetCard(changed, Below(|s.nodes|));
  }

  /** Leaving the loop changes no node. */
  lemma ChangedAtFinish(s0: State, log: seq<Action>, t: Token, effect: Effect)
    requires Exec(s0, log).Some? && Exec(s0, log + [Finish(t)]).Some?
    requires !InLoop(Exec(s0, log + [Finish(t)]).value, t)
    ensures Changed(s0, log + [Finish(t)], t, effect) == Changed(s0, log, t, effect)
  {
    hide InLoop, Exec;
    assert (log + [Finish(t)])[..|log + [Finish(t)]| - 1] == log;
  }

  /** The loop is over and has counted a quorum: the call succeeds. */
  predicate HasQuorum(s: State, t: Token) {
    && InLoop(s, t) && Next(s.sessions[t].phase) == |s.nodes|
    && Quorum(|s.nodes|) <= |Counted(s.sessions[t].phase)|
  }

  /** The log ends with the end of a loop of this token's, in which it counted a quorum. */
  predicate EndsWithQuorum(s0: State, log: seq<Action>, t: Token) {
    log != [] && log[|log| - 1] == Finish(t)
    && match Exec(s0, log[..|log| - 1])
       case None => false
       case Some(s) => HasQuorum(s, t)
  }

  lemma QuorumAtTheEnd(s0: State, log: seq<Action>, t: Token)
    requires Exec(s0, log).Some?
    ensures EndsWithQuorum(s0, log + [Finish(t)], t) <==> HasQuorum(Exec(s0, log).value, t)
  {
    assert (log + [Finish(t)])[..|log + [Finish(t)]| - 1] == log;
  }
}

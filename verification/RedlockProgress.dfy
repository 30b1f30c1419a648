/**
 When the lock's calls must succeed.  A quorum of nodes is enough: if the Evals sent to
 these nodes arrive and are answered, free nodes are won on the first pass, and whoever
 is inside its window can extend and release, whatever happens on the other nodes and
 whatever others do.
 */
module RedlockProgress {
  import opened Durations
  import opened RedlockNode
  import opened RedlockProtocol
  import opened RedlockSafety
  import opened RedlockRuns
  import opened Wrappers

  /** A step of t's is an Eval; sent to one of these nodes, it arrives and is answered. */
  predicate Works(s: State, a: Action, t: Token, nodes: set<nat>)
    requires Enabled(s, a)
  {
    By(a, t) ==> a.Eval? && (Next(s.sessions[t].phase) in nodes ==> a.delivered && a.replied)
  }

  /** Nobody else tries to acquire the key on one of these nodes. */
  predicate Undisturbed(s: State, a: Action, key: Key, t: Token, nodes: set<nat>)
    requires Enabled(s, a)
  {
    a.Eval? && a.token != t && s.sessions[a.token].key == key && s.sessions[a.token].phase.Trying? ==>
      Next(s.sessions[a.token].phase) !in nodes
  }

  /** All along this run t's loop goes on and its Evals to these nodes work. */
  predicate WorkingRun(s: State, acts: seq<Action>, t: Token, nodes: set<nat>)
    requires Exec(s, acts).Some?
  {
    acts == [] ||
    (var front := acts[..|acts| - 1];
     WorkingRun(s, front, t, nodes) && Works(Exec(s, front).value, acts[|acts| - 1], t, nodes))
  }

  predicate UndisturbedRun(s: State, acts: seq<Action>, key: Key, t: Token, nodes: set<nat>)
    requires Exec(s, acts).Some?
  {
    acts == [] ||
    (var front := acts[..|acts| - 1];
     && UndisturbedRun(s, front, key, t, nodes)
     && Undisturbed(Exec(s, front).value, acts[|acts| - 1], key, t, nodes))
  }

  lemma StepKeepsNodes(s: State, a: Action)
    requires Enabled(s, a)
    ensures |Apply(s, a).nodes| == |s.nodes| && s.now <= Apply(s, a).now
  {
  }

  /** An Eval touches one node. */
  lemma EvalElsewhere(s: State, a: Action, i: nat)
    requires Enabled(s, a) && a.Eval? && i < |s.nodes| && i != Next(s.sessions[a.token].phase)
    ensures |Apply(s, a).nodes| == |s.nodes| && Apply(s, a).nodes[i] == s.nodes[i]
  {
  }

  // ---- Acquire ----

  /** These nodes are won as far as they were asked, and free from there on. */
  predicate Winning(s: State, t: Token, key: Key, ttl: int, start: int, nodes: set<nat>) {
    && t in s.sessions && s.sessions[t].key == key && s.sessions[t].ttl == ttl
    && s.sessions[t].phase.Trying? && s.sessions[t].phase.attempt == 0 && s.sessions[t].phase.start == start
    && forall i :: i in nodes ==>
         && i < |s.nodes|
         && (if i < s.sessions[t].phase.next then i in s.sessions[t].phase.won else !s.nodes[i].Live(key))
  }

  /** One more node asked: won, if it was free and the Eval worked. */
  lemma AskedOne(s: State, a: Action, t: Token)
    requires Enabled(s, a) && a.Eval? && a.token == t && s.sessions[t].phase.Trying?
    ensures var s', p := Apply(s, a), s.sessions[t].phase;
            && t in s'.sessions && s'.sessions[t].key == s.sessions[t].key && s'.sessions[t].ttl == s.sessions[t].ttl
            && s'.sessions[t].phase == Trying(p.attempt, p.start, p.next + 1, s'.sessions[t].phase.won)
            && p.won <= s'.sessions[t].phase.won
            && (a.delivered && a.replied
                && 0 < MillisOf(s.sessions[t].ttl) && !s.nodes[p.next].Live(s.sessions[t].key) ==>
                  p.next in s'.sessions[t].phase.won)
  {
  }

  /** In an undisturbed run no step of others makes the key live on these nodes. */
  lemma StaysFree(s: State, a: Action, key: Key, t: Token, i: nat, nodes: set<nat>)
    requires Enabled(s, a) && Undisturbed(s, a, key, t, nodes) && !By(a, t)
    requires i in nodes && i < |s.nodes| && !s.nodes[i].Live(key)
    ensures |Apply(s, a).nodes| == |s.nodes| && !Apply(s, a).nodes[i].Live(key)
  {
    if a.Eval? {
      var ses := s.sessions[a.token];
      ScriptFrame(s.nodes[Next(ses.phase)], ScriptOf(ses), ses.key, a.token);
    }
  }

  lemma OwnStepWins(s: State, a: Action, t: Token, key: Key, ttl: int, start: int, nodes: set<nat>)
    requires Winning(s, t, key, ttl, start, nodes) && Enabled(s, a) && MS <= ttl
    requires By(a, t) && Works(s, a, t, nodes)
    ensures Winning(Apply(s, a), t, key, ttl, start, nodes)
  {
    var s', next := Apply(s, a), s.sessions[t].phase.next;
    AskedOne(s, a, t);
    StepKeepsNodes(s, a);
    assert 0 < MillisOf(ttl);
    forall i | i in nodes && next < i ensures !s'.nodes[i].Live(key) {
      EvalElsewhere(s, a, i);
    }
    hide Apply;
  }

  lemma WinningStep(s: State, a: Action, t: Token, key: Key, ttl: int, start: int, nodes: set<nat>)
    requires Winning(s, t, key, ttl, start, nodes) && Enabled(s, a) && MS <= ttl
    requires Works(s, a, t, nodes) && Undisturbed(s, a, key, t, nodes)
    ensures Winning(Apply(s, a), t, key, ttl, start, nodes)
  {
    if By(a, t) {
      OwnStepWins(s, a, t, key, ttl, start, nodes);
    } else {
      OthersSessionStays(s, a, t);
      StepKeepsNodes(s, a);
      forall i | i in nodes && s.sessions[t].phase.next <= i ensures !Apply(s, a).nodes[i].Live(key) {
        StaysFree(s, a, key, t, i, nodes);
      }
      hide Apply;
    }
  }

  lemma {:induction false} WinningRun(s: State, acts: seq<Action>, t: Token,
                                      key: Key, ttl: int, start: int, nodes: set<nat>)
    requires Winning(s, t, key, ttl, start, nodes) && MS <= ttl && Exec(s, acts).Some?
    requires WorkingRun(s, acts, t, nodes) && UndisturbedRun(s, acts, key, t, nodes)
    ensures Winning(Exec(s, acts).value, t, key, ttl, start, nodes)
    ensures |Exec(s, acts).value.nodes| == |s.nodes|
  {
    if acts != [] {
      hide Enabled, Apply, Works, Undisturbed, Winning;
      var front, a := acts[..|acts| - 1], acts[|acts| - 1];
      WinningRun(s, front, t, key, ttl, start, nodes);
      StepKeepsNodes(Exec(s, front).value, a);
      WinningStep(Exec(s, front).value, a, t, key, ttl, start, nodes);
    }
  }

  lemma WinningEnds(s: State, t: Token, key: Key, ttl: int, start: int, nodes: set<nat>)
    requires Winning(s, t, key, ttl, start, nodes) && Enabled(s, Finish(t)) && Quorum(|s.nodes|) <= |nodes|
    requires s.now < WindowEnd(start, ttl)
    ensures HasQuorum(s, t) && InWindow(Apply(s, Finish(t)), t)
    ensures Until(Apply(s, Finish(t)), t) == Some(WindowEnd(start, ttl))
  {
    assert nodes <= s.sessions[t].phase.won;
    SubsetCard(nodes, s.sessions[t].phase.won);
  }

  /** If a quorum of nodes is free, the Evals sent to them work and nobody else tries to
      acquire the key there, the first pass succeeds, provided it is over before 99
      hundredths of the ttl, less two milliseconds, have gone by. */
  lemma FreeNodesAreWon(s: State, t: Token, key: Key, ttl: int, retries: int, acts: seq<Action>, nodes: set<nat>)
    requires t !in s.sessions && 0 < retries && MS <= ttl
    requires Quorum(|s.nodes|) <= |nodes| && forall i :: i in nodes ==> i < |s.nodes| && !s.nodes[i].Live(key)
    requires var s1 := Apply(s, Begin(t, key, ttl, retries));
             && Exec(s1, acts).Some? && WorkingRun(s1, acts, t, nodes) && UndisturbedRun(s1, acts, key, t, nodes)
             && Enabled(Exec(s1, acts).value, Finish(t))
             && s.now <= Exec(s1, acts).value.now
             && 100 * (Exec(s1, acts).value.now - s.now) < 99 * ttl - 200 * MS
    ensures var s2 := Exec(Apply(s, Begin(t, key, ttl, retries)), acts).value;
            && InWindow(Apply(s2, Finish(t)), t)
            && Until(Apply(s2, Finish(t)), t) == Some(WindowEnd(s.now, ttl))
  {
    var s1 := Apply(s, Begin(t, key, ttl, retries));
    assert Winning(s1, t, key, ttl, s.now, nodes);
    hide Winning, Apply;
    WindowInNumbers(s.now, Exec(s1, acts).value.now, ttl);
    WinningRun(s1, acts, t, key, ttl, s.now, nodes);
    WinningEnds(Exec(s1, acts).value, t, key, ttl, s.now, nodes);
  }

  // ---- Extend and Release ----

  predicate Owning(p: Phase) {
    p.Extending? || p.Releasing?
  }

  /** These nodes hold the key for t until then; the holder's backers do. */
  predicate HeldOn(s: State, key: Key, t: Token, nodes: set<nat>, until: int) {
    forall i :: i in nodes ==> i < |s.nodes| && Covers(s.nodes[i], key, t, s.now, until)
  }

  /** A loop of Extend or Release under way: of these nodes, those asked so far are counted,
      the others still hold the key. */
  predicate Counting(s: State, t: Token, key: Key, until: int, nodes: set<nat>) {
    && t in s.sessions && s.sessions[t].key == key && Owning(s.sessions[t].phase)
    && forall i :: i in nodes ==>
         && i < |s.nodes|
         && (if i < Next(s.sessions[t].phase) then i in Counted(s.sessions[t].phase)
             else Covers(s.nodes[i], key, t, s.now, until))
  }

  /** One more node asked: counted, if it holds the key and the Eval worked. */
  lemma CountedOne(s: State, a: Action, t: Token)
    requires Enabled(s, a) && a.Eval? && a.token == t && Owning(s.sessions[t].phase)
    ensures var s', p := Apply(s, a), s.sessions[t].phase;
            && t in s'.sessions && s'.sessions[t].key == s.sessions[t].key
            && SameLoop(p, s'.sessions[t].phase) && s'.now == s.now
            && Next(s'.sessions[t].phase) == Next(p) + 1
            && Counted(p) <= Counted(s'.sessions[t].phase)
            && (a.delivered && a.replied && s.nodes[Next(p)].Holds(s.sessions[t].key, t) ==>
                  Next(p) in Counted(s'.sessions[t].phase))
  {
  }

  /** The same loop with the same parameters. */
  predicate SameLoop(p: Phase, p': Phase) {
    && (p.Releasing? ==> p'.Releasing?)
    && (p.Extending? ==> p'.Extending? && p'.start == p.start && p'.ttl == p.ttl)
  }

  lemma OwnStepCounts(s: State, a: Action, t: Token, key: Key, until: int, nodes: set<nat>)
    requires Counting(s, t, key, until, nodes) && Enabled(s, a) && s.now < until
    requires By(a, t) && Works(s, a, t, nodes)
    ensures Counting(Apply(s, a), t, key, until, nodes)
    ensures SameLoop(s.sessions[t].phase, Apply(s, a).sessions[t].phase)
  {
    var s', next := Apply(s, a), Next(s.sessions[t].phase);
    if next in nodes {
      CoversHolds(s.nodes[next], key, t, s.now, until);
    }
    CountedOne(s, a, t);
    StepKeepsNodes(s, a);
    forall i | i in nodes && next < i ensures Covers(s'.nodes[i], key, t, s'.now, until) {
      EvalElsewhere(s, a, i);
    }
    hide Apply;
  }

  lemma OthersAge(s: State, a: Action, key: Key, t: Token)
    requires Enabled(s, a) && !By(a, t)
    ensures Aged(s, Apply(s, a), key, t)
  {
    if a.Tick? {
      TickAges(s, a, key, t);
    } else if a.Eval? {
      OtherEvalAges(s, a, key, t);
    } else {
      assert Apply(s, a).nodes == s.nodes && Apply(s, a).now == s.now;
    }
  }

  lemma CountingStep(s: State, a: Action, t: Token, key: Key, until: int, nodes: set<nat>)
    requires Counting(s, t, key, until, nodes) && Enabled(s, a) && s.now < until && Works(s, a, t, nodes)
    ensures Counting(Apply(s, a), t, key, until, nodes)
    ensures SameLoop(s.sessions[t].phase, Apply(s, a).sessions[t].phase)
  {
    if By(a, t) {
      OwnStepCounts(s, a, t, key, until, nodes);
    } else {
      OthersSessionStays(s, a, t);
      OthersAge(s, a, key, t);
      hide Apply;
    }
  }

  lemma {:induction false} CountingRun(s: State, acts: seq<Action>, t: Token, key: Key, until: int, nodes: set<nat>)
    requires Counting(s, t, key, until, nodes) && Exec(s, acts).Some?
    requires WorkingRun(s, acts, t, nodes) && Exec(s, acts).value.now < until
    ensures Counting(Exec(s, acts).value, t, key, until, nodes)
    ensures |Exec(s, acts).value.nodes| == |s.nodes|
    ensures t in Exec(s, acts).value.sessions
    ensures SameLoop(s.sessions[t].phase, Exec(s, acts).value.sessions[t].phase)
  {
    if acts != [] {
      hide Enabled, Apply, Works;
      var front, a := acts[..|acts| - 1], acts[|acts| - 1];
      var r := Exec(s, front).value;
      StepKeepsNodes(r, a);
      CountingRun(s, front, t, key, until, nodes);
      CountingStep(r, a, t, key, until, nodes);
    }
  }

  lemma CountingEnds(s: State, t: Token, key: Key, until: int, nodes: set<nat>)
    requires Counting(s, t, key, until, nodes) && Enabled(s, Finish(t)) && Quorum(|s.nodes|) <= |nodes|
    ensures HasQuorum(s, t)
  {
    var counted := Counted(s.sessions[t].phase);
    assert nodes <= counted;
    SubsetCard(nodes, counted);
  }

  lemma FinishRenews(s: State, t: Token)
    requires Enabled(s, Finish(t)) && s.sessions[t].phase.Extending? && HasQuorum(s, t)
    ensures var s', p := Apply(s, Finish(t)), s.sessions[t].phase;
            && s'.now == s.now && t in s'.sessions
            && s'.sessions[t].phase == Held(WindowEnd(p.start, p.ttl), p.won)
  {
  }

  /** Extend renews the lock if the caller still owns it: when a quorum of nodes holds the
      key, as the backers of a holder inside its window do, the Evals sent to them work, and
      the loop is over before these nodes lose the key, it returns nil and gives the new
      window, open unless it has passed meanwhile, whatever others do. */
  lemma HolderExtends(s: State, t: Token, ttl: int, until: int, acts: seq<Action>, nodes: set<nat>)
    requires Enabled(s, BeginExtend(t, ttl))
    requires Quorum(|s.nodes|) <= |nodes| && HeldOn(s, s.sessions[t].key, t, nodes, until)
    requires var s1 := Apply(s, BeginExtend(t, ttl));
             && Exec(s1, acts).Some? && WorkingRun(s1, acts, t, nodes)
             && Enabled(Exec(s1, acts).value, Finish(t))
             && Exec(s1, acts).value.now < until
    ensures var s2 := Exec(Apply(s, BeginExtend(t, ttl)), acts).value;
            && HasQuorum(s2, t)
            && Until(Apply(s2, Finish(t)), t) == Some(WindowEnd(s.now, ttl))
            && (s.now <= s2.now && 100 * (s2.now - s.now) < 99 * ttl - 200 * MS ==> InWindow(Apply(s2, Finish(t)), t))
  {
    var s1, key := Apply(s, BeginExtend(t, ttl)), s.sessions[t].key;
    assert Counting(s1, t, key, until, nodes);
    hide Apply, Counting;
    CountingRun(s1, acts, t, key, until, nodes);
    var s2 := Exec(s1, acts).value;
    CountingEnds(s2, t, key, until, nodes);
    FinishRenews(s2, t);
    if s.now <= s2.now {
      WindowInNumbers(s.now, s2.now, ttl);
    }
  }

  /** Likewise Release: when a quorum of nodes holds the key, the Evals sent to them work and
      the loop is over before they lose it, it returns nil. */
  lemma HolderReleases(s: State, t: Token, until: int, acts: seq<Action>, nodes: set<nat>)
    requires Enabled(s, BeginRelease(t))
    requires Quorum(|s.nodes|) <= |nodes| && HeldOn(s, s.sessions[t].key, t, nodes, until)
    requires var s1 := Apply(s, BeginRelease(t));
             && Exec(s1, acts).Some? && WorkingRun(s1, acts, t, nodes)
             && Enabled(Exec(s1, acts).value, Finish(t))
             && Exec(s1, acts).value.now < until
    ensures HasQuorum(Exec(Apply(s, BeginRelease(t)), acts).value, t)
  {
    var s1, key := Apply(s, BeginRelease(t)), s.sessions[t].key;
    assert Counting(s1, t, key, until, nodes);
    hide Apply, Counting;
    CountingRun(s1, acts, t, key, until, nodes);
    CountingEnds(Exec(s1, acts).value, t, key, until, nodes);
  }

  /** In every run, whoever is inside its window has such a quorum until the window ends:
      its backers. */
  lemma BackersHold(now: int, clocks: seq<int>, log: seq<Action>, t: Token)
    requires Exec(Init(now, clocks), log).Some?
    requires InWindow(Exec(Init(now, clocks), log).value, t)
    ensures var s := Exec(Init(now, clocks), log).value;
            var backers := s.sessions[t].phase.backers;
            Quorum(|s.nodes|) <= |backers| && HeldOn(s, s.sessions[t].key, t, backers, Until(s, t).value)
  {
    RunInv(now, clocks, log);
    var s := Exec(Init(now, clocks), log).value;
    assert Good(s, t, s.sessions[t]);
    assert s.sessions[t].phase.backers <= Below(|s.nodes|);
  }
}

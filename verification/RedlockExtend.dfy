/**
 What a nil result of Extend is worth: the caller is inside a window exactly when the
 new window has not passed yet (Locker.Extend states it for every run).  Extend looks
 neither at its ttl nor at the time that has gone by.  With a ttl under a millisecond
 nil means, in every run, that the lock is lost; and on a cluster of one node that works
 perfectly, both kinds of worthless nil are seen to happen.
 */
module RedlockExtend {
  import opened Durations
  import opened RedlockNode
  import opened RedlockProtocol
  import opened RedlockSafety
  import opened RedlockRuns
  import opened RedlockProgress
  import opened Wrappers

  // ---- Every run ----

  /** What an Extend under way with such a ttl has done: where it was answered 1, the
      token is gone. */
  predicate LostWhereCounted(s: State, t: Token) {
    t in s.sessions && s.sessions[t].phase.Extending? && s.sessions[t].phase.ttl < MS ==>
      forall i :: i in s.sessions[t].phase.won && i < |s.nodes| ==> !s.nodes[i].Holds(s.sessions[t].key, t)
  }

  /** What one such Eval can do to node and count. */
  lemma ShortEvalShape(s: State, a: Action, t: Token)
    requires Enabled(s, a) && a.Eval? && a.token == t
    requires s.sessions[t].phase.Extending? && s.sessions[t].phase.ttl < MS
    ensures var s', next := Apply(s, a), s.sessions[t].phase.next;
            && t in s'.sessions && s'.sessions[t].key == s.sessions[t].key && s'.sessions[t].phase.Extending?
            && |s'.nodes| == |s.nodes| && next < |s.nodes|
            && (forall i :: 0 <= i < |s.nodes| && i != next ==> s'.nodes[i] == s.nodes[i])
            && (s'.sessions[t].phase.won == s.sessions[t].phase.won ||
                (s'.sessions[t].phase.won == s.sessions[t].phase.won + {next}
                 && !s'.nodes[next].Holds(s.sessions[t].key, t)))
  {
    assert MillisOf(s.sessions[t].phase.ttl) <= 0;
  }

  lemma NextIsNew(s: State, t: Token)
    requires Inv(s) && t in s.sessions && s.sessions[t].phase.Extending?
    ensures s.sessions[t].phase.next !in s.sessions[t].phase.won
  {
    assert Good(s, t, s.sessions[t]);
    assert s.sessions[t].phase.next !in Below(s.sessions[t].phase.next);
  }

  lemma OwnShortEval(s: State, a: Action, t: Token)
    requires Inv(s) && LostWhereCounted(s, t) && Enabled(s, a) && a.Eval? && a.token == t
    requires s.sessions[t].phase.Extending? && s.sessions[t].phase.ttl < MS
    ensures LostWhereCounted(Apply(s, a), t)
  {
    NextIsNew(s, t);
    ShortEvalShape(s, a, t);
    hide Inv, Enabled, Apply;
  }

  lemma LostStep(s: State, a: Action, t: Token)
    requires Inv(s) && LostWhereCounted(s, t) && Enabled(s, a)
    ensures LostWhereCounted(Apply(s, a), t)
  {
    if !By(a, t) {
      OthersSessionStays(s, a, t);
      if t in s.sessions {
        OthersAge(s, a, s.sessions[t].key, t);
      }
    } else if a.Eval? && s.sessions[t].phase.Extending? && s.sessions[t].phase.ttl < MS {
      OwnShortEval(s, a, t);
    } else {
      OnlyBeginExtendExtends(s, a, t);
    }
  }

  lemma OnlyBeginExtendExtends(s: State, a: Action, t: Token)
    requires Enabled(s, a) && By(a, t) && (a.Eval? ==> !s.sessions[t].phase.Extending? || MS <= s.sessions[t].phase.ttl)
    ensures t in Apply(s, a).sessions
    ensures var p := Apply(s, a).sessions[t].phase; p.Extending? && p.ttl < MS ==> p.won == {}
  {
  }

  lemma {:induction false} RunLoses(now: int, clocks: seq<int>, log: seq<Action>, t: Token)
    requires Exec(Init(now, clocks), log).Some?
    ensures LostWhereCounted(Exec(Init(now, clocks), log).value, t)
  {
    if log != [] {
      hide Enabled, Apply, Inv, LostWhereCounted;
      var front := log[..|log| - 1];
      RunLoses(now, clocks, front, t);
      RunInv(now, clocks, front);
      LostStep(Exec(Init(now, clocks), front).value, log[|log| - 1], t);
    } else {
      assert t !in Init(now, clocks).sessions;
    }
  }

  /** In every run, on any cluster: when Extend with a ttl under a millisecond returns nil,
      fewer than half of the nodes hold the key for the token, whatever it held before. */
  lemma ShortNilLosesTheMajority(now: int, clocks: seq<int>, log: seq<Action>, t: Token)
    requires Exec(Init(now, clocks), log).Some?
    requires var s := Exec(Init(now, clocks), log).value;
             HasQuorum(s, t) && s.sessions[t].phase.Extending? && s.sessions[t].phase.ttl < MS
    ensures var s := Exec(Init(now, clocks), log).value;
            2 * |Holders(s, s.sessions[t].key, t)| < |s.nodes|
  {
    RunInv(now, clocks, log);
    RunLoses(now, clocks, log, t);
    var s := Exec(Init(now, clocks), log).value;
    var won, held := s.sessions[t].phase.won, Holders(s, s.sessions[t].key, t);
    assert Good(s, t, s.sessions[t]);
    assert won !! held;
    SubsetCard(won + held, Below(|s.nodes|));
  }

  // ---- One node on which it happens ----

  const K: Key := "key"
  const T: Token := "token"

  /** The lock is taken for ten seconds at time 0. */
  const Taking: seq<Action> := [Begin(T, K, 10 * SECOND, 3), Eval(T, true, true), Finish(T)]

  function Sessions(p: Phase): map<Token, Session> {
    map[T := Session(K, 10 * SECOND, 3, p, true)]
  }

  function One(now: int, store: map<Key, Entry>, p: Phase): State {
    State(now, [Node(0, store)], Sessions(p))
  }

  function Taken(): State {
    One(0, map[K := Entry(T, 10_000)], Held(WindowEnd(0, 10 * SECOND), {0}))
  }

  lemma Snoc(log: seq<Action>, s: State, a: Action)
    requires Exec(Init(0, [0]), log) == Some(s) && Enabled(s, a)
    ensures Exec(Init(0, [0]), log + [a]) == Some(Apply(s, a))
  {
    ExecSnoc(Init(0, [0]), log, a);
  }

  /** An answered Eval on the one node. */
  lemma EvalOnOne(s: State, script: Script)
    requires |s.nodes| == 1 && InLoop(s, T) && Next(s.sessions[T].phase) == 0
    requires s.sessions[T].key == K && ScriptOf(s.sessions[T]) == script && s.sessions[T].swept
    requires s.sessions.Keys == {T}
    requires RunScript(s.nodes[0], script, K, T).1
    ensures Apply(s, Eval(T, true, true)) ==
            State(s.now, [RunScript(s.nodes[0], script, K, T).0],
                  map[T := s.sessions[T].(phase := Advance(s.sessions[T].phase, true))])
  {
    assert s.nodes[0 := RunScript(s.nodes[0], script, K, T).0] == [RunScript(s.nodes[0], script, K, T).0];
  }

  lemma TakingWorks()
    ensures Exec(Init(0, [0]), Taking) == Some(Taken()) && InWindow(Taken(), T)
  {
    var start := State(0, [Node(0, map[])], map[]);
    assert Init(0, [0]) == start;
    Snoc([], start, Begin(T, K, 10 * SECOND, 3));
    var s1 := One(0, map[], Trying(0, 0, 0, {}));
    assert Apply(start, Begin(T, K, 10 * SECOND, 3)) == s1;
    Snoc([Begin(T, K, 10 * SECOND, 3)], s1, Eval(T, true, true));
    var s2 := One(0, map[K := Entry(T, 10_000)], Trying(0, 0, 1, {0}));
    EvalOnOne(s1, SetIfAbsent(10_000));
    assert {} + {0} == {0};
    assert Apply(s1, Eval(T, true, true)) == s2;
    assert [Begin(T, K, 10 * SECOND, 3)] + [Eval(T, true, true)] == [Begin(T, K, 10 * SECOND, 3), Eval(T, true, true)];
    Snoc([Begin(T, K, 10 * SECOND, 3), Eval(T, true, true)], s2, Finish(T));
    assert Apply(s2, Finish(T)) == Taken();
    assert Taking == [Begin(T, K, 10 * SECOND, 3), Eval(T, true, true)] + [Finish(T)];
  }

  function TakingThenExtending(ttl: int): seq<Action> {
    Taking + [BeginExtend(T, ttl)] + [Eval(T, true, true)]
  }

  lemma RenewOne(node: Node, ttl: int)
    requires node == Node(0, map[K := Entry(T, 10_000)])
    ensures RunScript(node, CompareExtend(MillisOf(ttl)), K, T) ==
            (Node(0, if ttl < MS then map[] else map[K := Entry(T, MillisOf(ttl))]), true)
  {
    assert MillisOf(ttl) <= 0 <==> ttl < MS;
    assert map[K := Entry(T, 10_000)] - {K} == map[];
    assert map[K := Entry(T, 10_000)][K := Entry(T, MillisOf(ttl))] == map[K := Entry(T, MillisOf(ttl))];
  }

  lemma ExtendingWorks(ttl: int)
    ensures var s := One(0, if ttl < MS then map[] else map[K := Entry(T, MillisOf(ttl))],
                         Extending(WindowEnd(0, 10 * SECOND), {0}, 0, ttl, 1, {0}));
            Exec(Init(0, [0]), TakingThenExtending(ttl)) == Some(s) && HasQuorum(s, T)
  {
    TakingWorks();
    Snoc(Taking, Taken(), BeginExtend(T, ttl));
    var s1 := One(0, map[K := Entry(T, 10_000)], Extending(WindowEnd(0, 10 * SECOND), {0}, 0, ttl, 0, {}));
    assert Apply(Taken(), BeginExtend(T, ttl)) == s1;
    Snoc(Taking + [BeginExtend(T, ttl)], s1, Eval(T, true, true));
    RenewOne(s1.nodes[0], ttl);
    EvalOnOne(s1, CompareExtend(MillisOf(ttl)));
    assert {} + {0} == {0};
  }

  /** For every ttl under a millisecond, Extend deletes the key of a lock that was held
      in good order, on every node, and returns nil. */
  lemma ShortExtendLosesTheLock(ttl: int)
    requires ttl < MS
    ensures InWindow(Taken(), T) && Exec(Init(0, [0]), Taking) == Some(Taken())
    ensures Exec(Init(0, [0]), TakingThenExtending(ttl)).Some?
    ensures var s := Exec(Init(0, [0]), TakingThenExtending(ttl)).value;
            && HasQuorum(s, T) && Holders(s, K, T) == {}
            && Enabled(s, Finish(T)) && !InWindow(Apply(s, Finish(T)), T)
  {
    TakingWorks();
    ExtendingWorks(ttl);
  }

  /** However long the ttl, Extend returns nil even if the calls to the nodes took so long
      that the new window has passed. */
  lemma LateExtendMissesItsWindow(ttl: int, elapsed: int)
    requires 0 <= elapsed && ttl - DriftFor(ttl) <= elapsed
    ensures Exec(Init(0, [0]), TakingThenExtending(ttl) + [Tick(elapsed, [0])]).Some?
    ensures var s := Exec(Init(0, [0]), TakingThenExtending(ttl) + [Tick(elapsed, [0])]).value;
            && s.now == elapsed && HasQuorum(s, T)
            && Enabled(s, Finish(T)) && !InWindow(Apply(s, Finish(T)), T)
  {
    ExtendingWorks(ttl);
    var s := Exec(Init(0, [0]), TakingThenExtending(ttl)).value;
    Snoc(TakingThenExtending(ttl), s, Tick(elapsed, [0]));
  }
}

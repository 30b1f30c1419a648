/**
 What every run of the lock protocol keeps: two tokens are never inside a validity
 window for the same key at the same instant, whoever is inside has a live majority,
 and a failed Acquire whose Evals all worked leaves nothing behind.
 */
module RedlockSafety {
  import opened RedlockNode
  import opened RedlockProtocol

  function Below(n: nat): (r: set<nat>)
    ensures forall i: nat :: i in r <==> i < n
    ensures |r| == n
  {
    if n == 0 then {} else Below(n - 1) + {n - 1}
  }

  predicate Backed(s: State, key: Key, t: Token, nodes: set<nat>, until: int) {
    nodes <= Below(|s.nodes|) && forall i :: i in nodes ==> Covers(s.nodes[i], key, t, s.now, until)
  }

  /** No node in [lo, hi) has a live entry of this token. */
  predicate Absent(s: State, key: Key, t: Token, lo: nat, hi: nat) {
    forall i :: lo <= i < hi && i < |s.nodes| ==> !s.nodes[i].Holds(key, t)
  }

  predicate Good(s: State, t: Token, ses: Session) {
    var n := |s.nodes|;
    match ses.phase
    case Trying(a, start, next, won) =>
      && a < ses.retries && start <= s.now && next <= n && won <= Below(next)
      && Backed(s, ses.key, t, won, WindowEnd(start, ses.ttl))
    case Undoing(a, next) =>
      && a < ses.retries && next <= n
      && (ses.swept ==> Absent(s, ses.key, t, 0, next))
    case Pausing(a) =>
      && a < ses.retries - 1
      && (ses.swept ==> Absent(s, ses.key, t, 0, n))
    case Held(until, backers) =>
      && (s.now < until ==> Quorum(n) <= |backers|)
      && Backed(s, ses.key, t, backers, until)
    case Extending(until, backers, start, ttl, next, won) =>
      && start <= s.now && next <= n && won <= Below(next)
      && (s.now < until ==> Quorum(n) <= |backers|)
      && Backed(s, ses.key, t, backers, Min(until, WindowEnd(start, ttl)))
      && Backed(s, ses.key, t, won, WindowEnd(start, ttl))
    case Releasing(next, gone) =>
      && next <= n && gone <= Below(next)
      && (forall i :: i in gone ==> !s.nodes[i].Holds(ses.key, t))
      && (ses.swept ==> Absent(s, ses.key, t, 0, next))
    case Failed => ses.swept ==> Absent(s, ses.key, t, 0, n)
    case Cancelled => ses.swept ==> Absent(s, ses.key, t, 0, n)
  }

  predicate Mine(s: State, e: Entry, key: Key) {
    e.token in s.sessions && s.sessions[e.token].key == key
  }

  /** Every entry belongs to a session, and sits at that session's key. */
  predicate Owned(s: State) {
    forall i, k :: 0 <= i < |s.nodes| && k in s.nodes[i].store ==> Mine(s, s.nodes[i].store[k], k)
  }

  predicate Inv(s: State) {
    && Owned(s)
    && forall t :: t in s.sessions ==> Good(s, t, s.sessions[t])
  }

  lemma HolderIsSession(s: State, i: int, k: Key, t: Token)
    requires Owned(s) && 0 <= i < |s.nodes| && s.nodes[i].Holds(k, t)
    ensures t in s.sessions && s.sessions[t].key == k
  {
    assert Mine(s, s.nodes[i].store[k], k);
  }

  // ---- Steps that leave a session's own entries alone ----

  /** From s to s', node entries of (key, t) only age. */
  ghost predicate Aged(s: State, s': State, key: Key, t: Token) {
    && |s'.nodes| == |s.nodes| && s.now <= s'.now
    && forall i :: 0 <= i < |s.nodes| ==>
         && (forall until :: Covers(s.nodes[i], key, t, s.now, until) ==> Covers(s'.nodes[i], key, t, s'.now, until))
         && (s'.nodes[i].Holds(key, t) ==> s.nodes[i].Holds(key, t))
  }

  lemma BackedAges(s: State, s': State, key: Key, t: Token, nodes: set<nat>, until: int)
    requires Aged(s, s', key, t) && Backed(s, key, t, nodes, until)
    ensures Backed(s', key, t, nodes, until)
  {
    forall i | i in nodes ensures Covers(s'.nodes[i], key, t, s'.now, until) {
      assert i in Below(|s.nodes|);
      assert Covers(s.nodes[i], key, t, s.now, until);
    }
  }

  lemma GoodAges(s: State, s': State, t: Token, ses: Session)
    requires Aged(s, s', ses.key, t) && Good(s, t, ses)
    ensures Good(s', t, ses)
  {
    match ses.phase
    case Trying(a, start, next, won) =>
      BackedAges(s, s', ses.key, t, won, WindowEnd(start, ses.ttl));
    case Held(until, backers) =>
      BackedAges(s, s', ses.key, t, backers, until);
    case Extending(until, backers, start, ttl, next, won) =>
      BackedAges(s, s', ses.key, t, backers, Min(until, WindowEnd(start, ttl)));
      BackedAges(s, s', ses.key, t, won, WindowEnd(start, ttl));
    case Releasing(next, gone) =>
      forall i | i in gone ensures !s'.nodes[i].Holds(ses.key, t) {
        assert i in Below(next);
      }
    case _ =>
  }

  lemma TickAges(s: State, a: Action, key: Key, t: Token)
    requires a.Tick? && Enabled(s, a)
    ensures Aged(s, Apply(s, a), key, t)
  {
    var s' := Apply(s, a);
    forall i | 0 <= i < |s.nodes|
      ensures s'.nodes[i].Holds(key, t) ==> s.nodes[i].Holds(key, t)
      ensures forall until :: Covers(s.nodes[i], key, t, s.now, until) ==> Covers(s'.nodes[i], key, t, s'.now, until)
    {
      forall until | Covers(s.nodes[i], key, t, s.now, until) ensures Covers(s'.nodes[i], key, t, s'.now, until) {
        CoversTick(s.nodes[i], a.clocks[i], key, t, s.now, s'.now, until);
      }
    }
  }

  lemma OtherEvalAges(s: State, a: Action, key: Key, t: Token)
    requires a.Eval? && Enabled(s, a) && a.token != t
    ensures Aged(s, Apply(s, a), key, t)
  {
    var s' := Apply(s, a);
    var ses := s.sessions[a.token];
    var j := Next(ses.phase);
    forall i | 0 <= i < |s.nodes|
      ensures s'.nodes[i].Holds(key, t) ==> s.nodes[i].Holds(key, t)
      ensures forall until :: Covers(s.nodes[i], key, t, s.now, until) ==> Covers(s'.nodes[i], key, t, s'.now, until)
    {
      if i == j && a.delivered {
        ScriptFrame(s.nodes[j], ScriptOf(ses), ses.key, a.token);
        forall until | Covers(s.nodes[i], key, t, s.now, until) ensures Covers(s'.nodes[i], key, t, s'.now, until) {
          CoversFrame(s.nodes[j], ScriptOf(ses), ses.key, a.token, key, t, s.now, until);
        }
      }
    }
  }

  lemma OthersStayGood(s: State, a: Action, t: Token)
    requires Inv(s) && Enabled(s, a) && !By(a, t) && t in s.sessions
    ensures t in Apply(s, a).sessions && Apply(s, a).sessions[t] == s.sessions[t]
    ensures Good(Apply(s, a), t, s.sessions[t])
  {
    var s' := Apply(s, a);
    var ses := s.sessions[t];
    match a
    case Tick(_, _) => TickAges(s, a, ses.key, t); GoodAges(s, s', t, ses);
    case Eval(_, _, _) => OtherEvalAges(s, a, ses.key, t); GoodAges(s, s', t, ses);
    case _ =>
      assert s'.nodes == s.nodes && s'.now == s.now;
      assert Aged(s, s', ses.key, t);
      GoodAges(s, s', t, ses);
  }

  // ---- A session's own steps ----

  lemma OwnEvalBacked(s: State, a: Action, nodes: set<nat>, until: int)
    requires a.Eval? && Enabled(s, a)
    requires Backed(s, s.sessions[a.token].key, a.token, nodes, until)
    requires Next(s.sessions[a.token].phase) in nodes ==>
               var ses := s.sessions[a.token];
               Covers(Apply(s, a).nodes[Next(ses.phase)], ses.key, a.token, s.now, until)
    ensures Backed(Apply(s, a), s.sessions[a.token].key, a.token, nodes, until)
  {
    var s' := Apply(s, a);
    forall i | i in nodes ensures Covers(s'.nodes[i], s.sessions[a.token].key, a.token, s'.now, until) {
      assert i in Below(|s.nodes|);
    }
  }

  lemma TryingEval(s: State, a: Action)
    requires Inv(s) && a.Eval? && Enabled(s, a) && s.sessions[a.token].phase.Trying?
    ensures Good(Apply(s, a), a.token, Apply(s, a).sessions[a.token])
  {
    var ses := s.sessions[a.token];
    var s', ok := Apply(s, a), EvalOn(s, a.token, a.delivered, a.replied).1;
    var Trying(attempt, start, next, won) := ses.phase;
    var until := WindowEnd(start, ses.ttl);
    assert next !in won by {
      assert next !in Below(next);
    }
    OwnEvalBacked(s, a, won, until);
    if ok {
      SetCovers(s.nodes[next], ses.key, a.token, start, s.now, ses.ttl);
    }
    forall i | i in s'.sessions[a.token].phase.won ensures Covers(s'.nodes[i], ses.key, a.token, s'.now, until) {
    }
    assert s'.sessions[a.token].phase.won <= Below(next + 1) <= Below(|s'.nodes|);
  }

  lemma DeletingEval(s: State, a: Action)
    requires Inv(s) && a.Eval? && Enabled(s, a)
    requires s.sessions[a.token].phase.Undoing? || s.sessions[a.token].phase.Releasing?
    ensures Good(Apply(s, a), a.token, Apply(s, a).sessions[a.token])
  {
    var ses := s.sessions[a.token];
    var s' := Apply(s, a);
    var next := Next(ses.phase);
    assert a.delivered ==> !s'.nodes[next].Holds(ses.key, a.token);
    assert forall i :: 0 <= i < |s.nodes| && i != next ==> s'.nodes[i] == s.nodes[i];
    assert s'.sessions[a.token].swept ==> a.delivered && Absent(s', ses.key, a.token, 0, next + 1);
    if ses.phase.Releasing? {
      assert s'.sessions[a.token].phase.gone <= Below(next + 1);
      forall i | i in ses.phase.gone ensures !s'.nodes[i].Holds(ses.key, a.token) {
        assert i in Below(next);
      }
    }
  }

  lemma ExtendingEval(s: State, a: Action)
    requires Inv(s) && a.Eval? && Enabled(s, a) && s.sessions[a.token].phase.Extending?
    ensures Good(Apply(s, a), a.token, Apply(s, a).sessions[a.token])
  {
    var ses := s.sessions[a.token];
    var s', ok := Apply(s, a), EvalOn(s, a.token, a.delivered, a.replied).1;
    var Extending(until, backers, start, ttl, next, won) := ses.phase;
    var renewed := WindowEnd(start, ttl);
    ExtendCovers(s.nodes[next], ses.key, a.token, start, s.now, ttl, Min(until, renewed));
    OwnEvalBacked(s, a, backers, Min(until, renewed));
    assert next !in won by {
      assert next !in Below(next);
    }
    OwnEvalBacked(s, a, won, renewed);
    forall i | i in s'.sessions[a.token].phase.won ensures Covers(s'.nodes[i], ses.key, a.token, s'.now, renewed) {
    }
    assert s'.sessions[a.token].phase.won <= Below(next + 1) <= Below(|s'.nodes|);
  }

  lemma FinishGood(s: State, a: Action)
    requires Inv(s) && a.Finish? && Enabled(s, a)
    ensures Good(Apply(s, a), a.token, Apply(s, a).sessions[a.token])
  {
    var ses := s.sessions[a.token];
    var s' := Apply(s, a);
    match ses.phase
    case Extending(until, backers, start, ttl, _, won) =>
      forall i | i in backers ensures Covers(s'.nodes[i], ses.key, a.token, s'.now, Min(until, WindowEnd(start, ttl))) {
      }
    case _ =>
  }

  lemma OwnStepGood(s: State, a: Action)
    requires Inv(s) && Enabled(s, a) && !a.Tick?
    ensures a.token in Apply(s, a).sessions
    ensures Good(Apply(s, a), a.token, Apply(s, a).sessions[a.token])
  {
    match a
    case Eval(t, _, _) =>
      var p := s.sessions[t].phase;
      if p.Trying? { TryingEval(s, a); }
      else if p.Extending? { ExtendingEval(s, a); }
      else { DeletingEval(s, a); }
    case Finish(_) => FinishGood(s, a);
    case Begin(t, key, ttl, retries) =>
      forall i | 0 <= i < |s.nodes| ensures !s.nodes[i].Holds(key, t) {
        if s.nodes[i].Holds(key, t) {
          HolderIsSession(s, i, key, t);
        }
      }
    case BeginExtend(t, ttl) =>
      var Held(until, backers) := s.sessions[t].phase;
      forall i | i in backers
        ensures Covers(s.nodes[i], s.sessions[t].key, t, s.now, Min(until, WindowEnd(s.now, ttl)))
      {
        CoversWeaken(s.nodes[i], s.sessions[t].key, t, s.now, until, Min(until, WindowEnd(s.now, ttl)));
      }
    case _ =>
  }

  lemma OwnedStep(s: State, a: Action)
    requires Owned(s) && Enabled(s, a)
    ensures Owned(Apply(s, a))
  {
    var s' := Apply(s, a);
    forall i, k | 0 <= i < |s'.nodes| && k in s'.nodes[i].store ensures Mine(s', s'.nodes[i].store[k], k) {
      if k in s.nodes[i].store && s'.nodes[i].store[k].token == s.nodes[i].store[k].token {
        assert Mine(s, s.nodes[i].store[k], k);
      }
    }
  }

  lemma InvStep(s: State, a: Action)
    requires Inv(s) && Enabled(s, a)
    ensures Inv(Apply(s, a))
  {
    var s' := Apply(s, a);
    OwnedStep(s, a);
    forall t | t in s'.sessions ensures Good(s', t, s'.sessions[t]) {
      if By(a, t) {
        OwnStepGood(s, a);
      } else {
        OthersStayGood(s, a, t);
      }
    }
  }

  lemma {:induction false} RunInv(now: int, clocks: seq<int>, log: seq<Action>)
    requires Exec(Init(now, clocks), log).Some?
    ensures Inv(Exec(Init(now, clocks), log).value)
    ensures |Exec(Init(now, clocks), log).value.nodes| == |clocks|
  {
    if log != [] {
      RunInv(now, clocks, log[..|log| - 1]);
      InvStep(Exec(Init(now, clocks), log[..|log| - 1]).value, log[|log| - 1]);
    }
  }

  // ---- Main results ----

  lemma SubsetCard(a: set<nat>, b: set<nat>)
    requires a <= b
    ensures |a| <= |b|
  {
    assert b == a + (b - a);
  }

  /** Two majorities of the same nodes share a node. */
  lemma QuorumsMeet(n: nat, a: set<nat>, b: set<nat>) returns (i: nat)
    requires a <= Below(n) && b <= Below(n) && Quorum(n) <= |a| && Quorum(n) <= |b|
    ensures i in a && i in b
  {
    if a * b == {} {
      SubsetCard(a + b, Below(n));
      assert false;
    }
    i :| i in a * b;
  }

  /** Inside its window, a token has a live entry on a majority of the nodes. */
  lemma WindowMeansMajority(s: State, t: Token)
    requires Inv(s) && InWindow(s, t)
    ensures Holders(s, s.sessions[t].key, t) <= Below(|s.nodes|)
    ensures Quorum(|s.nodes|) <= |Holders(s, s.sessions[t].key, t)|
  {
    var ses := s.sessions[t];
    var backers := ses.phase.backers;
    forall i | i in backers ensures i in Holders(s, ses.key, t) {
      assert i in Below(|s.nodes|);
      CoversHolds(s.nodes[i], ses.key, t, s.now, Until(s, t).value);
    }
    SubsetCard(backers, Holders(s, ses.key, t));
  }

  lemma NoTwoInWindow(s: State, t: Token, u: Token)
    requires Inv(s) && InWindow(s, t) && InWindow(s, u)
    requires s.sessions[t].key == s.sessions[u].key
    ensures t == u
  {
    WindowMeansMajority(s, t);
    WindowMeansMajority(s, u);
    var key := s.sessions[t].key;
    var i := QuorumsMeet(|s.nodes|, Holders(s, key, t), Holders(s, key, u));
  }

  /** Mutual exclusion, over every run. */
  lemma MutualExclusion(now: int, clocks: seq<int>, log: seq<Action>, t: Token, u: Token)
    requires Exec(Init(now, clocks), log).Some?
    requires var s := Exec(Init(now, clocks), log).value;
             InWindow(s, t) && InWindow(s, u) && s.sessions[t].key == s.sessions[u].key
    ensures t == u
  {
    RunInv(now, clocks, log);
    NoTwoInWindow(Exec(Init(now, clocks), log).value, t, u);
  }

  /** At every instant of its window a winner still has a majority of live keys. */
  lemma WinnerKeepsMajority(now: int, clocks: seq<int>, log: seq<Action>, t: Token)
    requires Exec(Init(now, clocks), log).Some? && InWindow(Exec(Init(now, clocks), log).value, t)
    ensures var s := Exec(Init(now, clocks), log).value;
            |clocks| < 2 * |Holders(s, s.sessions[t].key, t)|
  {
    RunInv(now, clocks, log);
    WindowMeansMajority(Exec(Init(now, clocks), log).value, t);
  }

  /** If the deletes of an Acquire's last rollback reached their nodes, then after
      ErrNotAcquired or a context exit no node has a live entry of its token, under any
      key, whatever was lost before and whatever others did meanwhile. */
  lemma FailureLeavesNoTrace(now: int, clocks: seq<int>, log: seq<Action>, t: Token)
    requires Exec(Init(now, clocks), log).Some?
    requires var s := Exec(Init(now, clocks), log).value;
             t in s.sessions && s.sessions[t].swept && (s.sessions[t].phase.Failed? || s.sessions[t].phase.Cancelled?)
    ensures |Exec(Init(now, clocks), log).value.nodes| == |clocks|
    ensures forall i, k :: 0 <= i < |clocks| ==>
              !Exec(Init(now, clocks), log).value.nodes[i].Holds(k, t)
  {
    RunInv(now, clocks, log);
    var s := Exec(Init(now, clocks), log).value;
    forall i, k | 0 <= i < |clocks| ensures !s.nodes[i].Holds(k, t) {
      if s.nodes[i].Holds(k, t) {
        HolderIsSession(s, i, k, t);
      }
    }
  }
}

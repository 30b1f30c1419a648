/**
 redlock.go itself: the Locker's loops, run against a cluster that other clients
 and the passing of time may change before every step.  Each method is shown to
 follow the protocol, so that what holds of every run holds of this code.
 */
module RedlockLocker {
  import opened RedlockNode
  import opened RedlockProtocol
  import opened RedlockSafety
  import opened RedlockRuns
  import opened Durations
  import opened Wrappers

  datatype AcquireError = NoEntropy | NotAcquired | ContextDone

  datatype ReleaseError = NotOwner

  /** What becomes of an Eval: it may not arrive, or its reply may be lost. */
  datatype Fate = Fate(delivered: bool, replied: bool)

  /** The nodes, the clients' common clock, and the record of what everybody did. */
  class Cluster {
    const origin: State
    const network: nat -> Fate
    var now: int
    var nodes: seq<Node>
    var sessions: map<Token, Session>
    // how many Evals the Locker has sent
    var evals: nat
    ghost var log: seq<Action>

    function View(): State
      reads this
    {
      State(now, nodes, sessions)
    }

    /** The cluster is where its log of actions leads. */
    ghost predicate Valid()
      reads this
    {
      && (exists now0, clocks :: origin == Init(now0, clocks))
      && Exec(origin, log) == Some(View())
      && |nodes| == |origin.nodes|
    }

    /** The token was drawn for this key.  Any other pair is a caller's mistake, which
        the scripts must turn away. */
    predicate Owns(t: Token, key: Key)
      reads this
    {
      t in sessions && sessions[t].key == key
    }

    lemma Keeps()
      requires Valid()
      ensures Inv(View())
    {
      var now0, clocks :| origin == Init(now0, clocks);
      RunInv(now0, clocks, log);
    }

    constructor (now0: int, clocks: seq<int>, network: nat -> Fate)
      ensures this.network == network && Valid() && log == [] && evals == 0 && |nodes| == |clocks| && sessions == map[]
    {
      this.network := network;
      evals := 0;
      origin := Init(now0, clocks);
      now := now0;
      nodes := Init(now0, clocks).nodes;
      sessions := map[];
      log := [];
    }

    method Step(a: Action)
      requires Valid() && Enabled(View(), a)
      modifies this
      ensures Valid() && View() == Apply(old(View()), a) && log == old(log) + [a] && evals == old(evals)
    {
      var s := Apply(View(), a);
      ExecSnoc(origin, log, a);
      now, nodes, sessions := s.now, s.nodes, s.sessions;
      log := log + [a];
    }

    /** The session turns to a new phase; nothing else changes. */
    method Turn(a: Action, ghost p: Phase)
      requires Valid() && Enabled(View(), a) && !a.Tick? && !a.Eval? && a.token in sessions
      requires Apply(View(), a) == SetPhase(View(), a.token, p)
      modifies this
      ensures Valid() && now == old(now) && nodes == old(nodes) && log == old(log) + [a] && evals == old(evals)
      ensures a.token in sessions && sessions[a.token].phase == p
      ensures sessions[a.token].key == old(sessions)[a.token].key
      ensures sessions[a.token].ttl == old(sessions)[a.token].ttl
      ensures sessions[a.token].retries == old(sessions)[a.token].retries
      ensures sessions[a.token].swept == (old(sessions)[a.token].swept || p.Undoing? || p.Releasing?)
    {
      Step(a);
    }

    /** Anything may happen here except a step of session t. */
    method Interfere(t: Token)
      requires Valid()
      modifies this
      ensures Valid() && old(now) <= now && evals == old(evals)
      ensures t in sessions <==> t in old(sessions)
      ensures t in sessions ==> sessions[t] == old(sessions)[t]
      ensures old(log) <= log && forall i :: |old(log)| <= i < |log| ==> !By(log[i], t)
    {
      var steps: int := *;
      while 0 < steps
        invariant Valid() && old(now) <= now && evals == old(evals)
        invariant t in sessions <==> t in old(sessions)
        invariant t in sessions ==> sessions[t] == old(sessions)[t]
        invariant old(log) <= log && forall i :: |old(log)| <= i < |log| ==> !By(log[i], t)
      {
        var a: Action := *;
        if Enabled(View(), a) && !By(a, t) {
          Step(a);
        }
        steps := steps - 1;
      }
    }

    /** One Eval on node i, with the fate the network has for it: if it does not arrive or
        its reply is lost, the caller sees false. */
    method Eval(i: nat, script: Script, key: Key, t: Token) returns (ok: bool)
      requires Valid() && i < |nodes|
      requires Owns(t, key) ==>
                 InLoop(View(), t) && Next(sessions[t].phase) == i && script == ScriptOf(sessions[t])
      requires !Owns(t, key) ==> !script.SetIfAbsent?
      modifies this
      ensures Valid() && now == old(now) && |nodes| == |old(nodes)|
      ensures !old(Owns(t, key)) ==> !ok && View() == old(View()) && log == old(log)
      ensures old(Owns(t, key)) ==>
                && InLoop(View(), t) && Owns(t, key)
                && sessions[t].phase == Advance(old(sessions)[t].phase, ok)
                && sessions[t].ttl == old(sessions)[t].ttl && sessions[t].retries == old(sessions)[t].retries
                && var Fate(delivered, replied) := network(old(evals));
                   && log == old(log) + [Action.Eval(t, delivered, replied)]
                   && (View(), ok) == EvalOn(old(View()), t, delivered, replied)
      ensures evals == old(evals) + 1
    {
      var Fate(delivered, replied) := network(evals);
      evals := evals + 1;
      var (node, answer) := RunScript(nodes[i], script, key, t);
      ok := delivered && replied && answer;
      if Owns(t, key) {
        Step(Action.Eval(t, delivered, replied));
      } else {
        Keeps();
        assert !nodes[i].Holds(key, t) by {
          if nodes[i].Holds(key, t) {
            HolderIsSession(View(), i, key, t);
          }
        }
        if delivered {
          assert node == nodes[i] && nodes[i := node] == nodes;
          nodes := nodes[i := node];
        }
      }
    }

    /** Whatever others do, and then one Eval, as the loops over the nodes see it. */
    method Ask(i: nat, script: Script, key: Key, t: Token) returns (ok: bool)
      requires Valid() && i < |nodes|
      requires Owns(t, key) ==>
                 InLoop(View(), t) && Next(sessions[t].phase) == i && script == ScriptOf(sessions[t])
      requires !Owns(t, key) ==> !script.SetIfAbsent?
      modifies this
      ensures Valid() && old(now) <= now && evals == old(evals) + 1
      ensures Owns(t, key) == old(Owns(t, key))
      ensures !Owns(t, key) ==> !ok
      ensures Owns(t, key) ==>
                && InLoop(View(), t)
                && sessions[t].phase == Advance(old(sessions)[t].phase, ok)
                && sessions[t].ttl == old(sessions)[t].ttl && sessions[t].retries == old(sessions)[t].retries
    {
      Interfere(t);
      ok := Eval(i, script, key, t);
    }
  }

  class Locker {
    const cluster: Cluster
    var quorum: int
    var retries: int
    var retryGap: int

    ghost predicate Valid()
      reads this, cluster
    {
      cluster.Valid() && quorum == Quorum(|cluster.nodes|)
    }

    constructor (cluster: Cluster)
      requires cluster.Valid()
      ensures Valid() && this.cluster == cluster && retries == 3 && retryGap == 200 * MS
      ensures |cluster.nodes| < 2 * quorum <= |cluster.nodes| + 2
    {
      this.cluster := cluster;
      var q := |cluster.nodes| / 2 + 1;
      quorum := if q < 1 then 1 else q;
      retries := 3;
      retryGap := 200 * MS;
    }

    method WithRetries(n: int)
      requires Valid()
      modifies this
      ensures Valid() && retries == n && retryGap == old(retryGap)
    {
      retries := n;
    }

    method WithRetryGap(d: int)
      requires Valid()
      modifies this
      ensures Valid() && retryGap == d && retries == old(retries)
    {
      retryGap := d;
    }

    /** Everyone inside a window for this token's key is this token, and it has a live majority. */
    ghost predicate Alone(token: Token)
      requires token in cluster.sessions
      reads cluster
    {
      var s, key := cluster.View(), cluster.sessions[token].key;
      && (forall u :: InWindow(s, u) && s.sessions[u].key == key ==> u == token)
      && |s.nodes| < 2 * |Holders(s, key, token)|
    }

    /** No node has a live entry of this token. */
    ghost predicate Traceless(token: Token)
      reads cluster
    {
      forall i, k :: 0 <= i < |cluster.nodes| ==> !cluster.nodes[i].Holds(k, token)
    }

    /** Asks every node in turn; counts the answers that said yes. */
    method TryAcquire(key: Key, token: Token, ttl: int) returns (acquired: int)
      requires Valid() && token in cluster.sessions
      requires var ses := cluster.sessions[token];
               ses.key == key && ses.ttl == ttl && ses.phase.Trying? && ses.phase.next == 0 && ses.phase.won == {}
      modifies cluster
      ensures Valid() && old(cluster.now) <= cluster.now
      ensures cluster.evals == old(cluster.evals) + |cluster.nodes|
      ensures token in cluster.sessions
      ensures var ses, ses0 := cluster.sessions[token], old(cluster.sessions)[token];
              && ses.key == key && ses.ttl == ttl && ses.retries == ses0.retries && ses.phase.Trying?
              && ses.phase == Trying(ses0.phase.attempt, ses0.phase.start, |cluster.nodes|, ses.phase.won)
              && acquired == |ses.phase.won|
    {
      acquired := 0;
      var i := 0;
      while i < |cluster.nodes|
        invariant Valid() && i <= |cluster.nodes| && old(cluster.now) <= cluster.now
        invariant cluster.evals == old(cluster.evals) + i
        invariant token in cluster.sessions
        invariant var ses, ses0 := cluster.sessions[token], old(cluster.sessions)[token];
                  && ses.key == key && ses.ttl == ttl && ses.retries == ses0.retries && ses.phase.Trying?
                  && ses.phase == Trying(ses0.phase.attempt, ses0.phase.start, i, ses.phase.won)
                  && ses.phase.won <= Below(i) && acquired == |ses.phase.won|
        decreases |cluster.nodes| - i
      {
        assert i !in cluster.sessions[token].phase.won;
        var ok := cluster.Ask(i, SetIfAbsent(MillisOf(ttl)), key, token);
        if ok {
          acquired := acquired + 1;
        }
        i := i + 1;
      }
    }

    /** Asks every node to delete the key if the token matches; counts the deletions
        reported.  Used both to roll back and to release. */
    method ReleaseAll(key: Key, token: Token) returns (released: int)
      requires Valid()
      requires cluster.Owns(token, key) ==>
                 var p := cluster.sessions[token].phase; p == Releasing(0, {}) || (p.Undoing? && p.next == 0)
      modifies cluster
      ensures Valid() && old(cluster.now) <= cluster.now
      ensures cluster.evals == old(cluster.evals) + |cluster.nodes|
      ensures cluster.Owns(token, key) == old(cluster.Owns(token, key))
      ensures !cluster.Owns(token, key) ==> released == 0
      ensures cluster.Owns(token, key) ==>
                var ses, ses0 := cluster.sessions[token], old(cluster.sessions)[token];
                && ses.ttl == ses0.ttl && ses.retries == ses0.retries
                && DeletedUpTo(ses0.phase, ses.phase, |cluster.nodes|, released)
    {
      released := 0;
      var i := 0;
      while i < |cluster.nodes|
        invariant Valid() && i <= |cluster.nodes| && old(cluster.now) <= cluster.now
        invariant cluster.evals == old(cluster.evals) + i
        invariant cluster.Owns(token, key) == old(cluster.Owns(token, key))
        invariant !cluster.Owns(token, key) ==> released == 0
        invariant cluster.Owns(token, key) ==>
                    var ses, ses0 := cluster.sessions[token], old(cluster.sessions)[token];
                    && ses.ttl == ses0.ttl && ses.retries == ses0.retries
                    && DeletedUpTo(ses0.phase, ses.phase, i, released)
        decreases |cluster.nodes| - i
      {
        var ok := cluster.Ask(i, CompareDelete, key, token);
        if ok {
          released := released + 1;
        }
        i := i + 1;
      }
    }

    /** How far a pass of deletes has come, from phase p0 to phase p. */
    static predicate DeletedUpTo(p0: Phase, p: Phase, next: nat, released: int) {
      && (p0.Undoing? ==> p == Undoing(p0.attempt, next))
      && (p0.Releasing? ==>
            p.Releasing? && p.next == next && p.gone <= Below(next) && released == |p.gone|)
    }

    /** One pass over the nodes, and the verdict: a majority, with validity left. */
    method Attempt(key: Key, token: Token, ttl: int) returns (won: bool)
      requires Valid() && token in cluster.sessions
      requires cluster.sessions[token].key == key && cluster.sessions[token].ttl == ttl
      requires var p := cluster.sessions[token].phase;
               p.Trying? && p == Trying(p.attempt, cluster.now, 0, {})
      modifies cluster
      ensures Valid() && token in cluster.sessions && old(cluster.now) <= cluster.now
      ensures var ses, ses0 := cluster.sessions[token], old(cluster.sessions)[token];
              && ses.key == key && ses.ttl == ttl && ses.retries == ses0.retries
              && (won ==> ses.phase.Held? && ses.phase.until == WindowEnd(old(cluster.now), ttl)
                          && cluster.now < ses.phase.until)
              && (!won ==> ses.phase == Undoing(ses0.phase.attempt, 0))
      ensures won <==>
              && EndsWithQuorum(cluster.origin, cluster.log, token)
              && 100 * (cluster.now - old(cluster.now)) < 99 * ttl - 200 * MS
    {
      var start := cluster.now;
      var acquired := TryAcquire(key, token, ttl);
      cluster.Interfere(token);
      var elapsed := cluster.now - start;
      var validity := ttl - elapsed - DriftFor(ttl);
      WindowInNumbers(start, cluster.now, ttl);
      QuorumAtTheEnd(cluster.origin, cluster.log, token);
      cluster.Turn(Finish(token), AfterLoop(cluster.sessions[token], cluster.now, |cluster.nodes|));
      won := acquired >= quorum && validity > 0;
    }

    /** The rollback that ends a failed attempt. */
    method RollBack(key: Key, token: Token)
      requires Valid() && token in cluster.sessions
      requires cluster.sessions[token].key == key
      requires cluster.sessions[token].phase.Undoing? && cluster.sessions[token].phase.next == 0
      modifies cluster
      ensures Valid() && token in cluster.sessions && old(cluster.now) <= cluster.now
      ensures var ses, ses0 := cluster.sessions[token], old(cluster.sessions)[token];
              && ses.key == key && ses.ttl == ses0.ttl && ses.retries == ses0.retries
              && ses.phase == if ses0.phase.attempt < ses0.retries - 1 then Pausing(ses0.phase.attempt) else Failed
    {
      var _ := ReleaseAll(key, token);
      cluster.Interfere(token);
      cluster.Turn(Finish(token), AfterLoop(cluster.sessions[token], cluster.now, |cluster.nodes|));
    }

    /** Waits for the timer or the context, whichever is seen first. */
    method Pause(token: Token, cancellable: bool) returns (done: bool)
      requires Valid() && token in cluster.sessions && cluster.sessions[token].phase.Pausing?
      modifies cluster
      ensures Valid() && token in cluster.sessions && old(cluster.now) <= cluster.now
      ensures var ses, ses0 := cluster.sessions[token], old(cluster.sessions)[token];
              && ses.key == ses0.key && ses.ttl == ses0.ttl && ses.retries == ses0.retries
              && ses.phase == if done then Cancelled else Trying(ses0.phase.attempt + 1, cluster.now, 0, {})
      ensures done ==> cancellable
    {
      cluster.Interfere(token);
      var first: bool := *;
      done := cancellable && first;
      if done {
        cluster.Turn(Cancel(token), Cancelled);
      } else {
        cluster.Turn(Resume(token), Trying(cluster.sessions[token].phase.attempt + 1, cluster.now, 0, {}));
      }
    }

    /** One turn of the attempt loop: won, ended by the context, or to be continued. */
    method Round(key: Key, token: Token, ttl: int, attempt: int, cancellable: bool)
      returns (r: Option<Result<Token, AcquireError>>)
      requires Valid() && token in cluster.sessions && 0 <= attempt < retries
      requires cluster.sessions[token] ==
               Session(key, ttl, retries, Trying(attempt, cluster.now, 0, {}), cluster.sessions[token].swept)
      modifies cluster
      ensures Valid() && token in cluster.sessions && old(cluster.now) <= cluster.now
      ensures var ses := cluster.sessions[token];
              && ses.key == key && ses.ttl == ttl && ses.retries == retries
              && match r
                 case Some(Ok(t)) =>
                   && t == token && ses.phase.Held?
                   && ses.phase.until == WindowEnd(old(cluster.now), ttl) && cluster.now < ses.phase.until
                 case Some(Err(e)) =>
                   e == ContextDone && ses.phase == Cancelled && cancellable && attempt + 1 < retries
                 case None =>
                   ses.phase == if attempt + 1 < retries then Trying(attempt + 1, cluster.now, 0, {}) else Failed
    {
      var won := Attempt(key, token, ttl);
      if won {
        return Some(Ok(token));
      }
      RollBack(key, token);
      if attempt < retries - 1 {
        var done := Pause(token, cancellable);
        if done {
          return Some(Err(ContextDone));
        }
      }
      return None;
    }

    /** `entropy` is what the random source gives: nothing, or a token nobody has used;
        `cancellable` says whether the context can end. */
    method Acquire(key: Key, ttl: int, entropy: Option<Token>, cancellable: bool)
      returns (r: Result<Token, AcquireError>)
      requires Valid()
      requires entropy.Some? ==> entropy.value !in cluster.sessions
      modifies cluster
      ensures Valid()
      ensures entropy.None? ==> r == Err(NoEntropy) && cluster.View() == old(cluster.View())
      // the session is the one asked for; PassesAndWaits says what its passes are
      ensures entropy.Some? ==>
                && entropy.value in cluster.sessions
                && var ses := cluster.sessions[entropy.value];
                   ses.key == key && ses.ttl == ttl && ses.retries == retries
      ensures r == Err(NoEntropy) ==> entropy.None?
      ensures r == Err(ContextDone) ==> cancellable && 1 < retries
      // what the caller may rely on: the window is open, nobody else is inside one, and
      // it lasts at least 99 hundredths of the ttl, less two milliseconds, from the call on
      ensures r.Ok? ==>
                && entropy == Some(r.value)
                && InWindow(cluster.View(), r.value)
                && 99 * ttl - 200 * MS <= 100 * (cluster.sessions[r.value].phase.until - old(cluster.now))
                && cluster.sessions[r.value].key == key
                && Alone(r.value)
      // what a failure leaves behind
      ensures entropy.Some? && r.Err? ==>
                && entropy.value in cluster.sessions && !InWindow(cluster.View(), entropy.value)
                && cluster.sessions[entropy.value].phase == (if r.error == NotAcquired then Failed else Cancelled)
                && (cluster.sessions[entropy.value].swept ==> Traceless(entropy.value))
    {
      if entropy.None? {
        return Err(NoEntropy);
      }
      var token := entropy.value;
      cluster.Interfere(token);
      cluster.Step(Begin(token, key, ttl, retries));
      var attempt := 0;
      while attempt < retries
        invariant Valid() && 0 <= attempt && old(cluster.now) <= cluster.now
        invariant token in cluster.sessions
        invariant cluster.sessions[token].key == key && cluster.sessions[token].ttl == ttl
        invariant cluster.sessions[token].retries == retries
        invariant cluster.sessions[token].phase ==
                  if attempt < retries then Trying(attempt, cluster.now, 0, {}) else Failed
      {
        ghost var start := cluster.now;
        var ended := Round(key, token, ttl, attempt, cancellable);
        if ended.Some? {
          if ended.value.Ok? {
            WindowInNumbers(start, cluster.now, ttl);
            WindowLength(start, ttl);
            OnlyOne(token);
          } else {
            NothingLeft(token);
          }
          return ended.value;
        }
        attempt := attempt + 1;
      }
      NothingLeft(token);
      return Err(NotAcquired);
    }

    lemma OnlyOne(token: Token)
      requires Valid() && InWindow(cluster.View(), token)
      ensures Alone(token)
    {
      cluster.Keeps();
      WindowMeansMajority(cluster.View(), token);
      forall u | InWindow(cluster.View(), u) && cluster.sessions[u].key == cluster.sessions[token].key
        ensures u == token
      {
        NoTwoInWindow(cluster.View(), u, token);
      }
    }

    lemma NothingLeft(token: Token)
      requires Valid() && token in cluster.sessions
      requires cluster.sessions[token].phase.Failed? || cluster.sessions[token].phase.Cancelled?
      ensures cluster.sessions[token].swept ==> Traceless(token)
    {
      if cluster.sessions[token].swept {
        var now0, clocks :| cluster.origin == Init(now0, clocks);
        FailureLeavesNoTrace(now0, clocks, cluster.log, token);
      }
    }

    /** The nodes on which the scripts of the token's latest pass really had this effect. */
    ghost function Touched(token: Token, effect: Effect): set<nat>
      requires Valid()
      reads this, cluster
    {
      Changed(cluster.origin, cluster.log, token, effect)
    }

    lemma CountIsReal(token: Token)
      requires Valid() && token in cluster.sessions
      ensures var p := cluster.sessions[token].phase; |Counted(p)| <= |Touched(token, Asked(p))|
    {
      var now0, clocks :| cluster.origin == Init(now0, clocks);
      CountsAreReal(now0, clocks, cluster.log, token);
    }

    /** A nil result means that this call deleted the key on a majority.  Whoever holds the token
        makes one call at a time with it; a token that is not this key's is refused. */
    method Release(key: Key, token: Token) returns (r: Result<(), ReleaseError>)
      requires Valid()
      requires cluster.Owns(token, key) ==> cluster.sessions[token].phase.Held?
      modifies cluster
      ensures Valid() && cluster.evals == old(cluster.evals) + |cluster.nodes|
      ensures !old(cluster.Owns(token, key)) ==> r == Err(NotOwner)
      ensures old(cluster.Owns(token, key)) ==>
                && cluster.Owns(token, key) && cluster.sessions[token].phase.Held?
                && !InWindow(cluster.View(), token)
                && (cluster.sessions[token].swept ==> Holders(cluster.View(), key, token) == {})
      // nil exactly when the loop counted a quorum; HolderReleases says when it must
      ensures old(cluster.Owns(token, key)) ==>
                (r.Ok? <==> EndsWithQuorum(cluster.origin, cluster.log, token))
      ensures r.Ok? ==> quorum <= |Touched(token, Deleted)|
      ensures r.Ok? ==> 2 * |Holders(cluster.View(), key, token)| < |cluster.nodes|
    {
      ghost var owner := cluster.Owns(token, key);
      if cluster.Owns(token, key) {
        cluster.Turn(BeginRelease(token), Releasing(0, {}));
      }
      var released := ReleaseAll(key, token);
      if cluster.Owns(token, key) {
        GoneIsGone(token);
        CountIsReal(token);
        ghost var held, log := Holders(cluster.View(), key, token), cluster.log;
        cluster.Turn(Finish(token), AfterLoop(cluster.sessions[token], cluster.now, |cluster.nodes|));
        ChangedAtFinish(cluster.origin, log, token, Deleted);
        QuorumAtTheEnd(cluster.origin, log, token);
        assert Holders(cluster.View(), key, token) == held;
      }
      r := if released < quorum then Err(NotOwner) else Ok(());
    }

    /** Nodes whose deletion was confirmed have no live entry of the token any more. */
    lemma GoneIsGone(token: Token)
      requires Valid() && token in cluster.sessions
      requires cluster.sessions[token].phase.Releasing? && cluster.sessions[token].phase.next == |cluster.nodes|
      ensures var ses, s := cluster.sessions[token], cluster.View();
              && |Holders(s, ses.key, token)| + |ses.phase.gone| <= |cluster.nodes|
              && (ses.swept ==> Holders(s, ses.key, token) == {})
    {
      cluster.Keeps();
      var ses := cluster.sessions[token];
      var held, gone := Holders(cluster.View(), ses.key, token), ses.phase.gone;
      assert Good(cluster.View(), token, ses);
      assert held !! gone;
      SubsetCard(held + gone, Below(|cluster.nodes|));
    }

    /** Asks every node to renew the key if the token matches; counts the renewals reported. */
    method ExtendAll(key: Key, token: Token, ttl: int) returns (extended: int)
      requires Valid()
      requires cluster.Owns(token, key) ==>
                 var p := cluster.sessions[token].phase;
                 p.Extending? && p.ttl == ttl && p.next == 0 && p.won == {}
      modifies cluster
      ensures Valid()
      ensures cluster.Owns(token, key) == old(cluster.Owns(token, key))
      ensures !cluster.Owns(token, key) ==> extended == 0
      ensures old(cluster.now) <= cluster.now
      ensures cluster.evals == old(cluster.evals) + |cluster.nodes|
      ensures cluster.Owns(token, key) ==>
                RenewedUpTo(old(cluster.sessions)[token].phase, cluster.sessions[token].phase,
                            |cluster.nodes|, extended)
    {
      extended := 0;
      var i := 0;
      while i < |cluster.nodes|
        invariant Valid() && i <= |cluster.nodes| && old(cluster.now) <= cluster.now
        invariant cluster.evals == old(cluster.evals) + i
        invariant cluster.Owns(token, key) == old(cluster.Owns(token, key))
        invariant !cluster.Owns(token, key) ==> extended == 0
        invariant cluster.Owns(token, key) ==>
                    RenewedUpTo(old(cluster.sessions)[token].phase, cluster.sessions[token].phase, i, extended)
        decreases |cluster.nodes| - i
      {
        assert cluster.Owns(token, key) ==> i !in cluster.sessions[token].phase.won;
        var ok := cluster.Ask(i, CompareExtend(MillisOf(ttl)), key, token);
        if ok {
          extended := extended + 1;
        }
        i := i + 1;
      }
    }

    /** How far a pass of renewals has come, from phase p0 to phase p. */
    static predicate RenewedUpTo(p0: Phase, p: Phase, next: nat, extended: int)
      requires p0.Extending?
    {
      && p.Extending?
      && p == Extending(p0.until, p0.backers, p0.start, p0.ttl, next, p.won)
      && p.won <= Below(next) && extended == |p.won|
    }

    /** On success the window is the new one, which may have passed already, and with a ttl
        under a millisecond was never open; on failure it is never longer than the old or
        the new one.  A token that is not this key's is refused. */
    method Extend(key: Key, token: Token, ttl: int) returns (r: Result<(), ReleaseError>)
      requires Valid()
      requires cluster.Owns(token, key) ==> cluster.sessions[token].phase.Held?
      modifies cluster
      ensures Valid() && cluster.evals == old(cluster.evals) + |cluster.nodes|
      ensures !old(cluster.Owns(token, key)) ==> r == Err(NotOwner)
      ensures old(cluster.Owns(token, key)) ==>
                && cluster.Owns(token, key) && cluster.sessions[token].phase.Held?
                && (var until := WindowEnd(old(cluster.now), ttl);
                    cluster.sessions[token].phase.until ==
                      if r.Ok? then until else Min(old(cluster.sessions)[token].phase.until, until))
                && (InWindow(cluster.View(), token) ==> Alone(token))
      // nil exactly when the loop counted a quorum; HolderExtends says when it must
      ensures old(cluster.Owns(token, key)) ==>
                (r.Ok? <==> EndsWithQuorum(cluster.origin, cluster.log, token))
      // with a ttl of a millisecond or more a majority was renewed, below that deleted
      ensures r.Ok? && MS <= ttl ==> quorum <= |Touched(token, Renewed(MillisOf(ttl)))|
      ensures r.Ok? && ttl < MS ==> quorum <= |Touched(token, Deleted)|
      ensures r.Ok? ==> (InWindow(cluster.View(), token) <==>
                           100 * (cluster.now - old(cluster.now)) < 99 * ttl - 200 * MS)
    {
      if cluster.Owns(token, key) {
        var p := cluster.sessions[token].phase;
        cluster.Turn(BeginExtend(token, ttl), Extending(p.until, p.backers, cluster.now, ttl, 0, {}));
      }
      var extended := ExtendAll(key, token, ttl);
      cluster.Interfere(token);
      WindowInNumbers(old(cluster.now), cluster.now, ttl);
      if cluster.Owns(token, key) {
        CountIsReal(token);
        ghost var log := cluster.log;
        cluster.Turn(Finish(token), AfterLoop(cluster.sessions[token], cluster.now, |cluster.nodes|));
        ChangedAtFinish(cluster.origin, log, token, ExtendEffect(ttl));
        QuorumAtTheEnd(cluster.origin, log, token);
        if InWindow(cluster.View(), token) {
          OnlyOne(token);
        }
      }
      r := if extended < quorum then Err(NotOwner) else Ok(());
    }
  }
}

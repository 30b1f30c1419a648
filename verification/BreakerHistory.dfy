/**
 What the circuit breaker is, as a function of everything that was ever asked of
 it: no state machine, only counts over the history of timed events.
 */
module BreakerHistory {

  datatype Config = Config(threshold: int, openTimeout: int, halfOpenMax: int) {
    predicate Valid() {
      0 < threshold && 0 < openTimeout && 0 < halfOpenMax
    }
  }

  datatype Event =
    | Allow(at: int)
    | Success(at: int)
    | Failure(at: int)

  type History = seq<Event>

  /** Failures recorded since the last success. */
  function FailureRun(h: History): nat {
    if h == [] then 0
    else
      match h[|h| - 1]
      case Allow(_) => FailureRun(h[..|h| - 1])
      case Success(_) => 0
      case Failure(_) => FailureRun(h[..|h| - 1]) + 1
  }

  /** The time of the latest failure (0 if there is none). */
  function LastFailure(h: History): int {
    if h == [] then 0
    else if h[|h| - 1].Failure? then h[|h| - 1].at
    else LastFailure(h[..|h| - 1])
  }

  /** Requests, since the latest record, that came at least a timeout after the latest failure. */
  function Probes(cfg: Config, h: History): nat {
    if h == [] || !h[|h| - 1].Allow? then 0
    else
      var front := h[..|h| - 1];
      Probes(cfg, front) + if cfg.openTimeout <= h[|h| - 1].at - LastFailure(front) then 1 else 0
  }

  predicate IsClosed(cfg: Config, h: History) {
    FailureRun(h) < cfg.threshold
  }

  /** Would a request at this time be let through? */
  predicate Admits(cfg: Config, h: History, now: int) {
    IsClosed(cfg, h) || (cfg.openTimeout <= now - LastFailure(h) && Probes(cfg, h) < cfg.halfOpenMax)
  }

  /** Requests let through since the latest record. */
  function AdmittedSinceRecord(cfg: Config, h: History): nat {
    if h == [] || !h[|h| - 1].Allow? then 0
    else
      var front := h[..|h| - 1];
      AdmittedSinceRecord(cfg, front) + if Admits(cfg, front, h[|h| - 1].at) then 1 else 0
  }

  /** All requests ever let through, and all records. */
  function Admissions(cfg: Config, h: History): nat {
    if h == [] then 0
    else
      var front := h[..|h| - 1];
      Admissions(cfg, front) + if h[|h| - 1].Allow? && Admits(cfg, front, h[|h| - 1].at) then 1 else 0
  }

  function Successes(h: History): nat {
    if h == [] then 0 else Successes(h[..|h| - 1]) + if h[|h| - 1].Success? then 1 else 0
  }

  function Failures(h: History): nat {
    if h == [] then 0 else Failures(h[..|h| - 1]) + if h[|h| - 1].Failure? then 1 else 0
  }

  /** The clock never ran backwards, and has not passed now. */
  predicate Ordered(h: History, now: int) {
    h == [] || (h[|h| - 1].at <= now && Ordered(h[..|h| - 1], h[|h| - 1].at))
  }

  /** How every count moves when one event is added. */
  lemma Snoc(cfg: Config, h: History, e: Event)
    ensures FailureRun(h + [e]) ==
            match e { case Allow(_) => FailureRun(h) case Success(_) => 0 case Failure(_) => FailureRun(h) + 1 }
    ensures LastFailure(h + [e]) == if e.Failure? then e.at else LastFailure(h)
    ensures Probes(cfg, h + [e]) ==
            if !e.Allow? then 0 else Probes(cfg, h) + if cfg.openTimeout <= e.at - LastFailure(h) then 1 else 0
    ensures AdmittedSinceRecord(cfg, h + [e]) ==
            if !e.Allow? then 0 else AdmittedSinceRecord(cfg, h) + if Admits(cfg, h, e.at) then 1 else 0
    ensures Admissions(cfg, h + [e]) == Admissions(cfg, h) + if e.Allow? && Admits(cfg, h, e.at) then 1 else 0
    ensures Successes(h + [e]) == Successes(h) + if e.Success? then 1 else 0
    ensures Failures(h + [e]) == Failures(h) + if e.Failure? then 1 else 0
    ensures forall now :: Ordered(h + [e], now) <==> e.at <= now && Ordered(h, e.at)
  {
    assert (h + [e])[..|h + [e]| - 1] == h;
  }

  lemma {:induction false} OrderedLater(h: History, now: int, later: int)
    requires Ordered(h, now) && now <= later
    ensures Ordered(h, later)
  {
  }

  /** Once a probe was let through, the timeout stays behind us. */
  lemma {:induction false} ProbesMeanTimeoutPassed(cfg: Config, h: History, now: int)
    requires Ordered(h, now) && 0 < Probes(cfg, h)
    ensures cfg.openTimeout <= now - LastFailure(h)
  {
    var front, last := h[..|h| - 1], h[|h| - 1];
    if 0 < Probes(cfg, front) {
      ProbesMeanTimeoutPassed(cfg, front, last.at);
    }
  }

  /** Half-open discipline: while the breaker is tripped, the requests let through since
      the latest record are the first halfOpenMax of those that came after the timeout. */
  lemma {:induction false} HalfOpenDiscipline(cfg: Config, h: History, now: int)
    requires cfg.Valid() && Ordered(h, now) && !IsClosed(cfg, h)
    ensures AdmittedSinceRecord(cfg, h) == if Probes(cfg, h) <= cfg.halfOpenMax then Probes(cfg, h) else cfg.halfOpenMax
    ensures Admits(cfg, h, now) ==> LastFailure(h) + cfg.openTimeout <= now
    ensures Admits(cfg, h, now) ==> AdmittedSinceRecord(cfg, h) < cfg.halfOpenMax
  {
    var front, last := h[..|h| - 1], h[|h| - 1];
    if last.Allow? {
      HalfOpenDiscipline(cfg, front, last.at);
    }
  }

  function AllowsOnly(times: seq<int>): History {
    seq(|times|, i requires 0 <= i < |times| => Allow(times[i]))
  }

  /** Requests alone never end a full half-open episode: until some call is recorded,
      every request, at any time, is turned away. */
  lemma {:induction false} FullEpisodeNeedsARecord(cfg: Config, h: History, times: seq<int>, now: int)
    requires !IsClosed(cfg, h) && cfg.halfOpenMax <= Probes(cfg, h)
    ensures !IsClosed(cfg, h + AllowsOnly(times)) && cfg.halfOpenMax <= Probes(cfg, h + AllowsOnly(times))
    ensures !Admits(cfg, h + AllowsOnly(times), now)
    ensures Admissions(cfg, h + AllowsOnly(times)) == Admissions(cfg, h)
  {
    if times == [] {
      assert h + AllowsOnly(times) == h;
    } else {
      var front, last := times[..|times| - 1], times[|times| - 1];
      FullEpisodeNeedsARecord(cfg, h, front, last);
      Snoc(cfg, h + AllowsOnly(front), Allow(last));
      assert h + AllowsOnly(times) == (h + AllowsOnly(front)) + [Allow(last)];
    }
  }

  // ---- The breaker in plain numbers ----

  /** Nothing has happened since the last success, or ever. */
  predicate Clean(h: History) {
    h == [] || h[|h| - 1].Success?
  }

  predicate NoSuccess(h: History) {
    forall i :: 0 <= i < |h| ==> !h[i].Success?
  }

  /** The positions of the failures in a history. */
  function FailuresIn(h: History): set<int> {
    set i | 0 <= i < |h| && h[i].Failure?
  }

  lemma FailuresSnoc(h: History, e: Event)
    ensures |FailuresIn(h + [e])| == |FailuresIn(h)| + if e.Failure? then 1 else 0
  {
    var before, after := FailuresIn(h), FailuresIn(h + [e]);
    assert |h| !in before;
    if e.Failure? {
      assert after == before + {|h|};
    } else {
      assert after == before;
    }
  }

  lemma {:induction false} RunSinceClean(cfg: Config, h: History, mid: History)
    requires Clean(h) && NoSuccess(mid)
    ensures FailureRun(h + mid) == |FailuresIn(mid)|
  {
    if mid == [] {
      assert h + mid == h;
    } else {
      var front, e := mid[..|mid| - 1], mid[|mid| - 1];
      RunSinceClean(cfg, h, front);
      hide FailureRun, FailuresIn;
      assert mid == front + [e] && h + mid == (h + front) + [e];
      Snoc(cfg, h + front, e);
      FailuresSnoc(front, e);
    }
  }

  /** The requests that came a timeout or more after the failure. */
  function InTime(asks: seq<int>, due: int): set<int> {
    set i | 0 <= i < |asks| && due <= asks[i]
  }

  lemma InTimeSnoc(asks: seq<int>, at: int, due: int)
    ensures |InTime(asks + [at], due)| == |InTime(asks, due)| + if due <= at then 1 else 0
  {
    var before, after := InTime(asks, due), InTime(asks + [at], due);
    assert |asks| !in before;
    if due <= at {
      assert after == before + {|asks|};
    } else {
      assert after == before;
    }
  }

  lemma AllowsSnoc(asks: seq<int>, at: int)
    ensures AllowsOnly(asks + [at]) == AllowsOnly(asks) + [Allow(at)]
  {
  }

  lemma {:induction false} AsksAfterFailure(cfg: Config, h: History, asks: seq<int>)
    requires h != [] && h[|h| - 1].Failure?
    ensures FailureRun(h + AllowsOnly(asks)) == FailureRun(h)
    ensures LastFailure(h + AllowsOnly(asks)) == h[|h| - 1].at
    ensures Probes(cfg, h + AllowsOnly(asks)) == |InTime(asks, h[|h| - 1].at + cfg.openTimeout)|
  {
    if asks == [] {
      assert h + AllowsOnly(asks) == h;
    } else {
      var front, at := asks[..|asks| - 1], asks[|asks| - 1];
      AsksAfterFailure(cfg, h, front);
      hide *;
      assert asks == front + [at];
      Snoc(cfg, h + AllowsOnly(front), Allow(at));
      AllowsSnoc(front, at);
      assert h + AllowsOnly(asks) == (h + AllowsOnly(front)) + [Allow(at)];
      InTimeSnoc(front, at, h[|h| - 1].at + cfg.openTimeout);
    }
  }

  /** Every history is one that is clean, then events without a success up to a last
      failure, then requests.  After it a request is let through exactly if the failures
      since the last success are fewer than the threshold, or if the timeout since the last
      failure has passed and fewer than the half-open limit came in time before it. */
  lemma AdmitsInNumbers(cfg: Config, h: History, mid: History, last: int, asks: seq<int>, now: int)
    requires cfg.Valid() && Clean(h) && NoSuccess(mid)
    ensures Admits(cfg, h + mid + [Failure(last)] + AllowsOnly(asks), now) <==>
            || |FailuresIn(mid)| + 1 < cfg.threshold
            || (last + cfg.openTimeout <= now && |InTime(asks, last + cfg.openTimeout)| < cfg.halfOpenMax)
  {
    var tripped := h + mid + [Failure(last)];
    RunSinceClean(cfg, h, mid);
    Snoc(cfg, h + mid, Failure(last));
    AsksAfterFailure(cfg, tripped, asks);
  }

  /** Without a failure since the last success every request is let through. */
  lemma CleanAdmits(cfg: Config, h: History, mid: History, now: int)
    requires cfg.Valid() && Clean(h) && NoSuccess(mid) && FailuresIn(mid) == {}
    ensures Admits(cfg, h + mid, now)
  {
    RunSinceClean(cfg, h, mid);
  }
}

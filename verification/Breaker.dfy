/** breaker.go: the mutable three-state machine, shown to be the history's image. */
module Breaker {
  import opened BreakerHistory
  import opened Durations

  datatype Kind = Closed | Open | HalfOpen

  class CircuitBreaker {
    const cfg: Config
    var state: Kind
    var failures: int
    var openedAt: int
    var halfOpenRequests: int
    ghost var history: History

    /** The fields are what the history says, as of time now. */
    ghost predicate Valid(now: int)
      reads this
    {
      && cfg.Valid()
      && Ordered(history, now)
      && (state == Closed <==> IsClosed(cfg, history))
      && (state == Closed ==> failures == FailureRun(history) && halfOpenRequests == 0)
      && (state != Closed ==>
            && cfg.threshold <= failures <= FailureRun(history)
            && openedAt == LastFailure(history)
            && (state == Open <==> AdmittedSinceRecord(cfg, history) == 0)
            && halfOpenRequests == AdmittedSinceRecord(cfg, history))
    }

    constructor (c: Config, now: int)
      ensures Valid(now) && history == [] && state == Closed
      ensures cfg.threshold == (if c.threshold <= 0 then 5 else c.threshold)
      ensures cfg.openTimeout == (if c.openTimeout <= 0 then 5 * SECOND else c.openTimeout)
      ensures cfg.halfOpenMax == (if c.halfOpenMax <= 0 then 1 else c.halfOpenMax)
    {
      cfg := Config(
        if c.threshold <= 0 then 5 else c.threshold,
        if c.openTimeout <= 0 then 5 * SECOND else c.openTimeout,
        if c.halfOpenMax <= 0 then 1 else c.halfOpenMax);
      state := Closed;
      failures := 0;
      openedAt := 0;
      halfOpenRequests := 0;
      history := [];
    }

    method Allow(now: int) returns (admitted: bool)
      requires Valid(now)
      modifies this
      ensures Valid(now) && history == old(history) + [Event.Allow(now)]
      ensures admitted == Admits(cfg, old(history), now)
    {
      Facts(now);
      Snoc(cfg, history, Event.Allow(now));
      history := history + [Event.Allow(now)];
      match state {
        case Closed =>
          return true;
        case Open =>
          if now - openedAt >= cfg.openTimeout {
            state := HalfOpen;
            halfOpenRequests := 0;
          } else {
            return false;
          }
        case HalfOpen =>
      }
      if state == HalfOpen {
        if halfOpenRequests >= cfg.halfOpenMax {
          return false;
        }
        halfOpenRequests := halfOpenRequests + 1;
      }
      return true;
    }

    lemma Facts(now: int)
      requires Valid(now)
      ensures state != Closed ==>
                && halfOpenRequests ==
                     (if Probes(cfg, history) <= cfg.halfOpenMax then Probes(cfg, history) else cfg.halfOpenMax)
                && (0 < Probes(cfg, history) ==> cfg.openTimeout <= now - LastFailure(history))
    {
      if state != Closed {
        HalfOpenDiscipline(cfg, history, now);
        if 0 < Probes(cfg, history) {
          ProbesMeanTimeoutPassed(cfg, history, now);
        }
      }
    }

    method RecordSuccess(now: int)
      requires Valid(now)
      modifies this
      ensures Valid(now) && history == old(history) + [Success(now)]
      ensures state == Closed
    {
      Snoc(cfg, history, Success(now));
      history := history + [Success(now)];
      failures := 0;
      halfOpenRequests := 0;
      state := Closed;
    }

    method RecordFailure(now: int)
      requires Valid(now)
      modifies this
      ensures Valid(now) && history == old(history) + [Failure(now)]
      ensures state == Open <==> old(state) != Closed || cfg.threshold <= old(failures) + 1
    {
      Snoc(cfg, history, Failure(now));
      history := history + [Failure(now)];
      if state == HalfOpen {
        state := Open;
        openedAt := now;
        halfOpenRequests := 0;
        return;
      }
      failures := failures + 1;
      if failures >= cfg.threshold {
        state := Open;
        openedAt := now;
      }
    }

    /** State(), which reads no clock. */
    method State() returns (k: Kind)
      requires exists now :: Valid(now)
      ensures k == Closed <==> IsClosed(cfg, history)
      ensures k == HalfOpen <==> !IsClosed(cfg, history) && 0 < AdmittedSinceRecord(cfg, history)
    {
      k := state;
    }

    /** Nothing but time passes. */
    lemma ValidLater(now: int, later: int)
      requires Valid(now) && now <= later
      ensures Valid(later)
    {
      OrderedLater(history, now, later);
    }
  }
}

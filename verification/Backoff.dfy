/** backoff.go: exponential delays with a cap and jitter, over exact reals. */
module Backoff {
  import opened Durations

  /** A product, named so that proofs can treat it as a term. */
  function Times(a: real, b: real): real {
    a * b
  }

  lemma TimesFacts(x: real, a: real, b: real)
    requires 0.0 <= x && a <= b
    ensures Times(x, a) <= Times(x, b) && Times(a, x) <= Times(b, x)
    ensures Times(x, 0.0) == 0.0 && Times(x, 1.0) == x && Times(0.0, x) == 0.0 && Times(1.0, x) == x
  {
  }

  function Power(m: real, k: nat): real {
    if k == 0 then 1.0 else Times(m, Power(m, k - 1))
  }

  lemma {:induction false} PowerGrows(m: real, j: nat, k: nat)
    requires 1.0 <= m && j <= k
    ensures 1.0 <= Power(m, j) <= Power(m, k)
    decreases k
  {
    hide Times;
    if j < k {
      PowerGrows(m, j, k - 1);
      TimesFacts(Power(m, k - 1), 1.0, m);
    } else if k > 0 {
      PowerGrows(m, k - 1, k - 1);
      TimesFacts(Power(m, k - 1), 1.0, m);
    }
  }

  function MinR(a: real, b: real): real {
    if a <= b then a else b
  }

  datatype Params = Params(base: int, max: int, multiplier: real, jitter: real) {
    predicate Valid() {
      0 < base && 0 < max && 1.0 <= multiplier && 0.0 <= jitter
    }

    /** The delay before jitter.  The first one is not capped; the jitter comes after the cap. */
    function Nominal(attempt: int): int {
      if attempt <= 1 then base
      else MinR(Times(base as real, Power(multiplier, attempt - 1)), max as real).Floor
    }

    /** The random source gives u in [0, 1). */
    function Jittered(delay: int, u: real): int {
      if jitter == 0.0 then delay
      else
        var adjusted := Times(delay as real, 1.0 + Times(u * 2.0 - 1.0, jitter));
        if adjusted < 0.0 then 0 else adjusted.Floor
    }

    /** The delays requested by the waits of one Do call, given what the random source gave. */
    function Delays(us: seq<real>): seq<int> {
      seq(|us|, i requires 0 <= i < |us| => Jittered(Nominal(i + 1), us[i]))
    }
  }

  predicate Draw(u: real) {
    0.0 <= u < 1.0
  }

  predicate AllDraws(us: seq<real>) {
    forall i :: 0 <= i < |us| ==> Draw(us[i])
  }

  /** These are the delays asked for, given what the random source gave. */
  predicate Delayed(p: Params, us: seq<real>, delays: seq<int>) {
    AllDraws(us) && |delays| == |us| && delays == p.Delays(us)
  }

  /** The delay asked for after this attempt, when the random source gave u. */
  predicate Requested(p: Params, attempt: int, u: real, d: int) {
    Draw(u) && d == p.Jittered(p.Nominal(attempt), u)
  }

  lemma OneMoreDelay(p: Params, us: seq<real>, delays: seq<int>, u: real, d: int)
    requires Delayed(p, us, delays) && Requested(p, |us| + 1, u, d)
    ensures Delayed(p, us + [u], delays + [d])
  {
    assert forall i :: 0 <= i < |us| ==> (us + [u])[i] == us[i];
  }

  class Strategy {
    const params: Params

    constructor (base: int, max: int, multiplier: real, jitter: real)
      ensures params.Valid()
      ensures params.base == (if base <= 0 then 25 * MS else base)
      ensures params.max == (if max <= 0 then 1000 * MS else max)
      ensures params.multiplier == (if multiplier < 1.0 then 2.0 else multiplier)
      ensures params.jitter == (if jitter < 0.0 then 0.0 else jitter)
    {
      params := Params(
        if base <= 0 then 25 * MS else base,
        if max <= 0 then 1000 * MS else max,
        if multiplier < 1.0 then 2.0 else multiplier,
        if jitter < 0.0 then 0.0 else jitter);
    }

    method Duration(attempt: int, u: real) returns (d: int)
      requires params.Valid() && Draw(u)
      ensures d == params.Jittered(params.Nominal(attempt), u)
      ensures 0 <= d
      ensures LeavesRoom(params) ==> d <= params.max
    {
      hide Times;
      if LeavesRoom(params) {
        RoomIsEnough(params, attempt, u);
      }
      hide LeavesRoom;
      if attempt <= 1 {
        d := ApplyJitter(params.base, u);
        return;
      }
      PowerGrows(params.multiplier, 0, attempt - 1);
      TimesFacts(params.base as real, 1.0, Power(params.multiplier, attempt - 1));
      var next := Times(params.base as real, Power(params.multiplier, attempt - 1));
      if next > params.max as real {
        next := params.max as real;
      }
      d := ApplyJitter(next.Floor, u);
    }

    method ApplyJitter(delay: int, u: real) returns (d: int)
      requires params.Valid() && Draw(u) && 0 <= delay
      ensures d == params.Jittered(delay, u) && 0 <= d
      ensures params.jitter == 0.0 ==> d == delay
    {
      hide Times;
      if params.jitter == 0.0 {
        return delay;
      }
      var spread := Times(u * 2.0 - 1.0, params.jitter);
      var adjusted := Times(delay as real, 1.0 + spread);
      if adjusted < 0.0 {
        return 0;
      }
      return adjusted.Floor;
    }
  }

  // ---- What the delays are worth ----

  ghost predicate Capped(p: Params) {
    forall attempt :: p.Nominal(attempt) <= p.max
  }

  ghost predicate NonDecreasing(p: Params) {
    forall i, j :: i <= j ==> p.Nominal(i) <= p.Nominal(j)
  }

  /** With base <= max the first delay too is the capped power. */
  lemma NominalIsCappedPower(p: Params, attempt: int)
    requires p.Valid() && p.base <= p.max && 1 <= attempt
    ensures var power := Times(p.base as real, Power(p.multiplier, attempt - 1));
            p.Nominal(attempt) == if power <= p.max as real then power.Floor else p.max
    ensures p.base <= p.Nominal(attempt) <= p.max
  {
    hide Times;
    PowerGrows(p.multiplier, 0, attempt - 1);
    TimesFacts(p.base as real, 1.0, Power(p.multiplier, attempt - 1));
  }

  lemma NominalGrows(p: Params, i: int, j: int)
    requires p.Valid() && p.base <= p.max && i <= j
    ensures p.Nominal(i) <= p.Nominal(j)
  {
    hide Times;
    if 1 < j {
      NominalIsCappedPower(p, j);
      if 1 < i {
        PowerGrows(p.multiplier, i - 1, j - 1);
        TimesFacts(p.base as real, Power(p.multiplier, i - 1), Power(p.multiplier, j - 1));
      }
    }
  }

  /** Before jitter, the cap holds for every attempt, and delays never shrink, exactly
      when base <= max: the code caps every delay but the first. */
  lemma CapNeedsBaseBelowMax(p: Params)
    requires p.Valid()
    ensures Capped(p) <==> p.base <= p.max
    ensures NonDecreasing(p) <==> p.base <= p.max
  {
    hide Times;
    if p.base <= p.max {
      forall attempt ensures p.Nominal(attempt) <= p.max {
        if 1 < attempt {
          NominalIsCappedPower(p, attempt);
        }
      }
      forall i, j | i <= j ensures p.Nominal(i) <= p.Nominal(j) {
        NominalGrows(p, i, j);
      }
    } else {
      assert p.Nominal(2) <= p.max < p.Nominal(1);
    }
  }

  // ---- The cap after jitter ----

  /** What Duration returns never exceeds the configured maximum. */
  ghost predicate CappedAfterJitter(p: Params) {
    forall attempt, u :: Draw(u) ==> p.Jittered(p.Nominal(attempt), u) <= p.max
  }

  /** The longest of the delays before jitter. */
  function Top(p: Params): int {
    if p.multiplier == 1.0 then p.base else p.max
  }

  /** The base does not exceed the cap, and neither does the longest delay with the largest
      jitter, but for the nanosecond that rounding down takes away. */
  predicate LeavesRoom(p: Params) {
    p.base <= p.max && (p.jitter == 0.0 || Times(Top(p) as real, 1.0 + p.jitter) <= p.max as real + 1.0)
  }

  lemma StrictTimes(x: real, a: real, b: real)
    requires 0.0 < x && a < b
    ensures Times(x, a) < Times(x, b) && Times(a, x) < Times(b, x)
  {
  }

  lemma {:induction false} PowerOfOne(k: nat)
    ensures Power(1.0, k) == 1.0
  {
    if k > 0 {
      PowerOfOne(k - 1);
    }
  }

  lemma NominalBelowTop(p: Params, attempt: int)
    requires p.Valid() && p.base <= p.max
    ensures 0 < p.Nominal(attempt) <= Top(p)
  {
    hide Times;
    if 1 < attempt {
      NominalIsCappedPower(p, attempt);
      if p.multiplier == 1.0 {
        PowerOfOne(attempt - 1);
        TimesFacts(p.base as real, 0.0, 1.0);
      }
    }
  }

  /** Powers grow at least linearly. */
  lemma {:induction false} Bernoulli(m: real, k: nat)
    requires 1.0 <= m
    ensures 1.0 + Times(k as real, m - 1.0) <= Power(m, k)
  {
    hide Times;
    TimesFacts(m - 1.0, 0.0, 1.0);
    if k > 0 {
      var x := Power(m, k - 1);
      Bernoulli(m, k - 1);
      PowerGrows(m, 0, k - 1);
      TimesFacts(m - 1.0, 1.0, x);
      OneMoreTime(k - 1, m - 1.0);
      Split(m, x);
    }
  }

  lemma OneMoreTime(k: int, d: real)
    ensures Times((k + 1) as real, d) == Times(k as real, d) + d
  {
  }

  lemma Split(m: real, x: real)
    ensures Times(m, x) == x + Times(m - 1.0, x)
  {
  }

  /** Enough steps of size d to pass a bound. */
  lemma StepsPast(bound: int, d: real) returns (k: nat)
    requires 0 < bound && 0.0 < d
    ensures 1 <= k && bound as real < Times(k as real, d)
  {
    var q := bound as real / d;
    assert q * d == bound as real;
    k := q.Floor + 1;
    assert q < k as real;
    StrictTimes(d, q, k as real);
  }

  lemma TopIsReached(p: Params) returns (attempt: int)
    requires p.Valid() && p.base <= p.max
    ensures p.Nominal(attempt) == Top(p)
  {
    hide Times;
    if p.multiplier == 1.0 {
      attempt := 1;
    } else {
      var k := StepsPast(p.max, p.multiplier - 1.0);
      attempt := k + 1;
      Bernoulli(p.multiplier, k);
      TimesFacts(Power(p.multiplier, k), 1.0, p.base as real);
      assert p.max as real <= Times(p.base as real, Power(p.multiplier, k));
    }
  }

  lemma RoomIsEnough(p: Params, attempt: int, u: real)
    requires p.Valid() && LeavesRoom(p) && Draw(u)
    ensures p.Jittered(p.Nominal(attempt), u) <= p.max
  {
    hide Times;
    NominalBelowTop(p, attempt);
    var d := p.Nominal(attempt);
    if p.jitter == 0.0 {
      assert Top(p) <= p.max;
    } else {
      StrictTimes(p.jitter, u * 2.0 - 1.0, 1.0);
      TimesFacts(p.jitter, 0.0, 1.0);
      StrictTimes(d as real, 1.0 + Times(u * 2.0 - 1.0, p.jitter), 1.0 + p.jitter);
      TimesFacts(1.0 + p.jitter, d as real, Top(p) as real);
    }
  }

  lemma ProperFraction(a: real, b: real)
    requires 0.0 < a < b
    ensures 0.0 < a / b < 1.0 && (a / b) * b == a
  {
    var q := a / b;
    assert q * b == a;
    if q <= 0.0 {
      TimesFacts(b, q, 0.0);
    } else if 1.0 <= q {
      TimesFacts(b, 1.0, q);
    }
  }

  /** The draw that lengthens a delay by exactly this much. */
  lemma DrawFor(delay: real, jitter: real, gap: real) returns (u: real)
    requires 0.0 < delay && 0.0 < jitter && 0.0 < gap < Times(delay, jitter)
    ensures Draw(u) && Times(delay, 1.0 + Times(u * 2.0 - 1.0, jitter)) == delay + gap
  {
    var q := gap / (delay * jitter);
    ProperFraction(gap, delay * jitter);
    u := (1.0 + q) / 2.0;
    assert u * 2.0 - 1.0 == q;
    assert delay * (1.0 + q * jitter) == delay + q * (delay * jitter);
  }

  lemma NoRoomOverflows(p: Params) returns (attempt: int, u: real)
    requires p.Valid() && p.base <= p.max && !LeavesRoom(p)
    ensures Draw(u) && p.max < p.Jittered(p.Nominal(attempt), u)
  {
    attempt := TopIsReached(p);
    var top := Top(p) as real;
    assert top * (1.0 + p.jitter) == top + top * p.jitter;
    u := DrawFor(top, p.jitter, p.max as real + 1.0 - top);
    hide Times;
    assert p.Jittered(p.Nominal(attempt), u) == (p.max as real + 1.0).Floor;
  }

  lemma FirstDelayOverflows(p: Params)
    requires p.Valid() && p.max < p.base
    ensures Draw(0.5) && p.max < p.Jittered(p.Nominal(1), 0.5)
  {
    hide Times;
    TimesFacts(p.jitter, 0.0, 1.0);
    TimesFacts(p.base as real, 0.0, 1.0);
  }

  /** No delay that Duration returns exceeds the maximum exactly when the base does not and
      the jitter leaves room: jitter is added after the cap. */
  lemma CapHoldsIff(p: Params)
    requires p.Valid()
    ensures CappedAfterJitter(p) <==> LeavesRoom(p)
  {
    if LeavesRoom(p) {
      forall attempt, u | Draw(u) ensures p.Jittered(p.Nominal(attempt), u) <= p.max {
        RoomIsEnough(p, attempt, u);
      }
    } else if p.base <= p.max {
      var attempt, u := NoRoomOverflows(p);
      assert !CappedAfterJitter(p);
    } else {
      FirstDelayOverflows(p);
      assert !CappedAfterJitter(p);
    }
  }

  /** A base below the maximum is not enough: half a second, doubled, capped at 750ms and
      jittered by a fifth can give 870ms. */
  lemma JitterPassesTheCap()
    ensures var p := Params(500 * MS, 750 * MS, 2.0, 0.2);
            && p.Valid() && p.base <= p.max && Draw(0.9)
            && p.Nominal(2) == 750 * MS && p.Jittered(p.Nominal(2), 0.9) == 870 * MS
  {
    var p := Params(500 * MS, 750 * MS, 2.0, 0.2);
    assert Power(2.0, 1) == 2.0 by {
      assert Power(2.0, 0) == 1.0;
    }
    assert Times(0.9 * 2.0 - 1.0, 0.2) == 0.16;
    assert Times(750_000_000.0, 1.16) == 870_000_000.0;
  }

  /** Jitter never makes a delay negative, and adds at most its share. */
  lemma JitterBounds(p: Params, delay: int, u: real)
    requires p.Valid() && 0 <= delay && Draw(u)
    ensures 0 <= p.Jittered(delay, u)
    ensures p.Jittered(delay, u) as real <= Times(delay as real, 1.0 + p.jitter)
  {
    hide Times;
    var d := delay as real;
    TimesFacts(p.jitter, u * 2.0 - 1.0, 1.0);
    TimesFacts(d, 1.0 + Times(u * 2.0 - 1.0, p.jitter), 1.0 + p.jitter);
    TimesFacts(d, 1.0, 1.0 + p.jitter);
  }

  // ---- The jitter in plain numbers ----

  /** In the middle of its range the draw changes nothing; at its lower end it takes away
      the whole share of jitter, and at most all of the delay. */
  lemma JitterAtTheEnds(p: Params, delay: int)
    requires p.Valid() && 0 <= delay
    ensures p.Jittered(delay, 0.5) == delay
    ensures p.jitter <= 1.0 ==> p.Jittered(delay, 0.0) == Times(delay as real, 1.0 - p.jitter).Floor
    ensures 1.0 <= p.jitter ==> p.Jittered(delay, 0.0) == 0
  {
    TimesFacts(p.jitter, 0.0, 1.0);
    TimesFacts(delay as real, 0.0, 1.0);
    assert Times(0.0 * 2.0 - 1.0, p.jitter) == -p.jitter;
    if p.jitter <= 1.0 {
      TimesFacts(delay as real, 0.0, 1.0 - p.jitter);
    } else {
      TimesFacts(delay as real, 1.0 - p.jitter, 0.0);
    }
    hide Times;
  }

  lemma Slope(delay: real, jitter: real, u: real, v: real)
    ensures Times(delay, 1.0 + Times(v * 2.0 - 1.0, jitter)) - Times(delay, 1.0 + Times(u * 2.0 - 1.0, jitter))
         == Times(Times(2.0 * (v - u), jitter), delay)
  {
    var a, b := v * 2.0 - 1.0, u * 2.0 - 1.0;
    assert a * jitter - b * jitter == (a - b) * jitter;
    assert delay * (1.0 + a * jitter) - delay * (1.0 + b * jitter) == delay * (a * jitter - b * jitter);
  }

  lemma Unclamped(p: Params, delay: int, u: real)
    requires p.Valid() && 0 <= delay && Draw(u) && p.jitter <= 1.0
    ensures 0.0 <= Times(delay as real, 1.0 + Times(u * 2.0 - 1.0, p.jitter))
  {
    hide Times;
    TimesFacts(p.jitter, -1.0, u * 2.0 - 1.0);
    Negated(p.jitter);
    TimesFacts(delay as real, 0.0, 1.0 + Times(u * 2.0 - 1.0, p.jitter));
  }

  lemma Negated(x: real)
    ensures Times(-1.0, x) == -x
  {
  }

  /** From one draw to a larger one the delay grows in proportion, 2 * jitter * delay over
      the whole range, up to the rounding to nanoseconds, and unless cut off at 0. */
  lemma JitterIsLinear(p: Params, delay: int, u: real, v: real)
    requires p.Valid() && 0 <= delay && Draw(u) && Draw(v) && u <= v
    requires p.jitter <= 1.0 || 0 < p.Jittered(delay, u)
    ensures var spread := Times(Times(2.0 * (v - u), p.jitter), delay as real);
            spread - 1.0 < (p.Jittered(delay, v) - p.Jittered(delay, u)) as real < spread + 1.0
  {
    var d, j := delay as real, p.jitter;
    Slope(d, j, u, v);
    TimesFacts(j, 0.0, 2.0 * (v - u));
    TimesFacts(d, 0.0, Times(2.0 * (v - u), j));
    if j <= 1.0 {
      Unclamped(p, delay, u);
      Unclamped(p, delay, v);
    }
    if j == 0.0 {
      TimesFacts(2.0 * (v - u), 0.0, 1.0);
      TimesFacts(d, 0.0, 1.0);
      assert Times(2.0 * (v - u), j) == 0.0;
    }
    hide Times;
  }

  lemma TimesAssociates(a: real, b: real, c: real)
    ensures Times(a, Times(b, c)) == Times(Times(a, b), c)
  {
  }

  /** Powers: one step multiplies once, and steps add up. */
  lemma {:induction false} PowersMultiply(m: real, j: nat, k: nat)
    ensures Power(m, 0) == 1.0 && Power(m, 1) == m
    ensures Power(m, j + k) == Times(Power(m, j), Power(m, k))
  {
    hide Times;
    UnitTimes(m);
    UnitTimes(Power(m, k));
    assert Power(m, 1) == Times(m, Power(m, 0));
    if j > 0 {
      PowersMultiply(m, j - 1, k);
      TimesAssociates(m, Power(m, j - 1), Power(m, k));
    }
  }

  lemma UnitTimes(x: real)
    ensures Times(1.0, x) == x && Times(x, 1.0) == x
  {
  }

  function Sum(ds: seq<int>): int {
    if ds == [] then 0 else Sum(ds[..|ds| - 1]) + ds[|ds| - 1]
  }

  lemma OneMore(k: int, each: real, total: real, d: real)
    requires total <= Times(k as real, each) && d <= each
    ensures total + d <= Times((k + 1) as real, each)
  {
  }

  lemma {:induction false} SumBounded(p: Params, us: seq<real>)
    requires p.Valid() && p.base <= p.max
    requires AllDraws(us)
    ensures 0 <= Sum(p.Delays(us))
    ensures Sum(p.Delays(us)) as real <= Times(|us| as real, Times(p.max as real, 1.0 + p.jitter))
  {
    hide Times;
    if us != [] {
      var n, d := |us|, p.Delays(us)[|us| - 1];
      SumBounded(p, us[..n - 1]);
      assert p.Delays(us)[..n - 1] == p.Delays(us[..n - 1]);
      NominalIsCappedPower(p, n);
      JitterBounds(p, p.Nominal(n), us[n - 1]);
      TimesFacts(1.0 + p.jitter, p.Nominal(n) as real, p.max as real);
      OneMore(n - 1, Times(p.max as real, 1.0 + p.jitter), Sum(p.Delays(us[..n - 1])) as real, d as real);
    } else {
      TimesFacts(p.max as real, 0.0, 1.0 + p.jitter);
      TimesFacts(Times(p.max as real, 1.0 + p.jitter), 0.0, 1.0);
    }
  }

  /** The delays of one Do call sum to at most (MaxAttempts - 1) * max * (1 + jitter). */
  lemma TotalDelay(p: Params, us: seq<real>, maxAttempts: int)
    requires p.Valid() && p.base <= p.max && |us| < maxAttempts
    requires AllDraws(us)
    ensures 0 <= Sum(p.Delays(us))
    ensures Sum(p.Delays(us)) as real <= Times((maxAttempts - 1) as real, Times(p.max as real, 1.0 + p.jitter))
  {
    hide Times;
    SumBounded(p, us);
    var each := Times(p.max as real, 1.0 + p.jitter);
    TimesFacts(p.max as real, 0.0, 1.0 + p.jitter);
    TimesFacts(each, |us| as real, (maxAttempts - 1) as real);
  }
}

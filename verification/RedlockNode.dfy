/**
 One Redis node as the distributed lock sees it: a clock, a key space whose
 entries carry a deadline, and the three scripts that redlock.go sends.

 Client time is counted in nanoseconds, as Go's time.Duration is.  A node has a
 clock of its own, also in nanoseconds, of which it reads whole milliseconds.
 */
module RedlockNode {
  import opened Durations

  type Key = string
  type Token = string

  /** Integer division rounding toward zero, as Go's conversions do. */
  function TruncDiv(a: int, b: int): int
    requires 0 < b
  {
    if 0 <= a then a / b else -((-a) / b)
  }

  /** Whole milliseconds of a duration. */
  function MillisOf(ttl: int): int {
    TruncDiv(ttl, MS)
  }

  /** The allowance driftFor subtracts from a lock's ttl. */
  function DriftFor(ttl: int): int {
    TruncDiv(ttl, 100) + 2 * MS
  }

  /** The instant at which a lock of the given ttl, begun at start, stops being valid. */
  function WindowEnd(start: int, ttl: int): int {
    start + ttl - DriftFor(ttl)
  }

  /** A stored key: the owner's token and the clock reading (in ms) at which the key is gone. */
  datatype Entry = Entry(token: Token, deadline: int)

  datatype Node = Node(clock: int, store: map<Key, Entry>) {
    function Reading(): int {
      clock / MS
    }

    predicate Live(key: Key) {
      key in store && Reading() < store[key].deadline
    }

    predicate Holds(key: Key, token: Token) {
      Live(key) && store[key].token == token
    }
  }

  datatype Script =
    | SetIfAbsent(ms: int)
    | CompareDelete
    | CompareExtend(ms: int)

  /** Runs a script atomically.  The flag says whether it returned 1.  A SET whose
      PX argument is not positive is an error; PEXPIRE with one deletes the key. */
  function RunScript(node: Node, script: Script, key: Key, token: Token): (r: (Node, bool)) {
    match script
    case SetIfAbsent(ms) =>
      if ms <= 0 || node.Live(key) then (node, false)
      else (node.(store := node.store[key := Entry(token, node.Reading() + ms)]), true)
    case CompareDelete =>
      if node.Holds(key, token) then (node.(store := node.store - {key}), true)
      else (node, false)
    case CompareExtend(ms) =>
      if !node.Holds(key, token) then (node, false)
      else if ms <= 0 then (node.(store := node.store - {key}), true)
      else (node.(store := node.store[key := Entry(token, node.Reading() + ms)]), true)
  }

  /** What a script can never do: touch another key, or a live entry of another token. */
  lemma ScriptFrame(node: Node, script: Script, key: Key, token: Token)
    ensures RunScript(node, script, key, token).0.clock == node.clock
    ensures forall k | k != key ::
              (k in RunScript(node, script, key, token).0.store <==> k in node.store) &&
              (k in node.store ==> RunScript(node, script, key, token).0.store[k] == node.store[k])
    ensures node.Live(key) && node.store[key].token != token ==>
              RunScript(node, script, key, token) == (node, false)
    ensures !script.SetIfAbsent? && key in node.store && node.store[key].token != token ==>
              RunScript(node, script, key, token) == (node, false)
  {
  }

  /** While now < until, the node holds the key for the token, with enough of its own
      clock left to last until `until` even if that clock gains one part in 99. */
  predicate Covers(node: Node, key: Key, token: Token, now: int, until: int) {
    now < until ==>
      && key in node.store
      && node.store[key].token == token
      && 100 * (until - now) <= 99 * (node.store[key].deadline * MS - node.clock)
  }

  lemma CoversHolds(node: Node, key: Key, token: Token, now: int, until: int)
    requires Covers(node, key, token, now, until) && now < until
    ensures node.Holds(key, token)
  {
  }

  /** Earlier windows are covered by whatever covers later ones. */
  lemma CoversWeaken(node: Node, key: Key, token: Token, now: int, until: int, sooner: int)
    requires Covers(node, key, token, now, until) && sooner <= until
    ensures Covers(node, key, token, now, sooner)
  {
  }

  /** A node clock gains at most one part in 99 between two instants. */
  predicate ClockStep(clock: int, clock': int, now: int, now': int) {
    now <= now' && clock <= clock' && 99 * (clock' - clock) <= 100 * (now' - now)
  }

  lemma OnePercentIsAllowed(clock: int, clock': int, now: int, now': int)
    requires now <= now' && clock <= clock' && 100 * (clock' - clock) <= 101 * (now' - now)
    ensures ClockStep(clock, clock', now, now')
  {
  }

  /** Passing time keeps coverage. */
  lemma CoversTick(node: Node, clock': int, key: Key, token: Token, now: int, now': int, until: int)
    requires Covers(node, key, token, now, until)
    requires ClockStep(node.clock, clock', now, now')
    ensures Covers(node.(clock := clock'), key, token, now', until)
  {
  }

  /** Another token's script keeps coverage. */
  lemma CoversFrame(node: Node, script: Script, key: Key, token: Token, k: Key, t: Token, now: int, until: int)
    requires Covers(node, k, t, now, until) && t != token
    ensures Covers(RunScript(node, script, key, token).0, k, t, now, until)
  {
    if now < until {
      CoversHolds(node, k, t, now, until);
      ScriptFrame(node, script, key, token);
    }
  }

  /** The drift arithmetic: a key written no earlier than `start`, with the truncated
      millisecond ttl, covers the whole window start + ttl - drift. */
  lemma FreshDeadlineCovers(node: Node, start: int, now: int, ttl: int)
    requires start <= now && 0 < MillisOf(ttl)
    ensures 100 * (WindowEnd(start, ttl) - now)
         <= 99 * ((node.Reading() + MillisOf(ttl)) * MS - node.clock)
  {
  }

  lemma ShortTtlHasNoWindow(start: int, ttl: int)
    requires MillisOf(ttl) <= 0
    ensures WindowEnd(start, ttl) < start
  {
  }

  lemma SetCovers(node: Node, key: Key, token: Token, start: int, now: int, ttl: int)
    requires start <= now
    requires RunScript(node, SetIfAbsent(MillisOf(ttl)), key, token).1
    ensures Covers(RunScript(node, SetIfAbsent(MillisOf(ttl)), key, token).0, key, token, now, WindowEnd(start, ttl))
  {
    FreshDeadlineCovers(node, start, now, ttl);
  }

  /** A compare-and-extend by the owner leaves the node covering the new window
      if it answered 1, and in any case the earlier of the two windows. */
  lemma ExtendCovers(node: Node, key: Key, token: Token, start: int, now: int, ttl: int, until: int)
    requires start <= now
    ensures var r := RunScript(node, CompareExtend(MillisOf(ttl)), key, token);
            && (r.1 ==> Covers(r.0, key, token, now, WindowEnd(start, ttl)))
            && (Covers(node, key, token, now, until) && until <= WindowEnd(start, ttl) ==>
                  Covers(r.0, key, token, now, until))
  {
    var r := RunScript(node, CompareExtend(MillisOf(ttl)), key, token);
    if MillisOf(ttl) <= 0 {
      ShortTtlHasNoWindow(start, ttl);
    } else {
      FreshDeadlineCovers(node, start, now, ttl);
      if r.1 && until <= WindowEnd(start, ttl) {
        CoversWeaken(r.0, key, token, now, WindowEnd(start, ttl), until);
      }
    }
  }

  // ---- The window in plain numbers ----

  /** One hundredth of the ttl, rounded down, and two milliseconds. */
  lemma DriftInNumbers(ttl: int)
    requires 0 <= ttl
    ensures ttl + 200 * MS - 100 < 100 * DriftFor(ttl) <= ttl + 200 * MS
  {
  }

  /** The window is open while less than 99 hundredths of the ttl, less two milliseconds,
      have gone by. */
  lemma WindowInNumbers(start: int, now: int, ttl: int)
    requires start <= now
    ensures now < WindowEnd(start, ttl) <==> 100 * (now - start) < 99 * ttl - 200 * MS
  {
  }

  lemma WindowLength(start: int, ttl: int)
    requires 0 <= ttl
    ensures 99 * ttl - 200 * MS <= 100 * (WindowEnd(start, ttl) - start) < 99 * ttl - 200 * MS + 100
  {
  }

  /** The allowance is not larger than it must be: for every ttl of a millisecond or more
      there is a free node with an allowed clock on which a key set at the start of the
      window is gone within 1.02 milliseconds of the window's end. */
  lemma AllowanceIsTight(ttl: int, key: Key, token: Token) returns (node: Node, d: int, clock': int)
    requires MS <= ttl
    ensures !node.Live(key) && ClockStep(node.clock, clock', 0, d)
    ensures d <= WindowEnd(0, ttl) + MS + MS / 50
    ensures var (holder, answer) := RunScript(node, SetIfAbsent(MillisOf(ttl)), key, token);
            answer && holder.Holds(key, token) && !holder.(clock := clock').Live(key)
  {
    node, clock' := Node(MS - 1, map[]), MillisOf(ttl) * MS;
    d := (99 * (clock' - node.clock) + 99) / 100;
  }

  // ---- How fast may a node clock run? ----

  /** A node clock that gains at most num/den per unit of real time moved from c to c'
      in d nanoseconds: is a key set at reading c, with this ttl, still there? */
  predicate Survives(num: int, den: int, ttl: int, c: int, d: int, c': int) {
    0 <= d < ttl - DriftFor(ttl) && den * (c' - c) <= num * d ==>
      c' / MS < c / MS + MillisOf(ttl)
  }

  ghost predicate DriftSuffices(num: int, den: int) {
    forall ttl, c, d, c' :: MS <= ttl ==> Survives(num, den, ttl, c, d, c')
  }

  lemma CancelFactor(den: int, a: int, b: int)
    requires 0 < den && den * a <= den * b
    ensures a <= b
  {
    if b + 1 <= a {
      MulMonotone(b + 1, a, den);
    }
  }

  /** What such a clock gains in d nanoseconds. */
  lemma GainBound(num: int, den: int, gained: int, d: int)
    requires 0 < den && 99 * num <= 100 * den && 0 <= d && den * gained <= num * d
    ensures 99 * gained <= 100 * d
  {
    calc {
      den * (99 * gained);
      99 * (den * gained);
    <=
      99 * (num * d);
      (99 * num) * d;
    <= { MulMonotone(99 * num, 100 * den, d); }
      (100 * den) * d;
      den * (100 * d);
    }
    CancelFactor(den, 99 * gained, 100 * d);
  }

  lemma DriftSufficesIf(num: int, den: int, ttl: int, c: int, d: int, c': int)
    requires 0 < den && 99 * num <= 100 * den && MS <= ttl
    ensures Survives(num, den, ttl, c, d, c')
  {
    if 0 <= d < ttl - DriftFor(ttl) && den * (c' - c) <= num * d {
      GainBound(num, den, c' - c, d);
      SlowEnough(ttl, c, d, c');
    }
  }

  lemma SlowEnough(ttl: int, c: int, d: int, c': int)
    requires MS <= ttl && 0 <= d < ttl - DriftFor(ttl) && 99 * (c' - c) <= 100 * d
    ensures c' / MS < c / MS + MillisOf(ttl)
  {
  }

  lemma ScaledBound(num: int, den: int, x: int, slack: int)
    requires 100 * den < 99 * num && 0 <= x && num * slack <= x
    ensures den * (100 * x) <= num * (99 * x - slack)
  {
    calc {
      den * (100 * x);
      (100 * den) * x;
    <= { MulMonotone(100 * den, 99 * num - 1, x); }
      (99 * num - 1) * x;
      num * (99 * x) - x;
    <=
      num * (99 * x) - num * slack;
      num * (99 * x - slack);
    }
  }

  lemma MulMonotone(a: int, b: int, x: int)
    requires a <= b && 0 <= x
    ensures a * x <= b * x
  {
  }

  lemma FasterClockLosesTheKey(num: int, den: int) returns (ttl: int, d: int, c': int)
    requires 0 < den && 100 * den < 99 * num
    ensures MS <= ttl && !Survives(num, den, ttl, 0, d, c')
  {
    var x := 3 * MS * num;
    ttl, c' := 100 * x, 100 * x;
    d := 99 * x - 2 * MS - 1;
    assert ttl - DriftFor(ttl) == d + 1;
    ScaledBound(num, den, x, 2 * MS + 1);
    assert MillisOf(ttl) == 300 * num && c' / MS == 300 * num;
  }

  /** The allowance 0.01*ttl + 2ms is enough for every ttl exactly when node clocks
      run at no more than 100/99 of real time: 1% fast is fine, the 10% that the
      comment beside the constant speaks of is not. */
  lemma DriftIsEnoughExactlyWhen(num: int, den: int)
    requires 0 < den
    ensures DriftSuffices(num, den) <==> 99 * num <= 100 * den
  {
    if 99 * num <= 100 * den {
      forall ttl, c, d, c' | MS <= ttl ensures Survives(num, den, ttl, c, d, c') {
        DriftSufficesIf(num, den, ttl, c, d, c');
      }
    }
    if 100 * den < 99 * num {
      var ttl, d, c' := FasterClockLosesTheKey(num, den);
      assert !Survives(num, den, ttl, 0, d, c');
    }
  }
}

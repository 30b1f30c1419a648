/**
 What a client of the key/value store may rely on, told only in terms of what operations
 answer: what a write makes later reads say, at what time, and what it leaves alone.
 The laws hold of every store, and so, by Backend.Run, of the in-memory backend.
 */
module KvLaws {
  import opened KvSpec
  import opened Strings
  import opened Wrappers

  /** The answer when no error is injected. */
  ghost function Answer(fmt: Numerals, m: Store, now: int, op: Op): Reply {
    Eager(fmt, m, map[], now, op).1
  }

  ghost function After(fmt: Numerals, m: Store, now: int, op: Op): Store {
    Eager(fmt, m, map[], now, op).0
  }

  // ---- Reading ----

  /** Get finds a value or nothing; TTL tells for how long Get will find it. */
  lemma TtlTellsGet(fmt: Numerals, m: Store, k: Key, now: int, later: int)
    requires now <= later
    ensures var first, second := Answer(fmt, m, now, Get(k)), Answer(fmt, m, later, Get(k));
            && (first == KeyNotFound || first.Value?)
            && match Answer(fmt, m, now, TTL(k))
               case Ttl(NoKey) => first == KeyNotFound == second
               case Ttl(NoExpiry) => first.Value? && second == first
               case Ttl(Left(ns)) =>
                 first.Value? && 0 <= ns && second == if later <= now + ns then first else KeyNotFound
               case _ => false
  {
  }

  /** MGet is a Get of every key in turn. */
  lemma MGetIsGets(fmt: Numerals, m: Store, keys: seq<Key>, now: int)
    ensures var r := Answer(fmt, m, now, MGet(keys));
            && r.Values? && |r.values| == |keys|
            && forall i :: 0 <= i < |keys| ==>
                 r.values[i] == match Answer(fmt, m, now, Get(keys[i])) case Value(v) => Some(v) case _ => None
  {
  }

  /** The positions whose key Get would find. */
  ghost function Found(fmt: Numerals, m: Store, keys: seq<Key>, now: int): set<int> {
    set i | 0 <= i < |keys| && Answer(fmt, m, now, Get(keys[i])) != KeyNotFound
  }

  lemma {:induction false} PresentCounts(live: Store, keys: seq<Key>)
    ensures Present(live, keys) == |set i | 0 <= i < |keys| && keys[i] in live|
  {
    if keys != [] {
      var front, n := keys[..|keys| - 1], |keys| - 1;
      PresentCounts(live, front);
      var before := set i | 0 <= i < n && front[i] in live;
      var after := set i | 0 <= i < |keys| && keys[i] in live;
      assert after == before + if keys[n] in live then {n} else {};
    }
  }

  /** Exists counts positions, so that a key named twice counts twice. */
  lemma ExistsCounts(fmt: Numerals, m: Store, keys: seq<Key>, now: int)
    ensures Answer(fmt, m, now, Exists(keys)) == Count(|Found(fmt, m, keys, now)|)
  {
    PresentCounts(Live(m, now), keys);
    forall k ensures Answer(fmt, m, now, Get(k)) != KeyNotFound <==> k in Live(m, now) {
      GetFinds(fmt, m, k, now);
    }
    assert Found(fmt, m, keys, now) == set i | 0 <= i < |keys| && keys[i] in Live(m, now);
  }

  /** Get finds exactly the live keys. */
  lemma GetFinds(fmt: Numerals, m: Store, k: Key, now: int)
    ensures Answer(fmt, m, now, Get(k)) != KeyNotFound <==> k in Live(m, now)
  {
  }

  // ---- Writing ----

  /** The keys an operation may change. */
  predicate Touches(op: Op, k: Key) {
    match op
    case Set(key, _, _) => key == k
    case MSet(values) => k in values
    case Del(keys) => k in keys
    case Expire(key, _) => key == k
    case Incr(key) => key == k
    case Decr(key) => key == k
    case _ => false
  }

  /** The same entry, or none, at this key. */
  predicate SameAt(a: Store, b: Store, k: Key) {
    (k in a <==> k in b) && (k in a ==> a[k] == b[k])
  }

  lemma SameReads(fmt: Numerals, a: Store, b: Store, k: Key, now: int)
    requires SameAt(Live(a, now), Live(b, now), k)
    ensures Answer(fmt, a, now, Get(k)) == Answer(fmt, b, now, Get(k))
    ensures Answer(fmt, a, now, TTL(k)) == Answer(fmt, b, now, TTL(k))
  {
    hide Live;
  }

  lemma PlainKeepsOthers(fmt: Numerals, m: Store, now: int, op: Op, k: Key)
    requires !Touches(op, k)
    ensures SameAt(Plain(fmt, m, now, op).0, m, k)
  {
    hide Listing, PageOf, Present;
  }

  lemma AfterIsPlain(fmt: Numerals, m: Store, now: int, op: Op)
    ensures After(fmt, m, now, op) == Plain(fmt, Live(m, now), now, op).0
  {
    hide Plain, Live;
  }

  lemma SameLater(a: Store, m: Store, k: Key, now: int, later: int)
    requires now <= later && SameAt(a, Live(m, now), k)
    ensures SameAt(Live(a, later), Live(m, later), k)
  {
  }

  /** No operation changes what later reads of other keys say. */
  lemma OtherKeysUntouched(fmt: Numerals, m: Store, now: int, op: Op, k: Key, later: int)
    requires now <= later && !Touches(op, k)
    ensures Answer(fmt, After(fmt, m, now, op), later, Get(k)) == Answer(fmt, m, later, Get(k))
    ensures Answer(fmt, After(fmt, m, now, op), later, TTL(k)) == Answer(fmt, m, later, TTL(k))
  {
    hide *;
    AfterIsPlain(fmt, m, now, op);
    PlainKeepsOthers(fmt, Live(m, now), now, op, k);
    SameLater(After(fmt, m, now, op), m, k, now, later);
    SameReads(fmt, After(fmt, m, now, op), m, k, later);
  }

  /** What reads say, from `now` on, of a key that holds v and is gone `ttl` later. */
  ghost predicate Fades(fmt: Numerals, m: Store, k: Key, v: string, now: int, ttl: int) {
    forall later :: now <= later ==>
      && Answer(fmt, m, later, Get(k)) == (if later <= now + ttl then Value(v) else KeyNotFound)
      && Answer(fmt, m, later, TTL(k)) == Ttl(if later <= now + ttl then Left(now + ttl - later) else NoKey)
  }

  /** What reads say of a key that holds v for good. */
  ghost predicate Stays(fmt: Numerals, m: Store, k: Key, v: string, now: int) {
    forall later :: now <= later ==>
      Answer(fmt, m, later, Get(k)) == Value(v) && Answer(fmt, m, later, TTL(k)) == Ttl(NoExpiry)
  }

  /** What reads say of a key that is not there. */
  ghost predicate Gone(fmt: Numerals, m: Store, k: Key, now: int) {
    forall later :: now <= later ==>
      Answer(fmt, m, later, Get(k)) == KeyNotFound && Answer(fmt, m, later, TTL(k)) == Ttl(NoKey)
  }

  /** What an entry, or its absence, makes reads say. */
  lemma EntryReads(fmt: Numerals, m: Store, k: Key, now: int)
    ensures k !in m ==> Gone(fmt, m, k, now)
    ensures k in m && m[k].expiry.None? ==> Stays(fmt, m, k, m[k].value, now)
    ensures k in m && m[k].expiry.Some? ==> Fades(fmt, m, k, m[k].value, now, m[k].expiry.value - now)
  {
  }

  /** Set: the value until the ttl has passed, or for good if the ttl is not positive. */
  lemma SetThenRead(fmt: Numerals, m: Store, k: Key, v: string, ttl: int, now: int)
    ensures Answer(fmt, m, now, Set(k, v, ttl)) == Stored
    ensures 0 < ttl ==> Fades(fmt, After(fmt, m, now, Set(k, v, ttl)), k, v, now, ttl)
    ensures ttl <= 0 ==> Stays(fmt, After(fmt, m, now, Set(k, v, ttl)), k, v, now)
  {
    EntryReads(fmt, After(fmt, m, now, Set(k, v, ttl)), k, now);
    hide Fades, Stays, Gone, Live;
  }

  /** MSet: every value for good, whatever expiry its key had. */
  lemma MSetThenRead(fmt: Numerals, m: Store, values: map<Key, string>, k: Key, now: int)
    requires k in values
    ensures Answer(fmt, m, now, MSet(values)) == Stored
    ensures Stays(fmt, After(fmt, m, now, MSet(values)), k, values[k], now)
  {
    EntryReads(fmt, After(fmt, m, now, MSet(values)), k, now);
    hide Fades, Stays, Gone, Live;
  }

  /** Del: the keys are gone, and those that were there are counted once each. */
  lemma DelThenRead(fmt: Numerals, m: Store, keys: seq<Key>, k: Key, now: int)
    requires k in keys
    ensures Gone(fmt, After(fmt, m, now, Del(keys)), k, now)
  {
    EntryReads(fmt, After(fmt, m, now, Del(keys)), k, now);
    hide Fades, Stays, Gone, Live;
  }

  lemma DelCounts(fmt: Numerals, m: Store, keys: seq<Key>, now: int)
    ensures Answer(fmt, m, now, Del(keys)) ==
            Count(|set k | k in keys && Answer(fmt, m, now, Get(k)) != KeyNotFound|)
  {
    assert Answer(fmt, m, now, Del(keys)) == Count(|Live(m, now).Keys * KeySet(keys)|);
    hide Answer, Live;
    forall k ensures Answer(fmt, m, now, Get(k)) != KeyNotFound <==> k in Live(m, now) {
      GetFinds(fmt, m, k, now);
    }
    var found := set k | k in keys && Answer(fmt, m, now, Get(k)) != KeyNotFound;
    assert found == Live(m, now).Keys * KeySet(keys);
  }

  /** Expire: a key that is there keeps its value until the ttl has passed, at once gone if
      that is negative; a key that is not there stays away. */
  lemma ExpireThenRead(fmt: Numerals, m: Store, k: Key, ttl: int, now: int)
    ensures match Answer(fmt, m, now, Get(k))
            case Value(v) =>
              && Answer(fmt, m, now, Expire(k, ttl)) == Flag(true)
              && Fades(fmt, After(fmt, m, now, Expire(k, ttl)), k, v, now, ttl)
            case _ =>
              && Answer(fmt, m, now, Expire(k, ttl)) == Flag(false)
              && Gone(fmt, After(fmt, m, now, Expire(k, ttl)), k, now)
  {
    EntryReads(fmt, After(fmt, m, now, Expire(k, ttl)), k, now);
    hide Fades, Stays, Gone, Live;
  }

  /** The number Get finds: 0 where there is nothing. */
  ghost function Number(fmt: Numerals, m: Store, k: Key, now: int): int {
    match Answer(fmt, m, now, Get(k)) case Value(s) => fmt.scan(s) case _ => 0
  }

  /** Incr and Decr: one more or less than what is there, stored for good. */
  lemma CountThenRead(fmt: Numerals, m: Store, k: Key, now: int)
    ensures var n := Number(fmt, m, k, now);
            && Answer(fmt, m, now, Incr(k)) == Count(n + 1)
            && Stays(fmt, After(fmt, m, now, Incr(k)), k, fmt.show(n + 1), now)
            && Answer(fmt, m, now, Decr(k)) == Count(n - 1)
            && Stays(fmt, After(fmt, m, now, Decr(k)), k, fmt.show(n - 1), now)
  {
    var n := Number(fmt, m, k, now);
    assert n == NumberAt(fmt, Live(m, now), k);
    StoredStays(fmt, Live(m, now), k, fmt.show(n + 1), now);
    StoredStays(fmt, Live(m, now), k, fmt.show(n - 1), now);
    hide Stays, Number, Live;
  }

  lemma StoredStays(fmt: Numerals, m: Store, k: Key, v: string, now: int)
    ensures Stays(fmt, m[k := Entry(v, None)], k, v, now)
  {
  }

  /** If numbers are read back as they were written, Decr undoes Incr, at any later time. */
  lemma DecrUndoesIncr(fmt: Numerals, m: Store, k: Key, now: int, later: int)
    requires now <= later && forall n :: fmt.scan(fmt.show(n)) == n
    ensures Answer(fmt, After(fmt, m, now, Incr(k)), later, Decr(k)) == Count(Number(fmt, m, k, now))
  {
    CountThenRead(fmt, m, k, now);
    CountThenRead(fmt, After(fmt, m, now, Incr(k)), k, later);
    assert Answer(fmt, After(fmt, m, now, Incr(k)), later, Get(k)) == Value(fmt.show(Number(fmt, m, k, now) + 1));
  }

  // ---- Listing ----

  /** A scan without a limit lists the keys Get would find, once each, in ascending order. */
  lemma ScanLists(fmt: Numerals, m: Store, now: int)
    ensures var r := Answer(fmt, m, now, Scan(0, 0));
            && r.Page? && r.next == 0 && Ascending(r.keys)
            && forall k :: k in r.keys <==> Answer(fmt, m, now, Get(k)) != KeyNotFound
  {
    var listing := Listing(Live(m, now).Keys);
    ListingSorts(Live(m, now).Keys);
    assert listing[0..|listing|] == listing;
    assert Answer(fmt, m, now, Scan(0, 0)) == Page(listing, 0);
    hide Eager, Live;
    forall k ensures k in listing <==> Answer(fmt, m, now, Get(k)) != KeyNotFound {
      GetFinds(fmt, m, k, now);
      assert k in Elements(listing) <==> k in listing;
    }
  }

  /** A page: the keys of that list from the cursor on, as many as asked for and there, and
      where the next page starts, or 0 after the last one. */
  lemma ScanPages(fmt: Numerals, m: Store, now: int, cursor: nat, count: int)
    ensures var all, r := Answer(fmt, m, now, Scan(0, 0)), Answer(fmt, m, now, Scan(cursor, count));
            && all.Page? && r.Page?
            && var left := if |all.keys| <= cursor then 0 else |all.keys| - cursor;
               && |r.keys| == (if 0 < count < left then count else left)
               && (forall i :: 0 <= i < |r.keys| ==> r.keys[i] == all.keys[cursor + i])
               && r.next == if |r.keys| < left then cursor + |r.keys| else 0
  {
    var listing := Listing(Live(m, now).Keys);
    assert listing[0..|listing|] == listing;
  }

  // ---- Injected errors ----

  /** An injected error is the answer, and changes nothing: the operation's own queue goes
      first and is used up in order; the queue for all operations goes second and stays. */
  lemma ErrorsGoFirst(fmt: Numerals, m: Store, errors: Errors, now: int, op: Op)
    ensures var own := if Name(op) in errors then errors[Name(op)] else [];
            var all := if "" in errors then errors[""] else [];
            var (m', r) := Eager(fmt, m, errors, now, op);
            && (own != [] ==> (m', r) == (m, Failure(own[0])))
            && (own == [] && all != [] ==> (m', r) == (m, Failure(all[0])))
            && (own == [] && all == [] ==> (m', r) == (After(fmt, m, now, op), Answer(fmt, m, now, op)) && !r.Failure?)
  {
  }

  lemma ErrorsAreUsedUp(errors: Errors, op: string)
    ensures var later := AfterError(errors, op);
            && later.Keys == errors.Keys
            && forall o :: o in errors ==>
                 later[o] == if o == op && errors[o] != [] then errors[o][1..] else errors[o]
  {
  }

  // ---- Runs ----

  /** A run begins with nothing done, and each operation starts where the last one ended. */
  lemma RunSnoc(fmt: Numerals, m: Store, errors: Errors, trace: seq<Timed>, t: Timed)
    ensures EagerRun(fmt, m, errors, []) == (m, errors, [])
    ensures var (m1, e1, r1) := EagerRun(fmt, m, errors, trace);
            var (m2, r) := Eager(fmt, m1, e1, t.at, t.op);
            EagerRun(fmt, m, errors, trace + [t]) == (m2, AfterError(e1, Name(t.op)), r1 + [r])
  {
    hide Eager, AfterError;
    assert (trace + [t])[..|trace + [t]| - 1] == trace;
  }

  /** Runs follow one another. */
  lemma {:induction false} RunsFollow(fmt: Numerals, m: Store, errors: Errors, a: seq<Timed>, b: seq<Timed>)
    ensures var (m1, e1, r1) := EagerRun(fmt, m, errors, a);
            var (m2, e2, r2) := EagerRun(fmt, m1, e1, b);
            EagerRun(fmt, m, errors, a + b) == (m2, e2, r1 + r2)
    decreases |b|
  {
    var (m1, e1, r1) := EagerRun(fmt, m, errors, a);
    if b == [] {
      assert a + b == a && r1 + [] == r1;
    } else {
      hide Eager, AfterError, EagerRun;
      var front, last := b[..|b| - 1], b[|b| - 1];
      assert b == front + [last] && a + b == (a + front) + [last];
      RunsFollow(fmt, m, errors, a, front);
      RunSnoc(fmt, m, errors, a + front, last);
      RunSnoc(fmt, m1, e1, front, last);
      var (m2, e2, r2) := EagerRun(fmt, m1, e1, front);
      var r := Eager(fmt, m2, e2, last.at, last.op).1;
      assert r1 + (r2 + [r]) == (r1 + r2) + [r];
    }
  }
}

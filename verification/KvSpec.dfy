/**
 The key/value part of the in-memory backend as it should be: a store that drops
 expired keys before every operation, with plain map operations on what is left.
 */
module KvSpec {
  import opened Strings
  import opened Wrappers

  type Key = string
  type Error = int

  datatype Entry = Entry(value: string, expiry: Option<int>) {
    predicate Expired(now: int) {
      expiry.Some? && expiry.value < now
    }
  }

  type Store = map<Key, Entry>

  /** The eager purge: what is left of a store at a given time. */
  function Live(kv: Store, now: int): Store {
    map k | k in kv && !kv[k].Expired(now) :: kv[k]
  }

  /** How numbers are written and read back; the source leaves this to fmt. */
  datatype Numerals = Numerals(show: int -> string, scan: string -> int)

  datatype Op =
    | Get(key: Key)
    | Set(key: Key, value: string, ttl: int)
    | MGet(keys: seq<Key>)
    | MSet(values: map<Key, string>)
    | Del(keys: seq<Key>)
    | Exists(keys: seq<Key>)
    | Expire(key: Key, ttl: int)
    | TTL(key: Key)
    | Incr(key: Key)
    | Decr(key: Key)
    | Scan(cursor: nat, count: int)

  datatype TtlReply = NoKey | NoExpiry | Left(ns: int)

  datatype Reply =
    | Failure(error: Error)
    | KeyNotFound
    | Value(value: string)
    | Values(values: seq<Option<string>>)
    | Stored
    | Count(n: int)
    | Flag(applied: bool)
    | Ttl(ttl: TtlReply)
    | Page(keys: seq<Key>, next: nat)

  function KeySet(keys: seq<Key>): set<Key> {
    set k | k in keys
  }

  function Lookup(m: Store, k: Key): Option<string> {
    if k in m then Some(m[k].value) else None
  }

  /** How many positions of the list name a key of the store. */
  function Present(m: Store, keys: seq<Key>): nat {
    if keys == [] then 0
    else Present(m, keys[..|keys| - 1]) + if keys[|keys| - 1] in m then 1 else 0
  }

  function Drop(m: Store, keys: set<Key>): Store {
    m - keys
  }

  /** One page of a sorted listing. */
  function PageOf(listing: seq<Key>, cursor: nat, count: int): (seq<Key>, nat) {
    if |listing| <= cursor then ([], 0)
    else
      var end := if count <= 0 || |listing| < cursor + count then |listing| else cursor + count;
      (listing[cursor..end], if end < |listing| then end else 0)
  }

  function Entries(values: map<Key, string>): Store {
    map k | k in values :: Entry(values[k], None)
  }

  /** The number a key holds. */
  function NumberAt(fmt: Numerals, m: Store, k: Key): int {
    if k in m then fmt.scan(m[k].value) else 0
  }

  /** An operation on a store without expired keys. */
  ghost function Plain(fmt: Numerals, m: Store, now: int, op: Op): (Store, Reply) {
    match op
    case Get(k) => (m, if k in m then Value(m[k].value) else KeyNotFound)
    case Set(k, v, ttl) => (m[k := Entry(v, if 0 < ttl then Some(now + ttl) else None)], Stored)
    case MGet(keys) => (m, Values(seq(|keys|, i requires 0 <= i < |keys| => Lookup(m, keys[i]))))
    case MSet(values) => (m + Entries(values), Stored)
    case Del(keys) => (Drop(m, KeySet(keys)), Count(|m.Keys * KeySet(keys)|))
    case Exists(keys) => (m, Count(Present(m, keys)))
    case Expire(k, ttl) =>
      if k in m then (m[k := Entry(m[k].value, Some(now + ttl))], Flag(true)) else (m, Flag(false))
    case TTL(k) =>
      (m, Ttl(if k !in m then NoKey else if m[k].expiry.None? then NoExpiry else Left(m[k].expiry.value - now)))
    case Incr(k) =>
      var n := NumberAt(fmt, m, k) + 1;
      (m[k := Entry(fmt.show(n), None)], Count(n))
    case Decr(k) =>
      var n := NumberAt(fmt, m, k) - 1;
      (m[k := Entry(fmt.show(n), None)], Count(n))
    case Scan(cursor, count) =>
      var (keys, next) := PageOf(Listing(m.Keys), cursor, count);
      (m, Page(keys, next))
  }

  // ---- Injected errors ----

  type Errors = map<string, seq<Error>>

  /** The error the next call of an operation meets: its own queue first, then the
      first of those that fail everything. */
  function NextError(errors: Errors, op: string): Option<Error> {
    if op in errors && errors[op] != [] then Some(errors[op][0])
    else if "" in errors && errors[""] != [] then Some(errors[""][0])
    else None
  }

  /** Only an operation's own queue is used up. */
  function AfterError(errors: Errors, op: string): Errors {
    if op in errors && errors[op] != [] then errors[op := errors[op][1..]] else errors
  }

  function Name(op: Op): string {
    match op
    case Get(_) => "Get"
    case Set(_, _, _) => "Set"
    case MGet(_) => "MGet"
    case MSet(_) => "MSet"
    case Del(_) => "Del"
    case Exists(_) => "Exists"
    case Expire(_, _) => "Expire"
    case TTL(_) => "TTL"
    case Incr(_) => "Incr"
    case Decr(_) => "Decr"
    case Scan(_, _) => "Scan"
  }

  function AfterErrors(errors: Errors, op: string, calls: nat): Errors {
    if calls == 0 then errors else AfterError(AfterErrors(errors, op, calls - 1), op)
  }

  /** A queue of J injected errors fails exactly the first J calls of that operation, in order. */
  lemma {:induction false} QueueFailsTheFirstCalls(errors: Errors, op: string, calls: nat)
    requires op != "" && op in errors && ("" in errors ==> errors[""] == [])
    ensures var later := AfterErrors(errors, op, calls);
            && op in later
            && later[op] == (if calls < |errors[op]| then errors[op][calls..] else [])
            && ("" in later <==> "" in errors) && ("" in errors ==> later[""] == [])
            && NextError(later, op) == if calls < |errors[op]| then Some(errors[op][calls]) else None
  {
    if calls > 0 {
      QueueFailsTheFirstCalls(errors, op, calls - 1);
    }
  }

  // ---- Live parts ----

  lemma LiveLater(kv: Store, now: int, later: int)
    requires now <= later
    ensures Live(Live(kv, now), later) == Live(kv, later)
  {
  }

  lemma KeySetSnoc(keys: seq<Key>, i: int)
    requires 0 <= i < |keys|
    ensures KeySet(keys[..i + 1]) == KeySet(keys[..i]) + {keys[i]}
  {
    assert keys[..i + 1] == keys[..i] + [keys[i]];
  }

  /** Overwriting keys gives the same live store whether or not expired ones went first. */
  lemma LiveOfPut(kv: Store, added: Store, now: int)
    ensures Live(kv + added, now) == Live(Live(kv, now) + added, now)
  {
  }

  lemma LiveWithout(kv: Store, k: Key, now: int)
    ensures Live(kv - {k}, now) == Live(kv, now) - {k}
  {
  }

  lemma LiveOfDrop(kv: Store, ks: set<Key>, now: int)
    ensures Live(Drop(Live(kv, now), ks), now) == Drop(Live(kv, now), ks)
  {
  }

  /** Storing a value is the same for stores with the same live part. */
  lemma LiveOfStore(a: Store, b: Store, k: Key, e: Entry, now: int)
    requires Live(a, now) == Live(b, now)
    ensures Live(a[k := e], now) == Live(Live(b, now)[k := e], now)
  {
    assert Live(a[k := e], now) == Live(Live(a, now)[k := e], now);
  }

  /** Dropping one more key, and how many have gone. */
  lemma DropOne(live: Store, gone: set<Key>, k: Key)
    ensures Drop(live, gone + {k}) == Drop(live, gone) - {k}
    ensures k !in Drop(live, gone) ==> Drop(live, gone + {k}) == Drop(live, gone)
    ensures |live.Keys * (gone + {k})| == |live.Keys * gone| + if k in Drop(live, gone) then 1 else 0
  {
    CountOne(live.Keys, gone, k);
    DropInTurn(live, gone, {k});
    assert k in Drop(live, gone) <==> k in live.Keys && k !in gone;
    hide Drop;
    if k !in Drop(live, gone) {
      DropAbsent(Drop(live, gone), k);
    }
  }

  lemma DropInTurn(live: Store, a: set<Key>, b: set<Key>)
    ensures Drop(live, a + b) == Drop(live, a) - b
  {
  }

  lemma DropAbsent(m: Store, k: Key)
    requires k !in m
    ensures m - {k} == m
  {
  }

  lemma CountOne(keys: set<Key>, gone: set<Key>, k: Key)
    ensures |keys * (gone + {k})| == |keys * gone| + if k in keys && k !in gone then 1 else 0
  {
    if k in keys && k !in gone {
      assert keys * (gone + {k}) == keys * gone + {k};
    } else {
      assert keys * (gone + {k}) == keys * gone;
    }
  }

  lemma SameLiveLater(a: Store, b: Store, now: int, later: int)
    requires Live(a, now) == Live(b, now) && now <= later
    ensures Live(a, later) == Live(b, later)
  {
    LiveLater(a, now, later);
    LiveLater(b, now, later);
  }

  /** What one operation of the eager store does at a given time. */
  ghost function Eager(fmt: Numerals, m: Store, errors: Errors, now: int, op: Op): (Store, Reply) {
    match NextError(errors, Name(op))
    case Some(e) => (m, Failure(e))
    case None => Plain(fmt, Live(m, now), now, op)
  }

  lemma EagerDel(fmt: Numerals, kv0: Store, kv1: Store, errors: Errors, now: int, keys: seq<Key>)
    requires NextError(errors, "Del") == None
    requires Live(kv1, now) == Drop(Live(kv0, now), KeySet(keys))
    ensures Eager(fmt, kv0, errors, now, Del(keys)).1 == Count(|Live(kv0, now).Keys * KeySet(keys)|)
    ensures Live(kv1, now) == Live(Eager(fmt, kv0, errors, now, Del(keys)).0, now)
  {
    LiveOfDrop(kv0, KeySet(keys), now);
  }

  lemma EagerMSet(fmt: Numerals, kv0: Store, errors: Errors, now: int, values: map<Key, string>)
    requires NextError(errors, "MSet") == None
    ensures Eager(fmt, kv0, errors, now, MSet(values)).1 == Stored
    ensures Live(kv0 + Entries(values), now) == Live(Eager(fmt, kv0, errors, now, MSet(values)).0, now)
  {
    LiveOfPut(kv0, Entries(values), now);
  }

  /** Storing a new number, as Incr and Decr do. */
  lemma EagerNumber(fmt: Numerals, kv0: Store, kv1: Store, errors: Errors, now: int, op: Op)
    requires op.Incr? || op.Decr?
    requires NextError(errors, Name(op)) == None && Live(kv1, now) == Live(kv0, now)
    ensures var n := NumberAt(fmt, Live(kv0, now), op.key) + if op.Incr? then 1 else -1;
            && Eager(fmt, kv0, errors, now, op).1 == Count(n)
            && Live(kv1[op.key := Entry(fmt.show(n), None)], now) == Live(Eager(fmt, kv0, errors, now, op).0, now)
  {
    var n := NumberAt(fmt, Live(kv0, now), op.key) + if op.Incr? then 1 else -1;
    LiveOfStore(kv1, kv0, op.key, Entry(fmt.show(n), None), now);
  }

  lemma EagerScan(fmt: Numerals, kv: Store, errors: Errors, now: int, cursor: nat, count: int)
    requires NextError(errors, "Scan") == None
    ensures var (keys, next) := PageOf(Listing(Live(kv, now).Keys), cursor, count);
            Eager(fmt, kv, errors, now, Scan(cursor, count)).1 == Page(keys, next)
    ensures Live(Eager(fmt, kv, errors, now, Scan(cursor, count)).0, now) == Live(kv, now)
  {
    LiveLater(kv, now, now);
  }

  datatype Timed = Timed(at: int, op: Op)

  predicate Monotone(trace: seq<Timed>, since: int) {
    && (forall i :: 0 <= i < |trace| ==> since <= trace[i].at)
    && forall i, j :: 0 <= i < j < |trace| ==> trace[i].at <= trace[j].at
  }

  /** The eager store after a trace, its remaining errors, and its replies. */
  ghost function EagerRun(fmt: Numerals, m: Store, errors: Errors, trace: seq<Timed>): (Store, Errors, seq<Reply>) {
    if trace == [] then (m, errors, [])
    else
      var (m1, errors1, replies) := EagerRun(fmt, m, errors, trace[..|trace| - 1]);
      var t := trace[|trace| - 1];
      var (m2, reply) := Eager(fmt, m1, errors1, t.at, t.op);
      (m2, AfterError(errors1, Name(t.op)), replies + [reply])
  }

  /** The eager store sees no difference between stores with the same live part. */
  lemma EagerSeesLivePart(fmt: Numerals, a: Store, b: Store, errors: Errors, now: int, op: Op)
    requires Live(a, now) == Live(b, now)
    ensures Eager(fmt, a, errors, now, op).1 == Eager(fmt, b, errors, now, op).1
    ensures Live(Eager(fmt, a, errors, now, op).0, now) == Live(Eager(fmt, b, errors, now, op).0, now)
  {
  }
}
